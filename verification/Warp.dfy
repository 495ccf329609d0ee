/** The warp object: the divergence machine as it updates its fields in place. */
module Warps {
  import opened Isa
  import opened Alu
  import opened Memory
  import opened RegisterFiles
  import Spec = WarpSpec
  import opened WarpSpec

  lemma ResolveOnce(s: WarpState)
    ensures MustPop(s) ==> Resolve(s) == Resolve(PopTop(s)) && Weight(PopTop(s).stack) < Weight(s.stack)
    ensures !MustPop(s) ==> Resolve(s) == s
  {
    if MustPop(s) { PopIsLighter(s); }
  }

  lemma SettleOnce(s: WarpState, n: nat)
    ensures var r := Resolve(s);
            if r.active == {} || r.pc < n then Settle(s, n) == r
            else
              var t := Spec.Retire(r, r.active);
              && Settle(s, n) == Settle(t, n)
              && Weight(t.stack) <= Weight(s.stack)
              && (s.active == {} ==> Weight(t.stack) < Weight(s.stack)) && t.active == {}
  {
    ResolveIsLighter(s);
    RetireKeepsWeight(Resolve(s).stack, Resolve(s).active);
  }

  lemma NothingObserved(i: Instruction, exec: Mask, lanes: RegisterBank, stats: MemoryStats)
    requires Isa.Valid(i) && exec == {}
    ensures Observe(i, exec, lanes, stats) == stats
  {
  }

  lemma AddressOfLane(i: Instruction, exec: Mask, lanes: RegisterBank, lane: nat)
    requires Isa.Valid(i) && lane in exec
    ensures AddressVector(i, exec, lanes)[lane] == AddressOf(i, lanes[lane])
  {
  }

  ghost function ImageOf(memory: BlockMemory): MemoryImage
    reads memory.Footprint()
  {
    MemoryImage(memory.Image(), memory.analyzer.stats)
  }

  /** The value that `step` returns. */
  ghost function ResultOf(step: StepResult): Result<Outcome, Fault> {
    match step
    case Faulted(f, _, _) => Err(f)
    case Stepped(outcome, _, _) => Ok(outcome)
  }

  class Warp {
    var pc: u16
    var active: Mask
    var live: Mask
    var stack: seq<Entry>
    var parked: bool
    var lastExec: Mask
    var divergent: nat
    var reconverged: nat
    var lastOp: Opcode
    const registers: RegisterFile
    const context: LaunchContext

    ghost predicate Valid() {
      && registers.Valid()
    }

    ghost function Footprint(): set<object> {
      {this, registers.general, registers.predicates}
    }

    ghost function State(): WarpState
      requires Valid()
      reads this, registers.general, registers.predicates
    {
      WarpState(pc, active, live, stack, registers.Lanes(), parked, divergent, reconverged, lastExec, lastOp)
    }

    constructor (live: Mask, context: LaunchContext)
      ensures Valid() && fresh(Footprint()) && this.context == context
      ensures State() == InitialWarp(live)
    {
      pc, active, this.live, stack := 0, live, live, [];
      parked, lastExec, divergent, reconverged, lastOp := false, {}, 0, 0, Exit;
      this.context := context;
      registers := new RegisterFile();
    }

    method SwitchTo(entry: Entry, arrived: Mask)
      requires Valid()
      modifies this
      ensures State() == Spec.SwitchTo(old(State()), entry, arrived)
    {
      if entry.IsJoin() {
        active := arrived + entry.mask;
        pc := entry.reconvergence;
        return;
      }
      if arrived != {} {
        stack := stack + [Entry(entry.reconvergence, entry.reconvergence, arrived)];
      }
      active := entry.mask;
      pc := entry.resume;
    }

    /** Rules 3 and 4, repeated; false when no lane is left. */
    method ResolveStack() returns (ready: bool)
      requires Valid()
      modifies this
      ensures State() == Resolve(old(State())) && (ready <==> active != {})
    {
      hide Resolve, Weight;
      while true
        invariant Resolve(State()) == Resolve(old(State()))
        decreases Weight(stack)
      {
        ghost var before := State();
        ResolveOnce(before);
        if active == {} {
          if stack == [] {
            return false;
          }
          var entry := stack[|stack| - 1];
          stack := stack[..|stack| - 1];
          SwitchTo(entry, {});
          assert State() == PopTop(before);
          continue;
        }
        if stack != [] && stack[|stack| - 1].reconvergence == pc {
          var entry := stack[|stack| - 1];
          stack := stack[..|stack| - 1];
          reconverged := reconverged + 1;
          SwitchTo(entry, active);
          assert State() == PopTop(before);
          continue;
        }
        return true;
      }
    }

    method Retire(lanes: Mask)
      requires Valid()
      modifies this
      ensures State() == Spec.Retire(old(State()), lanes)
    {
      live := live - lanes;
      active := active - lanes;
      ghost var before := stack;
      for j := 0 to |stack|
        invariant |stack| == |before| && live == old(live) - lanes && active == old(active) - lanes
        invariant forall k | 0 <= k < |before| ::
                    stack[k] == if k < j then before[k].(mask := before[k].mask - lanes) else before[k]
        invariant State() == old(State()).(live := live, active := active, stack := stack)
      {
        stack := stack[j := stack[j].(mask := stack[j].mask - lanes)];
      }
      assert stack == RetireStack(before, lanes);
    }

    /** The lanes of the active mask on which the guard holds. */
    method GuardMask(i: Instruction) returns (exec: Mask)
      requires Valid() && Isa.Valid(i)
      ensures exec == Spec.Exec(i, State()) && exec <= active
    {
      ValidIndices(i);
      exec := active;
      if i.guard.present {
        var guardMask: Mask := {};
        for lane := 0 to WARP_SIZE
          invariant guardMask == set l | l in Spec.Exec(i, State()) && l < lane
        {
          if lane in active {
            var p := registers.ReadPred(lane, i.guard.pred);
            if p != i.guard.negate {
              guardMask := guardMask + {lane};
            }
          }
        }
        exec := guardMask;
        assert exec == Spec.Exec(i, State());
      } else {
        assert exec == Spec.Exec(i, State());
      }
    }
  
    /** The address of every executing lane; lanes that do not execute hold zero. */
    method LaneAddresses(i: Instruction, exec: Mask) returns (addresses: seq<u32>)
      requires Valid() && Isa.Valid(i)
      ensures addresses == AddressVector(i, exec, registers.Lanes())
    {
      var a := new u32[WARP_SIZE](_ => 0);
      ghost var lanes0 := registers.Lanes();
      for lane := 0 to WARP_SIZE
        invariant registers.Lanes() == lanes0
        invariant forall l: nat | l < WARP_SIZE ::
                    a[l] == if l < lane && l in exec then AddressOf(i, lanes0[l]) else 0
      {
        if lane in exec {
          a[lane] := LaneAddress(i, lane);
        }
      }
      assert a[..] == AddressVector(i, exec, lanes0);
      return a[..];
    }

    method LaneAddress(i: Instruction, lane: nat) returns (address: u32)
      requires Valid() && Isa.Valid(i) && lane < WARP_SIZE
      ensures address == AddressOf(i, registers.Lanes()[lane])
    {
      ValidIndices(i);
      if SpaceOf(i.op) == Param {
        return i.imm;
      }
      var base := registers.Read(lane, i.src0);
      return Wrap(base + i.imm);
    }

    /** The load or store of one lane. */
    method AccessOne(i: Instruction, lane: nat, address: u32, memory: BlockMemory) returns (error: Option<AccessError>)
      requires Valid() && memory.Valid() && Isa.Valid(i) && lane < WARP_SIZE
      requires Footprint() !! memory.Footprint()
      requires address == AddressOf(i, registers.Lanes()[lane])
      modifies registers.general, memory.global.bytes, memory.shared.bytes
      ensures match AccessLane(i, old(registers.Lanes()[lane]), old(memory.Image()))
              case Denied(e, a) =>
                (error == Some(e) && a == address && memory.Image() == old(memory.Image())
                 && registers.Lanes() == old(registers.Lanes()))
              case Accessed(r, after) =>
                (error == None && memory.Image() == after
                 && registers.Lanes() == old(registers.Lanes())[lane := r])
    {
      ValidIndices(i);
      hide Load32, Store32;
      if IsStore(i.op) {
        var value := registers.Read(lane, i.src1);
        error := memory.Write(SpaceOf(i.op), address, value);
        assert registers.Lanes() == old(registers.Lanes());
      } else {
        var r := memory.Load(SpaceOf(i.op), address);
        if r.Err? {
          return Some(r.error);
        }
        registers.Write(lane, i.dst, r.value);
        return None;
      }
    }

    method MemoryAccess(i: Instruction, exec: Mask, memory: BlockMemory) returns (fault: Option<Fault>)
      requires Valid() && memory.Valid() && Isa.Valid(i) && IsMemory(i.op)
      requires Footprint() !! memory.Footprint()
      modifies registers.general, memory.Footprint()
      ensures Performed(SweepFrom(i, 0, exec, old(registers.Lanes()), old(memory.Image())), memory, fault)
      ensures memory.analyzer.stats == Observe(i, exec, old(registers.Lanes()), old(memory.analyzer.stats))
    {
      hide AccessLane, CountAccess, AddressVector, SweepFrom;
      var addresses := LaneAddresses(i, exec);
      if exec != {} {
        memory.OnWarpAccess(SpaceOf(i.op), IsStore(i.op), addresses, exec);
      } else {
        NothingObserved(i, exec, registers.Lanes(), memory.analyzer.stats);
      }
      fault := SweepLanes(i, exec, addresses, memory);
    }

    /** The registers, the memory and the reported fault are those of `sweep`. */
    ghost predicate Performed(sweep: Sweep, memory: BlockMemory, fault: Option<Fault>)
      requires Valid()
      reads Footprint(), memory.Footprint()
    {
      && registers.Lanes() == sweep.lanes && memory.Image() == sweep.store
      && fault == if sweep.SweepFault?
                  then Some(MakeFault(Access(sweep.error), pc, context, sweep.lane, sweep.address)) else None
    }

    /** Lane order is part of the specification. */
    method SweepLanes(i: Instruction, exec: Mask, addresses: seq<u32>, memory: BlockMemory) returns (fault: Option<Fault>)
      requires Valid() && memory.Valid() && Isa.Valid(i) && IsMemory(i.op)
      requires Footprint() !! memory.Footprint()
      requires addresses == AddressVector(i, exec, registers.Lanes())
      modifies registers.general, memory.global.bytes, memory.shared.bytes
      ensures Performed(SweepFrom(i, 0, exec, old(registers.Lanes()), old(memory.Image())), memory, fault)
    {
      hide AccessLane, AddressVector;
      ghost var lanes0 := registers.Lanes();
      ghost var swept := SweepFrom(i, 0, exec, lanes0, memory.Image());
      for lane := 0 to WARP_SIZE
        invariant forall l: nat | lane <= l < WARP_SIZE :: registers.Lanes()[l] == lanes0[l]
        invariant SweepFrom(i, lane, exec, registers.Lanes(), memory.Image()) == swept
      {
        if lane !in exec {
          continue;
        }
        AddressOfLane(i, exec, lanes0, lane);
        var error := AccessOne(i, lane, addresses[lane], memory);
        if error.Some? {
          return Some(MakeFault(Access(error.value), pc, context, lane, addresses[lane]));
        }
      }
      return None;
    }

    /** The warp and the memory are those that `step` describes. */
    ghost predicate Shows(memory: BlockMemory, step: StepResult)
      requires Valid()
      reads Footprint(), memory.Footprint()
    {
      State() == step.warp && memory.Image() == step.memory.store && memory.analyzer.stats == step.memory.stats
    }

    /** Executes one scheduling step: resolves the divergence stack, then issues at most one instruction. */
    method Step(program: seq<Instruction>, memory: BlockMemory) returns (r: Result<Outcome, Fault>)
      requires Valid() && memory.Valid() && ValidProgram(program)
      requires Footprint() !! memory.Footprint()
      modifies Footprint(), memory.Footprint()
      ensures var step := Spec.Step(program, context, old(State()), old(ImageOf(memory)));
              r == ResultOf(step) && Shows(memory, step)
    {
      var ready := SettlePath(|program|);
      SettleReady(old(State()), |program|);
      if !ready {
        return Ok(Finished);
      }
      r := IssueAtPc(program, memory);
    }

    /** The loop of `step`: retires paths that fell off the end until a path with instructions remains. */
    method SettlePath(n: nat) returns (ready: bool)
      requires Valid()
      modifies this
      ensures State() == Settle(old(State()), n) && (ready <==> active != {})
    {
      hide Resolve, Weight, Settle;
      while true
        invariant Settle(State(), n) == Settle(old(State()), n)
        decreases Weight(stack), if active == {} then 0 else 1
      {
        SettleOnce(State(), n);
        var resolved := ResolveStack();
        if !resolved {
          return false;
        }
        if pc < n {
          return true;
        }
        Retire(active);
      }
    }

    method IssueAtPc(program: seq<Instruction>, memory: BlockMemory) returns (r: Result<Outcome, Fault>)
      requires Valid() && memory.Valid() && ValidProgram(program) && pc < |program|
      requires Footprint() !! memory.Footprint()
      modifies Footprint(), memory.Footprint()
      ensures var step := Issue(program, context, old(State()), old(ImageOf(memory)));
              r == ResultOf(step) && Shows(memory, step)
    {
      hide AluBank, MemoryIssue, ControlIssue, Exec;
      var i := program[pc];
      var exec := GuardMask(i);
      lastExec := exec;
      lastOp := i.op;
      if IsControl(i.op) {
        r := IssueControl(i, exec, ImageOf(memory));
        assert memory.Image() == old(memory.Image());
      } else if IsMemory(i.op) {
        r := IssueMemory(i, exec, memory);
      } else {
        IssueAlu(i, exec);
        r := Ok(Issued);
      }
    }

    method IssueControl(i: Instruction, exec: Mask, ghost m: MemoryImage) returns (r: Result<Outcome, Fault>)
      requires Valid() && exec <= active && IsControl(i.op)
      modifies this
      ensures var step := ControlIssue(i, exec, old(State()), m, context);
              r == ResultOf(step) && State() == step.warp && step.memory == m
    {
      hide Branch, RetireStack;
      if i.op == Bra {
        BranchTo(i, exec);
        return Ok(Issued);
      }
      if i.op == Exit {
        Retire(exec);
        pc := NextPc(pc);
        return Ok(Issued);
      }
      if active != live {
        return Err(MakeFault(DivergentBarrier, pc, context, 0, 0));
      }
      parked := true;
      pc := NextPc(pc);
      return Ok(Barrier);
    }

    method IssueAlu(i: Instruction, exec: Mask)
      requires Valid() && Isa.Valid(i)
      modifies Footprint()
      ensures State() == old(State()).(lanes := AluBank(i, exec, old(State()).lanes, context), pc := NextPc(old(pc)))
    {
      hide AluLane;
      ExecuteAlu(i, exec, registers, context);
      assert registers.Lanes() == AluBank(i, exec, old(registers.Lanes()), context);
      pc := NextPc(pc);
    }

    method IssueMemory(i: Instruction, exec: Mask, memory: BlockMemory) returns (r: Result<Outcome, Fault>)
      requires Valid() && memory.Valid() && Isa.Valid(i) && IsMemory(i.op)
      requires Footprint() !! memory.Footprint()
      modifies Footprint(), memory.Footprint()
      ensures var step := MemoryIssue(i, exec, old(State()), old(ImageOf(memory)), context);
              r == ResultOf(step) && Shows(memory, step)
    {
      hide SweepFrom, Observe;
      var fault := MemoryAccess(i, exec, memory);
      if fault.Some? {
        return Err(fault.value);
      }
      pc := NextPc(pc);
      return Ok(Issued);
    }

    method BranchTo(i: Instruction, taken: Mask)
      requires Valid() && taken <= active
      modifies this
      ensures State() == Branch(i, taken, old(State()))
    {
      if !i.guard.present {
        pc := i.Target();
        return;
      }
      var fallThrough := active - taken;
      if taken == {} {
        pc := NextPc(pc);
      } else if fallThrough == {} {
        pc := i.Target();
      } else {
        divergent := divergent + 1;
        stack := stack + [Entry(i.Reconvergence(), NextPc(pc), fallThrough)];
        active := taken;
        pc := i.Target();
      }
    }
  }
}
