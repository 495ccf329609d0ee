/** Per-warp register storage: 64 general and 8 predicate registers for each of the 32 lanes. */
module RegisterFiles {
  import opened Isa
  import opened Alu

  class RegisterFile {
    const general: array2<u32>
    const predicates: array2<bool>

    ghost predicate Valid() {
      && general.Length0 == WARP_SIZE && general.Length1 == GENERAL_REGISTERS
      && predicates.Length0 == WARP_SIZE && predicates.Length1 == PREDICATE_REGISTERS
    }

    ghost function LaneOf(l: nat): Lane
      requires Valid() && l < WARP_SIZE
      reads general, predicates
    {
      LaneRegisters(seq(GENERAL_REGISTERS, r requires 0 <= r < GENERAL_REGISTERS reads general => general[l, r]),
                    seq(PREDICATE_REGISTERS, p requires 0 <= p < PREDICATE_REGISTERS reads predicates => predicates[l, p]))
    }

    ghost function Lanes(): (b: RegisterBank)
      requires Valid()
      reads general, predicates
      ensures forall l: nat | l < WARP_SIZE :: b[l] == LaneOf(l)
    {
      seq(WARP_SIZE, l requires 0 <= l < WARP_SIZE reads general, predicates => LaneOf(l))
    }

    constructor ()
      ensures Valid() && fresh(general) && fresh(predicates)
      ensures Lanes() == seq(WARP_SIZE, _ => ZeroLane())
    {
      general := new u32[WARP_SIZE, GENERAL_REGISTERS]((_, _) => 0);
      predicates := new bool[WARP_SIZE, PREDICATE_REGISTERS]((_, _) => false);
      new;
      forall l: nat | l < WARP_SIZE ensures LaneOf(l) == ZeroLane() {
        assert LaneOf(l).general == ZeroLane().general;
        assert LaneOf(l).preds == ZeroLane().preds;
      }
    }

    method Read(lane: nat, reg: u8) returns (value: u32)
      requires Valid() && lane < WARP_SIZE && reg < GENERAL_REGISTERS
      ensures value == Lanes()[lane].general[reg]
    {
      value := general[lane, reg];
    }

    method Write(lane: nat, reg: u8, value: u32)
      requires Valid() && lane < WARP_SIZE && reg < GENERAL_REGISTERS
      modifies general
      ensures Lanes() == old(Lanes())[lane := WriteReg(old(Lanes()[lane]), reg, value)]
    {
      general[lane, reg] := value;
      assert LaneOf(lane).general == old(LaneOf(lane)).general[reg := value];
      assert LaneOf(lane).preds == old(LaneOf(lane)).preds;
      forall l: nat | l < WARP_SIZE && l != lane ensures LaneOf(l) == old(LaneOf(l)) {
        assert LaneOf(l).general == old(LaneOf(l)).general;
      }
    }

    method ReadPred(lane: nat, pred: u8) returns (value: bool)
      requires Valid() && lane < WARP_SIZE && pred < PREDICATE_REGISTERS
      ensures value == Lanes()[lane].preds[pred]
    {
      value := predicates[lane, pred];
    }

    method WritePredicate(lane: nat, pred: u8, value: bool)
      requires Valid() && lane < WARP_SIZE && pred < PREDICATE_REGISTERS
      modifies predicates
      ensures Lanes() == old(Lanes())[lane := WritePred(old(Lanes()[lane]), pred, value)]
    {
      predicates[lane, pred] := value;
      assert LaneOf(lane).preds == old(LaneOf(lane)).preds[pred := value];
      assert LaneOf(lane).general == old(LaneOf(lane)).general;
      forall l: nat | l < WARP_SIZE && l != lane ensures LaneOf(l) == old(LaneOf(l)) {
        assert LaneOf(l).preds == old(LaneOf(l)).preds;
      }
    }
  }

  /** `execute_alu`: an arithmetic instruction on every executing lane, in lane order. */
  method ExecuteAlu(i: Instruction, exec: Mask, rf: RegisterFile, ctx: LaunchContext)
    requires rf.Valid() && Isa.Valid(i)
    modifies rf.general, rf.predicates
    ensures forall l: nat | l < WARP_SIZE ::
              rf.Lanes()[l] == if l in exec then AluLane(i, old(rf.Lanes())[l], l, ctx) else old(rf.Lanes())[l]
  {
    ValidIndices(i);
    ghost var before := rf.Lanes();
    for lane := 0 to WARP_SIZE
      invariant forall l: nat | l < WARP_SIZE ::
                  rf.Lanes()[l] == if l in exec && l < lane then AluLane(i, before[l], l, ctx) else before[l]
    {
      if lane !in exec {
        continue;
      }
      var a, b := FetchOperands(i, rf, lane);
      if IsSetp(i.op) {
        rf.WritePredicate(lane, i.dst, Compare(i.op, a, b, ctx.floats));
      } else {
        var old_dst := rf.Read(lane, i.dst);
        rf.Write(lane, i.dst, Evaluate(i, a, b, old_dst, lane, ctx));
      }
    }
  }

  /** `fetch`: the two source operands of one lane. */
  method FetchOperands(i: Instruction, rf: RegisterFile, lane: nat) returns (a: u32, b: u32)
    requires rf.Valid() && Isa.Valid(i) && lane < WARP_SIZE
    ensures a == OperandA(i, rf.Lanes()[lane]) && b == OperandB(i, rf.Lanes()[lane])
  {
    ValidIndices(i);
    if ShapeOf(i.op) == Rr {
      b := 0;
      if i.immFlag { a := i.imm; } else { a := rf.Read(lane, i.src0); }
    } else {
      a := rf.Read(lane, i.src0);
      if i.immFlag { b := i.imm; } else { b := rf.Read(lane, i.src1); }
    }
  }
}
