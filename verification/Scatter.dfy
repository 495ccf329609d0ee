/** The order of a warp store: lanes write in ascending order, so the highest writer of a word wins. */
module Scatter {
  import opened Isa
  import opened Alu
  import opened Memory
  import opened WarpSpec

  /** The highest lane below `bound`, and not below `from`, that executes and addresses `a`. */
  ghost function HighestWriter(i: Instruction, exec: Mask, lanes: RegisterBank, from: nat, bound: nat, a: u32): (w: Option<nat>)
    requires Valid(i) && from <= bound <= WARP_SIZE
    ensures match w
            case Some(l) =>
              (from <= l < bound && l in exec && AddressOf(i, lanes[l]) == a
               && forall k | l < k < bound && k in exec :: AddressOf(i, lanes[k]) != a)
            case None => forall k | from <= k < bound && k in exec :: AddressOf(i, lanes[k]) != a
    decreases bound
  {
    if from == bound then None
    else if bound - 1 in exec && AddressOf(i, lanes[bound - 1]) == a then Some(bound - 1)
    else HighestWriter(i, exec, lanes, from, bound - 1, a)
  }

  /** What a word holds after the lanes in [from, bound) have stored. */
  ghost function Scattered(i: Instruction, exec: Mask, lanes: RegisterBank, from: nat, bound: nat, m: Store,
                           at: Space, a: u32): Result<u32, AccessError>
    requires Valid(i) && from <= bound <= WARP_SIZE
  {
    match HighestWriter(i, exec, lanes, from, bound, a)
    case Some(l) =>
      ValidIndices(i);
      if at == SpaceOf(i.op) then Ok(lanes[l].general[i.src1]) else LoadFrom(m, at, a)
    case None => LoadFrom(m, at, a)
  }

  /** The lanes a sweep completed: all of them, or those below the faulting lane. */
  function Reached(sweep: Sweep): nat {
    match sweep
    case Swept(_, _) => WARP_SIZE
    case SweepFault(lane, _, _, _, _) => lane
  }

  /** The first writer of the rest of a sweep does not matter once a higher lane writes the same word. */
  lemma {:induction false} WriterStep(i: Instruction, exec: Mask, lanes: RegisterBank, from: nat, bound: nat, a: u32)
    requires Valid(i) && from < bound <= WARP_SIZE
    ensures HighestWriter(i, exec, lanes, from, bound, a) ==
            match HighestWriter(i, exec, lanes, from + 1, bound, a)
            case Some(l) => Some(l)
            case None => if from in exec && AddressOf(i, lanes[from]) == a then Some(from) else None
    decreases bound
  {
    if from + 1 < bound { WriterStep(i, exec, lanes, from, bound - 1, a); }
  }

  lemma OneStore(i: Instruction, r: Lane, m: Store, at: Space, a: u32)
    requires Valid(i) && IsStore(i.op)
    ensures i.src1 < GENERAL_REGISTERS
    ensures match AccessLane(i, r, m)
            case Denied(_, address) => address == AddressOf(i, r)
            case Accessed(r1, after) =>
              r1 == r && LoadFrom(after, at, a) ==
                         if at == SpaceOf(i.op) && a == AddressOf(i, r) then Ok(r.general[i.src1]) else LoadFrom(m, at, a)
  {
    hide LoadFrom, StoreTo, AddressOf;
    ValidIndices(i);
    match AccessLane(i, r, m)
    case Denied(_, _) =>
    case Accessed(_, after) =>
      LoadAfterStoreTo(m, SpaceOf(i.op), AddressOf(i, r), r.general[i.src1], after, at, a);
  }

  lemma {:induction false} StoreSweep(i: Instruction, k: nat, exec: Mask, lanes: RegisterBank, m: Store, at: Space, a: u32)
    requires Valid(i) && IsStore(i.op) && k <= WARP_SIZE
    ensures var sweep := SweepFrom(i, k, exec, lanes, m);
            && sweep.lanes == lanes
            && k <= Reached(sweep) <= WARP_SIZE
            && (sweep.SweepFault? ==> sweep.lane in exec && sweep.lane < WARP_SIZE && sweep.address == AddressOf(i, lanes[sweep.lane]))
            && LoadFrom(sweep.store, at, a) == Scattered(i, exec, lanes, k, Reached(sweep), m, at, a)
    decreases WARP_SIZE - k
  {
    hide LoadFrom, AddressOf, AccessLane, HighestWriter;
    if k < WARP_SIZE {
      if k !in exec {
        StoreSweep(i, k + 1, exec, lanes, m, at, a);
        WriterStep(i, exec, lanes, k, Reached(SweepFrom(i, k, exec, lanes, m)), a);
      } else {
        OneStore(i, lanes[k], m, at, a);
        match AccessLane(i, lanes[k], m)
        case Denied(_, _) =>
        case Accessed(r, after) =>
          assert lanes[k := r] == lanes;
          StoreSweep(i, k + 1, exec, lanes, after, at, a);
          WriterStep(i, exec, lanes, k, Reached(SweepFrom(i, k, exec, lanes, m)), a);
      }
    }
  }

  lemma StoreAddress(i: Instruction, r: Lane)
    requires Valid(i) && i.op in {StGlobal, StShared}
    ensures i.src0 < GENERAL_REGISTERS && i.src1 < GENERAL_REGISTERS && IsStore(i.op)
    ensures AddressOf(i, r) == (r.general[i.src0] + i.imm) % 0x1_0000_0000
    ensures SpaceOf(i.op) == if i.op == StGlobal then Global else Shared
  {
    ValidIndices(i);
  }

  /** A store instruction leaves every word with the value of the highest executing lane that addressed it
      and every other word alone; after a fault this holds of exactly the lanes below the faulting one. A lane
      addresses the sum of its first source and the immediate, in the space of the opcode. */
  lemma StoreOrder(i: Instruction, exec: Mask, lanes: RegisterBank, m: Store, at: Space, a: u32)
    requires Valid(i) && i.op in {StGlobal, StShared}
    ensures i.src0 < GENERAL_REGISTERS && i.src1 < GENERAL_REGISTERS
    ensures var sweep := SweepFrom(i, 0, exec, lanes, m);
            var done := if sweep.Swept? then WARP_SIZE else sweep.lane;
            var space := if i.op == StGlobal then Global else Shared;
            && sweep.lanes == lanes && done <= WARP_SIZE
            && (sweep.SweepFault? ==>
                  && done in exec && done < WARP_SIZE
                  && sweep.address == (lanes[done].general[i.src0] + i.imm) % 0x1_0000_0000)
            && (forall l | 0 <= l < done && l in exec && at == space
                           && (lanes[l].general[i.src0] + i.imm) % 0x1_0000_0000 == a
                           && (forall h | l < h < done && h in exec :: (lanes[h].general[i.src0] + i.imm) % 0x1_0000_0000 != a) ::
                  LoadFrom(sweep.store, at, a) == Ok(lanes[l].general[i.src1]))
            && (at != space || (forall l | 0 <= l < done && l in exec :: (lanes[l].general[i.src0] + i.imm) % 0x1_0000_0000 != a) ==>
                  LoadFrom(sweep.store, at, a) == LoadFrom(m, at, a))
  {
    forall l | 0 <= l < WARP_SIZE
      ensures i.src0 < GENERAL_REGISTERS && AddressOf(i, lanes[l]) == (lanes[l].general[i.src0] + i.imm) % 0x1_0000_0000
    {
      StoreAddress(i, lanes[l]);
    }
    StoreAddress(i, lanes[0]);
    StoreSweep(i, 0, exec, lanes, m, at, a);
    hide LoadFrom, AddressOf, SweepFrom, HighestWriter, Violation, SpaceOf;
  }
}
