/** Parts of memory: what an access inside an area does, and what other areas see of it. */
module Areas {
  import opened Isa
  import opened Alu
  import opened Memory
  import opened WarpSpec

  /** Where a warp or a thread may load from and store to. */
  datatype Area = Area(loads: (Space, u32) -> bool, stores: (Space, u32) -> bool)

  /** Same sizes and parameters, and the same words where the area reads. */
  ghost predicate Agree(a: Store, b: Store, area: Area) {
    && |a.global| == |b.global| && |a.shared| == |b.shared| && a.params == b.params
    && forall space: Space, address: u32 | area.loads(space, address) ::
         LoadFrom(a, space, address) == LoadFrom(b, space, address)
  }

  ghost predicate Within(i: Instruction, r: Lane, area: Area)
    requires Valid(i)
  {
    if IsStore(i.op) then area.stores(SpaceOf(i.op), AddressOf(i, r)) else area.loads(SpaceOf(i.op), AddressOf(i, r))
  }

  /** Nothing that one area writes is read by the other. */
  ghost predicate Unread(writer: Area, reader: Area) {
    forall space: Space, address: u32 | writer.stores(space, address) :: !reader.loads(space, address)
  }

  // ---- one access ----

  lemma StoreBySize(a: Store, b: Store, area: Area, space: Space, address: u32, value: u32)
    requires Agree(a, b, area)
    ensures match StoreTo(a, space, address, value)
            case Err(e) => StoreTo(b, space, address, value) == Err(e)
            case Ok(a1) => StoreTo(b, space, address, value).Ok? && Agree(a1, StoreTo(b, space, address, value).value, area)
  {
    match StoreTo(a, space, address, value)
    case Err(_) =>
    case Ok(a1) =>
      SameStoreOutcome(a, b, area, space, address, value);
      var b1 := StoreTo(b, space, address, value).value;
      hide StoreTo, LoadFrom;
      forall at: Space, other: u32 | area.loads(at, other) ensures LoadFrom(a1, at, other) == LoadFrom(b1, at, other) {
        LoadAfterStoreTo(a, space, address, value, a1, at, other);
        LoadAfterStoreTo(b, space, address, value, b1, at, other);
      }
      LoadAfterStoreTo(a, space, address, value, a1, space, address);
      LoadAfterStoreTo(b, space, address, value, b1, space, address);
  }

  lemma SameStoreOutcome(a: Store, b: Store, area: Area, space: Space, address: u32, value: u32)
    requires Agree(a, b, area)
    ensures StoreTo(a, space, address, value).Ok? <==> StoreTo(b, space, address, value).Ok?
    ensures StoreTo(a, space, address, value).Err? ==> StoreTo(b, space, address, value) == StoreTo(a, space, address, value)
  {
    hide LoadFrom;
  }

  /** An access inside the area has the same effect on stores that agree. */
  lemma AccessAgrees(i: Instruction, r: Lane, a: Store, b: Store, area: Area)
    requires Valid(i) && Agree(a, b, area) && Within(i, r, area)
    ensures match AccessLane(i, r, a)
            case Denied(e, address) => AccessLane(i, r, b) == Denied(e, address)
            case Accessed(r1, a1) =>
              AccessLane(i, r, b).Accessed? && AccessLane(i, r, b).regs == r1 && Agree(a1, AccessLane(i, r, b).store, area)
  {
    hide StoreTo, LoadFrom, AddressOf;
    ValidIndices(i);
    if IsStore(i.op) {
      StoreBySize(a, b, area, SpaceOf(i.op), AddressOf(i, r), r.general[i.src1]);
      SameStoreOutcome(a, b, area, SpaceOf(i.op), AddressOf(i, r), r.general[i.src1]);
    }
  }

  /** An access in one area is not seen by an area that reads nothing the first one writes. */
  lemma AccessUnseen(i: Instruction, r: Lane, b: Store, area: Area, other: Area, c: Store)
    requires Valid(i) && Within(i, r, area) && Unread(area, other) && Agree(c, b, other)
    ensures AccessLane(i, r, b).Accessed? ==> Agree(c, AccessLane(i, r, b).store, other)
  {
    hide StoreTo, LoadFrom, AddressOf;
    ValidIndices(i);
    if IsStore(i.op) && AccessLane(i, r, b).Accessed? {
      var b1 := AccessLane(i, r, b).store;
      var space, address, value := SpaceOf(i.op), AddressOf(i, r), r.general[i.src1];
      forall at: Space, x: u32 | other.loads(at, x) ensures LoadFrom(c, at, x) == LoadFrom(b1, at, x) {
        LoadAfterStoreTo(b, space, address, value, b1, at, x);
      }
      LoadAfterStoreTo(b, space, address, value, b1, space, address);
    }
  }

  lemma AgreeSelf(m: Store, area: Area)
    ensures Agree(m, m, area)
  {
  }
}
