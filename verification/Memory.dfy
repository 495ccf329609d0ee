/** The memory of a block: byte memories, parameters, and the access counters. */
module Memory {
  import opened Isa
  import opened MemoryAnalysis

  datatype Space = Global | Shared | Param

  datatype AccessError = Misaligned | OutOfBounds | ParamOutOfRange | StoreToParam

  // ---- words in a byte sequence, little endian ----

  function CheckAccess(size: nat, address: u32): Option<AccessError> {
    if address % 4 != 0 then Some(Misaligned)
    else if address + 4 > size then Some(OutOfBounds)
    else None
  }

  function FromBytes(b0: int, b1: int, b2: int, b3: int): int {
    b0 + 0x100 * b1 + 0x1_0000 * b2 + 0x100_0000 * b3
  }

  function WordAt(bytes: seq<u8>, address: nat): u32
    requires address + 4 <= |bytes|
  {
    FromBytes(bytes[address], bytes[address + 1], bytes[address + 2], bytes[address + 3])
  }

  function WithWord(bytes: seq<u8>, address: nat, value: u32): (r: seq<u8>)
    requires address + 4 <= |bytes|
    ensures |r| == |bytes|
  {
    bytes[address := value % 0x100][address + 1 := value / 0x100 % 0x100]
         [address + 2 := value / 0x1_0000 % 0x100][address + 3 := value / 0x100_0000]
  }

  function Load32(bytes: seq<u8>, address: u32): Result<u32, AccessError> {
    match CheckAccess(|bytes|, address)
    case Some(e) => Err(e)
    case None => Ok(WordAt(bytes, address))
  }

  function Store32(bytes: seq<u8>, address: u32, value: u32): Result<seq<u8>, AccessError> {
    match CheckAccess(|bytes|, address)
    case Some(e) => Err(e)
    case None => Ok(WithWord(bytes, address, value))
  }

  lemma BytesOfWord(value: u32)
    ensures FromBytes(value % 0x100, value / 0x100 % 0x100, value / 0x1_0000 % 0x100, value / 0x100_0000) == value
  {
    assert value / 0x1_0000 == value / 0x100 / 0x100 && value / 0x100_0000 == value / 0x100 / 0x100 / 0x100;
  }

  lemma WordOutside(bytes: seq<u8>, address: nat, value: u32, other: nat)
    requires address + 4 <= |bytes| && other + 4 <= |bytes|
    requires other + 4 <= address || address + 4 <= other
    ensures WordAt(WithWord(bytes, address, value), other) == WordAt(bytes, other)
  {
  }

  /** A stored word is read back, and every other access of the memory is unaffected. */
  lemma LoadAfterStore(bytes: seq<u8>, address: u32, value: u32, after: seq<u8>, other: u32)
    requires Store32(bytes, address, value) == Ok(after)
    ensures |after| == |bytes|
    ensures Load32(after, other) == if other == address then Ok(value) else Load32(bytes, other)
  {
    if other == address {
      BytesOfWord(value);
    } else if other % 4 == 0 && other + 4 <= |bytes| {
      WordOutside(bytes, address, value, other);
    }
  }

  /** The words a memory image offers to the lanes of a block. */
  datatype Store = Store(global: seq<u8>, shared: seq<u8>, params: seq<u32>)

  function LoadFrom(m: Store, space: Space, address: u32): Result<u32, AccessError> {
    match space
    case Global => Load32(m.global, address)
    case Shared => Load32(m.shared, address)
    case Param => if address >= |m.params| then Err(ParamOutOfRange) else Ok(m.params[address])
  }

  function StoreTo(m: Store, space: Space, address: u32, value: u32): Result<Store, AccessError> {
    match space
    case Global =>
      (match Store32(m.global, address, value)
       case Err(e) => Err(e)
       case Ok(bytes) => Ok(m.(global := bytes)))
    case Shared =>
      (match Store32(m.shared, address, value)
       case Err(e) => Err(e)
       case Ok(bytes) => Ok(m.(shared := bytes)))
    case Param => Err(StoreToParam)
  }

  lemma LoadAfterStoreTo(m: Store, space: Space, address: u32, value: u32, after: Store, at: Space, other: u32)
    requires StoreTo(m, space, address, value) == Ok(after)
    ensures LoadFrom(after, at, other) ==
            if at == space && other == address then Ok(value) else LoadFrom(m, at, other)
    ensures |after.global| == |m.global| && |after.shared| == |m.shared| && after.params == m.params
  {
    match space
    case Global => LoadAfterStore(m.global, address, value, after.global, other);
    case Shared => LoadAfterStore(m.shared, address, value, after.shared, other);
    case Param =>
  }

  // ---- access counters ----

  datatype MemoryStats = MemoryStats(globalLoads: nat, globalStores: nat, globalLaneAccesses: nat,
                                     globalSegments: nat, sharedAccesses: nat, sharedLaneAccesses: nat,
                                     sharedWavefronts: nat, sharedConflicted: nat)

  const ZERO_STATS := MemoryStats(0, 0, 0, 0, 0, 0, 0, 0)

  /** The largest number of distinct addresses in one of the first `k` banks. */
  ghost function DegreeBelow(addresses: seq<u32>, exec: set<nat>, k: nat): nat
    requires ValidAccess(addresses, exec)
  {
    if k == 0 then 0
    else
      var rest := DegreeBelow(addresses, exec, k - 1);
      var here := |InBank(addresses, exec, k - 1)|;
      if rest < here then here else rest
  }

  lemma {:induction false} DegreeBelowBound(addresses: seq<u32>, exec: set<nat>, k: nat, degree: nat)
    requires ValidAccess(addresses, exec) && k <= BANKS && IsDegree(addresses, exec, degree)
    ensures DegreeBelow(addresses, exec, k) <= degree
    ensures forall b | 0 <= b < k :: |InBank(addresses, exec, b)| <= DegreeBelow(addresses, exec, k)
  {
    if k > 0 {
      DegreeBelowBound(addresses, exec, k - 1, degree);
    }
  }

  /** `IsDegree` determines the degree. */
  lemma DegreeUnique(addresses: seq<u32>, exec: set<nat>, degree: nat, banks: nat)
    requires ValidAccess(addresses, exec) && IsDegree(addresses, exec, degree) && banks == BANKS
    ensures DegreeBelow(addresses, exec, banks) == degree
  {
    DegreeBelowBound(addresses, exec, banks, degree);
  }

  /** The counters after one warp-level access. */
  ghost function CountAccess(stats: MemoryStats, space: Space, isStore: bool, addresses: seq<u32>, exec: set<nat>): MemoryStats
    requires ValidAccess(addresses, exec)
  {
    if exec == {} then stats
    else match space
      case Global =>
        stats.(globalLoads := stats.globalLoads + (if isStore then 0 else 1),
               globalStores := stats.globalStores + (if isStore then 1 else 0),
               globalLaneAccesses := stats.globalLaneAccesses + |exec|,
               globalSegments := stats.globalSegments + |Segments(addresses, exec)|)
      case Shared =>
        var degree := DegreeBelow(addresses, exec, BANKS);
        stats.(sharedAccesses := stats.sharedAccesses + 1,
               sharedLaneAccesses := stats.sharedLaneAccesses + |exec|,
               sharedWavefronts := stats.sharedWavefronts + degree,
               sharedConflicted := stats.sharedConflicted + (if degree > 1 then 1 else 0))
      case Param => stats
  }

  class MemoryAnalyzer {
    var stats: MemoryStats

    constructor ()
      ensures stats == ZERO_STATS
    {
      stats := ZERO_STATS;
    }

    method OnGlobal(addresses: seq<u32>, exec: set<nat>, isStore: bool)
      requires ValidAccess(addresses, exec)
      modifies this
      ensures stats == CountAccess(old(stats), Global, isStore, addresses, exec)
    {
      if exec == {} {
        return;
      }
      if isStore {
        stats := stats.(globalStores := stats.globalStores + 1);
      } else {
        stats := stats.(globalLoads := stats.globalLoads + 1);
      }
      var segments := DistinctSegments(addresses, exec);
      stats := stats.(globalLaneAccesses := stats.globalLaneAccesses + |exec|,
                      globalSegments := stats.globalSegments + segments);
    }

    method OnShared(addresses: seq<u32>, exec: set<nat>, isStore: bool)
      requires ValidAccess(addresses, exec)
      modifies this
      ensures stats == CountAccess(old(stats), Shared, isStore, addresses, exec)
    {
      if exec == {} {
        return;
      }
      var degree := BankConflictDegree(addresses, exec);
      DegreeUnique(addresses, exec, degree, BANKS);
      stats := stats.(sharedAccesses := stats.sharedAccesses + 1,
                      sharedLaneAccesses := stats.sharedLaneAccesses + |exec|,
                      sharedWavefronts := stats.sharedWavefronts + degree);
      if degree > 1 {
        stats := stats.(sharedConflicted := stats.sharedConflicted + 1);
      }
    }
  }

  // ---- the byte memories as objects ----

  class ByteMemory {
    const bytes: array<u8>

    constructor (size: nat)
      ensures fresh(bytes) && bytes.Length == size
      ensures bytes[..] == seq(size, _ => 0)
    {
      bytes := new u8[size](_ => 0);
    }

    method Load(address: u32) returns (r: Result<u32, AccessError>)
      ensures r == Load32(bytes[..], address)
    {
      if address % 4 != 0 {
        return Err(Misaligned);
      }
      if address + 4 > bytes.Length {
        return Err(OutOfBounds);
      }
      return Ok(FromBytes(bytes[address], bytes[address + 1], bytes[address + 2], bytes[address + 3]));
    }

    method Write(address: u32, value: u32) returns (r: Option<AccessError>)
      modifies bytes
      ensures match Store32(old(bytes[..]), address, value)
              case Err(e) => r == Some(e) && bytes[..] == old(bytes[..])
              case Ok(after) => r == None && bytes[..] == after
    {
      if address % 4 != 0 {
        return Some(Misaligned);
      }
      if address + 4 > bytes.Length {
        return Some(OutOfBounds);
      }
      bytes[address] := value % 0x100;
      bytes[address + 1] := value / 0x100 % 0x100;
      bytes[address + 2] := value / 0x1_0000 % 0x100;
      bytes[address + 3] := value / 0x100_0000;
      return None;
    }
  }

  /** The device's global memory, the block's shared memory, the parameter table and the counters. */
  class BlockMemory {
    const global: ByteMemory
    const shared: ByteMemory
    const params: seq<u32>
    const analyzer: MemoryAnalyzer

    ghost predicate Valid() {
      global.bytes != shared.bytes
    }

    ghost function Footprint(): set<object> {
      {global.bytes, shared.bytes, analyzer}
    }

    ghost function Image(): Store
      reads global.bytes, shared.bytes
    {
      Store(global.bytes[..], shared.bytes[..], params)
    }

    constructor (global: ByteMemory, sharedBytes: u32, params: seq<u32>)
      ensures Valid() && this.global == global && fresh(Footprint() - {global.bytes})
      ensures Image() == Store(global.bytes[..], seq(sharedBytes, _ => 0), params)
      ensures analyzer.stats == ZERO_STATS
    {
      this.global := global;
      this.params := params;
      shared := new ByteMemory(sharedBytes);
      analyzer := new MemoryAnalyzer();
    }

    method Load(space: Space, address: u32) returns (r: Result<u32, AccessError>)
      ensures r == LoadFrom(Image(), space, address)
    {
      match space {
        case Global => r := global.Load(address);
        case Shared => r := shared.Load(address);
        case Param => r := if address >= |params| then Err(ParamOutOfRange) else Ok(params[address]);
      }
    }

    method Write(space: Space, address: u32, value: u32) returns (r: Option<AccessError>)
      requires Valid()
      modifies global.bytes, shared.bytes
      ensures match StoreTo(old(Image()), space, address, value)
              case Err(e) => r == Some(e) && Image() == old(Image())
              case Ok(after) => r == None && Image() == after
    {
      match space {
        case Global => r := global.Write(address, value);
        case Shared => r := shared.Write(address, value);
        case Param => r := Some(StoreToParam);
      }
    }

    method OnWarpAccess(space: Space, isStore: bool, addresses: seq<u32>, exec: set<nat>)
      requires ValidAccess(addresses, exec)
      modifies analyzer
      ensures analyzer.stats == CountAccess(old(analyzer.stats), space, isStore, addresses, exec)
    {
      if space == Global {
        analyzer.OnGlobal(addresses, exec, isStore);
      } else if space == Shared {
        analyzer.OnShared(addresses, exec, isStore);
      }
    }
  }
}
