/** The runtime library's registry of live heap objects (analysis_lib/analysis.cpp):
    an ordered map from the start address of each object to its exclusive
    end, the sizes of the pointer arrays found so far, and the size of the
    largest object ever recorded. The library defines `_record_obj_range`
    (an allocation), `_remove_obj_range` (a `free`), `_find_array_size` (a
    pointer array handed to a library) and `_dump_summary` (the two maxima
    at exit); its test program analysis_lib/tests/hello.c calls them
    directly. The instrumentation pass emits calls under other names
    (`_record_alloc`, `_record_realloc`, `_cal_array_size`), and the library
    has no hook for `realloc`. */
module HeapRegistry {
  import opened Common
  import opened OrderedKeys

  /** 2^64: addresses, sizes and the map's keys and values are `uint64_t`. */
  const U64: nat := 0x1_0000_0000_0000_0000

  /** `uint64_t` addition and subtraction wrap around modulo 2^64. */
  function Add64(a: nat, b: nat): (r: nat)
    ensures r < U64
    ensures a + b < U64 ==> r == a + b
  {
    (a + b) % U64
  }

  function Sub64(a: nat, b: nat): (r: nat)
    ensures r < U64
    ensures b <= a < U64 ==> r == a - b
  {
    (a - b) % U64
  }

  /** Every key and every end fits in 64 bits. */
  ghost predicate Bounded(heap: map<nat, nat>) {
    forall s :: s in heap ==> s < U64 && heap[s] < U64
  }

  /** No recorded range wraps past the top of the address space. */
  ghost predicate NoWrap(heap: map<nat, nat>) {
    forall s :: s in heap ==> s <= heap[s]
  }

  /** Live ranges do not overlap: each ends at or before the next start. */
  ghost predicate Disjoint(heap: map<nat, nat>) {
    forall s, t :: s in heap && t in heap && s < t ==> heap[s] <= t
  }

  /** `addr` is the start of a live object or lies inside its `[start, end)`. */
  ghost predicate Owns(heap: map<nat, nat>, s: nat, addr: nat) {
    s in heap && (s == addr || s <= addr < heap[s])
  }

  /** What `_find_array_size(addr)` is meant to report: the remaining size
      of the object whose start is the greatest one at or below `addr`, when
      `addr` is that start or lies before that object's end; otherwise a
      miss, for which nothing is recorded. At a start the size is computed
      as the source does, `end - addr` in 64-bit arithmetic. */
  ghost function Resolve(heap: map<nat, nat>, addr: nat): Option<nat> {
    match FloorOf(heap.Keys, addr)
    case None => None
    case Some(s) =>
      if s == addr then Some(Sub64(heap[s], addr))
      else if addr < heap[s] then Some(heap[s] - addr)
      else None
  }

  /** The elements a lookup appends to `array_sizes`: one on a hit, none on a miss. */
  function Appended(r: Option<nat>): (s: seq<nat>)
    ensures r.None? ==> s == []
    ensures r.Some? ==> s == [r.value]
  {
    match r
    case None => []
    case Some(v) => [v]
  }

  /** A lookup at the start of an object reports that object's whole size. */
  lemma ResolveAtStart(heap: map<nat, nat>, addr: nat)
    requires addr in heap
    ensures Resolve(heap, addr) == Some(Sub64(heap[addr], addr))
    ensures addr <= heap[addr] < U64 ==> Resolve(heap, addr) == Some(heap[addr] - addr)
  {
    FloorViaLowerBound(heap.Keys, addr);
    LowerBoundUnique(heap.Keys, addr, addr);
  }

  /** Recording `[s, s + n)` and then looking up `s` reports `n`, whatever
      was recorded before and even if `s + n` wraps. */
  lemma RecordThenResolve(heap: map<nat, nat>, s: nat, n: nat)
    requires s < U64 && n < U64
    ensures Resolve(heap[s := Add64(s, n)], s) == Some(n)
  {
    var h := heap[s := Add64(s, n)];
    ResolveAtStart(h, s);
    if s + n < U64 {
      assert Sub64(Add64(s, n), s) == n;
    } else {
      assert Add64(s, n) == s + n - U64;
      assert Add64(s, n) - s == n - U64;
      assert Sub64(Add64(s, n), s) == n;
    }
  }

  /** A pointer strictly inside the object with the greatest start below it
      gets the remaining size `end - addr`, which lies in `(0, end - start]`. */
  lemma ResolveInterior(heap: map<nat, nat>, s: nat, addr: nat)
    requires s in heap && s < addr < heap[s]
    requires forall k :: k in heap && k <= addr ==> k <= s
    ensures Resolve(heap, addr) == Some(heap[s] - addr)
    ensures 0 < heap[s] - addr <= heap[s] - s
  {
    PredecessorUnique(heap.Keys, addr + 1, s);
  }

  /** A miss: no start at or below `addr`, or the nearest one below `addr`
      belongs to an object that ends at or before `addr`. */
  lemma ResolveMiss(heap: map<nat, nat>, addr: nat)
    requires addr !in heap
    requires forall s :: s in heap && s < addr && (forall k :: k in heap && k <= addr ==> k <= s) ==> heap[s] <= addr
    ensures Resolve(heap, addr) == None
  {
    match FloorOf(heap.Keys, addr)
    case None =>
    case Some(s) =>
      assert s < addr;
      assert heap[s] <= addr;
  }

  /** The intended lookup in the terms the source computes it in: an exact
      `lower_bound` hit, else the object one step back from the lower bound
      (or from the end) when `addr` lies before its end. */
  lemma ResolveViaLowerBound(heap: map<nat, nat>, addr: nat)
    ensures LowerBoundOf(heap.Keys, addr) == Some(addr) ==> Resolve(heap, addr) == Some(Sub64(heap[addr], addr))
    ensures LowerBoundOf(heap.Keys, addr).Some? && LowerBoundOf(heap.Keys, addr).value != addr ==>
              var prev := PredecessorOf(heap.Keys, LowerBoundOf(heap.Keys, addr).value);
              Resolve(heap, addr) == if prev.Some? && addr >= prev.value && addr < heap[prev.value]
                                     then Some(heap[prev.value] - addr) else None
    ensures LowerBoundOf(heap.Keys, addr).None? ==>
              var last := PredecessorOf(heap.Keys, addr);
              Resolve(heap, addr) == if last.Some? && addr < heap[last.value]
                                     then Some(heap[last.value] - addr) else None
  {
    FloorViaLowerBound(heap.Keys, addr);
    if LowerBoundOf(heap.Keys, addr).Some? && LowerBoundOf(heap.Keys, addr).value != addr {
      assert addr !in heap;
    }
    if LowerBoundOf(heap.Keys, addr).None? {
      assert addr !in heap;
    }
  }

  /** A hit never reports more than 2^64 - 1. */
  lemma ResolveBounded(heap: map<nat, nat>, addr: nat)
    requires Bounded(heap)
    ensures Resolve(heap, addr).Some? ==> Resolve(heap, addr).value < U64
  {
  }

  /** With non-overlapping, non-wrapping ranges, a lookup hits exactly when
      `addr` is the start of a live object or lies inside one, and then it
      reports that object's remaining size `end - addr`. */
  lemma {:induction false} ResolveIffLive(heap: map<nat, nat>, addr: nat)
    requires Bounded(heap) && NoWrap(heap) && Disjoint(heap)
    ensures Resolve(heap, addr).Some? <==> exists s :: Owns(heap, s, addr)
    ensures forall s :: Owns(heap, s, addr) ==> Resolve(heap, addr) == Some(heap[s] - addr)
  {
    forall s | Owns(heap, s, addr)
      ensures Resolve(heap, addr) == Some(heap[s] - addr)
    {
      var f := FloorOf(heap.Keys, addr);
      assert f.Some? && s <= f.value;
      var t := f.value;
      if s == addr {
        assert t == addr;
      } else {
        assert s == t;
      }
    }
    if Resolve(heap, addr).Some? {
      var t := FloorOf(heap.Keys, addr).value;
      assert Owns(heap, t, addr);
    }
  }

  /** `_find_array_size` as written (analysis.cpp:61-95), one step of it:
      what it appends, or the line at which it steps an iterator out of the
      map, which is undefined behaviour. */
  datatype RawStep = Push(size: nat) | NoPush | Undefined(line: nat)

  ghost function RawFindArraySize(heap: map<nat, nat>, addr: nat): RawStep {
    match LowerBoundOf(heap.Keys, addr)
    case Some(first) =>
      if first == addr then Push(Sub64(heap[first], addr))
      else (
        // `--range` on the first element is undefined (line 77)
        match PredecessorOf(heap.Keys, first)
        case None => Undefined(77)
        case Some(prev) =>
          if addr >= prev && addr < heap[prev] then Push(Sub64(heap[prev], addr)) else NoPush)
    case None =>
      // `range--` on `end()` of an empty map is undefined (line 88);
      // otherwise the last object is used without checking its end (line 89)
      match PredecessorOf(heap.Keys, addr)
      case None => Undefined(88)
      case Some(last) => Push(Sub64(heap[last], addr))
  }

  /** The code as written agrees with the intended lookup on every hit and
      on every miss it notices; it departs from it only on misses, where it
      either runs into undefined behaviour or appends a size computed from
      the last object although `addr` lies at or beyond that object's end. */
  lemma {:induction false} RawDepartsOnlyOnMisses(heap: map<nat, nat>, addr: nat)
    requires Bounded(heap)
    ensures Resolve(heap, addr).Some? ==> RawFindArraySize(heap, addr) == Push(Resolve(heap, addr).value)
    ensures RawFindArraySize(heap, addr).NoPush? ==> Resolve(heap, addr).None?
    ensures RawFindArraySize(heap, addr).Undefined? ==> Resolve(heap, addr).None?
    ensures RawFindArraySize(heap, addr).Push? && Resolve(heap, addr).None? ==>
              && (forall k :: k in heap ==> k < addr)
              && exists last :: last in heap && heap[last] <= addr
  {
    var keys := heap.Keys;
    FloorViaLowerBound(keys, addr);
    match LowerBoundOf(keys, addr)
    case Some(first) =>
    case None =>
      match PredecessorOf(keys, addr)
      case None =>
      case Some(last) =>
        if Resolve(heap, addr).None? {
          assert heap[last] <= addr;
        }
  }

  /** Line 77: the test driver's last lookup (analysis_lib/tests/hello.c:21),
      an interior pointer of a freed object that lies below every live start,
      steps back from `begin()`. The intended lookup is a miss. */
  lemma RawStepsBeforeBegin()
    ensures RawFindArraySize(map[0x2000 := 0x2fa0], 0x1320) == Undefined(77)
    ensures Resolve(map[0x2000 := 0x2fa0], 0x1320) == None
  {
    var heap := map[0x2000 := 0x2fa0];
    assert heap.Keys == {0x2000};
    LowerBoundUnique(heap.Keys, 0x1320, 0x2000);
    ResolveMiss(heap, 0x1320);
  }

  /** Line 88: a lookup in an empty registry steps back from `end()`. */
  lemma RawStepsBackInEmptyMap(addr: nat)
    ensures RawFindArraySize(map[], addr) == Undefined(88)
    ensures Resolve(map[], addr) == None
  {
  }

  /** Line 89: a pointer past the end of the last object gets a fabricated
      size, `end - addr` wrapped around to nearly 2^64. */
  lemma RawFabricatesSize()
    ensures RawFindArraySize(map[0x1000 := 0x1960], 0x3000) == Push(U64 - 0x16a0)
    ensures Resolve(map[0x1000 := 0x1960], 0x3000) == None
  {
    var heap := map[0x1000 := 0x1960];
    assert heap.Keys == {0x1000};
    PredecessorUnique(heap.Keys, 0x3000, 0x1000);
    ResolveMiss(heap, 0x3000);
  }

  /** The registry's global state: `heap_objs`, `array_sizes` and
      `largest_obj`, plus the history of recorded sizes that `largest_obj`
      summarises. */
  class Registry {
    var heap: map<nat, nat>
    var arraySizes: seq<nat>
    var largestObj: nat
    ghost var recordedSizes: seq<nat>

    ghost predicate Valid()
      reads this
    {
      && Bounded(heap)
      && (forall i :: 0 <= i < |arraySizes| ==> arraySizes[i] < U64)
      && (forall i :: 0 <= i < |recordedSizes| ==> recordedSizes[i] < U64)
      && largestObj == SeqMax(recordedSizes)
    }

    /** The state at program start: nothing recorded, `largest_obj = 0`. */
    constructor ()
      ensures Valid()
      ensures heap == map[] && arraySizes == [] && largestObj == 0 && recordedSizes == []
    {
      heap := map[];
      arraySizes := [];
      largestObj := 0;
      recordedSizes := [];
    }

    /** `_record_obj_range(start, size)`: map `start` to `start + size`
        (64-bit), overwriting an earlier entry for `start`, and raise
        `largest_obj` to `size` if it is larger. A null `start` is recorded
        like any other address. */
    method RecordObjRange(start: nat, size: nat)
      requires Valid() && start < U64 && size < U64
      modifies this
      ensures Valid()
      ensures heap == old(heap)[start := Add64(start, size)]
      ensures arraySizes == old(arraySizes)
      ensures recordedSizes == old(recordedSizes) + [size]
      ensures largestObj == Max(old(largestObj), size) >= old(largestObj)
    {
      heap := heap[start := Add64(start, size)];
      if size > largestObj {
        largestObj := size;
      }
      SeqMaxSnoc(recordedSizes, size);
      recordedSizes := recordedSizes + [size];
    }

    /** `_remove_obj_range(p)`: erase the entry for `p`; nothing else changes,
        and nothing at all when `p` is not a recorded start, so a second
        call is a no-op. */
    method RemoveObjRange(p: nat)
      requires Valid()
      modifies this`heap
      ensures Valid()
      ensures heap == old(heap) - {p}
      ensures p !in heap
      ensures p !in old(heap) ==> heap == old(heap)
    {
      heap := heap - {p};
    }

    /** `_find_array_size(p)`, following the source's branches: `lower_bound`,
        an exact hit, else one step back and a range check; when there is no
        lower bound, the last object and a range check. The steps back that
        the source takes without a guard are guarded here, so that a miss
        appends nothing. */
    method FindArraySize(p: nat)
      requires Valid() && p < U64
      modifies this`arraySizes
      ensures Valid()
      ensures arraySizes == old(arraySizes) + Appended(Resolve(heap, p))
    {
      ResolveViaLowerBound(heap, p);
      ResolveBounded(heap, p);
      var range := LowerBound(heap.Keys, p);
      if range.Some? {
        if range.value == p {
          arraySizes := arraySizes + [Sub64(heap[p], p)];
        } else {
          var prev := Prev(heap.Keys, range.value);
          if prev.Some? && p >= prev.value && p < heap[prev.value] {
            arraySizes := arraySizes + [heap[prev.value] - p];
          }
        }
      } else {
        // every start is below `p`: the candidate is the last object
        var last := Prev(heap.Keys, p);
        if last.Some? && p < heap[last.value] {
          arraySizes := arraySizes + [heap[last.value] - p];
        }
      }
    }

    /** The maxima `_dump_summary` reports: `largest_obj`, and the largest
        element of `array_sizes` (0 when it is empty) found by its loop. */
    method DumpSummary() returns (largestHeapObj: nat, largestArr: nat)
      ensures largestHeapObj == largestObj
      ensures largestArr == SeqMax(arraySizes)
    {
      largestArr := 0;
      for i := 0 to |arraySizes|
        invariant largestArr == SeqMax(arraySizes[..i])
      {
        if arraySizes[i] > largestArr {
          largestArr := arraySizes[i];
        }
        assert arraySizes[..i + 1] == arraySizes[..i] + [arraySizes[i]];
        SeqMaxSnoc(arraySizes[..i], arraySizes[i]);
      }
      assert arraySizes[..|arraySizes|] == arraySizes;
      largestHeapObj := largestObj;
    }
  }

  /** The lookups of the test driver on the registry it builds. */
  lemma HelloLookups(heap: map<nat, nat>)
    requires heap == map[0x1000 := 0x1960][0x2000 := 0x2fa0]
    ensures Resolve(heap, 0x1000) == Some(2400)
    ensures Resolve(heap, 0x1320) == Some(1600)
    ensures Resolve(heap, 0x1640) == Some(800)
    ensures Resolve(heap, 0x2960) == Some(1600)
  {
    assert heap.Keys == {0x1000, 0x2000};
    ResolveAtStart(heap, 0x1000);
    ResolveInterior(heap, 0x1000, 0x1320);
    ResolveInterior(heap, 0x1000, 0x1640);
    ResolveInterior(heap, 0x2000, 0x2960);
  }

  lemma HelloLookupAfterFree(heap: map<nat, nat>)
    requires heap == map[0x1000 := 0x1960][0x2000 := 0x2fa0] - {0x1000}
    ensures Resolve(heap, 0x1320) == None
  {
    assert heap.Keys == {0x2000};
    ResolveMiss(heap, 0x1320);
  }

  /** The two allocations of the test driver (analysis_lib/tests/hello.c:9-12):
      300 and 500 eight-byte slots, placed at 0x1000 and 0x2000. */
  method HelloAllocations() returns (r: Registry)
    ensures fresh(r) && r.Valid()
    ensures r.heap == map[0x1000 := 0x1960][0x2000 := 0x2fa0]
    ensures r.arraySizes == [] && r.largestObj == 4000
  {
    r := new Registry();
    r.RecordObjRange(0x1000, 8 * 300);
    r.RecordObjRange(0x2000, 8 * 500);
  }

  /** The test driver's four lookups while both arrays are live: at the
      start of the first array, at two interior pointers of it and at an
      interior pointer of the second (analysis_lib/tests/hello.c:14-17). */
  method HelloLiveLookups(r: Registry)
    requires r.Valid() && r.heap == map[0x1000 := 0x1960][0x2000 := 0x2fa0]
    modifies r`arraySizes
    ensures r.Valid()
    ensures r.arraySizes == old(r.arraySizes) + [2400, 1600, 800, 1600]
  {
    ghost var a0 := r.arraySizes;
    HelloLookups(r.heap);
    r.FindArraySize(0x1000);
    r.FindArraySize(0x1000 + 8 * 100);
    assert r.arraySizes == a0 + [2400, 1600];
    r.FindArraySize(0x1000 + 8 * 200);
    r.FindArraySize(0x2000 + 8 * 300);
  }

  /** The test driver (analysis_lib/tests/hello.c): the live lookups, then a
      free of the first array and a lookup inside it, which is a miss. */
  method HelloScenario() returns (sizes: seq<nat>, largestObj: nat)
    ensures sizes == [2400, 1600, 800, 1600]
    ensures largestObj == 4000
  {
    var r := HelloAllocations();
    HelloLiveLookups(r);
    assert r.arraySizes == [2400, 1600, 800, 1600];
    r.RemoveObjRange(0x1000);
    HelloLookupAfterFree(r.heap);
    r.FindArraySize(0x1000 + 8 * 100);
    assert r.arraySizes == [2400, 1600, 800, 1600] + [];
    sizes := r.arraySizes;
    largestObj := r.largestObj;
  }
}
