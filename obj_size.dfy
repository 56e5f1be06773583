/** The object-size analysis pass (llvm/lib/Analysis/CheckedCGetObjSize.cpp):
    the size of the largest identified struct type of a module. The target's
    data layout is not modelled: each struct carries its alloc size as a
    given number of bytes. */
module ObjSize {
  import opened Common

  /** 2^32: the accumulator and each size are held in an `unsigned`. */
  const U32: nat := 0x1_0000_0000

  /** An identified struct type: whether it is sized (opaque structs are
      not) and the alloc size the data layout gives it. */
  datatype StructType = StructType(name: string, isSized: bool, allocSize: nat)

  /** Storing the 64-bit alloc size into an `unsigned` keeps its low 32 bits. */
  function Narrow32(x: nat): (r: nat)
    ensures r < U32
    ensures x < U32 ==> r == x
  {
    x % U32
  }

  /** The sizes the loop compares, in visiting order: one per sized struct,
      narrowed to 32 bits; unsized structs contribute nothing. */
  function SizedSizes(structs: seq<StructType>): (r: seq<nat>)
    ensures |r| <= |structs|
    ensures forall i :: 0 <= i < |structs| && structs[i].isSized ==> Narrow32(structs[i].allocSize) in r
    decreases |structs|
  {
    if structs == [] then []
    else
      var init, st := structs[..|structs| - 1], structs[|structs| - 1];
      SizedSizes(init) + (if st.isSized then [Narrow32(st.allocSize)] else [])
  }

  /** Every size compared comes from a sized struct. */
  lemma {:induction false} SizedSizesFromSized(structs: seq<StructType>, x: nat)
    requires x in SizedSizes(structs)
    ensures exists i :: 0 <= i < |structs| && structs[i].isSized && x == Narrow32(structs[i].allocSize)
    decreases |structs|
  {
    var init, st := structs[..|structs| - 1], structs[|structs| - 1];
    if x in SizedSizes(init) {
      SizedSizesFromSized(init, x);
      var i :| 0 <= i < |init| && init[i].isSized && x == Narrow32(init[i].allocSize);
      assert structs[i] == init[i];
    } else {
      assert st.isSized && x == Narrow32(st.allocSize);
    }
  }

  /** Visiting two lists one after the other compares the sizes of both. */
  lemma {:induction false} SizedSizesAppend(a: seq<StructType>, b: seq<StructType>)
    ensures SizedSizes(a + b) == SizedSizes(a) + SizedSizes(b)
    decreases |b|
  {
    if b == [] {
      assert a + b == a;
    } else {
      var b' := b[..|b| - 1];
      assert (a + b)[..|a + b| - 1] == a + b';
      SizedSizesAppend(a, b');
    }
  }

  /** `findLargestStruct`: the loop over the module's identified struct types,
      skipping unsized ones and keeping the larger of the accumulator and
      each narrowed alloc size. */
  method FindLargestStruct(structs: seq<StructType>) returns (largestST: nat)
    ensures largestST == SeqMax(SizedSizes(structs))
  {
    largestST := 0;
    for i := 0 to |structs|
      invariant largestST == SeqMax(SizedSizes(structs[..i]))
    {
      var st := structs[i];
      assert structs[..i + 1][..i] == structs[..i];
      if !st.isSized {
        assert SizedSizes(structs[..i + 1]) == SizedSizes(structs[..i]) + [];
        assert SizedSizes(structs[..i]) + [] == SizedSizes(structs[..i]);
        continue;
      }
      var structSize := Narrow32(st.allocSize);
      assert SizedSizes(structs[..i + 1]) == SizedSizes(structs[..i]) + [structSize];
      SeqMaxSnoc(SizedSizes(structs[..i]), structSize);
      largestST := if structSize > largestST then structSize else largestST;
      assert largestST == SeqMax(SizedSizes(structs[..i + 1]));
    }
    assert structs[..|structs|] == structs;
  }

  /** The result bounds the (narrowed) alloc size of every sized struct; it
      is 0 when no struct is sized, and otherwise the size of one of them. */
  lemma LargestStructBounds(structs: seq<StructType>)
    ensures forall i :: 0 <= i < |structs| && structs[i].isSized ==> Narrow32(structs[i].allocSize) <= SeqMax(SizedSizes(structs))
    ensures (forall i :: 0 <= i < |structs| ==> !structs[i].isSized) ==> SeqMax(SizedSizes(structs)) == 0
    ensures (exists i :: 0 <= i < |structs| && structs[i].isSized) ==>
              exists i :: 0 <= i < |structs| && structs[i].isSized && SeqMax(SizedSizes(structs)) == Narrow32(structs[i].allocSize)
  {
    var sizes := SizedSizes(structs);
    if sizes != [] {
      SizedSizesFromSized(structs, SeqMax(sizes));
    } else {
      assert forall i :: 0 <= i < |structs| ==> !structs[i].isSized;
    }
  }

  /** Unsized struct types never affect the result: removing one, wherever
      it stands, leaves the sizes the loop compares unchanged. */
  lemma UnsizedIgnored(a: seq<StructType>, st: StructType, b: seq<StructType>)
    requires !st.isSized
    ensures SizedSizes(a + [st] + b) == SizedSizes(a + b)
  {
    SizedSizesAppend(a + [st], b);
    SizedSizesAppend(a, [st]);
    SizedSizesAppend(a, b);
    assert SizedSizes([st]) == [] by {
      assert [st][..0] == [];
    }
  }

  /** The result does not depend on the order the struct types are visited in. */
  lemma LargestStructOrderIndependent(a: seq<StructType>, b: seq<StructType>)
    requires multiset(a) == multiset(b)
    ensures SeqMax(SizedSizes(a)) == SeqMax(SizedSizes(b))
  {
    forall x
      ensures x in SizedSizes(a) <==> x in SizedSizes(b)
    {
      if x in SizedSizes(a) {
        SizedSizesFromSized(a, x);
        var i :| 0 <= i < |a| && a[i].isSized && x == Narrow32(a[i].allocSize);
        assert a[i] in multiset(b);
        var j :| 0 <= j < |b| && b[j] == a[i];
      }
      if x in SizedSizes(b) {
        SizedSizesFromSized(b, x);
        var j :| 0 <= j < |b| && b[j].isSized && x == Narrow32(b[j].allocSize);
        assert b[j] in multiset(a);
        var i :| 0 <= i < |a| && a[i] == b[j];
      }
    }
    SeqMaxSameElements(SizedSizes(a), SizedSizes(b));
  }

  /** When every alloc size fits in 32 bits the narrowing loses nothing: the
      result is the largest alloc size of a sized struct, or 0. */
  lemma LargestStructExactWhenSmall(structs: seq<StructType>)
    requires forall i :: 0 <= i < |structs| ==> structs[i].allocSize < U32
    ensures forall i :: 0 <= i < |structs| && structs[i].isSized ==> structs[i].allocSize <= SeqMax(SizedSizes(structs))
    ensures SizedSizes(structs) != [] ==>
              exists i :: 0 <= i < |structs| && structs[i].isSized && SeqMax(SizedSizes(structs)) == structs[i].allocSize
  {
    var sizes := SizedSizes(structs);
    forall i | 0 <= i < |structs| && structs[i].isSized
      ensures structs[i].allocSize <= SeqMax(sizes)
    {
      assert Narrow32(structs[i].allocSize) in sizes;
    }
    if sizes != [] {
      SizedSizesFromSized(structs, SeqMax(sizes));
    }
  }

  /** `runOnModule`: computes the largest struct size (which the pass only
      writes out) and reports the module as unchanged. */
  method RunOnModule(structs: seq<StructType>) returns (changed: bool, largestST: nat)
    ensures !changed
    ensures largestST == SeqMax(SizedSizes(structs))
  {
    largestST := FindLargestStruct(structs);
    changed := false;
  }
}
