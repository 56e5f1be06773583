/** Navigation in the key order of an ordered map (the `std::map` the
    runtime keeps its ranges in): the least key at or above an address
    (`lower_bound`), the greatest key strictly below a bound (stepping an
    iterator back with `--`), and the greatest key at or below an address
    (the floor lookup). The keys are a finite set of naturals; the two
    methods find their answer by scanning that set. */
module OrderedKeys {
  import opened Common

  ghost function MaxOf(s: set<nat>): (r: nat)
    requires s != {}
    ensures r in s && forall x :: x in s ==> x <= r
    decreases s
  {
    var x :| x in s;
    if s == {x} then x
    else
      var m := MaxOf(s - {x});
      assert forall y :: y in s ==> y == x || y in s - {x};
      Max(x, m)
  }

  ghost function MinOf(s: set<nat>): (r: nat)
    requires s != {}
    ensures r in s && forall x :: x in s ==> r <= x
    decreases s
  {
    var x :| x in s;
    if s == {x} then x
    else
      var m := MinOf(s - {x});
      assert forall y :: y in s ==> y == x || y in s - {x};
      if x < m then x else m
  }

  /** `lower_bound(addr)`: the least key that is not below `addr`;
      None stands for the `end()` iterator. */
  ghost function LowerBoundOf(keys: set<nat>, addr: nat): (r: Option<nat>)
    ensures r.None? <==> forall k :: k in keys ==> k < addr
    ensures r.Some? ==> r.value in keys && addr <= r.value
    ensures r.Some? ==> forall k :: k in keys && addr <= k ==> r.value <= k
  {
    var above := set k | k in keys && addr <= k;
    assert forall k :: k in keys && addr <= k ==> k in above;
    if above == {} then None else Some(MinOf(above))
  }

  /** The greatest key strictly below `bound`; None when every key is at or
      above it, which is where an iterator would be stepped back from
      `begin()`. */
  ghost function PredecessorOf(keys: set<nat>, bound: nat): (r: Option<nat>)
    ensures r.None? <==> forall k :: k in keys ==> bound <= k
    ensures r.Some? ==> r.value in keys && r.value < bound
    ensures r.Some? ==> forall k :: k in keys && k < bound ==> k <= r.value
  {
    var below := set k | k in keys && k < bound;
    assert forall k :: k in keys && k < bound ==> k in below;
    if below == {} then None else Some(MaxOf(below))
  }

  /** The floor lookup: the greatest key at or below `addr`. */
  ghost function FloorOf(keys: set<nat>, addr: nat): (r: Option<nat>)
    ensures r.None? <==> forall k :: k in keys ==> addr < k
    ensures r.Some? ==> r.value in keys && r.value <= addr
    ensures r.Some? ==> forall k :: k in keys && k <= addr ==> k <= r.value
  {
    PredecessorOf(keys, addr + 1)
  }

  /** A key set has at most one least element above a bound. */
  lemma LowerBoundUnique(keys: set<nat>, addr: nat, a: nat)
    requires a in keys && addr <= a
    requires forall k :: k in keys && addr <= k ==> a <= k
    ensures LowerBoundOf(keys, addr) == Some(a)
  {
  }

  /** A key set has at most one greatest element below a bound. */
  lemma PredecessorUnique(keys: set<nat>, bound: nat, a: nat)
    requires a in keys && a < bound
    requires forall k :: k in keys && k < bound ==> k <= a
    ensures PredecessorOf(keys, bound) == Some(a)
  {
  }

  /** `lower_bound`, by one pass over the keys. */
  method LowerBound(keys: set<nat>, addr: nat) returns (lb: Option<nat>)
    ensures lb == LowerBoundOf(keys, addr)
  {
    lb := None;
    var rest := keys;
    while rest != {}
      invariant rest <= keys
      invariant lb.None? ==> forall k :: k in keys && k !in rest ==> k < addr
      invariant lb.Some? ==> lb.value in keys && addr <= lb.value
      invariant lb.Some? ==> forall k :: k in keys && k !in rest && addr <= k ==> lb.value <= k
      decreases rest
    {
      var k :| k in rest;
      if addr <= k && (lb.None? || k < lb.value) {
        lb := Some(k);
      }
      rest := rest - {k};
    }
    if lb.Some? {
      LowerBoundUnique(keys, addr, lb.value);
    }
  }

  /** Stepping back from the position of `bound`, by one pass over the keys:
      the greatest key below it, or None where there is none. */
  method Prev(keys: set<nat>, bound: nat) returns (p: Option<nat>)
    ensures p == PredecessorOf(keys, bound)
  {
    p := None;
    var rest := keys;
    while rest != {}
      invariant rest <= keys
      invariant p.None? ==> forall k :: k in keys && k !in rest ==> bound <= k
      invariant p.Some? ==> p.value in keys && p.value < bound
      invariant p.Some? ==> forall k :: k in keys && k !in rest && k < bound ==> k <= p.value
      decreases rest
    {
      var k :| k in rest;
      if k < bound && (p.None? || p.value < k) {
        p := Some(k);
      }
      rest := rest - {k};
    }
    if p.Some? {
      PredecessorUnique(keys, bound, p.value);
    }
  }

  /** How `lower_bound` followed by one step back finds the floor: an exact
      hit is its own floor; otherwise the key before the lower bound, or
      before `addr` when there is no lower bound, is the floor. */
  lemma {:induction false} FloorViaLowerBound(keys: set<nat>, addr: nat)
    ensures LowerBoundOf(keys, addr) == Some(addr) ==> FloorOf(keys, addr) == Some(addr)
    ensures LowerBoundOf(keys, addr).Some? && LowerBoundOf(keys, addr).value != addr ==>
              FloorOf(keys, addr) == PredecessorOf(keys, LowerBoundOf(keys, addr).value)
    ensures LowerBoundOf(keys, addr).None? ==> FloorOf(keys, addr) == PredecessorOf(keys, addr)
  {
    var lb := LowerBoundOf(keys, addr);
    var fl := FloorOf(keys, addr);
    match lb
    case Some(first) =>
      if first == addr {
        PredecessorUnique(keys, addr + 1, addr);
      } else {
        assert addr !in keys;
        var pr := PredecessorOf(keys, first);
        assert forall k :: k in keys && k < first ==> k < addr;
        match pr
        case None =>
          assert fl.None?;
        case Some(q) =>
          assert q < addr;
          PredecessorUnique(keys, addr + 1, q);
      }
    case None =>
      assert addr !in keys;
      var pr := PredecessorOf(keys, addr);
      match pr
      case None =>
        assert fl.None?;
      case Some(q) =>
        PredecessorUnique(keys, addr + 1, q);
  }
}
