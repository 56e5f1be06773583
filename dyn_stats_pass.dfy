/** The instrumentation pass itself (`instrument` and its helpers in
    llvm/lib/Transforms/Instrumentation/CheckedCDynStats.cpp): a scan that
    collects the call sites, then rewriting loops that insert the runtime
    hooks after each site, then the `atexit` registration in `main`. The
    module being rewritten is an object whose function list the methods
    update; each method is proved against the plan in DynStatsPlan. */
module DynStatsPass {
  import opened Common
  import opened DynStatsIR
  import opened DynStatsPlan

  /** A collected call site: the function and block it sits in, and the
      call itself (its identity, resolved callee and arguments). */
  datatype CallSite = CallSite(fn: nat, blk: nat, id: nat, callee: Callee, args: seq<Arg>)
  {
    function AsInst(): Inst {
      Call(id, Some(callee), args)
    }
  }

  /** An entry of `callsToLibArrayPtrs`: a call and its pointer-array arguments. */
  datatype ArrayCall = ArrayCall(site: CallSite, ptrs: seq<Value>)

  /** The three site lists the scan fills in. */
  datatype Sites = Sites(mallocs: seq<CallSite>, frees: seq<CallSite>, arrayCalls: seq<ArrayCall>)

  function ArraySites(calls: seq<ArrayCall>): (r: seq<CallSite>)
    ensures |r| == |calls| && forall k :: 0 <= k < |calls| ==> r[k] == calls[k].site
  {
    seq(|calls|, k requires 0 <= k < |calls| => calls[k].site)
  }

  /** Every collected call, in the order the rewriting loops visit them. */
  function AllSites(s: Sites): seq<CallSite> {
    s.mallocs + s.frees + ArraySites(s.arrayCalls)
  }

  predicate Located(m: seq<Function>, s: CallSite) {
    s.fn < |m| && s.blk < |m[s.fn].blocks| && s.AsInst() in m[s.fn].blocks[s.blk]
  }

  /** Every collected site is a call of the module, classified as the list
      it is in says. */
  ghost predicate SitesSound(m: seq<Function>, s: Sites) {
    && (forall k :: 0 <= k < |s.mallocs| ==>
          Located(m, s.mallocs[k]) && Classify(s.mallocs[k].AsInst()).Some? && Classify(s.mallocs[k].AsInst()).value.AllocSite?)
    && (forall k :: 0 <= k < |s.frees| ==>
          Located(m, s.frees[k]) && Classify(s.frees[k].AsInst()) == Some(FreeSite))
    && (forall k :: 0 <= k < |s.arrayCalls| ==>
          Located(m, s.arrayCalls[k].site) && Classify(s.arrayCalls[k].site.AsInst()) == Some(PtrArraySite(s.arrayCalls[k].ptrs)))
  }

  /** The site a position holds, if it holds a call with a resolved callee. */
  function SiteAt(m: seq<Function>, p: Pos): CallSite
    requires ValidPos(m, p) && At(m, p).Call? && At(m, p).callee.Some?
  {
    var i := At(m, p);
    CallSite(p.fn, p.blk, i.id, i.callee.value, i.args)
  }

  /** `p` comes before the scan's current position `(fi, bi, ii)`. */
  predicate Before(p: Pos, fi: nat, bi: nat, ii: nat) {
    p.fn < fi || (p.fn == fi && (p.blk < bi || (p.blk == bi && p.idx < ii)))
  }

  /** Every site before the given position has been collected. */
  ghost predicate CompleteUpTo(m: seq<Function>, s: Sites, fi: nat, bi: nat, ii: nat) {
    forall p :: ValidPos(m, p) && Before(p, fi, bi, ii) && Classify(At(m, p)).Some? ==>
      match Classify(At(m, p)).value
      case AllocSite(_) => SiteAt(m, p) in s.mallocs
      case FreeSite => SiteAt(m, p) in s.frees
      case PtrArraySite(ptrs) => ArrayCall(SiteAt(m, p), ptrs) in s.arrayCalls
  }

  ghost predicate SitesComplete(m: seq<Function>, s: Sites) {
    CompleteUpTo(m, s, |m|, 0, 0)
  }

  /** The site's call stands before the given position. */
  ghost predicate SiteBefore(m: seq<Function>, c: CallSite, fi: nat, bi: nat, ii: nat) {
    && c.fn < |m| && c.blk < |m[c.fn].blocks|
    && exists k :: 0 <= k < |m[c.fn].blocks[c.blk]| && m[c.fn].blocks[c.blk][k] == c.AsInst() && Before(Pos(c.fn, c.blk, k), fi, bi, ii)
  }

  /** No call is collected twice, in one list or across lists. */
  ghost predicate DistinctSites(all: seq<CallSite>) {
    forall i, j :: 0 <= i < j < |all| ==> all[i].id != all[j].id
  }

  /** What the scan knows at position `(fi, bi, ii)`. */
  ghost predicate ScanInv(m: seq<Function>, s: Sites, fi: nat, bi: nat, ii: nat) {
    && SitesSound(m, s)
    && CompleteUpTo(m, s, fi, bi, ii)
    && (forall k :: 0 <= k < |AllSites(s)| ==> SiteBefore(m, AllSites(s)[k], fi, bi, ii))
    && DistinctSites(AllSites(s))
  }

  /** The effect of scanning one instruction, as the classification decides. */
  function Record(s: Sites, site: CallSite): Sites {
    match Classify(site.AsInst())
    case None => s
    case Some(AllocSite(_)) => s.(mallocs := s.mallocs + [site])
    case Some(FreeSite) => s.(frees := s.frees + [site])
    case Some(PtrArraySite(ptrs)) => s.(arrayCalls := s.arrayCalls + [ArrayCall(site, ptrs)])
  }

  lemma DistinctInsert(all: seq<CallSite>, k: nat, c: CallSite)
    requires DistinctSites(all) && k <= |all|
    requires forall j :: 0 <= j < |all| ==> all[j].id != c.id
    ensures DistinctSites(all[..k] + [c] + all[k..])
  {
    var r := all[..k] + [c] + all[k..];
    forall i, j | 0 <= i < j < |r|
      ensures r[i].id != r[j].id
    {
      if i < k && j > k {
        assert r[i] == all[i] && r[j] == all[j - 1];
      } else if i > k {
        assert r[i] == all[i - 1] && r[j] == all[j - 1];
      } else if j < k {
        assert r[i] == all[i] && r[j] == all[j];
      }
    }
  }

  /** The call at the scan's position has not been collected yet. */
  lemma NotYetCollected(m: seq<Function>, s: Sites, fi: nat, bi: nat, ii: nat)
    requires UniqueCallIds(m)
    requires ValidPos(m, Pos(fi, bi, ii)) && At(m, Pos(fi, bi, ii)).Call?
    requires forall k :: 0 <= k < |AllSites(s)| ==> SiteBefore(m, AllSites(s)[k], fi, bi, ii)
    ensures forall k :: 0 <= k < |AllSites(s)| ==> AllSites(s)[k].id != At(m, Pos(fi, bi, ii)).id
  {
    var cur := Pos(fi, bi, ii);
    forall k | 0 <= k < |AllSites(s)|
      ensures AllSites(s)[k].id != At(m, cur).id
    {
      var c := AllSites(s)[k];
      var j :| 0 <= j < |m[c.fn].blocks[c.blk]| && m[c.fn].blocks[c.blk][j] == c.AsInst() && Before(Pos(c.fn, c.blk, j), fi, bi, ii);
      assert At(m, Pos(c.fn, c.blk, j)) == c.AsInst();
    }
  }

  /** Where `Record` puts a new site in the combined list. */
  function RecordSlot(s: Sites, site: CallSite): nat {
    match Classify(site.AsInst())
    case Some(AllocSite(_)) => |s.mallocs|
    case Some(FreeSite) => |s.mallocs| + |s.frees|
    case _ => |AllSites(s)|
  }

  lemma RecordAllSites(s: Sites, site: CallSite)
    ensures RecordSlot(s, site) <= |AllSites(s)|
    ensures Classify(site.AsInst()).None? ==> AllSites(Record(s, site)) == AllSites(s)
    ensures Classify(site.AsInst()).Some? ==>
              AllSites(Record(s, site)) == AllSites(s)[..RecordSlot(s, site)] + [site] + AllSites(s)[RecordSlot(s, site)..]
  {
    var all := AllSites(s);
    var r := Record(s, site);
    match Classify(site.AsInst())
    case None =>
    case Some(AllocSite(_)) =>
      assert r == s.(mallocs := s.mallocs + [site]);
      assert all == s.mallocs + (s.frees + ArraySites(s.arrayCalls));
      assert AllSites(r) == s.mallocs + [site] + (s.frees + ArraySites(s.arrayCalls));
      assert all[..|s.mallocs|] == s.mallocs;
      assert all[|s.mallocs|..] == s.frees + ArraySites(s.arrayCalls);
    case Some(FreeSite) =>
      assert r == s.(frees := s.frees + [site]);
      assert AllSites(r) == (s.mallocs + s.frees) + [site] + ArraySites(s.arrayCalls);
      assert all[..|s.mallocs| + |s.frees|] == s.mallocs + s.frees;
      assert all[|s.mallocs| + |s.frees|..] == ArraySites(s.arrayCalls);
    case Some(PtrArraySite(ptrs)) =>
      assert r == s.(arrayCalls := s.arrayCalls + [ArrayCall(site, ptrs)]);
      assert ArraySites(r.arrayCalls) == ArraySites(s.arrayCalls) + [site];
      assert all[..|all|] == all;
      assert all[|all|..] == [];
  }

  /** Recording keeps every list entry sound. */
  lemma RecordSound(m: seq<Function>, s: Sites, site: CallSite)
    requires SitesSound(m, s) && Located(m, site)
    ensures SitesSound(m, Record(s, site))
  {
  }

  /** Recording the call at the current position keeps the lists free of repeats. */
  lemma RecordDistinct(m: seq<Function>, s: Sites, fi: nat, bi: nat, ii: nat)
    requires UniqueCallIds(m)
    requires ValidPos(m, Pos(fi, bi, ii)) && At(m, Pos(fi, bi, ii)).Call? && At(m, Pos(fi, bi, ii)).callee.Some?
    requires forall k :: 0 <= k < |AllSites(s)| ==> SiteBefore(m, AllSites(s)[k], fi, bi, ii)
    requires DistinctSites(AllSites(s))
    ensures DistinctSites(AllSites(Record(s, SiteAt(m, Pos(fi, bi, ii)))))
  {
    var site := SiteAt(m, Pos(fi, bi, ii));
    NotYetCollected(m, s, fi, bi, ii);
    RecordAllSites(s, site);
    if Classify(site.AsInst()).Some? {
      DistinctInsert(AllSites(s), RecordSlot(s, site), site);
    }
  }

  /** An entry before a position is also before the next one. */
  lemma BeforeLater(m: seq<Function>, c: CallSite, fi: nat, bi: nat, ii: nat)
    requires SiteBefore(m, c, fi, bi, ii)
    ensures SiteBefore(m, c, fi, bi, ii + 1)
  {
    var j :| 0 <= j < |m[c.fn].blocks[c.blk]| && m[c.fn].blocks[c.blk][j] == c.AsInst() && Before(Pos(c.fn, c.blk, j), fi, bi, ii);
    assert Before(Pos(c.fn, c.blk, j), fi, bi, ii + 1);
  }

  /** After recording, every entry still stands before the next position. */
  lemma RecordBefore(m: seq<Function>, s: Sites, fi: nat, bi: nat, ii: nat)
    requires ValidPos(m, Pos(fi, bi, ii)) && At(m, Pos(fi, bi, ii)).Call? && At(m, Pos(fi, bi, ii)).callee.Some?
    requires forall k :: 0 <= k < |AllSites(s)| ==> SiteBefore(m, AllSites(s)[k], fi, bi, ii)
    ensures var s' := Record(s, SiteAt(m, Pos(fi, bi, ii)));
            forall k :: 0 <= k < |AllSites(s')| ==> SiteBefore(m, AllSites(s')[k], fi, bi, ii + 1)
  {
    var site := SiteAt(m, Pos(fi, bi, ii));
    var s' := Record(s, site);
    var all := AllSites(s);
    RecordAllSites(s, site);
    forall k | 0 <= k < |AllSites(s')|
      ensures SiteBefore(m, AllSites(s')[k], fi, bi, ii + 1)
    {
      if Classify(site.AsInst()).None? {
        BeforeLater(m, all[k], fi, bi, ii);
      } else {
        var slot := RecordSlot(s, site);
        InsertIndex(all, slot, site, k);
        if k < slot {
          BeforeLater(m, all[k], fi, bi, ii);
        } else if k == slot {
          assert m[site.fn].blocks[site.blk][ii] == site.AsInst() && Before(Pos(fi, bi, ii), fi, bi, ii + 1);
        } else {
          BeforeLater(m, all[k - 1], fi, bi, ii);
        }
      }
    }
  }

  /** After recording, every site up to and including the current position
      is collected. */
  lemma RecordComplete(m: seq<Function>, s: Sites, fi: nat, bi: nat, ii: nat)
    requires ValidPos(m, Pos(fi, bi, ii))
    requires CompleteUpTo(m, s, fi, bi, ii)
    ensures var i := At(m, Pos(fi, bi, ii));
            var s' := if i.Call? && i.callee.Some? then Record(s, SiteAt(m, Pos(fi, bi, ii))) else s;
            CompleteUpTo(m, s', fi, bi, ii + 1)
  {
    var cur := Pos(fi, bi, ii);
    var i := At(m, cur);
    var s' := if i.Call? && i.callee.Some? then Record(s, SiteAt(m, cur)) else s;
    forall p | ValidPos(m, p) && Before(p, fi, bi, ii + 1) && Classify(At(m, p)).Some?
      ensures match Classify(At(m, p)).value
              case AllocSite(_) => SiteAt(m, p) in s'.mallocs
              case FreeSite => SiteAt(m, p) in s'.frees
              case PtrArraySite(ptrs) => ArrayCall(SiteAt(m, p), ptrs) in s'.arrayCalls
    {
      if p == cur {
        assert SiteAt(m, p).AsInst() == i;
      } else {
        assert Before(p, fi, bi, ii);
      }
    }
  }

  /** Scanning the instruction at `(fi, bi, ii)` keeps the scan's knowledge. */
  lemma ScanStep(m: seq<Function>, s: Sites, fi: nat, bi: nat, ii: nat)
    requires WellFormed(m)
    requires ValidPos(m, Pos(fi, bi, ii))
    requires ScanInv(m, s, fi, bi, ii)
    ensures var i := At(m, Pos(fi, bi, ii));
            var s' := if i.Call? && i.callee.Some? then Record(s, SiteAt(m, Pos(fi, bi, ii))) else s;
            ScanInv(m, s', fi, bi, ii + 1)
  {
    var cur := Pos(fi, bi, ii);
    var i := At(m, cur);
    RecordComplete(m, s, fi, bi, ii);
    if i.Call? && i.callee.Some? {
      var site := SiteAt(m, cur);
      assert site.AsInst() == i;
      assert Located(m, site);
      RecordSound(m, s, site);
      RecordDistinct(m, s, fi, bi, ii);
      RecordBefore(m, s, fi, bi, ii);
    } else {
      forall k | 0 <= k < |AllSites(s)|
        ensures SiteBefore(m, AllSites(s)[k], fi, bi, ii + 1)
      {
        var c := AllSites(s)[k];
        var j :| 0 <= j < |m[c.fn].blocks[c.blk]| && m[c.fn].blocks[c.blk][j] == c.AsInst() && Before(Pos(c.fn, c.blk, j), fi, bi, ii);
        assert Before(Pos(c.fn, c.blk, j), fi, bi, ii + 1);
      }
    }
  }
  /** Moving the scan's position past positions that hold nothing keeps
      its knowledge. */
  lemma ScanMove(m: seq<Function>, s: Sites, fi: nat, bi: nat, ii: nat, fi': nat, bi': nat, ii': nat)
    requires ScanInv(m, s, fi, bi, ii)
    requires forall p :: ValidPos(m, p) ==> (Before(p, fi, bi, ii) <==> Before(p, fi', bi', ii'))
    ensures ScanInv(m, s, fi', bi', ii')
  {
    forall k | 0 <= k < |AllSites(s)|
      ensures SiteBefore(m, AllSites(s)[k], fi', bi', ii')
    {
      var c := AllSites(s)[k];
      var j :| 0 <= j < |m[c.fn].blocks[c.blk]| && m[c.fn].blocks[c.blk][j] == c.AsInst() && Before(Pos(c.fn, c.blk, j), fi, bi, ii);
      assert ValidPos(m, Pos(c.fn, c.blk, j));
    }
  }

  /** Passing over a function without a body. */
  lemma ScanSkipFunction(m: seq<Function>, s: Sites, fi: nat)
    requires fi < |m| && m[fi].blocks == [] && ScanInv(m, s, fi, 0, 0)
    ensures ScanInv(m, s, fi + 1, 0, 0)
  {
    ScanMove(m, s, fi, 0, 0, fi + 1, 0, 0);
  }

  /** Passing from the end of one block to the start of the next. */
  lemma ScanNextBlock(m: seq<Function>, s: Sites, fi: nat, bi: nat)
    requires fi < |m| && bi < |m[fi].blocks| && ScanInv(m, s, fi, bi, |m[fi].blocks[bi]|)
    ensures ScanInv(m, s, fi, bi + 1, 0)
  {
    ScanMove(m, s, fi, bi, |m[fi].blocks[bi]|, fi, bi + 1, 0);
  }

  /** Passing from the end of a function's last block to the next function. */
  lemma ScanNextFunction(m: seq<Function>, s: Sites, fi: nat)
    requires fi < |m| && ScanInv(m, s, fi, |m[fi].blocks|, 0)
    ensures ScanInv(m, s, fi + 1, 0, 0)
  {
    ScanMove(m, s, fi, |m[fi].blocks|, 0, fi + 1, 0, 0);
  }

  /** The scan's knowledge at the end: the lists hold every site and only sites. */
  lemma ScanDone(m: seq<Function>, s: Sites)
    requires ScanInv(m, s, |m|, 0, 0)
    ensures SitesSound(m, s) && SitesComplete(m, s) && DistinctSites(AllSites(s))
  {
  }

  /** The argument scan of the collection loop: every argument whose type
      is a pointer to a pointer, in argument order. */
  method CollectPtrArgs(args: seq<Arg>) returns (ptrs: seq<Value>)
    ensures ptrs == PtrArgs(args)
  {
    ptrs := [];
    for i := 0 to |args|
      invariant ptrs == PtrArgs(args[..i])
    {
      assert args[..i + 1][..i] == args[..i];
      if args[i].ty == PtrToPtr {
        ptrs := ptrs + [args[i].val];
      }
    }
    assert args[..|args|] == args;
  }

  /** The scan of one call: a direct call to an external, non-intrinsic
      function goes into the list its callee's name selects, a call passing
      pointer arrays together with them; any other call is passed over. */
  method CollectCall(fi: nat, bi: nat, inst: Inst, mallocs: seq<CallSite>, frees: seq<CallSite>, arrayCalls: seq<ArrayCall>)
    returns (mallocs': seq<CallSite>, frees': seq<CallSite>, arrayCalls': seq<ArrayCall>)
    requires inst.Call? && inst.callee.Some?
    ensures Sites(mallocs', frees', arrayCalls') ==
            Record(Sites(mallocs, frees, arrayCalls), CallSite(fi, bi, inst.id, inst.callee.value, inst.args))
  {
    mallocs', frees', arrayCalls' := mallocs, frees, arrayCalls;
    var callee := inst.callee.value;
    if callee.isDeclaration && !callee.isIntrinsic {
      var site := CallSite(fi, bi, inst.id, callee, inst.args);
      if callee.name in MallocFns {
        mallocs' := mallocs + [site];
      } else if callee.name == "free" {
        frees' := frees + [site];
      } else if callee.name !in LibFuncWL {
        var ptrs := CollectPtrArgs(inst.args);
        if ptrs != [] {
          arrayCalls' := arrayCalls + [ArrayCall(site, ptrs)];
        }
      }
    }
  }

  /** The collected ids cover every site of the module. */
  lemma CollectedIdsCover(m: seq<Function>, s: Sites, done: set<nat>)
    requires SitesComplete(m, s)
    requires done == set k | 0 <= k < |AllSites(s)| :: AllSites(s)[k].id
    ensures forall p :: ValidPos(m, p) && Classify(At(m, p)).Some? ==> At(m, p).id in done
  {
    var all := AllSites(s);
    forall p | ValidPos(m, p) && Classify(At(m, p)).Some?
      ensures At(m, p).id in done
    {
      var c := SiteAt(m, p);
      assert Before(p, |m|, 0, 0);
      match Classify(At(m, p)).value
      case AllocSite(_) =>
        var k :| 0 <= k < |s.mallocs| && s.mallocs[k] == c;
        assert all[k] == c;
      case FreeSite =>
        var k :| 0 <= k < |s.frees| && s.frees[k] == c;
        assert all[|s.mallocs| + k] == c;
      case PtrArraySite(ptrs) =>
        var k :| 0 <= k < |s.arrayCalls| && s.arrayCalls[k] == ArrayCall(c, ptrs);
        assert all[|s.mallocs| + |s.frees| + k] == c;
    }
  }

  /** Some site was collected exactly when the module has a site. */
  lemma CollectedAnyIff(m: seq<Function>, s: Sites)
    requires SitesSound(m, s) && SitesComplete(m, s)
    ensures AllSites(s) != [] <==> HasSite(m)
  {
    var all := AllSites(s);
    if all != [] {
      var c := all[0];
      var sound: bool := if |s.mallocs| > 0 then Located(m, s.mallocs[0]) && Classify(s.mallocs[0].AsInst()).Some?
                         else if |s.frees| > 0 then Located(m, s.frees[0]) && Classify(s.frees[0].AsInst()).Some?
                         else Located(m, s.arrayCalls[0].site) && Classify(s.arrayCalls[0].site.AsInst()).Some?;
      assert sound && Located(m, c) && Classify(c.AsInst()).Some?;
      var b := m[c.fn].blocks[c.blk];
      var k :| 0 <= k < |b| && b[k] == c.AsInst();
      assert ValidPos(m, Pos(c.fn, c.blk, k)) && At(m, Pos(c.fn, c.blk, k)) == c.AsInst();
    }
    if exists p :: ValidPos(m, p) && Classify(At(m, p)).Some? {
      var p :| ValidPos(m, p) && Classify(At(m, p)).Some?;
      assert Before(p, |m|, 0, 0);
      match Classify(At(m, p)).value
      case AllocSite(_) =>
      case FreeSite =>
      case PtrArraySite(ptrs) =>
        assert ArrayCall(SiteAt(m, p), ptrs) in s.arrayCalls;
    }
  }

  /** The identities of the first `n` collected sites. */
  ghost function DoneUpTo(all: seq<CallSite>, n: nat): set<nat>
    requires n <= |all|
  {
    set k | 0 <= k < n :: all[k].id
  }

  /** The next site's identity is not yet done, and adding it extends the
      done set by one more site. */
  lemma NextIdFresh(all: seq<CallSite>, n: nat)
    requires DistinctSites(all) && n < |all|
    ensures all[n].id !in DoneUpTo(all, n)
    ensures DoneUpTo(all, n) + {all[n].id} == DoneUpTo(all, n + 1)
  {
    var done := DoneUpTo(all, n);
    var next := DoneUpTo(all, n + 1);
    forall x | x in next
      ensures x in done + {all[n].id}
    {
      var k :| 0 <= k < n + 1 && all[k].id == x;
      if k < n {
        assert x in done;
      }
    }
  }

  /** A collected site carries the arguments its handler reads, and what
      its handler inserts is the site's planned suffix. */
  lemma SiteSuffix(m: seq<Function>, site: CallSite)
    requires WellFormed(m) && Located(m, site) && Classify(site.AsInst()).Some?
    ensures ArityOk(site.AsInst())
    ensures Classify(site.AsInst()).value.AllocSite? ==>
              && site.callee.name in MallocFns
              && |site.args| >= ArgsNeeded(FamilyOf(site.callee.name))
              && Suffix(site.AsInst()) == AllocHooks(FamilyOf(site.callee.name), site.id, ArgValues(site.args))
    ensures Classify(site.AsInst()) == Some(FreeSite) ==>
              |site.args| >= 1 && Suffix(site.AsInst()) == [HookCall(RemoveObjRange, [site.args[0].val])]
    ensures Classify(site.AsInst()).value.PtrArraySite? ==>
              Suffix(site.AsInst()) == CastHooks(Classify(site.AsInst()).value.ptrs)
  {
    var b := m[site.fn].blocks[site.blk];
    var k :| 0 <= k < |b| && b[k] == site.AsInst();
    assert WellFormedBlock(b);
  }

  /** One rewriting step: the site's call is found in its block of `cur`,
      and inserting `hooks` right after the call gives `next`. */
  ghost predicate Step(cur: seq<Function>, site: CallSite, hooks: seq<Inst>, next: seq<Function>) {
    && site.fn < |cur| && site.blk < |cur[site.fn].blocks|
    && IndexOfCall(cur[site.fn].blocks[site.blk], site.id) < |cur[site.fn].blocks[site.blk]|
    && next == UpdateBlock(cur, site.fn, site.blk, InsertAfterCall(cur[site.fn].blocks[site.blk], site.id, hooks))
  }

  /** With the sites before position `n` instrumented, inserting the `n`-th
      site's suffix right after its call instruments that site too. */
  lemma SiteStep(m: seq<Function>, all: seq<CallSite>, n: nat, site: CallSite)
    requires WellFormed(m) && DistinctSites(all) && n < |all| && all[n] == site
    requires Located(m, site) && Classify(site.AsInst()).Some?
    ensures ArityOk(site.AsInst())
    ensures Step(ExpandModule(m, DoneUpTo(all, n)), site, Suffix(site.AsInst()), ExpandModule(m, DoneUpTo(all, n + 1)))
  {
    SiteSuffix(m, site);
    NextIdFresh(all, n);
    ModuleInsertStep(m, DoneUpTo(all, n), site.fn, site.blk, site.AsInst());
  }

  /** Where each list sits in the combined list. */
  lemma AllSitesAt(s: Sites, k: nat)
    ensures |AllSites(s)| == |s.mallocs| + |s.frees| + |s.arrayCalls|
    ensures k < |s.mallocs| ==> AllSites(s)[k] == s.mallocs[k]
    ensures k < |s.frees| ==> AllSites(s)[|s.mallocs| + k] == s.frees[k]
    ensures k < |s.arrayCalls| ==> AllSites(s)[|s.mallocs| + |s.frees| + k] == s.arrayCalls[k].site
  {
  }

  /** Every entry of the combined list is a located call the pass
      instruments. */
  lemma AllSitesLocated(m: seq<Function>, s: Sites, n: nat)
    requires SitesSound(m, s) && n < |AllSites(s)|
    ensures Located(m, AllSites(s)[n]) && Classify(AllSites(s)[n].AsInst()).Some?
  {
    var p, q := |s.mallocs|, |s.mallocs| + |s.frees|;
    if n < p {
      assert AllSites(s)[n] == s.mallocs[n];
    } else if n < q {
      assert AllSites(s)[n] == s.frees[n - p];
    } else {
      assert AllSites(s)[n] == s.arrayCalls[n - q].site;
    }
  }

  /** The module after the first `n` collected sites are instrumented. */
  ghost function Stage(m: seq<Function>, s: Sites, n: nat): seq<Function>
    requires BlocksArityOk(m) && n <= |AllSites(s)|
  {
    ExpandModule(m, DoneUpTo(AllSites(s), n))
  }

  /** The `n`-th collected site is one step from a stage to the next,
      inserting its planned suffix. */
  lemma StageStep(m: seq<Function>, s: Sites, n: nat)
    requires WellFormed(m) && SitesSound(m, s) && DistinctSites(AllSites(s)) && n < |AllSites(s)|
    ensures ArityOk(AllSites(s)[n].AsInst())
    ensures Step(Stage(m, s, n), AllSites(s)[n], Suffix(AllSites(s)[n].AsInst()), Stage(m, s, n + 1))
  {
    AllSitesLocated(m, s, n);
    SiteStep(m, AllSites(s), n, AllSites(s)[n]);
  }

  /** Nothing instrumented is the module as it was; everything instrumented
      is the fully planned module. */
  lemma StageEnds(m: seq<Function>, s: Sites)
    requires BlocksArityOk(m) && SitesComplete(m, s)
    ensures Stage(m, s, 0) == m
    ensures Stage(m, s, |AllSites(s)|) == PlannedModule(m)
  {
    var all := AllSites(s);
    ExpandModuleNothing(m);
    assert DoneUpTo(all, 0) == {};
    CollectedIdsCover(m, s, DoneUpTo(all, |all|));
    ExpandModuleComplete(m, DoneUpTo(all, |all|));
  }

  /** The stages the rewriting goes through: from the module as it was,
      one step per collected site, to the fully planned module. */
  lemma Stages(m: seq<Function>, s: Sites) returns (st: seq<seq<Function>>)
    requires WellFormed(m) && SitesSound(m, s) && SitesComplete(m, s) && DistinctSites(AllSites(s))
    ensures |st| == |AllSites(s)| + 1 && st[0] == m && st[|AllSites(s)|] == PlannedModule(m)
    ensures forall n :: 0 <= n < |AllSites(s)| ==>
              ArityOk(AllSites(s)[n].AsInst()) &&
              Step(st[n], AllSites(s)[n], Suffix(AllSites(s)[n].AsInst()), st[n + 1])
  {
    StageEnds(m, s);
    st := seq(|AllSites(s)| + 1, n requires 0 <= n <= |AllSites(s)| => Stage(m, s, n));
    forall n | 0 <= n < |AllSites(s)|
      ensures ArityOk(AllSites(s)[n].AsInst()) &&
              Step(st[n], AllSites(s)[n], Suffix(AllSites(s)[n].AsInst()), st[n + 1])
    {
      assert st[n] == Stage(m, s, n) && st[n + 1] == Stage(m, s, n + 1);
      StageStep(m, s, n);
    }
  }

  /** What each handler inserts is the planned suffix of its site. */
  lemma SitesHooks(m: seq<Function>, s: Sites)
    requires WellFormed(m) && SitesSound(m, s)
    ensures forall k :: 0 <= k < |s.mallocs| ==>
              var site := s.mallocs[k];
              && site.callee.name in MallocFns
              && |site.args| >= ArgsNeeded(FamilyOf(site.callee.name))
              && ArityOk(site.AsInst())
              && Suffix(site.AsInst()) == AllocHooks(FamilyOf(site.callee.name), site.id, ArgValues(site.args))
    ensures forall k :: 0 <= k < |s.frees| ==>
              var site := s.frees[k];
              && |site.args| >= 1 && ArityOk(site.AsInst())
              && Suffix(site.AsInst()) == [HookCall(RemoveObjRange, [site.args[0].val])]
    ensures forall k :: 0 <= k < |s.arrayCalls| ==>
              var site := s.arrayCalls[k].site;
              && ArityOk(site.AsInst())
              && Suffix(site.AsInst()) == CastHooks(s.arrayCalls[k].ptrs)
  {
    forall k | 0 <= k < |s.mallocs| {
      SiteSuffix(m, s.mallocs[k]);
    }
    forall k | 0 <= k < |s.frees| {
      SiteSuffix(m, s.frees[k]);
    }
    forall k | 0 <= k < |s.arrayCalls| {
      SiteSuffix(m, s.arrayCalls[k].site);
    }
  }

  /** The malloc loop's step for one site: its allocation hooks go right
      after its call. */
  ghost predicate MallocStep(cur: seq<Function>, site: CallSite, next: seq<Function>) {
    && site.callee.name in MallocFns
    && |site.args| >= ArgsNeeded(FamilyOf(site.callee.name))
    && Step(cur, site, AllocHooks(FamilyOf(site.callee.name), site.id, ArgValues(site.args)), next)
  }

  /** The free loop's step for one site: a `removeObjRange` hook on the
      freed pointer goes right after the call. */
  ghost predicate FreeStep(cur: seq<Function>, site: CallSite, next: seq<Function>) {
    |site.args| >= 1 && Step(cur, site, [HookCall(RemoveObjRange, [site.args[0].val])], next)
  }

  /** The pointer-array loop's step for one call: the casts of its pointer
      arrays go right after the call. */
  ghost predicate ArrayCallStep(cur: seq<Function>, entry: ArrayCall, next: seq<Function>) {
    Step(cur, entry.site, CastHooks(entry.ptrs), next)
  }

  /** In the stages of the rewriting, each malloc site is a malloc-loop step. */
  lemma MallocSteps(s: Sites, st: seq<seq<Function>>)
    requires |st| == |AllSites(s)| + 1
    requires forall n :: 0 <= n < |AllSites(s)| ==>
               ArityOk(AllSites(s)[n].AsInst()) &&
               Step(st[n], AllSites(s)[n], Suffix(AllSites(s)[n].AsInst()), st[n + 1])
    requires forall k :: 0 <= k < |s.mallocs| ==>
               var site := s.mallocs[k];
               && site.callee.name in MallocFns
               && |site.args| >= ArgsNeeded(FamilyOf(site.callee.name))
               && ArityOk(site.AsInst())
               && Suffix(site.AsInst()) == AllocHooks(FamilyOf(site.callee.name), site.id, ArgValues(site.args))
    ensures forall k :: 0 <= k < |s.mallocs| ==> MallocStep(st[k], s.mallocs[k], st[k + 1])
  {
    forall k | 0 <= k < |s.mallocs|
      ensures MallocStep(st[k], s.mallocs[k], st[k + 1])
    {
      AllSitesAt(s, k);
      assert Step(st[k], AllSites(s)[k], Suffix(AllSites(s)[k].AsInst()), st[k + 1]);
    }
  }

  /** In the stages of the rewriting, each free site is a free-loop step. */
  lemma FreeSteps(s: Sites, st: seq<seq<Function>>)
    requires |st| == |AllSites(s)| + 1
    requires forall n :: 0 <= n < |AllSites(s)| ==>
               ArityOk(AllSites(s)[n].AsInst()) &&
               Step(st[n], AllSites(s)[n], Suffix(AllSites(s)[n].AsInst()), st[n + 1])
    requires forall k :: 0 <= k < |s.frees| ==>
               var site := s.frees[k];
               && |site.args| >= 1 && ArityOk(site.AsInst())
               && Suffix(site.AsInst()) == [HookCall(RemoveObjRange, [site.args[0].val])]
    ensures |s.mallocs| + |s.frees| < |st|
    ensures forall k :: 0 <= k < |s.frees| ==> FreeStep(st[|s.mallocs| + k], s.frees[k], st[|s.mallocs| + k + 1])
  {
    AllSitesAt(s, 0);
    forall k | 0 <= k < |s.frees|
      ensures FreeStep(st[|s.mallocs| + k], s.frees[k], st[|s.mallocs| + k + 1])
    {
      var n := |s.mallocs| + k;
      AllSitesAt(s, k);
      assert Step(st[n], AllSites(s)[n], Suffix(AllSites(s)[n].AsInst()), st[n + 1]);
    }
  }

  /** In the stages of the rewriting, each call passing pointer arrays is a
      pointer-array-loop step. */
  lemma ArrayCallSteps(s: Sites, st: seq<seq<Function>>)
    requires |st| == |AllSites(s)| + 1
    requires forall n :: 0 <= n < |AllSites(s)| ==>
               ArityOk(AllSites(s)[n].AsInst()) &&
               Step(st[n], AllSites(s)[n], Suffix(AllSites(s)[n].AsInst()), st[n + 1])
    requires forall k :: 0 <= k < |s.arrayCalls| ==>
               var site := s.arrayCalls[k].site;
               && ArityOk(site.AsInst())
               && Suffix(site.AsInst()) == CastHooks(s.arrayCalls[k].ptrs)
    ensures |st| == |s.mallocs| + |s.frees| + |s.arrayCalls| + 1
    ensures forall k :: 0 <= k < |s.arrayCalls| ==>
              ArrayCallStep(st[|s.mallocs| + |s.frees| + k], s.arrayCalls[k], st[|s.mallocs| + |s.frees| + k + 1])
  {
    AllSitesAt(s, 0);
    forall k | 0 <= k < |s.arrayCalls|
      ensures ArrayCallStep(st[|s.mallocs| + |s.frees| + k], s.arrayCalls[k], st[|s.mallocs| + |s.frees| + k + 1])
    {
      var n := |s.mallocs| + |s.frees| + k;
      AllSitesAt(s, k);
      assert Step(st[n], AllSites(s)[n], Suffix(AllSites(s)[n].AsInst()), st[n + 1]);
    }
  }

  /** The stages the three rewriting loops go through one after the other:
      from the module as it was to the fully planned module, first a step
      per malloc site, then per free, then per call passing pointer arrays. */
  lemma RewriteStages(m: seq<Function>, s: Sites) returns (st: seq<seq<Function>>)
    requires WellFormed(m) && SitesSound(m, s) && SitesComplete(m, s) && DistinctSites(AllSites(s))
    ensures |st| == |s.mallocs| + |s.frees| + |s.arrayCalls| + 1
    ensures st[0] == m && st[|s.mallocs| + |s.frees| + |s.arrayCalls|] == PlannedModule(m)
    ensures forall k :: 0 <= k < |s.mallocs| ==> MallocStep(st[k], s.mallocs[k], st[k + 1])
    ensures forall k :: 0 <= k < |s.frees| ==> FreeStep(st[|s.mallocs| + k], s.frees[k], st[|s.mallocs| + k + 1])
    ensures forall k :: 0 <= k < |s.arrayCalls| ==>
              ArrayCallStep(st[|s.mallocs| + |s.frees| + k], s.arrayCalls[k], st[|s.mallocs| + |s.frees| + k + 1])
  {
    st := Stages(m, s);
    SitesHooks(m, s);
    MallocSteps(s, st);
    FreeSteps(s, st);
    ArrayCallSteps(s, st);
  }

  /** A module under instrumentation: its list of functions is what the
      pass rewrites in place. */
  class IRModule {
    var functions: seq<Function>

    constructor (fs: seq<Function>)
      ensures functions == fs
    {
      functions := fs;
    }

    /** The collection loop of `instrument`: every defined function, every
        block, every instruction; a direct call to an external non-intrinsic
        function goes to `mallocs` (malloc family), `frees` (`free`) or, unless
        whitelisted, to `arrayCalls` when some argument is a pointer to a
        pointer. */
    method CollectSites() returns (mallocs: seq<CallSite>, frees: seq<CallSite>, arrayCalls: seq<ArrayCall>)
      requires WellFormed(functions)
      ensures SitesSound(functions, Sites(mallocs, frees, arrayCalls))
      ensures SitesComplete(functions, Sites(mallocs, frees, arrayCalls))
      ensures DistinctSites(AllSites(Sites(mallocs, frees, arrayCalls)))
    {
      mallocs, frees, arrayCalls := [], [], [];
      var m := functions;
      for fi := 0 to |m|
        invariant ScanInv(m, Sites(mallocs, frees, arrayCalls), fi, 0, 0)
      {
        var f := m[fi];
        if !f.hasBody {
          ScanSkipFunction(m, Sites(mallocs, frees, arrayCalls), fi);
          continue;
        }
        for bi := 0 to |f.blocks|
          invariant ScanInv(m, Sites(mallocs, frees, arrayCalls), fi, bi, 0)
        {
          var b := f.blocks[bi];
          for ii := 0 to |b|
            invariant ScanInv(m, Sites(mallocs, frees, arrayCalls), fi, bi, ii)
          {
            ghost var before := Sites(mallocs, frees, arrayCalls);
            ScanStep(m, before, fi, bi, ii);
            var inst := b[ii];
            if inst.Call? && inst.callee.Some? {
              assert CallSite(fi, bi, inst.id, inst.callee.value, inst.args) == SiteAt(m, Pos(fi, bi, ii));
              mallocs, frees, arrayCalls := CollectCall(fi, bi, inst, mallocs, frees, arrayCalls);
            }
          }
          ScanNextBlock(m, Sites(mallocs, frees, arrayCalls), fi, bi);
        }
        ScanNextFunction(m, Sites(mallocs, frees, arrayCalls), fi);
      }
      ScanDone(m, Sites(mallocs, frees, arrayCalls));
    }

    /** `handleMalloc`: right after the call, the multiply when the size is
        a product of operands that are not both constants (two constants are
        folded by the builder into their 64-bit product), then `_record_alloc(result, size)` for malloc and calloc
        or `_record_realloc(arg0, result, size)` for realloc and reallocarray.
        The builder inserts each new instruction before the one that followed
        the call, so they come out in creation order. */
    method HandleMalloc(site: CallSite)
      requires site.fn < |functions| && site.blk < |functions[site.fn].blocks|
      requires IndexOfCall(functions[site.fn].blocks[site.blk], site.id) < |functions[site.fn].blocks[site.blk]|
      requires site.callee.name in MallocFns
      requires |site.args| >= ArgsNeeded(FamilyOf(site.callee.name))
      modifies this
      ensures functions == UpdateBlock(old(functions), site.fn, site.blk,
                InsertAfterCall(old(functions)[site.fn].blocks[site.blk], site.id,
                  AllocHooks(FamilyOf(site.callee.name), site.id, ArgValues(site.args))))
    {
      var b := functions[site.fn].blocks[site.blk];
      ghost var b0 := b;
      var at := IndexOfCall(b, site.id) + 1;
      ghost var at0 := at;
      ghost var hooks := AllocHooks(FamilyOf(site.callee.name), site.id, ArgValues(site.args));
      var f := FamilyOf(site.callee.name);
      var vals := ArgValues(site.args);
      var size := SizeOperandOf(f, vals);
      if size.Multiplied? && !Folds(size.a, size.b) {
        b := b[..at] + [Mul(size.a, size.b)] + b[at..];
        at := at + 1;
      }
      assert b[..at] == b0[..at0] + hooks[..|hooks| - 1] && b[at..] == b0[at0..];
      var hook := if f == Malloc || f == Calloc then HookCall(RecordAlloc, [ResultOf(site.id), SizeValue(size)])
                  else HookCall(RecordRealloc, [vals[0], ResultOf(site.id), SizeValue(size)]);
      b := b[..at] + [hook] + b[at..];
      assert hooks == hooks[..|hooks| - 1] + [hooks[|hooks| - 1]];
      assert b == b0[..at0] + hooks + b0[at0..];
      functions := UpdateBlock(functions, site.fn, site.blk, b);
    }

    /** The body of the loop over `frees`: `_remove_obj_range(arg0)` right
        after the call. */
    method HandleFree(site: CallSite)
      requires site.fn < |functions| && site.blk < |functions[site.fn].blocks|
      requires IndexOfCall(functions[site.fn].blocks[site.blk], site.id) < |functions[site.fn].blocks[site.blk]|
      requires |site.args| >= 1
      modifies this
      ensures functions == UpdateBlock(old(functions), site.fn, site.blk,
                InsertAfterCall(old(functions)[site.fn].blocks[site.blk], site.id,
                  [HookCall(RemoveObjRange, [site.args[0].val])]))
    {
      var b := functions[site.fn].blocks[site.blk];
      var ptr := site.args[0].val;
      var at := IndexOfCall(b, site.id) + 1;
      b := b[..at] + [HookCall(RemoveObjRange, [ptr])] + b[at..];
      functions := UpdateBlock(functions, site.fn, site.blk, b);
    }

    /** The body of the loop over `callsToLibArrayPtrs`: for each pointer
        array, a bitcast placed before the instruction that now follows the
        call, and `_cal_array_size` of the cast right after the bitcast. The
        call does not move, so the place after it is computed once. */
    method HandleArrayCall(entry: ArrayCall)
      requires entry.site.fn < |functions| && entry.site.blk < |functions[entry.site.fn].blocks|
      requires IndexOfCall(functions[entry.site.fn].blocks[entry.site.blk], entry.site.id) < |functions[entry.site.fn].blocks[entry.site.blk]|
      modifies this
      ensures functions == UpdateBlock(old(functions), entry.site.fn, entry.site.blk,
                InsertAfterCall(old(functions)[entry.site.fn].blocks[entry.site.blk], entry.site.id, CastHooks(entry.ptrs)))
    {
      var site := entry.site;
      var b := functions[site.fn].blocks[site.blk];
      ghost var b0 := b;
      var at := IndexOfCall(b, site.id) + 1;
      assert |b0[..at]| == at;
      for t := 0 to |entry.ptrs|
        invariant functions == old(functions)
        invariant b == b0[..at] + CastHooks(entry.ptrs[..t]) + b0[at..]
      {
        var ptr := entry.ptrs[t];
        CastHooksSnoc(entry.ptrs, t);
        InsertPair(b0[..at], CastHooks(entry.ptrs[..t]), b0[at..], BitCast(ptr), HookCall(CalArraySize, [Cast(ptr)]), b);
        b := b[..at] + [BitCast(ptr)] + b[at..];
        b := b[..at + 1] + [HookCall(CalArraySize, [Cast(ptr)])] + b[at + 1..];
      }
      assert entry.ptrs[..|entry.ptrs|] == entry.ptrs;
      functions := UpdateBlock(functions, site.fn, site.blk, b);
    }

    /** `insertCallToStatSummary`: nothing in a module without `main`;
        otherwise `atexit(_dump_summary)` before the first non-PHI
        instruction of main's entry block. */
    method InsertCallToStatSummary()
      requires MainHasBody(functions)
      modifies this
      ensures functions == RegisterAtExit(old(functions))
    {
      var mainFn := FindFunction(functions, "main");
      if mainFn.None? {
        return;
      }
      var mi := mainFn.value;
      var entry := functions[mi].blocks[0];
      var k := FirstNonPhi(entry);
      if k < |entry| {
        functions := UpdateBlock(functions, mi, 0, entry[..k] + [AtExitCall()] + entry[k..]);
      }
    }

    /** The loop over `mallocs`: `handleMalloc` for each, so that the module
        goes through the stages `st`, one step per site. */
    method HandleMallocs(mallocs: seq<CallSite>, ghost st: seq<seq<Function>>)
      requires |mallocs| < |st| && functions == st[0]
      requires forall k :: 0 <= k < |mallocs| ==> MallocStep(st[k], mallocs[k], st[k + 1])
      modifies this
      ensures functions == st[|mallocs|]
    {
      for i := 0 to |mallocs|
        invariant functions == st[i]
      {
        assert MallocStep(st[i], mallocs[i], st[i + 1]);
        HandleMalloc(mallocs[i]);
      }
    }

    /** The loop over the collected frees, from stage `off` on. */
    method HandleFrees(frees: seq<CallSite>, ghost st: seq<seq<Function>>, ghost off: nat)
      requires off + |frees| < |st| && functions == st[off]
      requires forall k :: 0 <= k < |frees| ==> FreeStep(st[off + k], frees[k], st[off + k + 1])
      modifies this
      ensures functions == st[off + |frees|]
    {
      for i := 0 to |frees|
        invariant functions == st[off + i]
      {
        assert FreeStep(st[off + i], frees[i], st[off + i + 1]);
        HandleFree(frees[i]);
      }
    }

    /** The loop over `callsToLibArrayPtrs`, from stage `off` on. */
    method HandleArrayCalls(arrayCalls: seq<ArrayCall>, ghost st: seq<seq<Function>>, ghost off: nat)
      requires off + |arrayCalls| < |st| && functions == st[off]
      requires forall k :: 0 <= k < |arrayCalls| ==> ArrayCallStep(st[off + k], arrayCalls[k], st[off + k + 1])
      modifies this
      ensures functions == st[off + |arrayCalls|]
    {
      for i := 0 to |arrayCalls|
        invariant functions == st[off + i]
      {
        assert ArrayCallStep(st[off + i], arrayCalls[i], st[off + i + 1]);
        HandleArrayCall(arrayCalls[i]);
      }
    }

    /** The three rewriting loops of `instrument`, one after the other:
        together they turn the module into its fully planned form. */
    method InstrumentSites(mallocs: seq<CallSite>, frees: seq<CallSite>, arrayCalls: seq<ArrayCall>)
      requires WellFormed(functions)
      requires SitesSound(functions, Sites(mallocs, frees, arrayCalls))
      requires SitesComplete(functions, Sites(mallocs, frees, arrayCalls))
      requires DistinctSites(AllSites(Sites(mallocs, frees, arrayCalls)))
      modifies this
      ensures functions == PlannedModule(old(functions))
    {
      ghost var orig := functions;
      var sites := Sites(mallocs, frees, arrayCalls);
      ghost var st := RewriteStages(orig, sites);
      HandleMallocs(sites.mallocs, st);
      HandleFrees(sites.frees, st, |sites.mallocs|);
      HandleArrayCalls(sites.arrayCalls, st, |sites.mallocs| + |sites.frees|);
    }

    /** `instrument`: collect the sites, instrument the malloc-family calls,
        then the frees, then the calls passing pointer arrays, then register
        the summary with `atexit`. The result is the fully planned module
        with the `atexit` call in `main`, and the pass reports a change
        exactly when the module has at least one site. */
    method Instrument() returns (changed: bool)
      requires WellFormed(functions)
      requires MainHasBody(functions)
      modifies this
      ensures functions == InstrumentedModule(old(functions))
      ensures changed <==> HasSite(old(functions))
    {
      var mallocs, frees, arrayCalls := CollectSites();
      CollectedAnyIff(functions, Sites(mallocs, frees, arrayCalls));
      changed := |mallocs| != 0 || |frees| != 0 || |arrayCalls| != 0;
      PlannedKeepsNames(functions);
      InstrumentSites(mallocs, frees, arrayCalls);
      InsertCallToStatSummary();
    }

    /** `instrument` with the report the pass manager relies on: a change is
        reported exactly when the module was changed, which includes the
        `atexit` registered in `main`. */
    method InstrumentReportingChange() returns (changed: bool)
      requires WellFormed(functions)
      requires MainHasBody(functions)
      modifies this
      ensures functions == InstrumentedModule(old(functions))
      ensures changed <==> functions != old(functions)
      ensures changed <==> Changes(old(functions))
    {
      var hasMain := FindFunction(functions, "main").Some?;
      InstrumentChangesIff(functions);
      changed := Instrument();
      changed := changed || hasMain;
    }
  }
}
