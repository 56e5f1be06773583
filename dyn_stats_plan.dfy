/** The whole-module view of the instrumentation pass
    (llvm/lib/Transforms/Instrumentation/CheckedCDynStats.cpp): what a
    well-formed module looks like, what the module looks like once some of
    its sites have been instrumented, what it looks like when the pass is
    done, and the facts that let the pass's step-by-step rewriting be
    proved against that final picture. */
module DynStatsPlan {
  import opened Common
  import opened DynStatsIR

  /** An instruction's place: function, block within it, index within that. */
  datatype Pos = Pos(fn: nat, blk: nat, idx: nat)

  predicate ValidPos(m: seq<Function>, p: Pos) {
    p.fn < |m| && p.blk < |m[p.fn].blocks| && p.idx < |m[p.fn].blocks[p.blk]|
  }

  function At(m: seq<Function>, p: Pos): Inst
    requires ValidPos(m, p)
  {
    m[p.fn].blocks[p.blk][p.idx]
  }

  predicate CallWithId(i: Inst, id: nat) {
    i.Call? && i.id == id
  }

  /** A call's identity names one instruction of the module. */
  ghost predicate UniqueCallIds(m: seq<Function>) {
    forall p, q :: ValidPos(m, p) && ValidPos(m, q) && At(m, p).Call? && CallWithId(At(m, q), At(m, p).id) ==> p == q
  }

  /** A block as the pass receives it: closed by a terminator, every
      classified call carrying the arguments its handler reads, and nothing
      the pass itself creates. */
  predicate WellFormedBlock(b: Block) {
    && b != [] && b[|b| - 1].Term?
    && forall k :: 0 <= k < |b| ==> ArityOk(b[k]) && !IsInserted(b[k])
  }

  predicate BlocksArityOk(m: seq<Function>) {
    forall fi, bi :: 0 <= fi < |m| && 0 <= bi < |m[fi].blocks| ==> AllArityOk(m[fi].blocks[bi])
  }

  /** A call's callee is a function of the module: when the module has a
      function of the callee's name, the call sees it as a declaration
      exactly when that function has no body. */
  ghost predicate CalleesAgree(m: seq<Function>) {
    forall p: Pos, fj ::
      && ValidPos(m, p) && At(m, p).Call? && At(m, p).callee.Some?
      && 0 <= fj < |m| && m[fj].name == At(m, p).callee.value.name
      ==> (At(m, p).callee.value.isDeclaration <==> !m[fj].hasBody)
  }

  /** A module: a function has blocks exactly when it is a definition,
      function names are unique (they are symbols), call identities are
      unique, and calls agree with the functions they name. */
  ghost predicate WellFormed(m: seq<Function>) {
    && (forall fi :: 0 <= fi < |m| ==> (m[fi].hasBody <==> m[fi].blocks != []))
    && (forall fi, bi :: 0 <= fi < |m| && 0 <= bi < |m[fi].blocks| ==> WellFormedBlock(m[fi].blocks[bi]))
    && (forall i, j :: 0 <= i < j < |m| ==> m[i].name != m[j].name)
    && UniqueCallIds(m)
    && CalleesAgree(m)
  }

  /** The module holds at least one call the pass instruments. */
  ghost predicate HasSite(m: seq<Function>) {
    exists p :: ValidPos(m, p) && Classify(At(m, p)).Some?
  }

  /** The first call with the given identity in a block; the block's length
      when there is none. */
  function IndexOfCall(b: Block, id: nat): (k: nat)
    ensures k <= |b|
    ensures k < |b| ==> CallWithId(b[k], id)
    ensures forall j :: 0 <= j < k ==> !CallWithId(b[j], id)
    decreases |b|
  {
    if b == [] then 0
    else if CallWithId(b[0], id) then 0
    else 1 + IndexOfCall(b[1..], id)
  }

  /** The block with `ys` inserted right after the call `id`. */
  function InsertAfterCall(b: Block, id: nat, ys: seq<Inst>): Block
    requires IndexOfCall(b, id) < |b|
  {
    var j := IndexOfCall(b, id);
    b[..j + 1] + ys + b[j + 1..]
  }

  /** Replace one block of one function. */
  function UpdateBlock(m: seq<Function>, fi: nat, bi: nat, nb: Block): seq<Function>
    requires fi < |m| && bi < |m[fi].blocks|
  {
    m[fi := m[fi].(blocks := m[fi].blocks[bi := nb])]
  }

  /** What follows an instruction once the sites in `done` are instrumented. */
  function Extra(i: Inst, done: set<nat>): (r: seq<Inst>)
    requires ArityOk(i)
    ensures forall k :: 0 <= k < |r| ==> IsInserted(r[k])
  {
    if i.Call? && i.id in done then SuffixInserted(i); Suffix(i) else []
  }

  /** A block once the sites in `done` have been instrumented. */
  function Expand(b: Block, done: set<nat>): Block
    requires AllArityOk(b)
    decreases |b|
  {
    if b == [] then [] else [b[0]] + Extra(b[0], done) + Expand(b[1..], done)
  }

  function ExpandBlocks(blocks: seq<Block>, done: set<nat>): (r: seq<Block>)
    requires forall bi :: 0 <= bi < |blocks| ==> AllArityOk(blocks[bi])
    ensures |r| == |blocks| && forall bi :: 0 <= bi < |blocks| ==> r[bi] == Expand(blocks[bi], done)
  {
    seq(|blocks|, bi requires 0 <= bi < |blocks| => Expand(blocks[bi], done))
  }

  /** The module once the sites in `done` have been instrumented. */
  function ExpandModule(m: seq<Function>, done: set<nat>): (r: seq<Function>)
    requires BlocksArityOk(m)
    ensures |r| == |m| && forall fi :: 0 <= fi < |m| ==> r[fi] == m[fi].(blocks := ExpandBlocks(m[fi].blocks, done))
  {
    seq(|m|, fi requires 0 <= fi < |m| => m[fi].(blocks := ExpandBlocks(m[fi].blocks, done)))
  }

  function PlannedBlocks(blocks: seq<Block>): (r: seq<Block>)
    requires forall bi :: 0 <= bi < |blocks| ==> AllArityOk(blocks[bi])
    ensures |r| == |blocks| && forall bi :: 0 <= bi < |blocks| ==> r[bi] == Planned(blocks[bi])
  {
    seq(|blocks|, bi requires 0 <= bi < |blocks| => Planned(blocks[bi]))
  }

  /** The module with every site instrumented: every block planned. */
  function PlannedModule(m: seq<Function>): (r: seq<Function>)
    requires BlocksArityOk(m)
    ensures |r| == |m| && forall fi :: 0 <= fi < |m| ==> r[fi] == m[fi].(blocks := PlannedBlocks(m[fi].blocks))
  {
    seq(|m|, fi requires 0 <= fi < |m| => m[fi].(blocks := PlannedBlocks(m[fi].blocks)))
  }

  /** `M.getFunction(name)`: the function with that name, if any. */
  function FindFunction(m: seq<Function>, name: string): (r: Option<nat>)
    ensures r.Some? ==> r.value < |m| && m[r.value].name == name
    ensures r.None? <==> forall i :: 0 <= i < |m| ==> m[i].name != name
    decreases |m|
  {
    if m == [] then None
    else if m[|m| - 1].name == name then Some(|m| - 1)
    else FindFunction(m[..|m| - 1], name)
  }

  /** `main`, when the module has one, is a definition. */
  predicate MainHasBody(m: seq<Function>) {
    var mi := FindFunction(m, "main");
    mi.Some? ==> m[mi.value].blocks != []
  }

  /** The call `atexit(_dump_summary)`. */
  function AtExitCall(): Inst {
    HookCall(AtExit, [SummaryFn])
  }

  /** `insertCallToStatSummary`: in a module with `main`, the `atexit` call
      goes before the first non-PHI instruction of main's entry block. */
  function RegisterAtExit(m: seq<Function>): seq<Function>
    requires MainHasBody(m)
  {
    match FindFunction(m, "main")
    case None => m
    case Some(mi) =>
      var b := m[mi].blocks[0];
      var k := FirstNonPhi(b);
      if k < |b| then UpdateBlock(m, mi, 0, b[..k] + [AtExitCall()] + b[k..]) else m
  }

  /** The module the pass produces from `m`. */
  function InstrumentedModule(m: seq<Function>): seq<Function>
    requires BlocksArityOk(m)
    requires MainHasBody(m)
  {
    PlannedKeepsNames(m);
    RegisterAtExit(PlannedModule(m))
  }

  /** Planning adds no function and renames none, so `main` is where it was
      and still a definition. */
  lemma PlannedKeepsNames(m: seq<Function>)
    requires BlocksArityOk(m)
    ensures forall fi :: 0 <= fi < |m| ==> PlannedModule(m)[fi].name == m[fi].name
    ensures forall fi :: 0 <= fi < |m| ==> |PlannedModule(m)[fi].blocks| == |m[fi].blocks|
    ensures FindFunction(PlannedModule(m), "main") == FindFunction(m, "main")
    ensures MainHasBody(m) ==> MainHasBody(PlannedModule(m))
  {
    FindFunctionSameNames(m, PlannedModule(m), "main");
  }

  lemma {:induction false} FindFunctionSameNames(a: seq<Function>, b: seq<Function>, name: string)
    requires |a| == |b| && forall i :: 0 <= i < |a| ==> a[i].name == b[i].name
    ensures FindFunction(a, name) == FindFunction(b, name)
    decreases |a|
  {
    if a != [] && a[|a| - 1].name != name {
      FindFunctionSameNames(a[..|a| - 1], b[..|b| - 1], name);
    }
  }

  /** With no site instrumented yet, the module is the original one. */
  lemma {:induction false} ExpandNothing(b: Block)
    requires AllArityOk(b)
    ensures Expand(b, {}) == b
    decreases |b|
  {
    if b != [] {
      ExpandNothing(b[1..]);
    }
  }

  lemma ExpandModuleNothing(m: seq<Function>)
    requires BlocksArityOk(m)
    ensures ExpandModule(m, {}) == m
  {
    forall fi | 0 <= fi < |m|
      ensures ExpandModule(m, {})[fi] == m[fi]
    {
      forall bi | 0 <= bi < |m[fi].blocks|
        ensures ExpandBlocks(m[fi].blocks, {})[bi] == m[fi].blocks[bi]
      {
        ExpandNothing(m[fi].blocks[bi]);
      }
      assert ExpandBlocks(m[fi].blocks, {}) == m[fi].blocks;
    }
  }

  /** Once every site of a block is in `done`, the block is fully planned. */
  lemma {:induction false} ExpandComplete(b: Block, done: set<nat>)
    requires AllArityOk(b)
    requires forall k :: 0 <= k < |b| && Classify(b[k]).Some? ==> b[k].id in done
    ensures Expand(b, done) == Planned(b)
    decreases |b|
  {
    if b != [] {
      ExpandComplete(b[1..], done);
      assert Extra(b[0], done) == Suffix(b[0]);
    }
  }

  lemma ExpandModuleComplete(m: seq<Function>, done: set<nat>)
    requires BlocksArityOk(m)
    requires forall p :: ValidPos(m, p) && Classify(At(m, p)).Some? ==> At(m, p).id in done
    ensures ExpandModule(m, done) == PlannedModule(m)
  {
    forall fi | 0 <= fi < |m|
      ensures ExpandModule(m, done)[fi] == PlannedModule(m)[fi]
    {
      forall bi | 0 <= bi < |m[fi].blocks|
        ensures ExpandBlocks(m[fi].blocks, done)[bi] == PlannedBlocks(m[fi].blocks)[bi]
      {
        var b := m[fi].blocks[bi];
        forall k | 0 <= k < |b| && Classify(b[k]).Some?
          ensures b[k].id in done
        {
          assert At(m, Pos(fi, bi, k)) == b[k];
        }
        ExpandComplete(b, done);
      }
      assert ExpandBlocks(m[fi].blocks, done) == PlannedBlocks(m[fi].blocks);
    }
  }

  /** Marking a call that is not in the block as done changes nothing there. */
  lemma {:induction false} ExpandIgnores(b: Block, done: set<nat>, id: nat)
    requires AllArityOk(b)
    requires forall k :: 0 <= k < |b| ==> !CallWithId(b[k], id)
    ensures Expand(b, done + {id}) == Expand(b, done)
    decreases |b|
  {
    if b != [] {
      ExpandIgnores(b[1..], done, id);
      assert Extra(b[0], done + {id}) == Extra(b[0], done);
    }
  }

  /** Finding a call behind a prefix that holds no call with its identity. */
  lemma InsertAfterCallShift(p: Block, s: Block, id: nat, ys: seq<Inst>)
    requires forall j :: 0 <= j < |p| ==> !CallWithId(p[j], id)
    requires IndexOfCall(s, id) < |s|
    ensures IndexOfCall(p + s, id) == |p| + IndexOfCall(s, id)
    ensures InsertAfterCall(p + s, id, ys) == p + InsertAfterCall(s, id, ys)
  {
    var i := IndexOfCall(s, id);
    var r := IndexOfCall(p + s, id);
    assert (p + s)[|p| + i] == s[i];
    assert (p + s)[..r + 1] == p + s[..i + 1];
    assert (p + s)[r + 1..] == s[i + 1..];
  }

  /** A block in which each call identity names one instruction. */
  predicate UniqueInBlock(b: Block) {
    forall j, k :: 0 <= j < |b| && 0 <= k < |b| && b[j].Call? && CallWithId(b[k], b[j].id) ==> j == k
  }

  /** The step when the site heads the block. */
  lemma ExpandInsertHead(b: Block, done: set<nat>, c: Inst)
    requires AllArityOk(b) && b != [] && b[0] == c && c.Call? && c.id !in done
    requires UniqueInBlock(b)
    ensures IndexOfCall(Expand(b, done), c.id) == 0
    ensures Expand(b, done)[0] == c
    ensures InsertAfterCall(Expand(b, done), c.id, Suffix(c)) == Expand(b, done + {c.id})
  {
    var rest := b[1..];
    var e := Expand(b, done);
    forall k | 0 <= k < |rest|
      ensures !CallWithId(rest[k], c.id)
    {
      assert rest[k] == b[k + 1];
    }
    ExpandIgnores(rest, done, c.id);
    assert e == [c] + Expand(rest, done);
    assert e[..1] == [c];
    assert e[1..] == Expand(rest, done);
  }

  /** The step when the site lies further into the block. */
  lemma ExpandInsertBehind(b: Block, done: set<nat>, c: Inst)
    requires AllArityOk(b) && b != [] && c.Call? && ArityOk(c) && !CallWithId(b[0], c.id)
    requires AllArityOk(b[1..])
    requires IndexOfCall(Expand(b[1..], done), c.id) < |Expand(b[1..], done)|
    requires InsertAfterCall(Expand(b[1..], done), c.id, Suffix(c)) == Expand(b[1..], done + {c.id})
    ensures IndexOfCall(Expand(b, done), c.id) < |Expand(b, done)|
    ensures Expand(b, done)[IndexOfCall(Expand(b, done), c.id)] == Expand(b[1..], done)[IndexOfCall(Expand(b[1..], done), c.id)]
    ensures InsertAfterCall(Expand(b, done), c.id, Suffix(c)) == Expand(b, done + {c.id})
  {
    var rest := b[1..];
    var x := Extra(b[0], done);
    var p := [b[0]] + x;
    assert Expand(b, done) == p + Expand(rest, done);
    assert Expand(b, done + {c.id}) == p + Expand(rest, done + {c.id}) by {
      assert Extra(b[0], done + {c.id}) == x;
    }
    assert forall j :: 0 <= j < |p| ==> !CallWithId(p[j], c.id) by {
      forall j | 0 <= j < |p|
        ensures !CallWithId(p[j], c.id)
      {
        if j > 0 {
          assert p[j] == x[j - 1];
        }
      }
    }
    InsertAfterCallShift(p, Expand(rest, done), c.id, Suffix(c));
  }

  /** The single step of the rewriting: inserting a not yet instrumented
      site's suffix right after it, in the partly instrumented block, gives
      the block with that site instrumented too. */
  lemma {:induction false} ExpandInsert(b: Block, done: set<nat>, c: Inst)
    requires AllArityOk(b) && c.Call? && c in b && c.id !in done
    requires UniqueInBlock(b)
    ensures IndexOfCall(Expand(b, done), c.id) < |Expand(b, done)|
    ensures Expand(b, done)[IndexOfCall(Expand(b, done), c.id)] == c
    ensures InsertAfterCall(Expand(b, done), c.id, Suffix(c)) == Expand(b, done + {c.id})
    decreases |b|
  {
    var k0 :| 0 <= k0 < |b| && b[k0] == c;
    if k0 == 0 {
      ExpandInsertHead(b, done, c);
    } else {
      var rest := b[1..];
      assert rest[k0 - 1] == c;
      assert !CallWithId(b[0], c.id);
      forall j, k | 0 <= j < |rest| && 0 <= k < |rest| && rest[j].Call? && CallWithId(rest[k], rest[j].id)
        ensures j == k
      {
        assert rest[j] == b[j + 1] && rest[k] == b[k + 1];
      }
      ExpandInsert(rest, done, c);
      ExpandInsertBehind(b, done, c);
    }
  }

  /** Call identities unique in the module are unique in each block. */
  lemma UniqueBlocks(m: seq<Function>, fi: nat, bi: nat)
    requires UniqueCallIds(m) && fi < |m| && bi < |m[fi].blocks|
    ensures UniqueInBlock(m[fi].blocks[bi])
  {
    var orig := m[fi].blocks[bi];
    forall j, k | 0 <= j < |orig| && 0 <= k < |orig| && orig[j].Call? && CallWithId(orig[k], orig[j].id)
      ensures j == k
    {
      assert At(m, Pos(fi, bi, j)) == orig[j] && At(m, Pos(fi, bi, k)) == orig[k];
    }
  }

  /** A call in one block has no namesake in any other block. */
  lemma OtherBlocksUnaffected(m: seq<Function>, done: set<nat>, fi: nat, bi: nat, c: Inst, f: nat, g: nat)
    requires WellFormed(m)
    requires fi < |m| && bi < |m[fi].blocks| && c in m[fi].blocks[bi] && c.Call?
    requires f < |m| && g < |m[f].blocks| && (f != fi || g != bi)
    ensures Expand(m[f].blocks[g], done + {c.id}) == Expand(m[f].blocks[g], done)
  {
    var orig := m[fi].blocks[bi];
    var k0 :| 0 <= k0 < |orig| && orig[k0] == c;
    assert At(m, Pos(fi, bi, k0)) == c;
    var other := m[f].blocks[g];
    forall k | 0 <= k < |other|
      ensures !CallWithId(other[k], c.id)
    {
      assert At(m, Pos(f, g, k)) == other[k];
    }
    ExpandIgnores(other, done, c.id);
  }

  /** The module-level rewriting step: the site `c` of block `bi` of
      function `fi` is found in the partly instrumented module, and inserting
      its suffix after it yields the module with `c` instrumented too. */
  lemma ModuleInsertStep(m: seq<Function>, done: set<nat>, fi: nat, bi: nat, c: Inst)
    requires WellFormed(m)
    requires fi < |m| && bi < |m[fi].blocks| && c in m[fi].blocks[bi]
    requires c.Call? && c.id !in done
    ensures var b := ExpandModule(m, done)[fi].blocks[bi];
            && IndexOfCall(b, c.id) < |b|
            && b[IndexOfCall(b, c.id)] == c
            && UpdateBlock(ExpandModule(m, done), fi, bi, InsertAfterCall(b, c.id, Suffix(c)))
               == ExpandModule(m, done + {c.id})
  {
    var cur := ExpandModule(m, done);
    var nxt := ExpandModule(m, done + {c.id});
    UniqueBlocks(m, fi, bi);
    ExpandInsert(m[fi].blocks[bi], done, c);
    var nb := InsertAfterCall(cur[fi].blocks[bi], c.id, Suffix(c));
    var upd := UpdateBlock(cur, fi, bi, nb);
    forall f | 0 <= f < |m|
      ensures upd[f] == nxt[f]
    {
      forall g | 0 <= g < |m[f].blocks|
        ensures upd[f].blocks[g] == nxt[f].blocks[g]
      {
        if f != fi || g != bi {
          OtherBlocksUnaffected(m, done, fi, bi, c, f, g);
        }
      }
      assert upd[f].blocks == nxt[f].blocks;
    }
  }

  /** `atexit` registration changes main's entry block only. */
  lemma RegisterAtExitLayout(fs: seq<Function>)
    requires MainHasBody(fs)
    ensures var r := RegisterAtExit(fs);
            && |r| == |fs|
            && (forall fi :: 0 <= fi < |fs| ==>
                  && r[fi].name == fs[fi].name && r[fi].hasBody == fs[fi].hasBody
                  && |r[fi].blocks| == |fs[fi].blocks|)
            && (forall fi, bi :: 0 <= fi < |fs| && 0 <= bi < |fs[fi].blocks| && (FindFunction(fs, "main") != Some(fi) || bi != 0) ==>
                  r[fi].blocks[bi] == fs[fi].blocks[bi])
            && (FindFunction(fs, "main").Some? ==>
                  var mi := FindFunction(fs, "main").value;
                  var b := fs[mi].blocks[0];
                  var k := FirstNonPhi(b);
                  r[mi].blocks[0] == if k < |b| then b[..k] + [AtExitCall()] + b[k..] else b)
  {
  }

  /** The module the pass produces, block by block: it has the same
      functions with the same blocks; every block is its planned form,
      except main's entry block, which in addition holds `atexit` right
      after its leading PHIs. */
  lemma InstrumentedLayout(m: seq<Function>)
    requires WellFormed(m) && MainHasBody(m)
    ensures var r := InstrumentedModule(m);
            && |r| == |m|
            && (forall fi :: 0 <= fi < |m| ==>
                  && r[fi].name == m[fi].name && r[fi].hasBody == m[fi].hasBody
                  && |r[fi].blocks| == |m[fi].blocks|)
            && (forall fi, bi :: 0 <= fi < |m| && 0 <= bi < |m[fi].blocks| && (FindFunction(m, "main") != Some(fi) || bi != 0) ==>
                  r[fi].blocks[bi] == Planned(m[fi].blocks[bi]))
            && (FindFunction(m, "main").Some? ==>
                  var mi := FindFunction(m, "main").value;
                  var b := m[mi].blocks[0];
                  var k := FirstNonPhi(b);
                  && k < |b|
                  && Planned(b)[..k] == b[..k]
                  && r[mi].blocks[0] == Planned(b)[..k] + [AtExitCall()] + Planned(b)[k..])
  {
    PlannedKeepsNames(m);
    var pm := PlannedModule(m);
    assert InstrumentedModule(m) == RegisterAtExit(pm);
    RegisterAtExitLayout(pm);
    if FindFunction(m, "main").Some? {
      var mi := FindFunction(m, "main").value;
      var b := m[mi].blocks[0];
      assert WellFormedBlock(b);
      FirstNonPhiPlanned(b);
      var k := FirstNonPhi(b);
      TakeTake(Planned(b), k, k + 1);
      TakeTake(b, k, k + 1);
      assert pm[mi].blocks[0] == Planned(b);
    }
  }

  /** Adding `atexit` to a planned block still only adds. */
  lemma EntryOnlyAdds(b: Block, k: nat)
    requires WellFormedBlock(b) && k <= |b|
    ensures AllArityOk(b) && k <= |Planned(b)|
    ensures Originals(Planned(b)[..k] + [AtExitCall()] + Planned(b)[k..]) == b
  {
    assert AllArityOk(b);
    var p := Planned(b);
    var a, t, z := p[..k], [AtExitCall()], p[k..];
    PlannedOnlyAdds(b);
    SplitAt(p, k);
    OriginalsAppend(a, z);
    OriginalsAppend(a + t, z);
    OriginalsAppend(a, t);
    OriginalsOfInserted(t);
    AppendNil(Originals(a));
  }

  /** The pass only adds instructions: in every block of the result,
      removing what the pass inserts gives back the original block. */
  lemma InstrumentedOnlyAdds(m: seq<Function>)
    requires WellFormed(m) && MainHasBody(m)
    ensures var r := InstrumentedModule(m);
            forall fi, bi :: 0 <= fi < |m| && 0 <= bi < |m[fi].blocks| ==>
              Originals(r[fi].blocks[bi]) == m[fi].blocks[bi]
  {
    InstrumentedLayout(m);
    var r := InstrumentedModule(m);
    forall fi, bi | 0 <= fi < |m| && 0 <= bi < |m[fi].blocks|
      ensures Originals(r[fi].blocks[bi]) == m[fi].blocks[bi]
    {
      var b := m[fi].blocks[bi];
      assert WellFormedBlock(b);
      if FindFunction(m, "main") == Some(fi) && bi == 0 {
        EntryOnlyAdds(b, FirstNonPhi(b));
      } else {
        PlannedOnlyAdds(b);
      }
    }
  }

  /** Whether the pass changes the module: it does when there is a site to
      instrument or a `main` to register the summary in. */
  ghost predicate Changes(m: seq<Function>) {
    HasSite(m) || FindFunction(m, "main").Some?
  }

  /** A block holding a site grows when it is planned. */
  lemma PlannedGrows(b: Block, k: nat)
    requires AllArityOk(b) && k < |b| && Classify(b[k]).Some?
    ensures |Planned(b)| > |b|
  {
    PlannedAround(b, k);
    assert |b[..k]| + 1 + |b[k + 1..]| == |b|;
  }

  /** The pass leaves a module as it was exactly when the module has neither
      a site nor a `main`. */
  lemma InstrumentChangesIff(m: seq<Function>)
    requires WellFormed(m) && MainHasBody(m)
    ensures InstrumentedModule(m) != m <==> Changes(m)
  {
    var r := InstrumentedModule(m);
    InstrumentedLayout(m);
    if HasSite(m) {
      var p :| ValidPos(m, p) && Classify(At(m, p)).Some?;
      var b := m[p.fn].blocks[p.blk];
      assert WellFormedBlock(b);
      PlannedGrows(b, p.idx);
      assert |r[p.fn].blocks[p.blk]| >= |Planned(b)|;
      assert r[p.fn] != m[p.fn];
    } else if FindFunction(m, "main").Some? {
      var mi := FindFunction(m, "main").value;
      assert |r[mi].blocks[0]| > |m[mi].blocks[0]|;
      assert r[mi] != m[mi];
    } else {
      ExpandModuleComplete(m, {});
      ExpandModuleNothing(m);
      assert PlannedModule(m) == m;
    }
  }

  /** `instrument` reports a change exactly when it collected a site, so a
      module with `main` and no site is reported unchanged, though the pass
      has registered the summary in it. */
  lemma UnchangedReportedForMain()
    ensures var m := [Function("main", true, [[Term]])];
            && WellFormed(m) && MainHasBody(m) && !HasSite(m)
            && InstrumentedModule(m) != m
  {
    var m := [Function("main", true, [[Term]])];
    assert WellFormedBlock([Term]);
    assert forall p :: ValidPos(m, p) ==> At(m, p) == Term;
    InstrumentChangesIff(m);
  }
}
