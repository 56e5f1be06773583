/** The program representation the instrumentation pass works on
    (llvm/lib/Transforms/Instrumentation/CheckedCDynStats.cpp), reduced to what
    the pass looks at: functions with or without a body, basic blocks of
    instructions, and for each call its statically known callee and the
    types of its arguments. Also the pass's pure decisions: which calls are
    sites, of which kind, and what gets inserted after each. */
module DynStatsIR {
  import opened Common

  /** Of an argument's type the pass only asks: is it a pointer to a pointer? */
  datatype ArgType = PtrToPtr | Other

  /** The directly called function of a call, when the compiler resolved it. */
  datatype Callee = Callee(name: string, isDeclaration: bool, isIntrinsic: bool)

  /** Values: an integer constant, any other operand of the original
      program, the result of a call (by the call's identity), the result of
      an inserted multiply or bitcast, and the address of the summary
      function. */
  datatype Value =
    | Const(c: nat)
    | Operand(n: nat)
    | ResultOf(callId: nat)
    | Product(lhs: Value, rhs: Value)
    | Cast(src: Value)
    | SummaryFn

  datatype Arg = Arg(val: Value, ty: ArgType)

  /** The runtime entry points the pass calls: `_record_alloc`,
      `_record_realloc`, `_cal_array_size`, `_remove_obj_range`, and `atexit`
      (always with `_dump_summary` as its argument). */
  datatype Hook = RecordAlloc | RecordRealloc | CalArraySize | RemoveObjRange | AtExit

  /** Instructions. The first four kinds occur in the program the pass is
      given; the last three are the ones the pass creates. Each call has an
      identity `id`, standing for the instruction object itself. */
  datatype Inst =
    | Phi
    | Term
    | Plain
    | Call(id: nat, callee: Option<Callee>, args: seq<Arg>)
    | Mul(lhs: Value, rhs: Value)
    | BitCast(src: Value)
    | HookCall(hook: Hook, hookArgs: seq<Value>)

  type Block = seq<Inst>

  datatype Function = Function(name: string, hasBody: bool, blocks: seq<Block>)

  predicate IsInserted(i: Inst) {
    i.Mul? || i.BitCast? || i.HookCall?
  }

  /** The malloc family (`MallocFns`). */
  const MallocFns: set<string> := {"calloc", "malloc", "realloc", "reallocarray"}

  /** Library functions known not to keep the pointer arrays they are given
      (`libFuncWL`). */
  const LibFuncWL: set<string> := {
    "strtol", "strtoll", "strtod", "strtold", "strtoul", "strtoull", "strtok_r",
    "strtoimax", "strtoumax",
    "getpwnam_r", "getpwuid_r", "getifaddrs",
    "iconv", "posix_memalign",
    "pthread_join",
    "asprintf", "vasprintf"
  }

  datatype AllocFamily = Malloc | Calloc | Realloc | ReallocArray

  function FamilyOf(name: string): (f: AllocFamily)
    requires name in MallocFns
    ensures f == Malloc <==> name == "malloc"
    ensures f == Calloc <==> name == "calloc"
    ensures f == Realloc <==> name == "realloc"
    ensures f == ReallocArray <==> name == "reallocarray"
  {
    if name == "malloc" then Malloc
    else if name == "calloc" then Calloc
    else if name == "realloc" then Realloc
    else ReallocArray
  }

  /** How many arguments the family member's size is read from, at least. */
  function ArgsNeeded(f: AllocFamily): nat {
    match f
    case Malloc => 1
    case Calloc => 2
    case Realloc => 2
    case ReallocArray => 3
  }

  /** The classified kinds of call sites. */
  datatype SiteKind = AllocSite(family: AllocFamily) | FreeSite | PtrArraySite(ptrs: seq<Value>)

  /** A direct call to an external function that is not an intrinsic: the
      only calls the pass considers. */
  predicate IsExternalCall(i: Inst) {
    i.Call? && i.callee.Some? && i.callee.value.isDeclaration && !i.callee.value.isIntrinsic
  }

  function ArgValues(args: seq<Arg>): (vs: seq<Value>)
    ensures |vs| == |args| && forall k :: 0 <= k < |args| ==> vs[k] == args[k].val
  {
    seq(|args|, k requires 0 <= k < |args| => args[k].val)
  }

  /** The argument scan: the pointer-to-pointer arguments, in argument order. */
  function PtrArgs(args: seq<Arg>): (r: seq<Value>)
    ensures |r| <= |args|
    ensures r == [] <==> forall k :: 0 <= k < |args| ==> args[k].ty != PtrToPtr
    decreases |args|
  {
    if args == [] then []
    else
      var init, a := args[..|args| - 1], args[|args| - 1];
      assert forall k :: 0 <= k < |init| ==> init[k] == args[k];
      PtrArgs(init) + (if a.ty == PtrToPtr then [a.val] else [])
  }

  /** The scan keeps exactly the qualifying arguments: a value is listed iff
      some pointer-to-pointer argument carries it. */
  lemma {:induction false} PtrArgsMembers(args: seq<Arg>)
    ensures forall v :: v in PtrArgs(args) <==> exists k :: 0 <= k < |args| && args[k].ty == PtrToPtr && args[k].val == v
    decreases |args|
  {
    if args != [] {
      var n := |args| - 1;
      var init := args[..n];
      PtrArgsMembers(init);
      forall v | v in PtrArgs(args)
        ensures exists k :: 0 <= k < |args| && args[k].ty == PtrToPtr && args[k].val == v
      {
        if v in PtrArgs(init) {
          var k :| 0 <= k < |init| && init[k].ty == PtrToPtr && init[k].val == v;
          assert args[k] == init[k];
        } else {
          assert args[n].ty == PtrToPtr && args[n].val == v;
        }
      }
      forall v, k | 0 <= k < |args| && args[k].ty == PtrToPtr && args[k].val == v
        ensures v in PtrArgs(args)
      {
        if k < n {
          assert init[k] == args[k];
        }
      }
    }
  }

  /** The scan keeps the argument order: the qualifying argument at position
      `k` comes after all those before it, i.e. at index |PtrArgs(args[..k])|. */
  lemma {:induction false} PtrArgsInOrder(args: seq<Arg>, k: nat)
    requires k < |args| && args[k].ty == PtrToPtr
    ensures |PtrArgs(args[..k])| < |PtrArgs(args)|
    ensures PtrArgs(args)[|PtrArgs(args[..k])|] == args[k].val
    ensures PtrArgs(args)[..|PtrArgs(args[..k])|] == PtrArgs(args[..k])
    decreases |args|
  {
    var n := |args| - 1;
    var init := args[..n];
    assert PtrArgs(args) == PtrArgs(init) + (if args[n].ty == PtrToPtr then [args[n].val] else []);
    if k < n {
      PtrArgsInOrder(init, k);
      assert init[..k] == args[..k];
    } else {
      assert args[..k] == init;
    }
  }

  /** Which site, if any, a call is. The tests are made in the source's order:
      the malloc family, then `free`, then the whitelist, then the argument
      scan, which makes a site only when some argument qualifies. */
  function Classify(i: Inst): (r: Option<SiteKind>)
    ensures r.Some? <==>
              && IsExternalCall(i)
              && (|| i.callee.value.name in MallocFns
                  || i.callee.value.name == "free"
                  || (i.callee.value.name !in LibFuncWL && exists k :: 0 <= k < |i.args| && i.args[k].ty == PtrToPtr))
    ensures IsExternalCall(i) && i.callee.value.name in MallocFns ==>
              r == Some(AllocSite(FamilyOf(i.callee.value.name)))
    ensures IsExternalCall(i) && i.callee.value.name == "free" ==> r == Some(FreeSite)
    ensures IsExternalCall(i) && i.callee.value.name in LibFuncWL ==> r == None
    ensures r.Some? && r.value.PtrArraySite? <==>
              && IsExternalCall(i)
              && i.callee.value.name !in MallocFns && i.callee.value.name != "free"
              && i.callee.value.name !in LibFuncWL
              && exists k :: 0 <= k < |i.args| && i.args[k].ty == PtrToPtr
    ensures r.Some? && r.value.PtrArraySite? ==> r.value.ptrs == PtrArgs(i.args) != []
  {
    if !IsExternalCall(i) then None
    else
      var name := i.callee.value.name;
      if name in MallocFns then Some(AllocSite(FamilyOf(name)))
      else if name == "free" then Some(FreeSite)
      else if name in LibFuncWL then None
      else
        var ptrs := PtrArgs(i.args);
        if ptrs == [] then None else Some(PtrArraySite(ptrs))
  }

  /** A classified call has the arguments its handler reads. */
  predicate ArityOk(i: Inst) {
    IsExternalCall(i) ==>
      var name := i.callee.value.name;
      && (name in MallocFns ==> |i.args| >= ArgsNeeded(FamilyOf(name)))
      && (name == "free" ==> |i.args| >= 1)
  }

  /** What the hook for an allocation receives as the size: one operand, or
      the product of two. */
  datatype SizeOperand = Single(v: Value) | Multiplied(a: Value, b: Value)

  /** `IRBuilder::CreateMul` with the builder's default constant folder: two
      integer constants are multiplied on the spot (64 bits, wrapping) and no
      instruction is created; otherwise a multiply is inserted. */
  predicate Folds(a: Value, b: Value) {
    a.Const? && b.Const?
  }

  /** The value the hook gets as the size: the operand itself, the folded
      constant product, or the result of the inserted multiply. */
  function SizeValue(s: SizeOperand): Value {
    match s
    case Single(v) => v
    case Multiplied(a, b) =>
      if Folds(a, b) then Const((a.c * b.c) % 0x1_0000_0000_0000_0000) else Product(a, b)
  }

  /** An interpretation of values as numbers that gives each constant its
      own value and each multiply result the 64-bit product of its operands. */
  ghost predicate Interprets(num: Value -> nat) {
    && (forall c: nat :: num(Const(c)) == c)
    && (forall a, b :: num(Product(a, b)) == (num(a) * num(b)) % 0x1_0000_0000_0000_0000)
  }

  /** The size operand of each family member (CheckedCDynStats.cpp:112-121):
      malloc's arg0, calloc's arg0*arg1, realloc's arg1, reallocarray's arg1*arg2. */
  function SizeOperandOf(f: AllocFamily, vals: seq<Value>): SizeOperand
    requires |vals| >= ArgsNeeded(f)
  {
    match f
    case Malloc => Single(vals[0])
    case Calloc => Multiplied(vals[0], vals[1])
    case Realloc => Single(vals[1])
    case ReallocArray => Multiplied(vals[1], vals[2])
  }

  /** The number of bytes each family member asks the C library for, given
      the numbers its arguments stand for (the pointer argument of the
      reallocating members plays no part). */
  function RequestedBytes(f: AllocFamily, n: seq<nat>): nat
    requires |n| >= ArgsNeeded(f)
  {
    match f
    case Malloc => n[0]
    case Calloc => n[0] * n[1]
    case Realloc => n[1]
    case ReallocArray => n[1] * n[2]
  }

  /** The number a size operand stands for: an operand's given number, or the
      64-bit product computed by the inserted multiply. */
  function SizeNumber(s: SizeOperand, num: Value -> nat): nat {
    match s
    case Single(v) => num(v)
    case Multiplied(a, b) => (num(a) * num(b)) % 0x1_0000_0000_0000_0000
  }

  /** The size handed to the hook is the size requested from the allocator,
      as long as the count-times-size product does not overflow 64 bits. */
  lemma SizeOperandIsRequest(f: AllocFamily, vals: seq<Value>, num: Value -> nat)
    requires |vals| >= ArgsNeeded(f)
    requires forall k :: 0 <= k < |vals| ==> num(vals[k]) < 0x1_0000_0000_0000_0000
    requires RequestedBytes(f, seq(|vals|, k requires 0 <= k < |vals| => num(vals[k]))) < 0x1_0000_0000_0000_0000
    ensures SizeNumber(SizeOperandOf(f, vals), num) ==
              RequestedBytes(f, seq(|vals|, k requires 0 <= k < |vals| => num(vals[k])))
  {
  }

  /** With constants given their values, the size the hook gets stands for
      the number `SizeNumber` computes, folded or not. */
  lemma SizeValueMeansSizeNumber(s: SizeOperand, num: Value -> nat)
    requires Interprets(num)
    ensures num(SizeValue(s)) == SizeNumber(s, num)
  {
    if s.Multiplied? && Folds(s.a, s.b) {
      assert num(s.a) == s.a.c && num(s.b) == s.b.c;
    }
  }

  /** The instructions `handleMalloc` inserts after an allocation call with
      identity `id`: the multiply (if the size is a product the builder
      cannot fold) and then the hook, which gets `(result, size)` for malloc
      and calloc and `(arg0, result, size)` for realloc and reallocarray. */
  function AllocHooks(f: AllocFamily, id: nat, vals: seq<Value>): (r: seq<Inst>)
    requires |vals| >= ArgsNeeded(f)
    ensures var size := SizeOperandOf(f, vals);
            |r| == (if size.Multiplied? && !Folds(size.a, size.b) then 2 else 1)
    ensures var size := SizeOperandOf(f, vals);
            var sizeVal := if size.Single? then size.v
                           else if Folds(size.a, size.b) then Const((size.a.c * size.b.c) % 0x1_0000_0000_0000_0000)
                           else Product(size.a, size.b);
            && (size.Multiplied? && !Folds(size.a, size.b) ==> r[0] == Mul(size.a, size.b))
            && r[|r| - 1] == (if f == Malloc || f == Calloc
                              then HookCall(RecordAlloc, [ResultOf(id), sizeVal])
                              else HookCall(RecordRealloc, [vals[0], ResultOf(id), sizeVal]))
  {
    var size := SizeOperandOf(f, vals);
    var mul := match size
      case Single(_) => []
      case Multiplied(a, b) => if Folds(a, b) then [] else [Mul(a, b)];
    var sizeVal := SizeValue(size);
    if f == Malloc || f == Calloc then mul + [HookCall(RecordAlloc, [ResultOf(id), sizeVal])]
    else mul + [HookCall(RecordRealloc, [vals[0], ResultOf(id), sizeVal])]
  }

  /** The pairs inserted after a call that passes pointer arrays: for each
      array a bitcast of it followed by `_cal_array_size` of the cast. Each
      pair goes right after the call, before the pairs already there, so
      the last argument's pair comes first. */
  function CastHooks(ptrs: seq<Value>): seq<Inst>
    decreases |ptrs|
  {
    if ptrs == [] then []
    else
      var p := ptrs[|ptrs| - 1];
      [BitCast(p), HookCall(CalArraySize, [Cast(p)])] + CastHooks(ptrs[..|ptrs| - 1])
  }

  /** One more pointer array puts its pair in front of the others. */
  lemma CastHooksSnoc(ptrs: seq<Value>, t: nat)
    requires t < |ptrs|
    ensures CastHooks(ptrs[..t + 1]) == [BitCast(ptrs[t]), HookCall(CalArraySize, [Cast(ptrs[t])])] + CastHooks(ptrs[..t])
  {
    TakeTake(ptrs, t, t + 1);
  }

  /** The pairs stand in reverse argument order: pair `k` belongs to the
      `k`-th pointer array counted from the last. */
  lemma {:induction false} CastHooksReversed(ptrs: seq<Value>)
    ensures |CastHooks(ptrs)| == 2 * |ptrs|
    ensures forall k :: 0 <= k < |ptrs| ==>
              && CastHooks(ptrs)[2 * k] == BitCast(ptrs[|ptrs| - 1 - k])
              && CastHooks(ptrs)[2 * k + 1] == HookCall(CalArraySize, [Cast(ptrs[|ptrs| - 1 - k])])
    decreases |ptrs|
  {
    if ptrs != [] {
      var n := |ptrs| - 1;
      var init := ptrs[..n];
      var rest := CastHooks(init);
      var pair := [BitCast(ptrs[n]), HookCall(CalArraySize, [Cast(ptrs[n])])];
      CastHooksReversed(init);
      assert CastHooks(ptrs) == pair + rest;
      forall k | 1 <= k < |ptrs|
        ensures CastHooks(ptrs)[2 * k] == BitCast(ptrs[|ptrs| - 1 - k])
        ensures CastHooks(ptrs)[2 * k + 1] == HookCall(CalArraySize, [Cast(ptrs[|ptrs| - 1 - k])])
      {
        var k' := k - 1;
        assert (pair + rest)[2 * k] == rest[2 * k'];
        assert (pair + rest)[2 * k + 1] == rest[2 * k' + 1];
        assert init[|init| - 1 - k'] == ptrs[|ptrs| - 1 - k];
      }
    }
  }

  /** Everything the pass inserts right after one instruction. */
  function Suffix(i: Inst): (r: seq<Inst>)
    requires ArityOk(i)
    ensures r == [] <==> Classify(i).None?
  {
    match Classify(i)
    case None => []
    case Some(AllocSite(f)) => AllocHooks(f, i.id, ArgValues(i.args))
    case Some(FreeSite) => [HookCall(RemoveObjRange, [i.args[0].val])]
    case Some(PtrArraySite(ptrs)) => CastHooksInserted(ptrs); CastHooks(ptrs)
  }

  /** Everything inserted after an instruction is a pass-inserted
      instruction, never a copy of an original one. */
  lemma SuffixInserted(i: Inst)
    requires ArityOk(i)
    ensures forall k :: 0 <= k < |Suffix(i)| ==> IsInserted(Suffix(i)[k])
  {
    match Classify(i)
    case None =>
    case Some(AllocSite(f)) =>
    case Some(FreeSite) =>
    case Some(PtrArraySite(ptrs)) => CastHooksInserted(ptrs);
  }

  lemma {:induction false} CastHooksInserted(ptrs: seq<Value>)
    ensures ptrs != [] ==> CastHooks(ptrs) != []
    ensures forall k :: 0 <= k < |CastHooks(ptrs)| ==> IsInserted(CastHooks(ptrs)[k])
    decreases |ptrs|
  {
    if ptrs != [] {
      CastHooksInserted(ptrs[..|ptrs| - 1]);
    }
  }

  predicate AllArityOk(b: Block) {
    forall k {:trigger ArityOk(b[k])} :: 0 <= k < |b| ==> ArityOk(b[k])
  }

  /** A block after the pass: every instruction followed by what is inserted
      after it. */
  function Planned(b: Block): (r: Block)
    requires AllArityOk(b)
    ensures |r| >= |b|
    decreases |b|
  {
    if b == [] then [] else [b[0]] + Suffix(b[0]) + Planned(b[1..])
  }

  /** Every instruction of a part of a block has the arguments its
      handler reads when every instruction of the block has. */
  lemma ArityOkSlices(b: Block, k: nat)
    requires AllArityOk(b) && k <= |b|
    ensures AllArityOk(b[..k]) && AllArityOk(b[k..])
  {
    forall j | 0 <= j < k
      ensures ArityOk(b[..k][j])
    {
      assert b[..k][j] == b[j];
    }
    forall j | 0 <= j < |b| - k
      ensures ArityOk(b[k..][j])
    {
      assert b[k..][j] == b[k + j];
    }
  }

  lemma ArityOkAppend(a: Block, b: Block)
    requires AllArityOk(a) && AllArityOk(b)
    ensures AllArityOk(a + b)
  {
    forall j | 0 <= j < |a + b|
      ensures ArityOk((a + b)[j])
    {
      if j < |a| {
        assert (a + b)[j] == a[j];
      } else {
        assert (a + b)[j] == b[j - |a|];
      }
    }
  }

  /** Planning a block that starts with a given instruction. */
  lemma PlannedCons(i: Inst, rest: Block)
    requires ArityOk(i) && AllArityOk(rest)
    ensures AllArityOk([i] + rest)
    ensures Planned([i] + rest) == [i] + Suffix(i) + Planned(rest)
  {
    assert AllArityOk([i]);
    ArityOkAppend([i], rest);
    ConsAppend([i], rest);
  }

  /** Planning a block from instruction `k` on. */
  lemma PlannedStep(b: Block, k: nat)
    requires AllArityOk(b) && k < |b|
    ensures AllArityOk(b[k..]) && AllArityOk(b[k + 1..])
    ensures Planned(b[k..]) == [b[k]] + Suffix(b[k]) + Planned(b[k + 1..])
  {
    ArityOkSlices(b, k);
    ArityOkSlices(b, k + 1);
    DropCons(b, k);
    PlannedCons(b[k], b[k + 1..]);
  }

  lemma {:induction false} PlannedAppend(a: Block, b: Block)
    requires AllArityOk(a) && AllArityOk(b)
    ensures AllArityOk(a + b)
    ensures Planned(a + b) == Planned(a) + Planned(b)
    decreases |a|
  {
    ArityOkAppend(a, b);
    if a == [] {
      AppendNil(b);
    } else {
      var ab, s := a + b, [a[0]] + Suffix(a[0]);
      ConsAppend(a, b);
      ArityOkSlices(a, 1);
      PlannedAppend(a[1..], b);
      assert Planned(ab) == s + Planned(a[1..] + b);
      AppendAssoc(s, Planned(a[1..]), Planned(b));
    }
  }

  /** Planning a prefix one instruction longer. */
  lemma PlannedSnoc(b: Block, k: nat)
    requires AllArityOk(b) && k < |b|
    ensures AllArityOk(b[..k]) && AllArityOk(b[..k + 1])
    ensures Planned(b[..k + 1]) == Planned(b[..k]) + [b[k]] + Suffix(b[k])
  {
    var e: Block := [];
    ArityOkSlices(b, k);
    ArityOkSlices(b, k + 1);
    TakeSnoc(b, k);
    PlannedCons(b[k], e);
    AppendNil([b[k]]);
    AppendNil(Suffix(b[k]));
    PlannedAppend(b[..k], [b[k]]);
    AppendAssoc(Planned(b[..k]), [b[k]], Suffix(b[k]));
  }

  /** Planning a block split in two. */
  lemma {:induction false} PlannedSplit(b: Block, k: nat)
    requires AllArityOk(b) && k <= |b|
    ensures AllArityOk(b[..k]) && AllArityOk(b[k..])
    ensures Planned(b) == Planned(b[..k]) + Planned(b[k..])
    decreases k
  {
    ArityOkSlices(b, k);
    if k == 0 {
      assert b[..0] == [];
      assert b[0..] == b;
      AppendNil(Planned(b));
    } else {
      var c, s := b[1..], [b[0]] + Suffix(b[0]);
      ArityOkSlices(b, 1);
      PlannedSplit(c, k - 1);
      TakeTail(b, k);
      assert Planned(b) == s + Planned(c);
      assert Planned(b[..k]) == s + Planned(c[..k - 1]);
      AppendAssoc(s, Planned(c[..k - 1]), Planned(c[k - 1..]));
    }
  }

  /** A block's plan is the plan of the instructions before `k`, then
      instruction `k` immediately followed by exactly what is inserted after
      it, then the plan of the rest. */
  lemma PlannedAround(b: Block, k: nat)
    requires AllArityOk(b) && k < |b|
    ensures AllArityOk(b[..k]) && AllArityOk(b[k + 1..])
    ensures Planned(b) == Planned(b[..k]) + ([b[k]] + Suffix(b[k]) + Planned(b[k + 1..]))
  {
    PlannedStep(b, k);
    PlannedSplit(b, k);
  }

  /** Where each original instruction ends up: at position `q`, the length
      of the instrumented prefix before it, after exactly that prefix; the
      original instructions keep their order because `q` grows by one plus
      the inserted count at each step. */
  lemma PlannedLayout(b: Block, k: nat)
    requires AllArityOk(b) && k < |b|
    ensures Planned(b[..k + 1]) == Planned(b[..k]) + [b[k]] + Suffix(b[k])
    ensures |Planned(b[..k])| < |Planned(b)|
    ensures Planned(b)[..|Planned(b[..k])|] == Planned(b[..k])
    ensures Planned(b)[|Planned(b[..k])|] == b[k]
  {
    PlannedSnoc(b, k);
    PlannedAround(b, k);
    AppendParts(Planned(b[..k]), b[k], Suffix(b[k]), Planned(b[k + 1..]), Planned(b));
  }

  /** The original instructions, with everything the pass inserts removed. */
  function Originals(b: Block): Block
    decreases |b|
  {
    if b == [] then [] else (if IsInserted(b[0]) then [] else [b[0]]) + Originals(b[1..])
  }

  lemma {:induction false} OriginalsOfInserted(s: seq<Inst>)
    requires forall k :: 0 <= k < |s| ==> IsInserted(s[k])
    ensures Originals(s) == []
    decreases |s|
  {
    if s != [] {
      OriginalsOfInserted(s[1..]);
    }
  }

  lemma {:induction false} OriginalsAppend(a: Block, b: Block)
    ensures Originals(a + b) == Originals(a) + Originals(b)
    decreases |a|
  {
    if a == [] {
      assert a + b == b;
    } else {
      assert (a + b)[1..] == a[1..] + b;
      OriginalsAppend(a[1..], b);
    }
  }

  /** The pass only adds instructions: taking away what it inserted gives
      back the original block, every instruction in its original order. */
  lemma {:induction false} PlannedOnlyAdds(b: Block)
    requires AllArityOk(b)
    requires forall k :: 0 <= k < |b| ==> !IsInserted(b[k])
    ensures Originals(Planned(b)) == b
    decreases |b|
  {
    if b != [] {
      PlannedOnlyAdds(b[1..]);
      OriginalsAppend([b[0]] + Suffix(b[0]), Planned(b[1..]));
      OriginalsAppend([b[0]], Suffix(b[0]));
      SuffixInserted(b[0]);
      OriginalsOfInserted(Suffix(b[0]));
      assert Originals([b[0]]) == [b[0]] by {
        assert [b[0]][1..] == [];
      }
    }
  }

  /** The index of the first instruction that is not a PHI
      (`getFirstNonPHI`); the block's length when there is none. */
  function FirstNonPhi(b: Block): (k: nat)
    ensures k <= |b|
    ensures k < |b| ==> !b[k].Phi?
    ensures forall j :: 0 <= j < k ==> b[j].Phi?
    decreases |b|
  {
    if b == [] then 0
    else if !b[0].Phi? then 0
    else 1 + FirstNonPhi(b[1..])
  }

  lemma PlannedAfterPhi(b: Block)
    requires AllArityOk(b) && b != [] && b[0].Phi?
    ensures AllArityOk(b[1..])
    ensures Planned(b) == [b[0]] + Planned(b[1..])
  {
    ArityOkSlices(b, 1);
    assert Suffix(b[0]) == [];
    AppendNil([b[0]]);
  }

  /** The leading PHIs get nothing inserted after them, so the first non-PHI
      instruction is at the same place before and after instrumentation. */
  lemma {:induction false} FirstNonPhiPlanned(b: Block)
    requires AllArityOk(b)
    ensures FirstNonPhi(Planned(b)) == FirstNonPhi(b)
    ensures FirstNonPhi(b) < |b| ==> Planned(b)[..FirstNonPhi(b) + 1] == b[..FirstNonPhi(b) + 1]
    decreases |b|
  {
    if b != [] {
      var pb := Planned(b);
      if !b[0].Phi? {
        TakeOne([b[0]] + Suffix(b[0]), Planned(b[1..]));
        TakeOne(b, []);
      } else {
        var rest := b[1..];
        PlannedAfterPhi(b);
        FirstNonPhiPlanned(rest);
        var pr := Planned(rest);
        var k := FirstNonPhi(rest);
        ConsTake(b[0], pr, 0);
        if k < |rest| {
          ConsTake(b[0], pr, k + 1);
          ConsTake(b[0], rest, k + 1);
          Uncons(b);
        }
      }
    }
  }

  /** A direct call to an external function that is not an intrinsic. */
  function ExternalCall(id: nat, name: string, args: seq<Arg>): Inst {
    Call(id, Some(Callee(name, true, false)), args)
  }

  /** What is inserted after a call to malloc, calloc, realloc or free with
      the arguments its handler reads. */
  lemma SuffixOfMalloc(id: nat, v: Value, t: ArgType)
    ensures ArityOk(ExternalCall(id, "malloc", [Arg(v, t)]))
    ensures Suffix(ExternalCall(id, "malloc", [Arg(v, t)])) == [HookCall(RecordAlloc, [ResultOf(id), v])]
  {}

  lemma SuffixOfCalloc(id: nat, a: Value, b: Value)
    ensures ArityOk(ExternalCall(id, "calloc", [Arg(a, Other), Arg(b, Other)]))
    ensures Suffix(ExternalCall(id, "calloc", [Arg(a, Other), Arg(b, Other)])) ==
              if a.Const? && b.Const?
              then [HookCall(RecordAlloc, [ResultOf(id), Const((a.c * b.c) % 0x1_0000_0000_0000_0000)])]
              else [Mul(a, b), HookCall(RecordAlloc, [ResultOf(id), Product(a, b)])]
  {}

  lemma SuffixOfRealloc(id: nat, p: Value, v: Value)
    ensures ArityOk(ExternalCall(id, "realloc", [Arg(p, Other), Arg(v, Other)]))
    ensures Suffix(ExternalCall(id, "realloc", [Arg(p, Other), Arg(v, Other)])) ==
              [HookCall(RecordRealloc, [p, ResultOf(id), v])]
  {}

  lemma SuffixOfReallocArray(id: nat, p: Value, a: Value, b: Value)
    ensures ArityOk(ExternalCall(id, "reallocarray", [Arg(p, Other), Arg(a, Other), Arg(b, Other)]))
    ensures Suffix(ExternalCall(id, "reallocarray", [Arg(p, Other), Arg(a, Other), Arg(b, Other)])) ==
              if a.Const? && b.Const?
              then [HookCall(RecordRealloc, [p, ResultOf(id), Const((a.c * b.c) % 0x1_0000_0000_0000_0000)])]
              else [Mul(a, b), HookCall(RecordRealloc, [p, ResultOf(id), Product(a, b)])]
  {}

  lemma SuffixOfFree(id: nat, p: Value)
    ensures ArityOk(ExternalCall(id, "free", [Arg(p, Other)]))
    ensures Suffix(ExternalCall(id, "free", [Arg(p, Other)])) == [HookCall(RemoveObjRange, [p])]
  {}

  /** What is inserted after a call to a whitelisted library function. */
  lemma SuffixOfWhitelisted(id: nat, name: string, args: seq<Arg>)
    requires name in LibFuncWL
    ensures ArityOk(ExternalCall(id, name, args))
    ensures Suffix(ExternalCall(id, name, args)) == []
  {
    assert name !in MallocFns && name != "free";
  }

  /** What is inserted after a call passing two pointer arrays. */
  lemma SuffixOfTwoPtrArrays(id: nat, name: string, x: Value, p: Value, q: Value)
    requires name !in MallocFns && name != "free" && name !in LibFuncWL
    ensures var i := ExternalCall(id, name, [Arg(x, Other), Arg(p, PtrToPtr), Arg(q, PtrToPtr)]);
            && ArityOk(i)
            && Suffix(i) == [BitCast(q), HookCall(CalArraySize, [Cast(q)]), BitCast(p), HookCall(CalArraySize, [Cast(p)])]
  {
    var a := [Arg(x, Other), Arg(p, PtrToPtr), Arg(q, PtrToPtr)];
    assert a[1].ty == PtrToPtr;
    assert PtrArgs(a) == [p, q] by {
      assert a[..2][..1] == [a[0]];
      assert a[..1][..0] == [];
      assert a[..3] == a;
      assert PtrArgs(a[..1]) == [];
      assert PtrArgs(a[..2]) == [p];
    }
    assert [p, q][..1] == [p];
    assert [p][..0] == [];
    assert CastHooks([p]) == [BitCast(p), HookCall(CalArraySize, [Cast(p)])] + CastHooks([]);
  }

  /** A block of allocation calls planned: malloc and calloc get
      `_record_alloc`, calloc's after the multiply of its two arguments,
      which are not both constants. */
  lemma PlannedAllocExample(n: Value, cnt: nat)
    ensures var b := [
              ExternalCall(1, "malloc", [Arg(n, Other)]),
              ExternalCall(2, "calloc", [Arg(Operand(cnt), Other), Arg(Const(8), Other)])];
            && AllArityOk(b)
            && Planned(b) == [
                 b[0], HookCall(RecordAlloc, [ResultOf(1), n]),
                 b[1], Mul(Operand(cnt), Const(8)), HookCall(RecordAlloc, [ResultOf(2), Product(Operand(cnt), Const(8))])]
  {
    var i0 := ExternalCall(1, "malloc", [Arg(n, Other)]);
    var i1 := ExternalCall(2, "calloc", [Arg(Operand(cnt), Other), Arg(Const(8), Other)]);
    SuffixOfMalloc(1, n, Other);
    SuffixOfCalloc(2, Operand(cnt), Const(8));
    var e: Block := [];
    PlannedCons(i1, e);
    PlannedCons(i0, [i1] + e);
    assert [i0, i1] == [i0] + ([i1] + e);
  }

  /** `calloc(10, 4)` planned: the builder folds the product, so no multiply
      is inserted and the hook gets the constant 40. */
  lemma PlannedFoldedExample(id: nat)
    ensures var i := ExternalCall(id, "calloc", [Arg(Const(10), Other), Arg(Const(4), Other)]);
            && AllArityOk([i])
            && Planned([i]) == [i, HookCall(RecordAlloc, [ResultOf(id), Const(40)])]
  {
    var i := ExternalCall(id, "calloc", [Arg(Const(10), Other), Arg(Const(4), Other)]);
    SuffixOfCalloc(id, Const(10), Const(4));
    var e: Block := [];
    PlannedCons(i, e);
    assert [i] == [i] + e;
  }

  /** A realloc and a free planned: realloc gets `_record_realloc` with the
      old pointer first, free gets `_remove_obj_range`. */
  lemma PlannedReallocFreeExample(p: Value, n: Value)
    ensures var b := [
              ExternalCall(3, "realloc", [Arg(p, Other), Arg(n, Other)]),
              ExternalCall(4, "free", [Arg(ResultOf(3), Other)])];
            && AllArityOk(b)
            && Planned(b) == [
                 b[0], HookCall(RecordRealloc, [p, ResultOf(3), n]),
                 b[1], HookCall(RemoveObjRange, [ResultOf(3)])]
  {
    var i0 := ExternalCall(3, "realloc", [Arg(p, Other), Arg(n, Other)]);
    var i1 := ExternalCall(4, "free", [Arg(ResultOf(3), Other)]);
    SuffixOfRealloc(3, p, n);
    SuffixOfFree(4, ResultOf(3));
    var e: Block := [];
    PlannedCons(i1, e);
    PlannedCons(i0, [i1] + e);
    assert [i0, i1] == [i0] + ([i1] + e);
  }

  /** A block of calls to library functions planned: the whitelisted strtol
      gets nothing although it passes a pointer to a pointer, and execve's
      two pointer arrays get their bitcast and `_cal_array_size` pairs in
      reverse argument order. */
  lemma PlannedLibExample(x: Value, endp: Value, argv: Value, envp: Value)
    ensures var b := [
              ExternalCall(1, "strtol", [Arg(x, Other), Arg(endp, PtrToPtr), Arg(x, Other)]),
              ExternalCall(2, "execve", [Arg(x, Other), Arg(argv, PtrToPtr), Arg(envp, PtrToPtr)])];
            && AllArityOk(b)
            && Planned(b) == [
                 b[0],
                 b[1], BitCast(envp), HookCall(CalArraySize, [Cast(envp)]),
                       BitCast(argv), HookCall(CalArraySize, [Cast(argv)])]
  {
    var i0 := ExternalCall(1, "strtol", [Arg(x, Other), Arg(endp, PtrToPtr), Arg(x, Other)]);
    var i1 := ExternalCall(2, "execve", [Arg(x, Other), Arg(argv, PtrToPtr), Arg(envp, PtrToPtr)]);
    assert "strtol" in LibFuncWL;
    SuffixOfWhitelisted(1, "strtol", i0.args);
    assert "execve" !in MallocFns && "execve" !in LibFuncWL;
    SuffixOfTwoPtrArrays(2, "execve", x, argv, envp);
    var e: Block := [];
    PlannedCons(i1, e);
    PlannedCons(i0, [i1] + e);
    assert [i0, i1] == [i0] + ([i1] + e);
  }
}
