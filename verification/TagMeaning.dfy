/**
 What resolution means: the mutable stack is lexical scoping, resolved values hold no tags, and
 what a failed resolution leaves behind.
 */
module TagMeaning {
  import opened Common
  import opened Tags
  import opened TagResolver

  /** Defaults of lookups are never resolved, so a reference there closes no cycle. */
  lemma DefaultsCloseNoCycle()
    ensures Acyclic(map["a" := External(Env("X"), Context("a", Leaf(Null)))])
    ensures !Acyclic(map["a" := Context("a", Leaf(Null))])
  {
    var free, looping := map["a" := External(Env("X"), Context("a", Leaf(Null)))], map["a" := Context("a", Leaf(Null))];
    assert Ranked(free, map["a" := 0]);
    forall r ensures !Ranked(looping, r) { assert Jumps("a", looping); }
  }

  // ---------------------------------------------------------------------------
  // Well-scoped trees
  // ---------------------------------------------------------------------------

  /**
   Every `!Value d` and `!Index d` that resolving `v` can reach has `d` below the number of Enumerates
   entered around it, `n` of them outside `v`.  An Enumerate that is not entered adds no level.
   */
  ghost predicate Scoped(v: Node, ctx: map<string, Node>, n: nat)
    requires Acyclic(ctx)
    decreases Height(v, ctx), Size(v), 2
  {
    match v
    case Leaf(_) => true
    case List(items) => ScopedAll(items, ctx, n)
    case Dict(_, vals) => ScopedAll(vals, ctx, n)
    case Enumerate(_, iterable, _, body) =>
      (iterable.IsTag() ==> ScopedDirect(iterable, ctx, n + 1)) && Scoped(body, ctx, n + 1)
    case _ => ScopedDirect(v, ctx, n)
  }

  ghost predicate ScopedAll(xs: seq<Node>, ctx: map<string, Node>, n: nat)
    requires Acyclic(ctx)
    decreases HeightAll(xs, ctx), SizeAll(xs), 0
  {
    xs == [] || (Scoped(xs[0], ctx, n) && ScopedAll(xs[1..], ctx, n))
  }

  /** The same for a tag that is resolved directly. */
  ghost predicate ScopedDirect(v: Node, ctx: map<string, Node>, n: nat)
    requires Acyclic(ctx) && v.IsTag()
    decreases Height(v, ctx), Size(v), 1
  {
    match v
    case External(_, _) => true
    case Context(key, default) =>
      var value := if key in ctx then ctx[key] else default;
      value.IsTag() ==> ScopedDirect(value, ctx, n)
    case Format(_, args) => ScopedOperands(args, ctx, n)
    case Find(model, conditions, _) =>
      (model.IsTag() ==> ScopedDirect(model, ctx, n)) && ScopedOperands(conditions, ctx, n)
    case Condition(_, args) => ScopedOperands(args, ctx, n)
    case If(c, t, f) => (c.IsTag() ==> ScopedDirect(c, ctx, n)) && Scoped(t, ctx, n) && Scoped(f, ctx, n)
    case Enumerate(_, iterable, _, body) =>
      (iterable.IsTag() ==> ScopedDirect(iterable, ctx, n)) && Scoped(body, ctx, n)
    case Item(_, depth) => depth < n
    case AtIndex(obj, attribute, _) =>
      (obj.IsTag() ==> ScopedDirect(obj, ctx, n)) && (attribute.IsTag() ==> ScopedDirect(attribute, ctx, n))
  }

  ghost predicate ScopedOperands(xs: seq<Node>, ctx: map<string, Node>, n: nat)
    requires Acyclic(ctx)
    decreases OperandHeightAll(xs, ctx), SizeAll(xs), 0
  {
    xs == [] || ((xs[0].IsTag() ==> ScopedDirect(xs[0], ctx, n)) && ScopedOperands(xs[1..], ctx, n))
  }

  // ---------------------------------------------------------------------------
  // The stack and the cells are lexical scoping
  // ---------------------------------------------------------------------------

  /**
   How deep two environments are compared: all the way, below `n` for a tree that is scoped there, or
   below `n` when the second environment shows nothing from `n` on.
   */
  datatype Limit = Unlimited | Scoping(n: nat) | Blank(n: nat)

  /** The frames that references below the limit can see; all of them without a limit. */
  function Top(stack: seq<Node>, limit: Limit): seq<Node>
  {
    if !limit.Unlimited? && limit.n <= |stack| then stack[|stack| - limit.n..] else stack
  }

  predicate Sees(depth: int, limit: Limit) { limit.Unlimited? || depth < limit.n }

  function Deeper(limit: Limit): Limit { if limit.Unlimited? then Unlimited else limit.(n := limit.n + 1) }

  ghost predicate Fresh(env: Environment, reach: set<Node>, limit: Limit)
  {
    env.Machine? ==> forall e :: e in reach ==> e !in Top(env.stack, limit) && e !in env.cells
  }

  /** Below the limit the environments show the same items, and no reachable Enumerate is in use there. */
  ghost predicate Alike(a: Environment, b: Environment, reach: set<Node>, limit: Limit)
  {
    && Fresh(a, reach, limit) && Fresh(b, reach, limit)
    && (forall d: int :: Sees(d, limit) ==> a.View(d) == b.View(d))
    && (limit.Blank? ==> ShowsNothing(b, limit.n))
  }

  /** Equal results; above a blank second environment only if that one gives a result. */
  predicate Agree<T(==)>(x: Result<T>, y: Result<T>, limit: Limit) { x == y || (limit.Blank? && y.Err?) }

  lemma ViewEnter(env: Environment, e: Node, d: int)
    requires Fresh(env, {e}, Scoping(0))
    ensures env.Enter(e, true).View(d) == if d <= 0 then None else env.View(d - 1)
  {
  }

  lemma ViewHold(env: Environment, e: Node, p: Pair, d: int, limit: Limit)
    requires Fresh(env, {e}, limit) && Sees(d, limit)
    ensures env.Hold(e, p, true).View(d + 1) == if d + 1 < 0 then None else if d + 1 == 0 then Some(p) else env.View(d)
    ensures env.Hold(e, p, false).View(d) == env.View(d)
  {
    if env.Machine? && 0 <= d < |env.stack| {
      var top, i := Top(env.stack, limit), |env.stack| - 1 - d;
      assert env.stack[i] == top[|top| - 1 - d];
      assert env.stack[i] in top;
    }
  }

  lemma TopPush(stack: seq<Node>, e: Node, limit: Limit)
    ensures Top(stack + [e], Deeper(limit)) == Top(stack, limit) + [e]
  {
  }

  function Within(limit: Limit, entered: bool): Limit { if entered then Deeper(limit) else limit }

  lemma FreshInside(env: Environment, e: Node, p: Pair, entered: bool, limit: Limit, ctx: map<string, Node>)
    requires Acyclic(ctx) && e.Enumerate? && Fresh(env, Reach(e, ctx), limit)
    ensures Fresh(env.Enter(e, entered), OperandReach(e.iterable, ctx), Within(limit, entered))
    ensures Fresh(env.Hold(e, p, entered), Reach(e.body, ctx), Within(limit, entered))
  {
    EnumerateNotReentered(e, ctx);
    if env.Machine? { TopPush(env.stack, e, limit); }
  }

  ghost predicate ShowsNothing(env: Environment, n: nat)
  {
    env.Scopes? && forall d: int :: d >= n ==> env.View(d) == None
  }

  lemma BlankInside(env: Environment, e: Node, p: Pair, entered: bool, n: nat)
    requires ShowsNothing(env, n)
    ensures ShowsNothing(env.Enter(e, entered), if entered then n + 1 else n)
    ensures ShowsNothing(env.Hold(e, p, entered), if entered then n + 1 else n)
  {
    if entered {
      forall d: int | d >= n + 1
        ensures env.Enter(e, true).View(d) == env.Hold(e, p, true).View(d) == None
      {
        assert env.View(d - 1) == None;
      }
    }
  }

  lemma AlikeInside(
    a: Environment, b: Environment, e: Node, p: Pair, entered: bool, limit: Limit, ctx: map<string, Node>)
    requires Acyclic(ctx) && e.Enumerate? && Alike(a, b, Reach(e, ctx), limit)
    ensures Alike(a.Enter(e, entered), b.Enter(e, entered), OperandReach(e.iterable, ctx), Within(limit, entered))
    ensures Alike(a.Hold(e, p, entered), b.Hold(e, p, entered), Reach(e.body, ctx), Within(limit, entered))
  {
    FreshInside(a, e, p, entered, limit, ctx);
    FreshInside(b, e, p, entered, limit, ctx);
    if limit.Blank? { BlankInside(b, e, p, entered, limit.n); }
    assert Fresh(a, {e}, limit) && Fresh(b, {e}, limit) by { assert e in Reach(e, ctx); }
    hide Reach, Fresh, Top, ShowsNothing, Environment.Enter, Environment.Hold, Environment.View;
    forall d: int | Sees(d, Within(limit, entered))
      ensures a.Enter(e, entered).View(d) == b.Enter(e, entered).View(d)
      ensures a.Hold(e, p, entered).View(d) == b.Hold(e, p, entered).View(d)
    {
      var outer := if entered then d - 1 else d;
      assert Sees(outer, limit);
      ViewsInside(a, e, p, entered, limit, d);
      ViewsInside(b, e, p, entered, limit, d);
    }
  }

  /** What shows inside an Enumerate is its own item and what showed outside. */
  lemma ViewsInside(env: Environment, e: Node, p: Pair, entered: bool, limit: Limit, d: int)
    requires Fresh(env, {e}, limit) && Sees(d, Within(limit, entered))
    ensures entered ==> env.Enter(e, entered).View(d) == if d <= 0 then None else env.View(d - 1)
    ensures entered ==> env.Hold(e, p, entered).View(d) ==
                        if d < 0 then None else if d == 0 then Some(p) else env.View(d - 1)
    ensures !entered ==> env.Enter(e, entered).View(d) == env.View(d) == env.Hold(e, p, entered).View(d)
  {
    if entered {
      ViewEnter(env, e, d);
      ViewHold(env, e, p, d - 1, limit);
    } else {
      ViewHold(env, e, p, d, limit);
    }
  }

  /**
   Two environments that agree below a limit give a tree the same result, if there is no limit or the
   tree is scoped below it.
   */
  lemma {:induction false} SameResolve(v: Node, bp: Blueprint, a: Environment, b: Environment, limit: Limit)
    requires Acyclic(bp.context) && Alike(a, b, Reach(v, bp.context), limit)
    requires limit.Scoping? ==> Scoped(v, bp.context, limit.n)
    ensures Agree(Resolve(v, bp, a), Resolve(v, bp, b), limit)
    decreases Height(v, bp.context), Size(v), 3, 0
  {
    match v
    case Leaf(_) =>
    case List(items) => SameResolveAll(items, bp, a, b, limit);
    case Dict(_, vals) => SameResolveAll(vals, bp, a, b, limit);
    case Enumerate(_, _, _, _) => SameEnumerate(v, bp, a, b, limit, true);
    case _ => SameDirect(v, bp, a, b, limit);
  }

  lemma {:induction false} SameResolveAll(xs: seq<Node>, bp: Blueprint, a: Environment, b: Environment, limit: Limit)
    requires Acyclic(bp.context) && Alike(a, b, ReachAll(xs, bp.context), limit)
    requires limit.Scoping? ==> ScopedAll(xs, bp.context, limit.n)
    ensures Agree(ResolveAll(xs, bp, a), ResolveAll(xs, bp, b), limit)
    decreases HeightAll(xs, bp.context), SizeAll(xs), 0, 0
  {
    if xs != [] {
      SameResolve(xs[0], bp, a, b, limit);
      SameResolveAll(xs[1..], bp, a, b, limit);
    }
  }

  lemma {:induction false} SameDirect(v: Node, bp: Blueprint, a: Environment, b: Environment, limit: Limit)
    requires Acyclic(bp.context) && v.IsTag() && Alike(a, b, Reach(v, bp.context), limit)
    requires limit.Scoping? ==> ScopedDirect(v, bp.context, limit.n)
    ensures Agree(Direct(v, bp, a), Direct(v, bp, b), limit)
    decreases Height(v, bp.context), Size(v), 2, 0
  {
    match v
    case External(_, _) =>
    case Context(_, _) => SameContext(v, bp, a, b, limit);
    case Format(_, args) => SameOperands(args, bp, a, b, limit);
    case Find(_, _, _) => SameFind(v, bp, a, b, limit);
    case Condition(_, args) => SameOperands(args, bp, a, b, limit);
    case If(_, _, _) => SameIf(v, bp, a, b, limit);
    case Enumerate(_, _, _, _) => SameEnumerate(v, bp, a, b, limit, false);
    case Item(_, depth) => assert Sees(depth, limit) ==> a.View(depth) == b.View(depth);
    case AtIndex(obj, attribute, _) => SameOperand(obj, bp, a, b, limit); SameOperand(attribute, bp, a, b, limit);
  }

  lemma {:induction false} SameContext(v: Node, bp: Blueprint, a: Environment, b: Environment, limit: Limit)
    requires Acyclic(bp.context) && v.Context? && Alike(a, b, Reach(v, bp.context), limit)
    requires limit.Scoping? ==> ScopedDirect(v, bp.context, limit.n)
    ensures Agree(Direct(v, bp, a), Direct(v, bp, b), limit)
    decreases Height(v, bp.context), Size(v), 1, 0
  {
    var value := if v.key in bp.context then bp.context[v.key] else v.default;
    if value.IsTag() { SameDirect(value, bp, a, b, limit); }
  }

  lemma {:induction false} SameFind(v: Node, bp: Blueprint, a: Environment, b: Environment, limit: Limit)
    requires Acyclic(bp.context) && v.Find? && Alike(a, b, Reach(v, bp.context), limit)
    requires limit.Scoping? ==> ScopedDirect(v, bp.context, limit.n)
    ensures Agree(Direct(v, bp, a), Direct(v, bp, b), limit)
    decreases Height(v, bp.context), Size(v), 1, 0
  {
    SameOperand(v.model, bp, a, b, limit);
    SameOperands(v.conditions, bp, a, b, limit);
  }

  lemma {:induction false} SameIf(v: Node, bp: Blueprint, a: Environment, b: Environment, limit: Limit)
    requires Acyclic(bp.context) && v.If? && Alike(a, b, Reach(v, bp.context), limit)
    requires limit.Scoping? ==> ScopedDirect(v, bp.context, limit.n)
    ensures Agree(Direct(v, bp, a), Direct(v, bp, b), limit)
    decreases Height(v, bp.context), Size(v), 1, 0
  {
    SameOperand(v.condition, bp, a, b, limit);
    SameResolve(v.whenTrue, bp, a, b, limit);
    SameResolve(v.whenFalse, bp, a, b, limit);
  }

  lemma {:induction false} SameOperand(v: Node, bp: Blueprint, a: Environment, b: Environment, limit: Limit)
    requires Acyclic(bp.context) && Alike(a, b, OperandReach(v, bp.context), limit)
    requires limit.Scoping? && v.IsTag() ==> ScopedDirect(v, bp.context, limit.n)
    ensures Agree(Operand(v, bp, a), Operand(v, bp, b), limit)
    decreases OperandHeight(v, bp.context), Size(v), 3, 0
  {
    if v.IsTag() { SameDirect(v, bp, a, b, limit); }
  }

  lemma {:induction false} SameOperands(xs: seq<Node>, bp: Blueprint, a: Environment, b: Environment, limit: Limit)
    requires Acyclic(bp.context) && Alike(a, b, OperandReachAll(xs, bp.context), limit)
    requires limit.Scoping? ==> ScopedOperands(xs, bp.context, limit.n)
    ensures Agree(Operands(xs, bp, a), Operands(xs, bp, b), limit)
    decreases OperandHeightAll(xs, bp.context), SizeAll(xs), 0, 0
  {
    if xs != [] {
      SameOperand(xs[0], bp, a, b, limit);
      SameOperands(xs[1..], bp, a, b, limit);
    }
  }

  /** The operands of an Enumerate are scoped below the limit that applies inside it. */
  ghost predicate ScopedInside(e: Node, ctx: map<string, Node>, limit: Limit)
    requires Acyclic(ctx) && e.Enumerate?
  {
    limit.Scoping? ==> (e.iterable.IsTag() ==> ScopedDirect(e.iterable, ctx, limit.n)) && Scoped(e.body, ctx, limit.n)
  }

  lemma {:induction false} SameEnumerate(
    e: Node, bp: Blueprint, a: Environment, b: Environment, limit: Limit, entered: bool)
    requires Acyclic(bp.context) && e.Enumerate? && Alike(a, b, Reach(e, bp.context), limit)
    requires ScopedInside(e, bp.context, Within(limit, entered))
    ensures Agree(RunEnumerate(e, bp, a, entered), RunEnumerate(e, bp, b, entered), limit)
    decreases Height(e, bp.context), Size(e), 1, 0
  {
    AlikeInside(a, b, e, Pair(e, e), entered, limit, bp.context);
    SameOperand(e.iterable, bp, a.Enter(e, entered), b.Enter(e, entered), Within(limit, entered));
    var it := Operand(e.iterable, bp, b.Enter(e, entered));
    if it.Ok? && Pairs(it.value).Some? {
      SameVisit(e, Pairs(it.value).value, Empty(e.output), bp, a, b, limit, entered);
    }
  }

  lemma {:induction false} SameVisit(
    e: Node, pairs: seq<Pair>, acc: Node, bp: Blueprint, a: Environment, b: Environment, limit: Limit, entered: bool)
    requires Acyclic(bp.context) && e.Enumerate? && Alike(a, b, Reach(e, bp.context), limit)
    requires ScopedInside(e, bp.context, Within(limit, entered))
    requires acc.Dict? || acc.List?
    ensures Agree(Visit(e, pairs, acc, bp, a, entered), Visit(e, pairs, acc, bp, b, entered), limit)
    decreases Height(e, bp.context), Size(e), 0, |pairs|
  {
    if pairs != [] {
      AlikeInside(a, b, e, pairs[0], entered, limit, bp.context);
      SameResolve(e.body, bp, a.Hold(e, pairs[0], entered), b.Hold(e, pairs[0], entered), Within(limit, entered));
      var body := Resolve(e.body, bp, b.Hold(e, pairs[0], entered));
      if body.Ok? && Add(e.output, acc, body.value).Ok? {
        SameVisit(e, pairs[1..], Add(e.output, acc, body.value).value, bp, a, b, limit, entered);
      }
    }
  }

  /**
   On an entry whose cells are empty the mutable resolver gives every tree its lexically scoped
   meaning, whatever frames earlier failures left on the stack, as long as they are frames of
   Enumerates that this tree does not contain.
   */
  lemma MachineIsLexical(v: Node, bp: Blueprint, leftover: seq<Node>)
    requires Acyclic(bp.context)
    requires forall e :: e in Reach(v, bp.context) ==> e !in leftover
    ensures Resolve(v, bp, Machine(leftover, map[])) == Resolve(v, bp, Scopes([]))
  {
    SameResolve(v, bp, Machine(leftover, map[]), Scopes([]), Unlimited);
  }

  /** A well-scoped tree keeps its lexical meaning above ANY leftover frames, its own included. */
  lemma ScopedIsLexical(v: Node, bp: Blueprint, leftover: seq<Node>)
    requires Acyclic(bp.context) && Scoped(v, bp.context, 0)
    ensures Resolve(v, bp, Machine(leftover, map[])) == Resolve(v, bp, Scopes([]))
  {
    ScopedViews(leftover, Reach(v, bp.context));
    SameResolve(v, bp, Machine(leftover, map[]), Scopes([]), Scoping(0));
  }

  lemma ScopedViews(leftover: seq<Node>, reach: set<Node>)
    ensures Alike(Machine(leftover, map[]), Scopes([]), reach, Scoping(0))
    ensures Alike(Machine(leftover, map[]), Scopes([]), reach, Blank(0))
  {
    assert Top(leftover, Scoping(0)) == [] == Top(leftover, Blank(0));
  }

  /** So does every tree that a fresh entry resolves, scoped or not. */
  lemma ResolvedIsLexical(v: Node, bp: Blueprint, leftover: seq<Node>)
    requires Acyclic(bp.context) && Resolve(v, bp, Scopes([])).Ok?
    ensures Resolve(v, bp, Machine(leftover, map[])) == Resolve(v, bp, Scopes([]))
  {
    ScopedViews(leftover, Reach(v, bp.context));
    SameResolve(v, bp, Machine(leftover, map[]), Scopes([]), Blank(0));
  }

  /**
   After any number of failures on the same entry, resolving a tree again is right if the tree is
   well-scoped or a fresh entry would resolve it.
   */
  method Retry(entry: BlueprintEntry, v: Node, bp: Blueprint) returns (r: Result<Node>)
    requires Acyclic(bp.context) && entry.cells == map[]
    modifies entry
    ensures Scoped(v, bp.context, 0) || Resolve(v, bp, Scopes([])).Ok? ==> r == Resolve(v, bp, Scopes([]))
    ensures entry.cells == map[]
  {
    hide Resolve, Scoped;
    if Scoped(v, bp.context, 0) {
      ScopedIsLexical(v, bp, entry.tagContexts);
    } else if Resolve(v, bp, Scopes([])).Ok? {
      ResolvedIsLexical(v, bp, entry.tagContexts);
    }
    r := entry.Resolver(v, bp);
  }

  /** A fresh entry resolves every tree to its lexically scoped meaning and is left as it was found. */
  method ResolveFresh(v: Node, bp: Blueprint) returns (r: Result<Node>)
    requires Acyclic(bp.context)
    ensures r == Resolve(v, bp, Scopes([]))
  {
    var entry := new BlueprintEntry();
    r := entry.Resolver(v, bp);
    assert r.Ok? ==> entry.tagContexts == [];
    MachineIsLexical(v, bp, []);
  }

  // ---------------------------------------------------------------------------
  // Enumerating rebuilds
  // ---------------------------------------------------------------------------

  lemma ItemOfHeld(part: Part, e: Node, p: Pair, bp: Blueprint, env: Environment)
    requires Acyclic(bp.context)
    ensures Resolve(Item(part, 0), bp, env.Hold(e, p, true)) == Ok(if part.Index? then p.index else p.value)
  {
    var inner := env.Hold(e, p, true);
    assert inner.View(0) == Some(p);
    assert Resolve(Item(part, 0), bp, inner) == Direct(Item(part, 0), bp, inner);
  }

  /** `!Enumerate [xs, SEQ, !Value 0]` is `xs`. */
  lemma EnumerateRebuildsSequence(id: nat, xs: seq<Node>, bp: Blueprint, env: Environment)
    requires Acyclic(bp.context)
    ensures Resolve(Enumerate(id, List(xs), SeqBody, Item(Value, 0)), bp, env) == Ok(List(xs))
  {
    var e := Enumerate(id, List(xs), SeqBody, Item(Value, 0));
    var pairs := Pairs(List(xs)).value;
    VisitSequence(e, xs, pairs, 0, bp, env);
    assert pairs[0..] == pairs && xs[..0] == [];
    assert Operand(e.iterable, bp, env.Enter(e, true)) == Ok(List(xs));
  }

  lemma {:induction false} VisitSequence(
    e: Node, xs: seq<Node>, pairs: seq<Pair>, i: nat, bp: Blueprint, env: Environment)
    requires Acyclic(bp.context) && e.Enumerate? && e.body == Item(Value, 0) && i <= |xs|
    requires |pairs| == |xs| && forall j :: 0 <= j < |xs| ==> pairs[j].value == xs[j]
    ensures Visit(e, pairs[i..], List(xs[..i]), bp, env, true) == Ok(List(xs))
    decreases |xs| - i
  {
    if i < |xs| {
      ItemOfHeld(Value, e, pairs[i], bp, env);
      VisitOne(e, pairs, i, List(xs[..i]), bp, env, true);
      assert xs[..i] + [xs[i]] == xs[..i + 1];
      VisitSequence(e, xs, pairs, i + 1, bp, env);
    } else {
      assert xs[..i] == xs;
    }
  }

  /** `!Enumerate [m, MAP, [!Index 0, !Value 0]]` is `m`, for every mapping `m`. */
  lemma EnumerateRebuildsMapping(id: nat, keys: seq<Scalar>, vals: seq<Node>, bp: Blueprint, env: Environment)
    requires Acyclic(bp.context) && |keys| == |vals| && forall i, j :: 0 <= i < j < |keys| ==> keys[i] != keys[j]
    ensures Resolve(Enumerate(id, Dict(keys, vals), MapBody, List([Item(Index, 0), Item(Value, 0)])), bp, env)
            == Ok(Dict(keys, vals))
  {
    var e := Enumerate(id, Dict(keys, vals), MapBody, List([Item(Index, 0), Item(Value, 0)]));
    var pairs := Zip(keys, vals);
    forall i | 0 <= i < |keys|
      ensures Resolve(e.body, bp, env.Hold(e, pairs[i], true)) == Ok(List([Leaf(keys[i]), vals[i]]))
    {
      BodyOfPair(e, pairs[i], bp, env);
    }
    VisitMapping(e, pairs, keys, vals, 0, bp, env);
    assert pairs[0..] == pairs && keys[..0] == [] && vals[..0] == [];
    assert Operand(e.iterable, bp, env.Enter(e, true)) == Ok(Dict(keys, vals));
  }

  /** The bodies resolve to the pairs of a mapping with distinct keys. */
  ghost predicate Bodies(
    e: Node, pairs: seq<Pair>, keys: seq<Scalar>, vals: seq<Node>, bp: Blueprint, env: Environment)
    requires Acyclic(bp.context) && e.Enumerate?
  {
    && |pairs| == |keys| == |vals| && (forall i, j :: 0 <= i < j < |keys| ==> keys[i] != keys[j])
    && forall i :: 0 <= i < |keys| ==>
         Resolve(e.body, bp, env.Hold(e, pairs[i], true)) == Ok(List([Leaf(keys[i]), vals[i]]))
  }

  lemma {:induction false} VisitMapping(
    e: Node, pairs: seq<Pair>, keys: seq<Scalar>, vals: seq<Node>, i: nat, bp: Blueprint, env: Environment)
    requires Acyclic(bp.context) && e.Enumerate? && Bodies(e, pairs, keys, vals, bp, env) && i <= |keys|
    ensures Visit(e, pairs[i..], Dict(keys[..i], vals[..i]), bp, env, true) == Ok(Dict(keys, vals))
    decreases |keys| - i
  {
    hide Visit, Resolve, Add;
    if i < |keys| {
      VisitOne(e, pairs, i, Dict(keys[..i], vals[..i]), bp, env, true);
      AddNewField(e.output, Dict(keys[..i], vals[..i]), keys[i], vals[i]);
      assert keys[..i] + [keys[i]] == keys[..i + 1] && vals[..i] + [vals[i]] == vals[..i + 1];
      VisitMapping(e, pairs, keys, vals, i + 1, bp, env);
    } else {
      VisitNone(e, pairs, Dict(keys, vals), bp, env, true);
      assert keys[..i] == keys && vals[..i] == vals;
    }
  }

  lemma BodyOfPair(e: Node, p: Pair, bp: Blueprint, env: Environment)
    requires Acyclic(bp.context)
    ensures Resolve(List([Item(Index, 0), Item(Value, 0)]), bp, env.Hold(e, p, true)) == Ok(List([p.index, p.value]))
  {
    var inner := env.Hold(e, p, true);
    ItemOfHeld(Index, e, p, bp, env);
    ItemOfHeld(Value, e, p, bp, env);
    hide Direct;
    var items := [Item(Index, 0), Item(Value, 0)];
    assert items[1..] == [Item(Value, 0)] && items[1..][1..] == [];
    assert ResolveAll([], bp, inner) == Ok([]);
    assert ResolveAll(items[1..], bp, inner) == Ok([p.value]) by { assert [p.value] + [] == [p.value]; }
    assert ResolveAll(items, bp, inner) == Ok([p.index, p.value]) by {
      assert [p.index] + [p.value] == [p.index, p.value];
    }
  }

  lemma AddNewField(output: Output, acc: Node, key: Scalar, value: Node)
    requires acc.Dict? && |acc.keys| == |acc.vals| && key !in acc.keys
    ensures Add(output, acc, List([Leaf(key), value])) == Ok(Dict(acc.keys + [key], acc.vals + [value]))
  {
    var keys, vals, after := [key], [value], Dict(acc.keys + [key], acc.vals + [value]);
    assert keys[1..] == [] && vals[1..] == [];
    assert MergeFields(after, [], []) == after;
    assert MergeFields(acc, keys, vals) == MergeFields(after, keys[1..], vals[1..]);
  }

  lemma {:induction false} IndexAppended(keys: seq<Scalar>, key: Scalar, other: Scalar)
    requires key !in keys
    ensures IndexOf(keys + [key], other) ==
            if other in keys then IndexOf(keys, other) else |keys| + (if other == key then 0 else 1)
  {
    if keys != [] {
      assert (keys + [key])[1..] == keys[1..] + [key];
      if keys[0] != other { IndexAppended(keys[1..], key, other); }
    }
  }

  /** Merging one scalar field: it reads back under its key, and every other key reads as before. */
  lemma MergedFieldReadsBack(a: Node, key: Scalar, value: Node, other: Scalar, fallback: Option<Node>)
    requires a.Dict? && |a.keys| == |a.vals| && value.Leaf?
    ensures var merged := MergeFields(a, [key], [value]);
            At(merged, Leaf(other), fallback) == if other == key then Ok(value) else At(a, Leaf(other), fallback)
  {
    hide At;
    var i := IndexOf(a.keys, key);
    if i < |a.keys| {
      MergedExisting(a, key, value);
      ReplacedReadsBack(a, i, value, other, fallback);
    } else {
      AddNewField(MapBody, a, key, value);
      AppendedReadsBack(a, key, value, other, fallback);
    }
  }

  lemma MergedExisting(a: Node, key: Scalar, value: Node)
    requires a.Dict? && |a.keys| == |a.vals| && value.Leaf? && key in a.keys
    ensures MergeFields(a, [key], [value]) == Dict(a.keys, a.vals[IndexOf(a.keys, key) := value])
  {
    var after := Dict(a.keys, a.vals[IndexOf(a.keys, key) := value]);
    assert MergeFields(after, [], []) == after && [key][1..] == [] && [value][1..] == [];
  }

  lemma ReplacedReadsBack(a: Node, i: nat, value: Node, other: Scalar, fallback: Option<Node>)
    requires a.Dict? && |a.keys| == |a.vals| && i < |a.keys| && i == IndexOf(a.keys, a.keys[i])
    ensures At(Dict(a.keys, a.vals[i := value]), Leaf(other), fallback)
            == if other == a.keys[i] then Ok(value) else At(a, Leaf(other), fallback)
  {
  }

  lemma AppendedReadsBack(a: Node, key: Scalar, value: Node, other: Scalar, fallback: Option<Node>)
    requires a.Dict? && |a.keys| == |a.vals| && key !in a.keys
    ensures At(Dict(a.keys + [key], a.vals + [value]), Leaf(other), fallback)
            == if other == key then Ok(value) else At(a, Leaf(other), fallback)
  {
    IndexAppended(a.keys, key, other);
  }

  // ---------------------------------------------------------------------------
  // A failed resolution is not free of effects
  // ---------------------------------------------------------------------------

  /** `!Enumerate [[7], SEQ, !Value 1]`: its body names an Enumerate that does not exist. */
  const DANGLING: Node := Enumerate(0, List([Leaf(Int(7))]), SeqBody, Item(Value, 1))

  lemma DanglingOutcome(bp: Blueprint, leftover: seq<Node>)
    requires Acyclic(bp.context)
    requires forall i :: 0 <= i < |leftover| ==> leftover[i] == DANGLING
    ensures Reach(DANGLING, bp.context) == {DANGLING}
    ensures Resolve(DANGLING, bp, Machine(leftover, map[])) ==
            if leftover == [] then Err(EntryInvalid) else Ok(List([Leaf(Int(7))]))
  {
    var seven := Leaf(Int(7));
    assert Reach(DANGLING, bp.context) == {DANGLING} by {
      assert ReachAll([seven], bp.context) == Reach(seven, bp.context) + ReachAll([], bp.context);
      assert Reach(DANGLING.iterable, bp.context) == {} && Reach(DANGLING.body, bp.context) == {};
    }
    var env, p := Machine(leftover, map[]), Pair(Leaf(Int(0)), seven);
    assert Pairs(List([seven])).value == [p];
    var inner := env.Hold(DANGLING, p, true);
    assert inner.View(1) == if leftover == [] then None else Some(p);
    var r := ItemIn(inner, Value, 1);
    assert r == Direct(DANGLING.body, bp, inner) == Resolve(DANGLING.body, bp, inner);
    if r.Ok? {
      assert Add(SeqBody, List([]), r.value) == Ok(List([seven])) by { assert [] + [seven] == [seven]; }
      assert [p][1..] == [];
      assert Visit(DANGLING, [], List([seven]), bp, env, true) == Ok(List([seven]));
    }
    assert Visit(DANGLING, [p], List([]), bp, env, true) ==
           if leftover == [] then Err(EntryInvalid) else Ok(List([seven]));
    assert Operand(DANGLING.iterable, bp, env.Enter(DANGLING, true)) == Ok(List([seven]));
    assert Resolve(DANGLING, bp, env) == RunEnumerate(DANGLING, bp, env, true);
  }

  /**
   Resolving the same tree twice on one entry can fail first and then succeed: the failure leaves
   the Enumerate's frame on the stack, and the retry reads its own item through that frame.
   */
  method RetryAfterFailure(bp: Blueprint) returns (first: Result<Node>, second: Result<Node>)
    requires Acyclic(bp.context)
    ensures first == Err(EntryInvalid) && second == Ok(List([Leaf(Int(7))])) && !Scoped(DANGLING, bp.context, 0)
  {
    var entry := new BlueprintEntry();
    DanglingOutcome(bp, []);
    first := entry.Resolver(DANGLING, bp);
    DanglingOutcome(bp, entry.tagContexts);
    assert !Scoped(DANGLING.body, bp.context, 1);
    second := entry.Resolver(DANGLING, bp);
  }

  // ---------------------------------------------------------------------------
  // Resolved values hold no tags
  // ---------------------------------------------------------------------------

  ghost predicate TagFree(v: Node)
  {
    match v
    case Leaf(_) => true
    case List(items) => forall x :: x in items ==> TagFree(x)
    case Dict(_, vals) => forall x :: x in vals ==> TagFree(x)
    case _ => false
  }

  /** An operand used as it stands must hold no tag. */
  ghost predicate OperandClean(v: Node)
    decreases v, 1
  {
    if v.IsTag() then Clean(v) else TagFree(v)
  }

  /** Every raw operand that can reach the output of `v` is free of tags. */
  ghost predicate Clean(v: Node)
    decreases v, 0
  {
    match v
    case Leaf(_) => true
    case List(items) => forall x :: x in items ==> Clean(x)
    case Dict(_, vals) => forall x :: x in vals ==> Clean(x)
    case External(_, default) => TagFree(default)
    case Context(_, default) => OperandClean(default)
    case If(_, t, f) => Clean(t) && Clean(f)
    case Enumerate(_, iterable, _, body) => OperandClean(iterable) && Clean(body)
    case AtIndex(obj, _, fallback) => OperandClean(obj) && (fallback.Some? ==> TagFree(fallback.value))
    case _ => true
  }

  ghost predicate CleanPair(p: Pair) { TagFree(p.index) && TagFree(p.value) }

  ghost predicate CleanEnvironment(env: Environment)
  {
    match env
    case Scopes(slots) => forall s :: s in slots && s.Some? ==> CleanPair(s.value)
    case Machine(_, cells) => forall e :: e in cells ==> CleanPair(cells[e])
  }

  ghost predicate CleanBlueprint(bp: Blueprint)
  {
    && (forall k :: k in bp.context ==> OperandClean(bp.context[k]))
    && (forall s :: bp.oracles.parseJson(s).Some? ==> TagFree(bp.oracles.parseJson(s).value))
    && (forall m, xs, o :: bp.oracles.find(m, xs, o).Ok? ==> TagFree(bp.oracles.find(m, xs, o).value))
  }

  ghost predicate CleanResult(r: Result<Node>) { r.Ok? ==> TagFree(r.value) }

  lemma {:induction false} MergeValueTagFree(a: Node, b: Node)
    requires TagFree(a) && TagFree(b)
    ensures TagFree(MergeValue(a, b))
    decreases b, 1
  {
    if a.Dict? && b.Dict? { MergeFieldsTagFree(a, b.keys, b.vals); }
  }

  lemma {:induction false} MergeFieldsTagFree(a: Node, keys: seq<Scalar>, vals: seq<Node>)
    requires a.Dict? && TagFree(a) && forall x :: x in vals ==> TagFree(x)
    ensures TagFree(MergeFields(a, keys, vals))
    decreases vals, 0
  {
    if keys != [] && vals != [] {
      var i := IndexOf(a.keys, keys[0]);
      if i < |a.keys| && i < |a.vals| {
        MergeValueTagFree(a.vals[i], vals[0]);
        MergeFieldsTagFree(Dict(a.keys, a.vals[i := MergeValue(a.vals[i], vals[0])]), keys[1..], vals[1..]);
      } else {
        MergeFieldsTagFree(Dict(a.keys + [keys[0]], a.vals + [vals[0]]), keys[1..], vals[1..]);
      }
    }
  }

  lemma AddTagFree(output: Output, acc: Node, b: Node)
    requires acc.Dict? || acc.List?
    requires TagFree(acc) && TagFree(b)
    ensures CleanResult(Add(output, acc, b))
  {
    if acc.Dict? {
      match b
      case List(xs) => if |xs| >= 2 && xs[0].Leaf? { MergeFieldsTagFree(acc, [xs[0].s], [xs[1]]); }
      case Dict(keys, vals) => MergeFieldsTagFree(acc, keys, vals);
      case _ =>
    }
  }

  lemma {:induction false} ResolveTagFree(v: Node, bp: Blueprint, env: Environment)
    requires Acyclic(bp.context) && Clean(v) && CleanBlueprint(bp) && CleanEnvironment(env)
    ensures CleanResult(Resolve(v, bp, env))
    decreases Height(v, bp.context), Size(v), 3, 0
  {
    match v
    case Leaf(_) =>
    case List(items) => ResolveAllTagFree(items, bp, env);
    case Dict(_, vals) => ResolveAllTagFree(vals, bp, env);
    case Enumerate(_, _, _, _) => EnumerateTagFree(v, bp, env, true);
    case _ => DirectTagFree(v, bp, env);
  }

  lemma {:induction false} ResolveAllTagFree(xs: seq<Node>, bp: Blueprint, env: Environment)
    requires Acyclic(bp.context) && CleanBlueprint(bp) && CleanEnvironment(env)
    requires forall x :: x in xs ==> Clean(x)
    ensures ResolveAll(xs, bp, env).Ok? ==> forall y :: y in ResolveAll(xs, bp, env).value ==> TagFree(y)
    decreases HeightAll(xs, bp.context), SizeAll(xs), 0, 0
  {
    if xs != [] {
      ResolveTagFree(xs[0], bp, env);
      ResolveAllTagFree(xs[1..], bp, env);
    }
  }

  lemma {:induction false} DirectTagFree(v: Node, bp: Blueprint, env: Environment)
    requires Acyclic(bp.context) && v.IsTag() && Clean(v) && CleanBlueprint(bp) && CleanEnvironment(env)
    ensures CleanResult(Direct(v, bp, env))
    decreases Height(v, bp.context), Size(v), 2, 0
  {
    hide At, Combine, Outside, Formatted, Truthy;
    match v
    case External(source, default) => OutsideTagFree(source, default, bp);
    case Context(key, default) =>
      var value := if key in bp.context then bp.context[key] else default;
      if value.IsTag() { DirectTagFree(value, bp, env); }
    case Format(format, args) => FormattedTagFree();
    case Condition(mode, args) => CombineTagFree();
    case If(_, t, f) => ResolveTagFree(t, bp, env); ResolveTagFree(f, bp, env);
    case Enumerate(_, _, _, _) => EnumerateTagFree(v, bp, env, false);
    case AtIndex(obj, _, fallback) => OperandTagFree(obj, bp, env); AtTagFree(fallback);
    case _ =>
  }

  lemma FormattedTagFree()
    ensures forall r :: CleanResult(Formatted(r))
  {
  }

  lemma CombineTagFree()
    ensures forall mode, xs :: CleanResult(Combine(mode, xs))
  {
  }

  lemma AtTagFree(fallback: Option<Node>)
    requires fallback.Some? ==> TagFree(fallback.value)
    ensures forall obj, attribute :: TagFree(obj) ==> CleanResult(At(obj, attribute, fallback))
  {
    hide Substring;
  }

  lemma OutsideTagFree(source: Source, default: Node, bp: Blueprint)
    requires CleanBlueprint(bp) && TagFree(default)
    ensures CleanResult(Outside(source, default, bp))
  {
    if source.KeyOf? { KeyLookupIsLeaf(source.id, bp.entries, bp.forPolicyBinding); }
  }

  lemma KeyLookupIsLeaf(id: string, entries: seq<EntryState>, forPolicyBinding: bool)
    ensures KeyLookup(id, entries, forPolicyBinding).Ok? ==> KeyLookup(id, entries, forPolicyBinding).value.Leaf?
  {
  }

  lemma {:induction false} OperandTagFree(v: Node, bp: Blueprint, env: Environment)
    requires Acyclic(bp.context) && OperandClean(v) && CleanBlueprint(bp) && CleanEnvironment(env)
    ensures CleanResult(Operand(v, bp, env))
    decreases OperandHeight(v, bp.context), Size(v), 3, 0
  {
    if v.IsTag() { DirectTagFree(v, bp, env); }
  }

  lemma {:induction false} EnumerateTagFree(e: Node, bp: Blueprint, env: Environment, entered: bool)
    requires Acyclic(bp.context) && e.Enumerate? && Clean(e) && CleanBlueprint(bp) && CleanEnvironment(env)
    ensures CleanResult(RunEnumerate(e, bp, env, entered))
    decreases Height(e, bp.context), Size(e), 1, 0
  {
    OperandTagFree(e.iterable, bp, env.Enter(e, entered));
    var it := Operand(e.iterable, bp, env.Enter(e, entered));
    if it.Ok? && Pairs(it.value).Some? {
      VisitTagFree(e, Pairs(it.value).value, Empty(e.output), bp, env, entered);
    }
  }

  lemma {:induction false} VisitTagFree(
    e: Node, pairs: seq<Pair>, acc: Node, bp: Blueprint, env: Environment, entered: bool)
    requires Acyclic(bp.context) && e.Enumerate? && Clean(e) && CleanBlueprint(bp) && CleanEnvironment(env)
    requires acc.Dict? || acc.List?
    requires TagFree(acc) && forall p :: p in pairs ==> CleanPair(p)
    ensures CleanResult(Visit(e, pairs, acc, bp, env, entered))
    decreases Height(e, bp.context), Size(e), 0, |pairs|
  {
    if pairs != [] {
      ResolveTagFree(e.body, bp, env.Hold(e, pairs[0], entered));
      var body := Resolve(e.body, bp, env.Hold(e, pairs[0], entered));
      if body.Ok? {
        AddTagFree(e.output, acc, body.value);
        if Add(e.output, acc, body.value).Ok? {
          VisitTagFree(e, pairs[1..], Add(e.output, acc, body.value).value, bp, env, entered);
        }
      }
    }
  }

  /** Data without tags resolves to itself. */
  lemma {:induction false} TagFreeIsFixed(v: Node, bp: Blueprint, env: Environment)
    requires Acyclic(bp.context) && TagFree(v)
    ensures Resolve(v, bp, env) == Ok(v)
    decreases Size(v)
  {
    match v
    case Leaf(_) =>
    case List(items) => TagFreeAllFixed(items, bp, env);
    case Dict(_, vals) => TagFreeAllFixed(vals, bp, env);
  }

  lemma {:induction false} TagFreeAllFixed(xs: seq<Node>, bp: Blueprint, env: Environment)
    requires Acyclic(bp.context) && forall x :: x in xs ==> TagFree(x)
    ensures ResolveAll(xs, bp, env) == Ok(xs)
    decreases SizeAll(xs)
  {
    if xs != [] {
      TagFreeIsFixed(xs[0], bp, env);
      TagFreeAllFixed(xs[1..], bp, env);
      assert [xs[0]] + xs[1..] == xs;
    }
  }
}
