/**
 The resolver as the program runs it, proved against the meaning in `Tags`.
 */
module TagResolver {
  import opened Tags

  // ---------------------------------------------------------------------------
  // The Enumerates a resolution can reach
  // ---------------------------------------------------------------------------

  ghost function Reach(v: Node, ctx: map<string, Node>): set<Node>
    requires Acyclic(ctx)
    decreases Height(v, ctx), Size(v)
  {
    match v
    case Leaf(_) => {}
    case List(items) => ReachAll(items, ctx)
    case Dict(_, vals) => ReachAll(vals, ctx)
    case External(_, _) => {}
    case Context(key, default) =>
      if key !in ctx then (if default.IsTag() then Reach(default, ctx) else {})
      else if Jumps(key, ctx) then Reach(ctx[key], ctx) else {}
    case Format(_, args) => OperandReachAll(args, ctx)
    case Find(model, conditions, _) =>
      (if model.IsTag() then Reach(model, ctx) else {}) + OperandReachAll(conditions, ctx)
    case Condition(_, args) => OperandReachAll(args, ctx)
    case If(c, t, f) => (if c.IsTag() then Reach(c, ctx) else {}) + Reach(t, ctx) + Reach(f, ctx)
    case Enumerate(_, iterable, _, body) =>
      {v} + (if iterable.IsTag() then Reach(iterable, ctx) else {}) + Reach(body, ctx)
    case Item(_, _) => {}
    case AtIndex(obj, attribute, _) =>
      (if obj.IsTag() then Reach(obj, ctx) else {}) +
      (if attribute.IsTag() then Reach(attribute, ctx) else {})
  }

  ghost function ReachAll(xs: seq<Node>, ctx: map<string, Node>): set<Node>
    requires Acyclic(ctx)
    decreases HeightAll(xs, ctx), SizeAll(xs)
  {
    if xs == [] then {} else Reach(xs[0], ctx) + ReachAll(xs[1..], ctx)
  }

  ghost function OperandReach(v: Node, ctx: map<string, Node>): set<Node>
    requires Acyclic(ctx)
  {
    if v.IsTag() then Reach(v, ctx) else {}
  }

  ghost function OperandReachAll(xs: seq<Node>, ctx: map<string, Node>): set<Node>
    requires Acyclic(ctx)
    decreases OperandHeightAll(xs, ctx), SizeAll(xs)
  {
    if xs == [] then {} else (if xs[0].IsTag() then Reach(xs[0], ctx) else {}) + OperandReachAll(xs[1..], ctx)
  }

  ghost predicate Below(e: Node, height: nat, size: nat, ctx: map<string, Node>)
    requires Acyclic(ctx)
  {
    Height(e, ctx) < height || (Height(e, ctx) == height && Size(e) <= size)
  }

  lemma {:induction false} ReachIsBelow(e: Node, v: Node, ctx: map<string, Node>)
    requires Acyclic(ctx) && e in Reach(v, ctx)
    ensures Below(e, Height(v, ctx), Size(v), ctx)
    decreases Height(v, ctx), Size(v)
  {
    match v
    case List(items) => ReachAllIsBelow(e, items, ctx);
    case Dict(_, vals) => ReachAllIsBelow(e, vals, ctx);
    case Context(key, default) => ReachIsBelow(e, if key in ctx then ctx[key] else default, ctx);
    case Format(_, args) => OperandReachIsBelow(e, args, ctx);
    case Find(_, _, _) => FindReachIsBelow(e, v, ctx);
    case Condition(_, args) => OperandReachIsBelow(e, args, ctx);
    case If(c, t, f) =>
      ReachIsBelow(e, if e in OperandReach(c, ctx) then c else if e in Reach(t, ctx) then t else f, ctx);
    case Enumerate(_, iterable, _, body) =>
      if e != v { ReachIsBelow(e, if e in OperandReach(iterable, ctx) then iterable else body, ctx); }
    case AtIndex(obj, attribute, _) =>
      ReachIsBelow(e, if e in OperandReach(obj, ctx) then obj else attribute, ctx);
    case _ =>
  }

  lemma {:induction false} FindReachIsBelow(e: Node, v: Node, ctx: map<string, Node>)
    requires Acyclic(ctx) && v.Find? && e in Reach(v, ctx)
    ensures Below(e, Height(v, ctx), Size(v), ctx)
    decreases Height(v, ctx), Size(v), 0
  {
    if e in OperandReach(v.model, ctx) {
      ReachIsBelow(e, v.model, ctx);
    } else {
      OperandReachIsBelow(e, v.conditions, ctx);
    }
  }

  lemma {:induction false} ReachAllIsBelow(e: Node, xs: seq<Node>, ctx: map<string, Node>)
    requires Acyclic(ctx) && e in ReachAll(xs, ctx)
    ensures Below(e, HeightAll(xs, ctx), SizeAll(xs), ctx)
    decreases HeightAll(xs, ctx), SizeAll(xs)
  {
    if e in Reach(xs[0], ctx) {
      ReachIsBelow(e, xs[0], ctx);
    } else {
      ReachAllIsBelow(e, xs[1..], ctx);
    }
  }

  lemma {:induction false} OperandReachIsBelow(e: Node, xs: seq<Node>, ctx: map<string, Node>)
    requires Acyclic(ctx) && e in OperandReachAll(xs, ctx)
    ensures Below(e, OperandHeightAll(xs, ctx), SizeAll(xs), ctx)
    decreases OperandHeightAll(xs, ctx), SizeAll(xs)
  {
    if e in OperandReach(xs[0], ctx) {
      ReachIsBelow(e, xs[0], ctx);
    } else {
      OperandReachIsBelow(e, xs[1..], ctx);
    }
  }

  /** An Enumerate is never re-entered while it runs, however context values are shared. */
  lemma EnumerateNotReentered(e: Node, ctx: map<string, Node>)
    requires Acyclic(ctx) && e.Enumerate?
    ensures e !in OperandReach(e.iterable, ctx) && e !in Reach(e.body, ctx)
  {
    if e in OperandReach(e.iterable, ctx) { ReachIsBelow(e, e.iterable, ctx); }
    if e in Reach(e.body, ctx) { ReachIsBelow(e, e.body, ctx); }
  }

  ghost predicate Idle(reach: set<Node>, cells: map<Node, Pair>)
  {
    forall e :: e in reach ==> e !in cells
  }

  /** The stack only grew, and only by Enumerates of the tree being resolved. */
  ghost predicate Leftover(before: seq<Node>, after: seq<Node>, reach: set<Node>)
  {
    before <= after && forall i :: |before| <= i < |after| ==> after[i] in reach
  }

  class BlueprintEntry {
    var tagContexts: seq<Node>        // __tag_contexts
    var cells: map<Node, Pair>        // __current_context of each Enumerate; absent: the empty tuple

    constructor ()
      ensures tagContexts == [] && cells == map[]
    {
      tagContexts, cells := [], map[];
    }

    /** `get_tag_context`, followed by `get_context` of the Enumerate found. */
    method GetItem(part: Part, depth: int) returns (r: Result<Node>)
      ensures r == ItemIn(Machine(tagContexts, cells), part, depth)
    {
      if depth < 0 || depth >= |tagContexts| { return Err(EntryInvalid); }
      var e := tagContexts[|tagContexts| - (depth + 1)];
      if e !in cells { return Err(EntryInvalid); }
      return Ok(if part.Index? then cells[e].index else cells[e].value);
    }

    method Resolver(v: Node, bp: Blueprint) returns (r: Result<Node>)
      requires Acyclic(bp.context) && Idle(Reach(v, bp.context), cells)
      modifies this
      ensures r == Resolve(v, bp, Machine(old(tagContexts), old(cells)))
      ensures r.Ok? ==> tagContexts == old(tagContexts)
      ensures cells == old(cells) && Leftover(old(tagContexts), tagContexts, Reach(v, bp.context))
      ensures r.Err? && v.Enumerate? ==> old(tagContexts) + [v] <= tagContexts
      decreases Height(v, bp.context), Size(v), 3, 0
    {
      match v {
        case Leaf(_) => r := Ok(v);
        case List(items) =>
          var xs := ResolverAll(items, bp);
          r := if xs.Ok? then Ok(List(xs.value)) else Err(xs.error);
        case Dict(keys, vals) =>
          var xs := ResolverAll(vals, bp);
          r := if xs.Ok? then Ok(Dict(keys, xs.value)) else Err(xs.error);
        case Enumerate(_, _, _, _) =>
          tagContexts := tagContexts + [v];
          r := RunEnumerateTag(v, bp, old(tagContexts), true);
          if r.Ok? { tagContexts := tagContexts[..|tagContexts| - 1]; }
        case _ => r := DirectTag(v, bp);
      }
    }

    method ResolverAll(xs: seq<Node>, bp: Blueprint) returns (r: Result<seq<Node>>)
      requires Acyclic(bp.context) && Idle(ReachAll(xs, bp.context), cells)
      modifies this
      ensures r == ResolveAll(xs, bp, Machine(old(tagContexts), old(cells)))
      ensures r.Ok? ==> tagContexts == old(tagContexts)
      ensures cells == old(cells) && Leftover(old(tagContexts), tagContexts, ReachAll(xs, bp.context))
      decreases HeightAll(xs, bp.context), SizeAll(xs), 0, 0
    {
      if xs == [] { return Ok([]); }
      var y := Resolver(xs[0], bp);
      if y.Err? { return Err(y.error); }
      var ys := ResolverAll(xs[1..], bp);
      r := if ys.Ok? then Ok([y.value] + ys.value) else Err(ys.error);
    }

    method DirectTag(v: Node, bp: Blueprint) returns (r: Result<Node>)
      requires Acyclic(bp.context) && v.IsTag() && Idle(Reach(v, bp.context), cells)
      modifies this
      ensures r == Direct(v, bp, Machine(old(tagContexts), old(cells)))
      ensures r.Ok? ==> tagContexts == old(tagContexts)
      ensures cells == old(cells) && Leftover(old(tagContexts), tagContexts, Reach(v, bp.context))
      decreases Height(v, bp.context), Size(v), 2, 0
    {
      match v {
        case External(source, default) => r := Outside(source, default, bp);
        case Context(key, default) =>
          var value := if key in bp.context then bp.context[key] else default;
          if value.IsTag() { r := DirectTag(value, bp); } else { r := Ok(value); }
        case Format(format, args) =>
          var xs := OperandValues(args, bp);
          r := if xs.Ok? then Formatted(bp.oracles.percentFormat(format, xs.value)) else Err(xs.error);
        case Find(_, _, _) => r := FindTag(v, bp);
        case Condition(mode, args) =>
          var xs := OperandValues(args, bp);
          r := if xs.Ok? then Combine(mode, xs.value) else Err(xs.error);
        case If(condition, whenTrue, whenFalse) =>
          var c := OperandValue(condition, bp);
          if c.Err? { return c; }
          var b := Resolver(if Truthy(c.value) then whenTrue else whenFalse, bp);
          r := NoTypeError(b);
        case Enumerate(_, _, _, _) => r := RunEnumerateTag(v, bp, tagContexts, false);
        case Item(part, depth) => r := GetItem(part, depth);
        case AtIndex(_, _, _) => r := AtIndexTag(v, bp);
      }
    }

    method FindTag(v: Node, bp: Blueprint) returns (r: Result<Node>)
      requires Acyclic(bp.context) && v.Find? && Idle(Reach(v, bp.context), cells)
      modifies this
      ensures r == Direct(v, bp, Machine(old(tagContexts), old(cells)))
      ensures r.Ok? ==> tagContexts == old(tagContexts)
      ensures cells == old(cells) && Leftover(old(tagContexts), tagContexts, Reach(v, bp.context))
      decreases Height(v, bp.context), Size(v), 1, 0
    {
      var m := OperandValue(v.model, bp);
      if m.Err? { return m; }
      if !bp.oracles.knownModel(m.value) { return Err(EntryInvalid); }
      var xs := OperandValues(v.conditions, bp);
      r := if xs.Ok? then bp.oracles.find(m.value, xs.value, v.asObject) else Err(xs.error);
    }

    method AtIndexTag(v: Node, bp: Blueprint) returns (r: Result<Node>)
      requires Acyclic(bp.context) && v.AtIndex? && Idle(Reach(v, bp.context), cells)
      modifies this
      ensures r == Direct(v, bp, Machine(old(tagContexts), old(cells)))
      ensures r.Ok? ==> tagContexts == old(tagContexts)
      ensures cells == old(cells) && Leftover(old(tagContexts), tagContexts, Reach(v, bp.context))
      decreases Height(v, bp.context), Size(v), 1, 0
    {
      var o := OperandValue(v.obj, bp);
      if o.Err? { return o; }
      var a := OperandValue(v.attribute, bp);
      if a.Err? { return a; }
      r := At(o.value, a.value, v.fallback);
    }

    method OperandValue(v: Node, bp: Blueprint) returns (r: Result<Node>)
      requires Acyclic(bp.context) && Idle(OperandReach(v, bp.context), cells)
      modifies this
      ensures r == Operand(v, bp, Machine(old(tagContexts), old(cells)))
      ensures r.Ok? ==> tagContexts == old(tagContexts)
      ensures cells == old(cells) && Leftover(old(tagContexts), tagContexts, OperandReach(v, bp.context))
      decreases OperandHeight(v, bp.context), Size(v), 3, 0
    {
      if v.IsTag() { r := DirectTag(v, bp); } else { r := Ok(v); }
    }

    method OperandValues(xs: seq<Node>, bp: Blueprint) returns (r: Result<seq<Node>>)
      requires Acyclic(bp.context) && Idle(OperandReachAll(xs, bp.context), cells)
      modifies this
      ensures r == Operands(xs, bp, Machine(old(tagContexts), old(cells)))
      ensures r.Ok? ==> tagContexts == old(tagContexts)
      ensures cells == old(cells) && Leftover(old(tagContexts), tagContexts, OperandReachAll(xs, bp.context))
      decreases OperandHeightAll(xs, bp.context), SizeAll(xs), 0, 0
    {
      if xs == [] { return Ok([]); }
      var y := OperandValue(xs[0], bp);
      if y.Err? { return Err(y.error); }
      var ys := OperandValues(xs[1..], bp);
      r := if ys.Ok? then Ok([y.value] + ys.value) else Err(ys.error);
    }

    /** `Enumerate.resolve`; `entered` says whether `tag_resolver` pushed `e` on `outer` first. */
    method RunEnumerateTag(e: Node, bp: Blueprint, ghost outer: seq<Node>, ghost entered: bool)
      returns (r: Result<Node>)
      requires Acyclic(bp.context) && e.Enumerate? && Idle(Reach(e, bp.context), cells)
      requires tagContexts == if entered then outer + [e] else outer
      modifies this
      ensures r == RunEnumerate(e, bp, Machine(outer, old(cells)), entered)
      ensures r.Ok? ==> tagContexts == old(tagContexts)
      ensures cells == old(cells) && Leftover(old(tagContexts), tagContexts, Reach(e, bp.context))
      decreases Height(e, bp.context), Size(e), 1, 0
    {
      EnumerateNotReentered(e, bp.context);
      if e.iterable.Item? && e.iterable.depth == 0 { return Err(EntryInvalid); }
      var it := OperandValue(e.iterable, bp);
      if it.Err? { return it; }
      var pairs := Pairs(it.value);
      if pairs.None? { return Err(EntryInvalid); }
      if e.output.UnknownBody? { return Err(EntryInvalid); }
      r := VisitAll(e, pairs.value, bp, outer, entered);
    }

    /** The loop of `Enumerate.resolve`, which resets the cell on every exit. */
    method VisitAll(e: Node, pairs: seq<Pair>, bp: Blueprint, ghost outer: seq<Node>, ghost entered: bool)
      returns (r: Result<Node>)
      requires Acyclic(bp.context) && e.Enumerate? && Idle(Reach(e, bp.context), cells)
      requires tagContexts == if entered then outer + [e] else outer
      modifies this
      ensures r == Visit(e, pairs, Empty(e.output), bp, Machine(outer, old(cells)), entered)
      ensures r.Ok? ==> tagContexts == old(tagContexts)
      ensures cells == old(cells) && Leftover(old(tagContexts), tagContexts, Reach(e, bp.context))
      decreases Height(e, bp.context), Size(e), 0, 0
    {
      hide Visit, Resolve, Add;
      EnumerateNotReentered(e, bp.context);
      ghost var env := Machine(outer, cells);
      var acc, i := Empty(e.output), 0;
      r := Ok(acc);
      while i < |pairs| && r.Ok?
        invariant 0 <= i <= |pairs|
        invariant cells - {e} == old(cells)
        invariant acc.Dict? || acc.List?
        invariant r.Ok? ==> r.value == acc && tagContexts == old(tagContexts)
        invariant r.Ok? ==>
                    Visit(e, pairs, Empty(e.output), bp, env, entered) == Visit(e, pairs[i..], acc, bp, env, entered)
        invariant r.Err? ==> r == Visit(e, pairs, Empty(e.output), bp, env, entered)
        invariant Leftover(old(tagContexts), tagContexts, Reach(e, bp.context))
      {
        cells := cells[e := pairs[i]];
        assert cells == old(cells)[e := pairs[i]];
        var b := Resolver(e.body, bp);
        VisitOne(e, pairs, i, acc, bp, env, entered);
        r := if b.Ok? then Add(e.output, acc, b.value) else b;
        if r.Ok? { acc := r.value; }
        i := i + 1;
      }
      VisitNone(e, pairs, acc, bp, env, entered);
      cells := cells - {e};
    }
  }

  /** One turn of the loop over pairs. */
  lemma VisitOne(e: Node, pairs: seq<Pair>, i: nat, acc: Node, bp: Blueprint, env: Environment, entered: bool)
    requires Acyclic(bp.context) && e.Enumerate? && i < |pairs| && (acc.Dict? || acc.List?)
    ensures var b := Resolve(e.body, bp, env.Hold(e, pairs[i], entered));
            Visit(e, pairs[i..], acc, bp, env, entered) ==
            if b.Err? then b
            else if Add(e.output, acc, b.value).Err? then Add(e.output, acc, b.value)
            else Visit(e, pairs[i + 1..], Add(e.output, acc, b.value).value, bp, env, entered)
  {
    assert pairs[i..][0] == pairs[i] && pairs[i..][1..] == pairs[i + 1..];
  }

  lemma VisitNone(e: Node, pairs: seq<Pair>, acc: Node, bp: Blueprint, env: Environment, entered: bool)
    requires Acyclic(bp.context) && e.Enumerate? && (acc.Dict? || acc.List?)
    ensures pairs[0..] == pairs && Visit(e, pairs[|pairs|..], acc, bp, env, entered) == Ok(acc)
  {
  }
}
