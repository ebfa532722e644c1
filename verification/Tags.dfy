/**
 The blueprint tag language (authentik/blueprints/v1/common.py).

 A blueprint value is a YAML tree whose nodes may be tags.  `TagResolver.BlueprintEntry` is the
 resolver as the program runs it: a stack of the Enumerate tags entered through `tag_resolver`
 and one mutable cell per Enumerate.  `Resolve` gives a tree its meaning in an environment.
 */
module Tags {
  import opened Common

  /** The exceptions that resolution can raise. */
  datatype Error = EntryInvalid | TypeError | ValueError | IndexError

  datatype Result<+T> = Ok(value: T) | Err(error: Error) {
    predicate IsFailure() { Err? }
    function PropagateFailure<U>(): (r: Result<U>) requires Err? { Err(error) }
    function Extract(): T requires Ok? { value }
  }

  datatype Scalar = Null | Bool(b: bool) | Int(n: int) | Str(s: string)

  /** `!Condition` modes and `!Enumerate` outputs, after upper-casing. */
  datatype Mode = And | Nand | Or | Nor | Xor | Xnor | UnknownMode
  datatype Output = SeqBody | MapBody | UnknownBody

  /** Lookups whose answer comes from outside the tree. */
  datatype Source = KeyOf(id: string) | Env(name: string) | File(path: string) | ParseJson(raw: string)

  datatype Part = Index | Value

  /**
   A YAML tree.  `Dict` keeps keys and values as parallel lists in insertion order.  `Enumerate`
   carries an identity, so that equal trees that are different objects have different cells.
   */
  datatype Node =
    | Leaf(s: Scalar)
    | List(items: seq<Node>)
    | Dict(keys: seq<Scalar>, vals: seq<Node>)
    | External(source: Source, default: Node)
    | Context(key: string, default: Node)
    | Format(format: string, args: seq<Node>)
    | Find(model: Node, conditions: seq<Node>, asObject: bool)
    | Condition(mode: Mode, args: seq<Node>)
    | If(condition: Node, whenTrue: Node, whenFalse: Node)
    | Enumerate(id: nat, iterable: Node, output: Output, body: Node)
    | Item(part: Part, depth: int)
    | AtIndex(obj: Node, attribute: Node, fallback: Option<Node>)
  {
    predicate IsTag() { !Leaf? && !List? && !Dict? }
  }

  datatype Instance = Instance(pk: Scalar, pbmUuid: Option<Scalar>)
  datatype EntryState = EntryState(id: Option<string>, instance: Option<Instance>)

  /** Code and services that resolution calls and this model does not define. */
  datatype Oracles = Oracles(
    getenv: string -> Option<string>,
    readFile: string -> Option<string>,
    parseJson: string -> Option<Node>,
    percentFormat: (string, seq<Node>) -> Result<string>,
    knownModel: Node -> bool,
    find: (Node, seq<Node>, bool) -> Result<Node>)

  datatype Blueprint = Blueprint(
    context: map<string, Node>,
    entries: seq<EntryState>,
    forPolicyBinding: bool,
    oracles: Oracles)

  // ---------------------------------------------------------------------------
  // Termination measure
  // ---------------------------------------------------------------------------

  function Max(a: nat, b: nat): nat { if a < b then b else a }

  ghost function Size(v: Node): nat
  {
    match v
    case Leaf(_) => 1
    case List(items) => 1 + SizeAll(items)
    case Dict(_, vals) => 1 + SizeAll(vals)
    case External(_, default) => 1 + Size(default)
    case Context(_, default) => 1 + Size(default)
    case Format(_, args) => 1 + SizeAll(args)
    case Find(model, conditions, _) => 1 + Size(model) + SizeAll(conditions)
    case Condition(_, args) => 1 + SizeAll(args)
    case If(c, t, f) => 1 + Size(c) + Size(t) + Size(f)
    case Enumerate(_, iterable, _, body) => 1 + Size(iterable) + Size(body)
    case Item(_, _) => 1
    case AtIndex(obj, attribute, fallback) =>
      1 + Size(obj) + Size(attribute) + match fallback { case None => 0 case Some(d) => Size(d) }
  }

  ghost function SizeAll(xs: seq<Node>): nat
  {
    if xs == [] then 1 else 1 + Size(xs[0]) + SizeAll(xs[1..])
  }

  /** Whether `!Context key` continues into a tag stored in the blueprint context. */
  predicate Jumps(key: string, ctx: map<string, Node>) { key in ctx && ctx[key].IsTag() }

  /** One more than the largest rank of a context tag that resolving `v` can jump to; 0 if there is none. */
  ghost function Rank(v: Node, ctx: map<string, Node>, r: map<string, nat>): nat
  {
    match v
    case Leaf(_) => 0
    case List(items) => RankAll(items, ctx, r)
    case Dict(_, vals) => RankAll(vals, ctx, r)
    case External(_, _) => 0
    case Context(key, default) =>
      if key !in ctx then if default.IsTag() then Rank(default, ctx, r) else 0
      else if Jumps(key, ctx) && key in r then r[key] + 1 else 0
    case Format(_, args) => OperandRankAll(args, ctx, r)
    case Find(model, conditions, _) =>
      Max(if model.IsTag() then Rank(model, ctx, r) else 0, OperandRankAll(conditions, ctx, r))
    case Condition(_, args) => OperandRankAll(args, ctx, r)
    case If(c, t, f) =>
      Max(if c.IsTag() then Rank(c, ctx, r) else 0, Max(Rank(t, ctx, r), Rank(f, ctx, r)))
    case Enumerate(_, iterable, _, body) =>
      Max(if iterable.IsTag() then Rank(iterable, ctx, r) else 0, Rank(body, ctx, r))
    case Item(_, _) => 0
    case AtIndex(obj, attribute, _) =>
      Max(if obj.IsTag() then Rank(obj, ctx, r) else 0, if attribute.IsTag() then Rank(attribute, ctx, r) else 0)
  }

  ghost function RankAll(xs: seq<Node>, ctx: map<string, Node>, r: map<string, nat>): nat
  {
    if xs == [] then 0 else Max(Rank(xs[0], ctx, r), RankAll(xs[1..], ctx, r))
  }

  /** An operand that is not a tag is used as it stands: nothing inside it is resolved. */
  ghost function OperandRankAll(xs: seq<Node>, ctx: map<string, Node>, r: map<string, nat>): nat
  {
    if xs == [] then 0 else Max(if xs[0].IsTag() then Rank(xs[0], ctx, r) else 0, OperandRankAll(xs[1..], ctx, r))
  }

  ghost predicate Ranked(ctx: map<string, Node>, r: map<string, nat>)
  {
    forall k :: Jumps(k, ctx) ==> k in r && Rank(ctx[k], ctx, r) <= r[k]
  }

  /** The context values that are tags refer to one another without a cycle. */
  ghost predicate Acyclic(ctx: map<string, Node>) { exists r :: Ranked(ctx, r) }

  ghost function Ranking(ctx: map<string, Node>): (r: map<string, nat>)
    requires Acyclic(ctx)
    ensures Ranked(ctx, r)
  {
    var r :| Ranked(ctx, r); r
  }

  ghost function Height(v: Node, ctx: map<string, Node>): nat
    requires Acyclic(ctx)
  {
    Rank(v, ctx, Ranking(ctx))
  }

  ghost function HeightAll(xs: seq<Node>, ctx: map<string, Node>): nat
    requires Acyclic(ctx)
  {
    RankAll(xs, ctx, Ranking(ctx))
  }

  ghost function OperandHeight(v: Node, ctx: map<string, Node>): nat
    requires Acyclic(ctx)
  {
    if v.IsTag() then Height(v, ctx) else 0
  }

  ghost function OperandHeightAll(xs: seq<Node>, ctx: map<string, Node>): nat
    requires Acyclic(ctx)
  {
    OperandRankAll(xs, ctx, Ranking(ctx))
  }

  // ---------------------------------------------------------------------------
  // Operations on resolved values
  // ---------------------------------------------------------------------------

  /** Python's truth value of a node; a tag object is always true. */
  predicate Truthy(v: Node)
  {
    match v
    case Leaf(Null) => false
    case Leaf(Bool(b)) => b
    case Leaf(Int(n)) => n != 0
    case Leaf(Str(s)) => s != ""
    case List(items) => items != []
    case Dict(keys, _) => keys != []
    case _ => true
  }

  predicate AllTrue(xs: seq<Node>) { forall x :: x in xs ==> Truthy(x) }
  predicate AnyTrue(xs: seq<Node>) { exists x :: x in xs && Truthy(x) }
  predicate OddTrue(xs: seq<Node>)
  {
    xs != [] && (Truthy(xs[0]) != OddTrue(xs[1..]))
  }

  /** `Condition.resolve` once its arguments are known. */
  function Combine(mode: Mode, xs: seq<Node>): Result<Node>
  {
    if xs == [] then Err(EntryInvalid) else
    match mode
    case And => Ok(Leaf(Bool(AllTrue(xs))))
    case Nand => Ok(Leaf(Bool(!AllTrue(xs))))
    case Or => Ok(Leaf(Bool(AnyTrue(xs))))
    case Nor => Ok(Leaf(Bool(!AnyTrue(xs))))
    case Xor => Ok(Leaf(Bool(OddTrue(xs))))
    case Xnor => Ok(Leaf(Bool(!OddTrue(xs))))
    case UnknownMode => Err(EntryInvalid)
  }

  /** The pair an Enumerate exposes while it visits one element. */
  datatype Pair = Pair(index: Node, value: Node)

  function Zip(keys: seq<Scalar>, vals: seq<Node>): seq<Pair>
  {
    seq(if |keys| < |vals| then |keys| else |vals|,
        i requires 0 <= i < |keys| && i < |vals| => Pair(Leaf(keys[i]), vals[i]))
  }

  /** The (index, value) pairs of an iterable; None when Python would not iterate over it. */
  function Pairs(v: Node): Option<seq<Pair>>
  {
    match v
    case List(xs) => Some(seq(|xs|, i requires 0 <= i < |xs| => Pair(Leaf(Int(i)), xs[i])))
    case Dict(keys, vals) => Some(Zip(keys, vals))
    case Leaf(Str(s)) => Some(seq(|s|, i requires 0 <= i < |s| => Pair(Leaf(Int(i)), Leaf(Str([s[i]])))))
    case _ => None
  }

  function IndexOf(keys: seq<Scalar>, k: Scalar): (i: nat)
    ensures i <= |keys|
    ensures i < |keys| ==> keys[i] == k
    ensures i == |keys| ==> k !in keys
  {
    if keys == [] || keys[0] == k then 0 else 1 + IndexOf(keys[1..], k)
  }

  /** `always_merger` on values: lists are concatenated, mappings merged, the rest overridden. */
  function MergeValue(a: Node, b: Node): Node
    decreases b, 1
  {
    if a.List? && b.List? then List(a.items + b.items)
    else if a.Dict? && b.Dict? then MergeFields(a, b.keys, b.vals)
    else b
  }

  function MergeFields(a: Node, keys: seq<Scalar>, vals: seq<Node>): (r: Node)
    requires a.Dict?
    ensures r.Dict?
    decreases vals, 0
  {
    if keys == [] || vals == [] then a else
    var i := IndexOf(a.keys, keys[0]);
    var a' := if i < |a.keys| && i < |a.vals|
              then Dict(a.keys, a.vals[i := MergeValue(a.vals[i], vals[0])])
              else Dict(a.keys + [keys[0]], a.vals + [vals[0]]);
    MergeFields(a', keys[1..], vals[1..])
  }

  function Empty(output: Output): Node { if output.MapBody? then Dict([], []) else List([]) }

  /** `add_fn` of an Enumerate followed by its check of the result's class. */
  function Add(output: Output, acc: Node, b: Node): (r: Result<Node>)
    requires acc.Dict? || acc.List?
    ensures r.Ok? ==> r.value.Dict? || r.value.List?
  {
    if acc.List? then Ok(List(acc.items + [b]))
    else match b
    case List(xs) =>
      if |xs| < 2 then Err(IndexError)
      else if !xs[0].Leaf? then Err(TypeError)
      else Ok(MergeFields(acc, [xs[0].s], [xs[1]]))
    case Dict(keys, vals) => Ok(MergeFields(acc, keys, vals))
    case _ => Err(EntryInvalid)
  }

  predicate Substring(t: string, s: string)
  {
    exists i :: 0 <= i <= |s| && t <= s[i..]
  }

  function OrElse(fallback: Option<Node>): Result<Node>
  {
    match fallback case None => Err(EntryInvalid) case Some(d) => Ok(d)
  }

  /** `AtIndex.resolve` once its operands are known. */
  function At(obj: Node, attribute: Node, fallback: Option<Node>): Result<Node>
  {
    match obj
    case List(xs) =>
      (match attribute
       case Leaf(Int(n)) =>
         if 0 <= n < |xs| then Ok(xs[n]) else if -|xs| <= n < 0 then Ok(xs[n + |xs|]) else OrElse(fallback)
       case Leaf(Bool(b)) =>
         var n := if b then 1 else 0;
         if n < |xs| then Ok(xs[n]) else OrElse(fallback)
       case _ => Err(EntryInvalid))
    case Dict(keys, vals) =>
      if attribute.List? || attribute.Dict? then Err(TypeError)
      else if !attribute.Leaf? then OrElse(fallback)
      else
        var i := IndexOf(keys, attribute.s);
        if i < |keys| && i < |vals| then Ok(vals[i]) else OrElse(fallback)
    case Leaf(Str(s)) =>
      if attribute.Leaf? && attribute.s.Str? && !Substring(attribute.s.s, s) then OrElse(fallback)
      else Err(TypeError)
    case _ => Err(TypeError)
  }

  /** `KeyOf.resolve`: the first entry with the id that already has an instance. */
  function KeyLookup(id: string, entries: seq<EntryState>, forPolicyBinding: bool): Result<Node>
  {
    if entries == [] then Err(EntryInvalid)
    else if entries[0].id == Some(id) && entries[0].instance.Some? then
      var inst := entries[0].instance.value;
      Ok(Leaf(if inst.pbmUuid.Some? && forPolicyBinding then inst.pbmUuid.value else inst.pk))
    else KeyLookup(id, entries[1..], forPolicyBinding)
  }

  function Outside(source: Source, default: Node, bp: Blueprint): Result<Node>
  {
    match source
    case KeyOf(id) => KeyLookup(id, bp.entries, bp.forPolicyBinding)
    case Env(name) =>
      (match bp.oracles.getenv(name)
       case Some(s) => Ok(if s != "" then Leaf(Str(s)) else default)
       case None => Ok(default))
    case File(path) =>
      (match bp.oracles.readFile(path) case Some(s) => Ok(Leaf(Str(s))) case None => Ok(default))
    case ParseJson(raw) =>
      (match bp.oracles.parseJson(raw) case Some(v) => Ok(v) case None => Err(EntryInvalid))
  }

  function Formatted(r: Result<string>): Result<Node>
  {
    match r
    case Ok(s) => Ok(Leaf(Str(s)))
    case Err(e) => Err(if e == TypeError then EntryInvalid else e)
  }

  /** `If.resolve` turns a TypeError of the chosen branch into an EntryInvalidError. */
  function NoTypeError(r: Result<Node>): Result<Node>
  {
    if r == Err(TypeError) then Err(EntryInvalid) else r
  }

  // ---------------------------------------------------------------------------
  // Meaning
  // ---------------------------------------------------------------------------

  /**
   What `!Value d` and `!Index d` see.  `Scopes` is lexical scoping: one slot per Enumerate entered
   through `tag_resolver`, innermost last, None while it is not visiting an element.  `Machine` is
   the program's state: the stack of entered Enumerates and the filled cells.
   */
  datatype Environment =
    | Scopes(slots: seq<Option<Pair>>)
    | Machine(stack: seq<Node>, cells: map<Node, Pair>)
  {
    function View(depth: int): Option<Pair>
    {
      match this
      case Scopes(slots) => if 0 <= depth < |slots| then slots[|slots| - 1 - depth] else None
      case Machine(stack, cells) =>
        if 0 <= depth < |stack| && stack[|stack| - 1 - depth] in cells
        then Some(cells[stack[|stack| - 1 - depth]]) else None
    }

    /** The environment of the iterable of `e`. */
    function Enter(e: Node, entered: bool): Environment
    {
      if !entered then this else
      match this
      case Scopes(slots) => Scopes(slots + [None])
      case Machine(stack, cells) => Machine(stack + [e], cells)
    }

    /** The environment of the body of `e` while it visits `p`. */
    function Hold(e: Node, p: Pair, entered: bool): Environment
    {
      match this
      case Scopes(slots) => if entered then Scopes(slots + [Some(p)]) else this
      case Machine(stack, cells) => Machine(if entered then stack + [e] else stack, cells[e := p])
    }
  }

  function ItemIn(env: Environment, part: Part, depth: int): Result<Node>
  {
    match env.View(depth)
    case None => Err(EntryInvalid)
    case Some(p) => Ok(if part.Index? then p.index else p.value)
  }

  /** `BlueprintEntry.tag_resolver`. */
  function Resolve(v: Node, bp: Blueprint, env: Environment): Result<Node>
    requires Acyclic(bp.context)
    decreases Height(v, bp.context), Size(v), 3, 0
  {
    match v
    case Leaf(_) => Ok(v)
    case List(items) => var xs :- ResolveAll(items, bp, env); Ok(List(xs))
    case Dict(keys, vals) => var xs :- ResolveAll(vals, bp, env); Ok(Dict(keys, xs))
    case Enumerate(_, _, _, _) => RunEnumerate(v, bp, env, true)
    case _ => Direct(v, bp, env)
  }

  function ResolveAll(xs: seq<Node>, bp: Blueprint, env: Environment): (r: Result<seq<Node>>)
    requires Acyclic(bp.context)
    decreases HeightAll(xs, bp.context), SizeAll(xs), 0, 0
  {
    if xs == [] then Ok([]) else
    var y :- Resolve(xs[0], bp, env);
    var ys :- ResolveAll(xs[1..], bp, env);
    Ok([y] + ys)
  }

  /** A tag's own `resolve`, called without going through `tag_resolver`. */
  function Direct(v: Node, bp: Blueprint, env: Environment): Result<Node>
    requires Acyclic(bp.context) && v.IsTag()
    decreases Height(v, bp.context), Size(v), 2, 0
  {
    match v
    case External(source, default) => Outside(source, default, bp)
    case Context(key, default) =>
      var value := if key in bp.context then bp.context[key] else default;
      if value.IsTag() then Direct(value, bp, env) else Ok(value)
    case Format(format, args) =>
      var xs :- Operands(args, bp, env); Formatted(bp.oracles.percentFormat(format, xs))
    case Find(model, conditions, asObject) =>
      var m :- Operand(model, bp, env);
      if !bp.oracles.knownModel(m) then Err(EntryInvalid) else
      var xs :- Operands(conditions, bp, env);
      bp.oracles.find(m, xs, asObject)
    case Condition(mode, args) => var xs :- Operands(args, bp, env); Combine(mode, xs)
    case If(condition, whenTrue, whenFalse) =>
      var c :- Operand(condition, bp, env);
      NoTypeError(Resolve(if Truthy(c) then whenTrue else whenFalse, bp, env))
    case Enumerate(_, _, _, _) => RunEnumerate(v, bp, env, false)
    case Item(part, depth) => ItemIn(env, part, depth)
    case AtIndex(obj, attribute, fallback) =>
      var o :- Operand(obj, bp, env);
      var a :- Operand(attribute, bp, env);
      At(o, a, fallback)
  }

  /** An operand is resolved directly when it is a tag and used as it stands otherwise. */
  function Operand(v: Node, bp: Blueprint, env: Environment): Result<Node>
    requires Acyclic(bp.context)
    decreases OperandHeight(v, bp.context), Size(v), 3, 0
  {
    if v.IsTag() then Direct(v, bp, env) else Ok(v)
  }

  function Operands(xs: seq<Node>, bp: Blueprint, env: Environment): Result<seq<Node>>
    requires Acyclic(bp.context)
    decreases OperandHeightAll(xs, bp.context), SizeAll(xs), 0, 0
  {
    if xs == [] then Ok([]) else
    var y :- Operand(xs[0], bp, env);
    var ys :- Operands(xs[1..], bp, env);
    Ok([y] + ys)
  }

  /** An Enumerate resolved directly, without `tag_resolver`, is not `entered`: it has no slot. */
  function RunEnumerate(e: Node, bp: Blueprint, env: Environment, entered: bool): Result<Node>
    requires Acyclic(bp.context) && e.Enumerate?
    decreases Height(e, bp.context), Size(e), 1, 0
  {
    if e.iterable.Item? && e.iterable.depth == 0 then Err(EntryInvalid) else
    var it :- Operand(e.iterable, bp, env.Enter(e, entered));
    match Pairs(it)
    case None => Err(EntryInvalid)
    case Some(pairs) =>
      if e.output.UnknownBody? then Err(EntryInvalid)
      else Visit(e, pairs, Empty(e.output), bp, env, entered)
  }

  function Visit(e: Node, pairs: seq<Pair>, acc: Node, bp: Blueprint, env: Environment, entered: bool)
    : Result<Node>
    requires Acyclic(bp.context) && e.Enumerate?
    requires acc.Dict? || acc.List?
    decreases Height(e, bp.context), Size(e), 0, |pairs|
  {
    if pairs == [] then Ok(acc) else
    var b :- Resolve(e.body, bp, env.Hold(e, pairs[0], entered));
    var acc' :- Add(e.output, acc, b);
    Visit(e, pairs[1..], acc', bp, env, entered)
  }
}
