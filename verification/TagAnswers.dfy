/**
 What each tag answers, stated on values and independently of the resolver: tables for conditions and
 branches, first matches for lookups, Python indexing, and Enumerate as a map over its pairs.
 */
module TagAnswers {
  import opened Common
  import opened Tags
  import opened TagMeaning

  // ---------------------------------------------------------------------------
  // Truth and branches
  // ---------------------------------------------------------------------------

  /** The values that count as false. */
  ghost predicate Falsy(v: Node)
  {
    || v == Leaf(Null) || v == Leaf(Bool(false)) || v == Leaf(Int(0)) || v == Leaf(Str(""))
    || v == List([]) || (v.Dict? && v.keys == [])
  }

  lemma TruthyExactly(v: Node)
    ensures Truthy(v) <==> !Falsy(v)
  {
  }

  /** An operand that is no tag stands for itself; a tag other than Enumerate is resolved as anywhere else. */
  lemma OperandAnswers(v: Node, bp: Blueprint, env: Environment)
    requires Acyclic(bp.context)
    ensures !v.IsTag() ==> Operand(v, bp, env) == Ok(v)
    ensures v.IsTag() && !v.Enumerate? ==> Operand(v, bp, env) == Resolve(v, bp, env)
  {
  }

  /** `!If` resolves exactly one branch: the second for a false condition, the first for any other. */
  lemma IfAnswers(c: Node, t: Node, f: Node, bp: Blueprint, env: Environment)
    requires Acyclic(bp.context)
    ensures var x, r := Operand(c, bp, env), Resolve(If(c, t, f), bp, env);
            if x.Err? then r == x
            else
              var chosen := Resolve(if Falsy(x.value) then f else t, bp, env);
              r == if chosen == Err(TypeError) then Err(EntryInvalid) else chosen
  {
    var v := If(c, t, f);
    assert Resolve(v, bp, env) == Direct(v, bp, env);
    var x := Operand(c, bp, env);
    if x.Ok? { TruthyExactly(x.value); }
  }

  /** With plain branches `!If` is the chosen branch. */
  lemma IfSelects(c: Node, t: Node, f: Node, bp: Blueprint, env: Environment)
    requires Acyclic(bp.context) && !c.IsTag() && TagFree(t) && TagFree(f)
    ensures Resolve(If(c, t, f), bp, env) == Ok(if Falsy(c) then f else t)
  {
    hide Resolve, TagFree;
    IfAnswers(c, t, f, bp, env);
    OperandAnswers(c, bp, env);
    TagFreeIsFixed(t, bp, env);
    TagFreeIsFixed(f, bp, env);
  }

  // ---------------------------------------------------------------------------
  // Several results
  // ---------------------------------------------------------------------------

  /** All the values in order, or the first error. */
  ghost function Collected(rs: seq<Result<Node>>): Result<seq<Node>>
  {
    if rs == [] then Ok([]) else
    var y :- rs[0];
    var ys :- Collected(rs[1..]);
    Ok([y] + ys)
  }

  lemma {:induction false} CollectedAnswers(rs: seq<Result<Node>>)
    ensures var r := Collected(rs);
            && (r.Ok? <==> forall i :: 0 <= i < |rs| ==> rs[i].Ok?)
            && (r.Ok? ==> |r.value| == |rs| && forall i :: 0 <= i < |rs| ==> rs[i] == Ok(r.value[i]))
            && (r.Err? ==> exists i :: 0 <= i < |rs| && rs[i] == Err(r.error) && forall j :: 0 <= j < i ==> rs[j].Ok?)
  {
    if rs != [] {
      CollectedAnswers(rs[1..]);
      forall i | 1 <= i < |rs| ensures rs[i] == rs[1..][i - 1] { }
      if rs[0].Err? {
        assert rs[0] == Err(Collected(rs).error);
      } else if Collected(rs[1..]).Err? {
        var i :| 0 <= i < |rs| - 1 && rs[1..][i] == Err(Collected(rs[1..]).error) &&
                 forall j :: 0 <= j < i ==> rs[1..][j].Ok?;
        assert rs[i + 1] == Err(Collected(rs).error);
      }
    }
  }

  /** Elements of lists and mappings are resolved one by one; the first error is the result. */
  lemma {:induction false} ResolveAllAnswers(xs: seq<Node>, bp: Blueprint, env: Environment)
    requires Acyclic(bp.context)
    ensures ResolveAll(xs, bp, env) == Collected(ElementResults(xs, bp, env))
  {
    hide Resolve;
    if xs != [] {
      ResolveAllAnswers(xs[1..], bp, env);
      assert ElementResults(xs, bp, env)[1..] == ElementResults(xs[1..], bp, env);
    }
  }

  ghost function ElementResults(xs: seq<Node>, bp: Blueprint, env: Environment): seq<Result<Node>>
    requires Acyclic(bp.context)
  {
    seq(|xs|, i requires 0 <= i < |xs| => Resolve(xs[i], bp, env))
  }

  /** A list resolves to the list of its resolved elements, a mapping to the same keys over them. */
  lemma CollectionAnswers(keys: seq<Scalar>, xs: seq<Node>, bp: Blueprint, env: Environment)
    requires Acyclic(bp.context)
    ensures var ys := Collected(ElementResults(xs, bp, env));
            && Resolve(List(xs), bp, env) == (if ys.Ok? then Ok(List(ys.value)) else Err(ys.error))
            && Resolve(Dict(keys, xs), bp, env) == (if ys.Ok? then Ok(Dict(keys, ys.value)) else Err(ys.error))
  {
    ResolveAllAnswers(xs, bp, env);
    hide ResolveAll, ElementResults, Collected;
  }

  // ---------------------------------------------------------------------------
  // Conditions
  // ---------------------------------------------------------------------------

  /** How many values are not false. */
  ghost function TrueCount(xs: seq<Node>): nat
  {
    if xs == [] then 0 else (if Falsy(xs[0]) then 0 else 1) + TrueCount(xs[1..])
  }

  lemma {:induction false} CountAnswers(xs: seq<Node>)
    ensures TrueCount(xs) <= |xs|
    ensures AllTrue(xs) <==> TrueCount(xs) == |xs|
    ensures AnyTrue(xs) <==> TrueCount(xs) > 0
    ensures OddTrue(xs) <==> TrueCount(xs) % 2 == 1
  {
    if xs != [] {
      TruthyExactly(xs[0]);
      CountAnswers(xs[1..]);
      hide Truthy, Falsy;
      assert xs == [xs[0]] + xs[1..];
    }
  }

  /** The truth table of a mode, by the number of true arguments. */
  ghost predicate Holds(mode: Mode, trues: nat, total: nat)
    requires !mode.UnknownMode?
  {
    match mode
    case And => trues == total
    case Nand => trues != total
    case Or => trues > 0
    case Nor => trues == 0
    case Xor => trues % 2 == 1
    case Xnor => trues % 2 == 0
  }

  lemma CombineAnswers(mode: Mode, xs: seq<Node>)
    ensures Combine(mode, xs) ==
            if xs == [] || mode.UnknownMode? then Err(EntryInvalid)
            else Ok(Leaf(Bool(Holds(mode, TrueCount(xs), |xs|))))
  {
    CountAnswers(xs);
    hide AllTrue, AnyTrue, OddTrue, TrueCount;
  }

  lemma {:induction false} OperandsAnswer(args: seq<Node>, bp: Blueprint, env: Environment)
    requires Acyclic(bp.context)
    ensures Operands(args, bp, env) == Collected(OperandResults(args, bp, env))
    ensures Operands(args, bp, env).Ok? ==> |Operands(args, bp, env).value| == |args|
  {
    hide Operand;
    if args != [] {
      OperandsAnswer(args[1..], bp, env);
      assert OperandResults(args, bp, env)[1..] == OperandResults(args[1..], bp, env);
    }
  }

  ghost function OperandResults(args: seq<Node>, bp: Blueprint, env: Environment): seq<Result<Node>>
    requires Acyclic(bp.context)
  {
    seq(|args|, i requires 0 <= i < |args| => Operand(args[i], bp, env))
  }

  lemma ConditionAnswers(mode: Mode, args: seq<Node>, bp: Blueprint, env: Environment)
    requires Acyclic(bp.context)
    ensures var xs, r := Operands(args, bp, env), Resolve(Condition(mode, args), bp, env);
            r == if xs.Err? then Err(xs.error)
                 else if args == [] || mode.UnknownMode? then Err(EntryInvalid)
                 else Ok(Leaf(Bool(Holds(mode, TrueCount(xs.value), |args|))))
  {
    hide Combine, TrueCount, Holds, Operand;
    var v, xs := Condition(mode, args), Operands(args, bp, env);
    assert Resolve(v, bp, env) == Direct(v, bp, env) == if xs.Ok? then Combine(mode, xs.value) else Err(xs.error);
    hide Resolve, Direct, Operands;
    OperandsAnswer(args, bp, env);
    if xs.Ok? { CombineAnswers(mode, xs.value); }
  }

  // ---------------------------------------------------------------------------
  // Lookups
  // ---------------------------------------------------------------------------

  /** `!Context` stands for the context value, or for its default when the key is missing. */
  lemma ContextAnswers(key: string, default: Node, bp: Blueprint, env: Environment)
    requires Acyclic(bp.context)
    ensures Resolve(Context(key, default), bp, env) ==
            Operand(if key in bp.context then bp.context[key] else default, bp, env)
  {
    var v := Context(key, default);
    assert Resolve(v, bp, env) == Direct(v, bp, env);
  }

  /** The entry has the id and already has an instance. */
  predicate Named(e: EntryState, id: string) { e.id == Some(id) && e.instance.Some? }

  /** The key that refers to an instance: a policy binding wants the key of a binding target. */
  function Reference(instance: Instance, forPolicyBinding: bool): Scalar
  {
    if forPolicyBinding && instance.pbmUuid.Some? then instance.pbmUuid.value else instance.pk
  }

  lemma {:induction false} LookupIsFirst(id: string, entries: seq<EntryState>, forPolicyBinding: bool, i: nat)
    requires i <= |entries| && forall j :: 0 <= j < i ==> !Named(entries[j], id)
    requires i < |entries| ==> Named(entries[i], id)
    ensures KeyLookup(id, entries, forPolicyBinding) ==
            if i == |entries| then Err(EntryInvalid)
            else Ok(Leaf(Reference(entries[i].instance.value, forPolicyBinding)))
  {
    if i > 0 {
      assert !Named(entries[0], id);
      LookupIsFirst(id, entries[1..], forPolicyBinding, i - 1);
    }
  }

  /** `!KeyOf` is the key of the first entry, at `i`, with the id and an instance; without one it fails. */
  lemma KeyOfAnswers(id: string, default: Node, bp: Blueprint, env: Environment, i: nat)
    requires Acyclic(bp.context) && i <= |bp.entries| && forall j :: 0 <= j < i ==> !Named(bp.entries[j], id)
    requires i < |bp.entries| ==> Named(bp.entries[i], id)
    ensures Resolve(External(KeyOf(id), default), bp, env) ==
            if i == |bp.entries| then Err(EntryInvalid)
            else Ok(Leaf(Reference(bp.entries[i].instance.value, bp.forPolicyBinding)))
  {
    var v := External(KeyOf(id), default);
    assert Resolve(v, bp, env) == Direct(v, bp, env);
    LookupIsFirst(id, bp.entries, bp.forPolicyBinding, i);
  }

  /** Environment variables fall back when unset or empty, files when unreadable, JSON never. */
  lemma ExternalAnswers(source: Source, default: Node, bp: Blueprint, env: Environment)
    requires Acyclic(bp.context)
    ensures var r := Resolve(External(source, default), bp, env);
            match source
            case KeyOf(_) => true
            case Env(name) =>
              var s := bp.oracles.getenv(name);
              r == Ok(if s == None || s == Some("") then default else Leaf(Str(s.value)))
            case File(path) =>
              var s := bp.oracles.readFile(path);
              r == Ok(if s == None then default else Leaf(Str(s.value)))
            case ParseJson(raw) =>
              var v := bp.oracles.parseJson(raw);
              (v.Some? ==> r == Ok(v.value)) && (v.None? ==> r == Err(EntryInvalid))
  {
    var v := External(source, default);
    assert Resolve(v, bp, env) == Direct(v, bp, env);
  }

  /** `!Format` is the formatted text; a format that does not fit its arguments is an invalid entry. */
  lemma FormatAnswers(format: string, args: seq<Node>, bp: Blueprint, env: Environment)
    requires Acyclic(bp.context)
    ensures var xs, r := Operands(args, bp, env), Resolve(Format(format, args), bp, env);
            && (xs.Err? ==> r == Err(xs.error))
            && (xs.Ok? ==> var text := bp.oracles.percentFormat(format, xs.value);
                           && (text.Ok? ==> r == Ok(Leaf(Str(text.value))))
                           && (text == Err(TypeError) ==> r == Err(EntryInvalid))
                           && (text.Err? && text.error != TypeError ==> r == Err(text.error)))
  {
    var v := Format(format, args);
    assert Resolve(v, bp, env) == Direct(v, bp, env);
  }

  /** `!Find` asks the database once model and conditions are known; an unknown model is an invalid entry. */
  lemma FindAnswers(model: Node, conditions: seq<Node>, asObject: bool, bp: Blueprint, env: Environment)
    requires Acyclic(bp.context)
    ensures var m, xs := Operand(model, bp, env), Operands(conditions, bp, env);
            var r := Resolve(Find(model, conditions, asObject), bp, env);
            && (m.Err? ==> r == m)
            && (m.Ok? && !bp.oracles.knownModel(m.value) ==> r == Err(EntryInvalid))
            && (m.Ok? && bp.oracles.knownModel(m.value) && xs.Err? ==> r == Err(xs.error))
            && (m.Ok? && bp.oracles.knownModel(m.value) && xs.Ok? ==> r == bp.oracles.find(m.value, xs.value, asObject))
  {
    var v := Find(model, conditions, asObject);
    assert Resolve(v, bp, env) == Direct(v, bp, env);
  }

  // ---------------------------------------------------------------------------
  // Indexing
  // ---------------------------------------------------------------------------

  /** The integer a list index stands for; Python counts `True` as one. */
  function ListIndex(attribute: Node): Option<int>
  {
    match attribute
    case Leaf(Int(n)) => Some(n)
    case Leaf(Bool(b)) => Some(if b then 1 else 0)
    case _ => None
  }

  function Default(fallback: Option<Node>): Result<Node>
  {
    if fallback.Some? then Ok(fallback.value) else Err(EntryInvalid)
  }

  /** Indices from `-|xs|` to `|xs| - 1` count around the list; the others fall back. */
  lemma AtList(xs: seq<Node>, attribute: Node, fallback: Option<Node>)
    ensures var r, n := At(List(xs), attribute, fallback), ListIndex(attribute);
            && (n.None? ==> r == Err(EntryInvalid))
            && (n.Some? && -|xs| <= n.value < |xs| ==> r == Ok(xs[n.value % |xs|]))
            && (n.Some? && !(-|xs| <= n.value < |xs|) ==> r == Default(fallback))
  {
    var n := ListIndex(attribute);
    if n.Some? && -|xs| <= n.value < |xs| {
      assert n.value % |xs| == if n.value < 0 then n.value + |xs| else n.value by {
        Wraps(n.value, |xs|);
      }
    }
  }

  lemma Wraps(n: int, length: int)
    requires -length <= n < length
    ensures n % length == if n < 0 then n + length else n
  {
  }

  /** A mapping gives the value under the key, falls back without it, and cannot be asked for a collection. */
  lemma AtMapping(keys: seq<Scalar>, vals: seq<Node>, attribute: Node, fallback: Option<Node>)
    requires |keys| == |vals| && forall i, j :: 0 <= i < j < |keys| ==> keys[i] != keys[j]
    ensures var r := At(Dict(keys, vals), attribute, fallback);
            && (attribute.List? || attribute.Dict? ==> r == Err(TypeError))
            && (forall i :: 0 <= i < |keys| && attribute == Leaf(keys[i]) ==> r == Ok(vals[i]))
            && (attribute.IsTag() || (attribute.Leaf? && attribute.s !in keys) ==> r == Default(fallback))
  {
  }

  /** Text can only be asked for text it does not contain; nothing else can be asked. */
  lemma AtScalar(s: Scalar, attribute: Node, fallback: Option<Node>)
    ensures var r := At(Leaf(s), attribute, fallback);
            if s.Str? && attribute.Leaf? && attribute.s.Str? &&
               forall i :: 0 <= i <= |s.s| ==> !(attribute.s.s <= s.s[i..])
            then r == Default(fallback) else r == Err(TypeError)
  {
  }

  lemma AtIndexAnswers(obj: Node, attribute: Node, fallback: Option<Node>, bp: Blueprint, env: Environment)
    requires Acyclic(bp.context)
    ensures var o, a := Operand(obj, bp, env), Operand(attribute, bp, env);
            Resolve(AtIndex(obj, attribute, fallback), bp, env) ==
            if o.Err? then o else if a.Err? then a else At(o.value, a.value, fallback)
  {
    var v := AtIndex(obj, attribute, fallback);
    assert Resolve(v, bp, env) == Direct(v, bp, env);
  }

  // ---------------------------------------------------------------------------
  // Enumerate
  // ---------------------------------------------------------------------------

  /** Lists and text are visited with positions, mappings with their keys; nothing else can be visited. */
  lemma PairsAnswer(v: Node)
    ensures v.List? ==>
              && Pairs(v).Some? && |Pairs(v).value| == |v.items|
              && forall i :: 0 <= i < |v.items| ==> Pairs(v).value[i] == Pair(Leaf(Int(i)), v.items[i])
    ensures v.Dict? && |v.keys| == |v.vals| ==>
              && Pairs(v).Some? && |Pairs(v).value| == |v.keys|
              && forall i :: 0 <= i < |v.keys| ==> Pairs(v).value[i] == Pair(Leaf(v.keys[i]), v.vals[i])
    ensures v.Leaf? && v.s.Str? ==>
              && Pairs(v).Some? && |Pairs(v).value| == |v.s.s|
              && forall i :: 0 <= i < |v.s.s| ==> Pairs(v).value[i] == Pair(Leaf(Int(i)), Leaf(Str([v.s.s[i]])))
    ensures v.IsTag() || (v.Leaf? && !v.s.Str?) ==> Pairs(v).None?
  {
  }

  /** What an Enumerate refuses before it visits anything. */
  lemma EnumerateRefuses(e: Node, bp: Blueprint, env: Environment)
    requires Acyclic(bp.context) && e.Enumerate?
    ensures var it, r := Operand(e.iterable, bp, env.Enter(e, true)), Resolve(e, bp, env);
            && (e.iterable.Item? && e.iterable.depth == 0 ==> r == Err(EntryInvalid))
            && (!(e.iterable.Item? && e.iterable.depth == 0) ==>
                  && (it.Err? ==> r == it)
                  && (it.Ok? && (Pairs(it.value).None? || e.output.UnknownBody?) ==> r == Err(EntryInvalid)))
  {
    assert Resolve(e, bp, env) == RunEnumerate(e, bp, env, true);
  }

  /** The bodies of an Enumerate, each resolved with its own pair. */
  ghost function BodyResults(e: Node, pairs: seq<Pair>, bp: Blueprint, env: Environment): seq<Result<Node>>
    requires Acyclic(bp.context) && e.Enumerate?
  {
    seq(|pairs|, i requires 0 <= i < |pairs| => Resolve(e.body, bp, env.Hold(e, pairs[i], true)))
  }

  lemma {:induction false} VisitMaps(e: Node, pairs: seq<Pair>, xs: seq<Node>, bp: Blueprint, env: Environment)
    requires Acyclic(bp.context) && e.Enumerate?
    ensures var ys := Collected(BodyResults(e, pairs, bp, env));
            Visit(e, pairs, List(xs), bp, env, true) == if ys.Ok? then Ok(List(xs + ys.value)) else Err(ys.error)
    decreases |pairs|
  {
    hide Resolve;
    if pairs == [] {
      assert xs + [] == xs;
    } else {
      var first := Resolve(e.body, bp, env.Hold(e, pairs[0], true));
      var rest := BodyResults(e, pairs[1..], bp, env);
      assert BodyResults(e, pairs, bp, env)[1..] == rest;
      if first.Ok? {
        VisitMaps(e, pairs[1..], xs + [first.value], bp, env);
        if Collected(rest).Ok? {
          assert xs + [first.value] + Collected(rest).value == xs + ([first.value] + Collected(rest).value);
        }
      }
    }
  }

  /** An Enumerate for a list maps its body over the pairs of its iterable. */
  lemma EnumerateMaps(e: Node, bp: Blueprint, env: Environment)
    requires Acyclic(bp.context) && e.Enumerate? && e.output.SeqBody? && !(e.iterable.Item? && e.iterable.depth == 0)
    requires var it := Operand(e.iterable, bp, env.Enter(e, true)); it.Ok? && Pairs(it.value).Some?
    ensures var it := Operand(e.iterable, bp, env.Enter(e, true));
            var ys := Collected(BodyResults(e, Pairs(it.value).value, bp, env));
            Resolve(e, bp, env) == if ys.Ok? then Ok(List(ys.value)) else Err(ys.error)
  {
    hide Operand, Pairs, Visit, BodyResults, Collected;
    var pairs := Pairs(Operand(e.iterable, bp, env.Enter(e, true)).value).value;
    assert Resolve(e, bp, env) == RunEnumerate(e, bp, env, true) == Visit(e, pairs, List([]), bp, env, true);
    VisitMaps(e, pairs, [], bp, env);
    var ys := Collected(BodyResults(e, pairs, bp, env));
    assert ys.Ok? ==> [] + ys.value == ys.value;
  }

  /** An Enumerate for a mapping whose bodies are pairs with distinct keys is the mapping of those pairs. */
  lemma EnumerateCollects(e: Node, keys: seq<Scalar>, vals: seq<Node>, bp: Blueprint, env: Environment)
    requires Acyclic(bp.context) && e.Enumerate? && e.output.MapBody? && !(e.iterable.Item? && e.iterable.depth == 0)
    requires var it := Operand(e.iterable, bp, env.Enter(e, true));
             it.Ok? && Pairs(it.value).Some? && Bodies(e, Pairs(it.value).value, keys, vals, bp, env)
    ensures Resolve(e, bp, env) == Ok(Dict(keys, vals))
  {
    hide Operand, Pairs, Visit;
    var pairs := Pairs(Operand(e.iterable, bp, env.Enter(e, true)).value).value;
    assert Resolve(e, bp, env) == RunEnumerate(e, bp, env, true) == Visit(e, pairs, Dict([], []), bp, env, true);
    VisitMapping(e, pairs, keys, vals, 0, bp, env);
    assert pairs[0..] == pairs && keys[..0] == [] && vals[..0] == [];
  }

  /** `!Value d` and `!Index d` read the d-th slot outwards, and fail on a bad depth or an empty slot. */
  lemma ItemAnswers(part: Part, depth: int, slots: seq<Option<Pair>>, bp: Blueprint)
    requires Acyclic(bp.context)
    ensures var r, i := Resolve(Item(part, depth), bp, Scopes(slots)), |slots| - 1 - depth;
            if 0 <= i < |slots| && slots[i].Some?
            then r == Ok(match part case Index => slots[i].value.index case Value => slots[i].value.value)
            else r == Err(EntryInvalid)
  {
    var v := Item(part, depth);
    assert Resolve(v, bp, Scopes(slots)) == Direct(v, bp, Scopes(slots)) == ItemIn(Scopes(slots), part, depth);
  }

  // ---------------------------------------------------------------------------
  // Merging
  // ---------------------------------------------------------------------------

  ghost predicate Shaped(a: Node) { a.Dict? && |a.keys| == |a.vals| }

  /** The value a mapping has under a key. */
  ghost function Under(a: Node, k: Scalar): Option<Node>
    requires Shaped(a)
  {
    var i := IndexOf(a.keys, k); if i < |a.keys| then Some(a.vals[i]) else None
  }

  function Merged(x: Option<Node>, y: Option<Node>): Option<Node>
  {
    match (x, y)
    case (Some(a), Some(b)) => Some(MergeValue(a, b))
    case (None, _) => y
    case (_, None) => x
  }

  /** A mapping with one field merged in. */
  function Put(a: Node, key: Scalar, value: Node): Node
    requires Shaped(a)
  {
    var i := IndexOf(a.keys, key);
    if i < |a.keys| then Dict(a.keys, a.vals[i := MergeValue(a.vals[i], value)])
    else Dict(a.keys + [key], a.vals + [value])
  }

  lemma PutReads(a: Node, key: Scalar, value: Node, k: Scalar)
    requires Shaped(a)
    ensures Shaped(Put(a, key, value))
    ensures Under(Put(a, key, value), k) == if k == key then Merged(Under(a, key), Some(value)) else Under(a, k)
  {
    hide MergeValue;
    if key in a.keys { PutOver(a, key, value, k); } else { PutNew(a, key, value, k); }
  }

  lemma PutOver(a: Node, key: Scalar, value: Node, k: Scalar)
    requires Shaped(a) && key in a.keys
    ensures var i := IndexOf(a.keys, key);
            Under(Put(a, key, value), k) == if k == key then Some(MergeValue(a.vals[i], value)) else Under(a, k)
  {
    hide MergeValue, IndexOf;
  }

  lemma PutNew(a: Node, key: Scalar, value: Node, k: Scalar)
    requires Shaped(a) && key !in a.keys
    ensures Under(Put(a, key, value), k) == if k == key then Some(value) else Under(a, k)
  {
    IndexAppended(a.keys, key, k);
    hide MergeValue, IndexOf;
  }

  lemma FirstField(a: Node, keys: seq<Scalar>, vals: seq<Node>, k: Scalar)
    requires Shaped(a) && |keys| == |vals| > 0 && keys[0] !in keys[1..]
    ensures MergeFields(a, keys, vals) == MergeFields(Put(a, keys[0], vals[0]), keys[1..], vals[1..])
    ensures Under(Dict(keys, vals), k) == if k == keys[0] then Some(vals[0]) else Under(Dict(keys[1..], vals[1..]), k)
    ensures k == keys[0] ==> Under(Dict(keys[1..], vals[1..]), k) == None
  {
    hide MergeValue;
  }

  ghost predicate Distinct(keys: seq<Scalar>) { forall i, j :: 0 <= i < j < |keys| ==> keys[i] != keys[j] }

  lemma {:induction false} MergedFields(a: Node, keys: seq<Scalar>, vals: seq<Node>, k: Scalar)
    requires Shaped(a) && |keys| == |vals| && Distinct(keys)
    ensures Shaped(MergeFields(a, keys, vals))
    ensures Under(MergeFields(a, keys, vals), k) == Merged(Under(a, k), Under(Dict(keys, vals), k))
    decreases |keys|
  {
    if keys != [] {
      hide MergeFields, MergeValue, Under, Put, Shaped;
      PutReads(a, keys[0], vals[0], k);
      FirstField(a, keys, vals, k);
      MergedFields(Put(a, keys[0], vals[0]), keys[1..], vals[1..], k);
    }
  }

  /** Lists are joined, mappings merged key by key, and anything else is replaced. */
  lemma MergeAnswers(a: Node, b: Node)
    ensures a.List? && b.List? ==> MergeValue(a, b) == List(a.items + b.items)
    ensures Shaped(a) && Shaped(b) && Distinct(b.keys) ==>
              Shaped(MergeValue(a, b)) && forall k :: Under(MergeValue(a, b), k) == Merged(Under(a, k), Under(b, k))
    ensures !(a.List? && b.List?) && !(a.Dict? && b.Dict?) ==> MergeValue(a, b) == b
  {
    if Shaped(a) && Shaped(b) && Distinct(b.keys) {
      assert MergeValue(a, b) == MergeFields(a, b.keys, b.vals) && b == Dict(b.keys, b.vals);
      hide MergeFields, MergeValue, Under;
      MergedFields(a, b.keys, b.vals, Null);
      forall k ensures Under(MergeValue(a, b), k) == Merged(Under(a, k), Under(b, k)) {
        MergedFields(a, b.keys, b.vals, k);
      }
    }
  }

  /** What is added to a mapping: a pair is one field, a mapping all its fields, anything else is refused. */
  lemma AddAnswers(output: Output, acc: Node, b: Node)
    requires acc.Dict?
    ensures var r := Add(output, acc, b);
            && (b.Dict? ==> r == Ok(MergeValue(acc, b)))
            && (forall k, x, rest :: b == List([Leaf(k), x] + rest) ==> r == Ok(MergeValue(acc, Dict([k], [x]))))
            && (b.List? && |b.items| >= 2 && !b.items[0].Leaf? ==> r == Err(TypeError))
            && (b.List? && |b.items| < 2 ==> r == Err(IndexError))
            && (!b.Dict? && !b.List? ==> r == Err(EntryInvalid))
  {
  }
}
