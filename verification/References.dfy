/**
 Primary-key rewriting over a whole import: what the renaming map means, and what it does to the
 references that an entry saves.
 */
module References {
  import opened Common
  import opened Tags
  import opened Importer

  /** Kept objects are stored ones, and saved data is the rewritten attributes merged with the identifiers. */
  ghost predicate Honest(w: World, decide: Decider)
  {
    && (forall e, p :: decide(e, p).Keep? ==> decide(e, p).key in p.db)
    && (forall e, p :: decide(e, p).Save? ==>
          var attrs, ids := ResolveIn(w, e, e.attrs, p), ResolveIn(w, e, e.identifiers, p);
          attrs.Ok? && ids.Ok? && decide(e, p).serializer.data == SavedData(attrs.value, ids.value, p.pkMap))
  }

  function SavedData(attrs: Node, ids: Node, pkMap: map<Node, Scalar>): Fields
  {
    MergeData(RenameFields(ToFields(attrs), pkMap), Identifiers(ids, pkMap))
  }

  /** One run of `_apply_models`: its inputs, fixed. */
  datatype Import = Import(w: World, decide: Decider, entries: seq<Entry>, start: Progress, raiseErrors: bool) {
    ghost predicate Valid() { |entries| == |start.states| && start.pkMap == map[] && Honest(w, decide) }

    function After(n: nat): Run
      requires Valid() && n <= |entries|
    {
      Prefix(w, decide, entries, n, start, raiseErrors)
    }

    function Choice(n: nat): Decision
      requires Valid() && n < |entries|
    {
      decide(entries[n], After(n).p)
    }

    /** Turn `n` succeeded with an instance: the entry is not skipped and not ABSENT. */
    predicate Applied(n: nat)
      requires Valid() && n < |entries|
    {
      After(n + 1).Running? && (Choice(n).Keep? || Choice(n).Save?)
    }

    /** The object that turn `n` kept or saved. */
    function AppliedKey(n: nat): Key
      requires Valid() && n < |entries| && Applied(n)
    {
      if Choice(n).Keep? then Choice(n).key else KeyOfTarget(w, Choice(n).serializer.target, After(n).p.db)
    }

    /** The last of the first `n` entries that was applied under the raw primary key `x`. */
    function Referent(x: Node, n: nat): (j: Option<nat>)
      requires Valid() && n <= |entries|
      ensures j.Some? ==> j.value < n && Applied(j.value) && RawPk(entries[j.value]) == Some(x)
    {
      if n == 0 then None
      else if Applied(n - 1) && RawPk(entries[n - 1]) == Some(x) then Some(n - 1)
      else Referent(x, n - 1)
    }

    /** What a reference to `x` should read after `n` turns: the primary key of its referent's object. */
    function Actual(x: Node, n: nat): Node
      requires Valid() && n <= |entries|
    {
      match Referent(x, n) case None => x case Some(j) => Leaf(AppliedKey(j).pk)
    }

    lemma RunningBefore(m: nat, n: nat)
      requires Valid() && m <= n <= |entries| && After(n).Running?
      ensures After(m).Running?
      decreases n
    {
      hide Step;
      if m < n { RunningBefore(m, n - 1); }
    }

    /** An applied entry records the very object it kept or saved, which is in the database at that moment. */
    lemma AppliedInstance(n: nat)
      requires Valid() && n < |entries| && Applied(n)
      ensures After(n).Running?
      ensures var p := After(n + 1).p;
              && AppliedKey(n) in p.db
              && p.states[n] == EntryState(entries[n].id, Some(Instance(AppliedKey(n).pk, w.pbmUuid(AppliedKey(n)))))
              && p.pkMap == if RawPk(entries[n]).Some?
                            then After(n).p.pkMap[RawPk(entries[n]).value := AppliedKey(n).pk]
                            else After(n).p.pkMap
    {
      hide RawPk, Stored;
      RunningBefore(n, n + 1);
    }

    lemma OtherTurn(n: nat)
      requires Valid() && n < |entries| && After(n + 1).Running? && !Applied(n)
      ensures After(n + 1).p.pkMap == After(n).p.pkMap && After(n + 1).p.states == After(n).p.states
    {
    }

    lemma OtherStates(n: nat)
      requires Valid() && n < |entries| && After(n + 1).Running?
      ensures forall j :: 0 <= j < |entries| && j != n ==> After(n + 1).p.states[j] == After(n).p.states[j]
    {
      hide Stored, RawPk;
    }

    /** The renaming map sends every raw key to the primary key of its referent's object, which stays recorded. */
    lemma {:induction false} MapIsReferent(x: Node, n: nat)
      requires Valid() && n <= |entries| && After(n).Running?
      ensures var p, j := After(n).p, Referent(x, n);
              && (x in p.pkMap <==> j.Some?)
              && (j.Some? ==>
                    var k := AppliedKey(j.value);
                    p.pkMap[x] == k.pk && p.states[j.value].instance == Some(Instance(k.pk, w.pbmUuid(k))))
    {
      hide Step, RawPk, Choice, AppliedKey;
      if n > 0 {
        RunningBefore(n - 1, n);
        MapIsReferent(x, n - 1);
        OtherStates(n - 1);
        if Applied(n - 1) { AppliedInstance(n - 1); } else { OtherTurn(n - 1); }
      }
    }

    /** Rewriting one value is a single simultaneous renaming: the result is not renamed again. */
    lemma RenameIsActual(x: Node, n: nat)
      requires Valid() && n <= |entries| && After(n).Running?
      ensures Rename(x, After(n).p.pkMap) == Actual(x, n)
    {
      MapIsReferent(x, n);
    }

    /** `v` with its references replaced: itself, or its elements before the first unhashable one. */
    ghost function Rewrite(v: Node, n: nat): Node
      requires Valid() && n <= |entries|
    {
      match v
      case List(xs) => List(RewriteAll(xs, n))
      case Dict(keys, xs) => Dict(keys, RewriteAll(xs, n))
      case _ => Actual(v, n)
    }

    ghost function RewriteAll(xs: seq<Node>, n: nat): seq<Node>
      requires Valid() && n <= |entries|
    {
      seq(|xs|, j requires 0 <= j < |xs| && Valid() && n <= |entries| =>
        if exists u :: 0 <= u <= j && Unhashable(xs[u]) then xs[j] else Actual(xs[j], n))
    }

    /** The rewriting pass over one value is `Rewrite`. */
    lemma ValueRewritten(v: Node, n: nat)
      requires Valid() && n <= |entries| && After(n).Running?
      ensures RenameValue(v, After(n).p.pkMap) == Rewrite(v, n)
    {
      hide Actual, Prefix;
      match v
      case List(xs) => ElementsAreRewritten(xs, n);
      case Dict(_, xs) => ElementsAreRewritten(xs, n);
      case _ => RenameIsActual(v, n);
    }

    lemma ElementsAreRewritten(xs: seq<Node>, n: nat)
      requires Valid() && n <= |entries| && After(n).Running?
      ensures RenameUntil(xs, After(n).p.pkMap) == RewriteAll(xs, n)
    {
      hide Actual, Prefix, Rename;
      var ys := RenameUntil(xs, After(n).p.pkMap);
      forall j | 0 <= j < |xs| ensures ys[j] == RewriteAll(xs, n)[j] {
        RenameIsActual(xs[j], n);
        if Stop(xs) <= j { assert Unhashable(xs[Stop(xs)]); }
      }
    }

    /**
     What turn `n` should store in a field: rewritten attributes, rewritten identifiers with `{pk: x}`
     standing for `x`, and the identifiers merged over the attributes where both have the field.
     */
    ghost function Expected(attrs: Fields, ids: Fields, f: string, n: nat): Node
      requires Valid() && n <= |entries| && (f in attrs || f in ids)
    {
      if f !in ids then Rewrite(attrs[f], n)
      else if f !in attrs then Unwrap(Rewrite(ids[f], n))
      else MergeValue(Rewrite(attrs[f], n), Unwrap(Rewrite(ids[f], n)))
    }

    lemma SavedObject(n: nat)
      requires Valid() && n < |entries| && Applied(n) && Choice(n).Save?
      ensures After(n).Running?
      ensures var s, k := Choice(n).serializer, KeyOfTarget(w, Choice(n).serializer.target, After(n).p.db);
              k in After(n + 1).p.db && After(n + 1).p.db[k] == Stored(w, s, After(n).p.db)
    {
      hide RawPk, Stored;
      RunningBefore(n, n + 1);
    }

    /**
     Every field that the object saved by turn `n` gets from its entry holds the actual primary keys of
     the instances that earlier entries became, in every reference that the rewriting pass reaches.
     */
    lemma SavedReferences(n: nat, f: string)
      requires Valid() && n < |entries| && Applied(n) && Choice(n).Save? && f != "pk"
      ensures var before, after, k := After(n).p, After(n + 1).p, AppliedKey(n);
              var attrs := ResolveIn(w, entries[n], entries[n].attrs, before);
              var ids := ResolveIn(w, entries[n], entries[n].identifiers, before);
              && k in after.db && attrs.Ok? && ids.Ok?
              && (f in ToFields(attrs.value) || f in ToFields(ids.value) ==>
                    f in after.db[k] && after.db[k][f] == Expected(ToFields(attrs.value), ToFields(ids.value), f, n))
    {
      hide Step, FieldsOf, Prefix, Actual, MergeData, RenameFields, UnwrapFields, RenameValue;
      hide Rewrite, Unwrap, MergeValue;
      SavedObject(n);
      var before, s := After(n).p, Choice(n).serializer;
      var attrs := ToFields(ResolveIn(w, entries[n], entries[n].attrs, before).value);
      var raw := ResolveIn(w, entries[n], entries[n].identifiers, before).value;
      MergedField(attrs, raw, before.pkMap, f);
      if f in attrs { ValueRewritten(attrs[f], n); }
      if f in ToFields(raw) { ValueRewritten(ToFields(raw)[f], n); }
    }

    /**
     What `Expected` comes to for identifiers: a scalar is its referent's primary key even when the
     attributes have the field; a list is rewritten, after the rewritten attribute if that is a list; a
     mapping with a `pk` is its rewritten `pk` where the attributes lack the field.
     */
    lemma ExpectedIdentifiers(attrs: Fields, ids: Fields, f: string, n: nat)
      requires Valid() && n <= |entries| && f in ids
      ensures !Unhashable(ids[f]) ==> Expected(attrs, ids, f, n) == Actual(ids[f], n)
      ensures ids[f].List? && (f in attrs ==> !attrs[f].List?) ==>
                Expected(attrs, ids, f, n) == List(RewriteAll(ids[f].items, n))
      ensures ids[f].List? && f in attrs && attrs[f].List? ==>
                Expected(attrs, ids, f, n) == List(RewriteAll(attrs[f].items, n) + RewriteAll(ids[f].items, n))
      ensures ids[f].Dict? && f !in attrs ==>
                var i := IndexOf(ids[f].keys, Str("pk"));
                i < |ids[f].keys| && i < |ids[f].vals| ==> Expected(attrs, ids, f, n) == RewriteAll(ids[f].vals, n)[i]
    {
      hide Prefix, Referent, AppliedKey;
    }
  }

  lemma MergedField(attrs: Fields, raw: Node, pkMap: map<Node, Scalar>, f: string)
    ensures var data, ids := MergeData(RenameFields(attrs, pkMap), Identifiers(raw, pkMap)), ToFields(raw);
            && (f in attrs && f !in ids ==> f in data && data[f] == RenameValue(attrs[f], pkMap))
            && (f in ids && f !in attrs ==> f in data && data[f] == Unwrap(RenameValue(ids[f], pkMap)))
            && (f in ids && f in attrs ==>
                  f in data && data[f] == MergeValue(RenameValue(attrs[f], pkMap), Unwrap(RenameValue(ids[f], pkMap))))
  {
    hide FieldsOf, MergeValue, Unwrap, RenameValue;
  }

  lemma ValidateIsHonest(w: World, e: Entry, model: string, p: Progress)
    requires Lawful(w)
    ensures var v := ValidateSingle(w, e, model, p);
            var attrs, ids := ResolveIn(w, e, e.attrs, p), ResolveIn(w, e, e.identifiers, p);
            v.Valid? ==>
              && attrs.Ok? && ids.Ok? && v.serializer.data == SavedData(attrs.value, ids.value, p.pkMap)
              && (v.serializer.target.Existing? ==> v.serializer.target.key in p.db)
  {
    hide FieldsOf, MergeData, RenameFields, UnwrapFields, Matches;
  }

  /** The program's own decisions are honest, so everything proved of `Import` holds of its runs. */
  lemma DeciderIsHonest(w: World)
    requires Lawful(w)
    ensures Honest(w, DeciderOf(w))
  {
    hide SavedData;
    forall e, p
      ensures Decide(w, e, p).Keep? ==> Decide(w, e, p).key in p.db
      ensures var attrs, ids := ResolveIn(w, e, e.attrs, p), ResolveIn(w, e, e.identifiers, p);
              Decide(w, e, p).Save? ==>
                attrs.Ok? && ids.Ok? && Decide(w, e, p).serializer.data == SavedData(attrs.value, ids.value, p.pkMap)
    {
      var name := ResolveIn(w, e, e.model, p);
      if name.Ok? { ValidateIsHonest(w, e, ModelName(w, name.value), p); }
      hide ValidateSingle;
    }
  }
}
