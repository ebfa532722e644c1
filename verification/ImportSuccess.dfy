/**
 When an import succeeds and what it then leaves behind, for blueprints of plain entries: stated on the
 entries and the database, without the importer's decisions.
 */
module ImportSuccess {
  import opened Common
  import opened Tags
  import opened TagMeaning
  import opened Importer
  import opened ImportLaws
  import TagAnswers

  // ---------------------------------------------------------------------------
  // One entry
  // ---------------------------------------------------------------------------

  /** The entry's conditions hold, so that it is looked at. */
  predicate Active(e: Entry)
    requires e.conditions.List?
  {
    AllTrue(e.conditions.items)
  }

  /** The entry names an allowed model and identifies an object by fields the model has. */
  predicate Usable(w: World, e: Entry)
  {
    w.modelAllowed(Model(w, e)) && Ids(e) != map[] && w.fieldsKnown(Model(w, e), Ids(e).Keys)
  }

  /** The fields of the entry have the shapes the importer needs. */
  predicate WellShaped(w: World, e: Entry)
  {
    && e.conditions.List?
    && (Active(e) ==>
          && Wanted(e).Some?
          && (w.modelAllowed(Model(w, e)) ==> e.identifiers.Dict?)
          && (Usable(w, e) ==> e.attrs.Dict?))
  }

  /** The stored object the serializer is asked about, if there is one. */
  function Instance(w: World, db: DB, e: Entry): Option<Key>
  {
    var hits := EntryHits(w, db, e); if hits == {} then None else Some(w.first(hits))
  }

  /** The serializer takes the entry's data. */
  predicate Taken(w: World, db: DB, e: Entry)
  {
    Usable(w, e) && w.accepts(Model(w, e), db, Instance(w, db, e), FullData(e))
  }

  datatype Kind = Runs | Fails | Raises

  /** How a turn ends: an entry that is to be absent, or not looked at, needs no valid data. */
  function KindOf(w: World, db: DB, e: Entry, raiseErrors: bool): Kind
  {
    if Dots(Model(w, e)) != 1 then Raises
    else if !w.modelKnown(Model(w, e)) then Fails
    else if !WellShaped(w, e) then Raises
    else if !Active(e) || Wanted(e) == Some(Absent) || Taken(w, db, e) then Runs
    else if raiseErrors then Raises
    else Fails
  }

  /** The database after a turn that runs. */
  function Effect(w: World, db: DB, e: Entry): DB
  {
    var found := Instance(w, db, e);
    if Inactive(w, e) then db
    else match Wanted(e)
    case Some(Absent) => if found.Some? then db - {found.value} else db
    case Some(Created) => if found.Some? then db else Write(w, db, e)
    case _ => Write(w, db, e)
  }

  /** The entry's data over the object found, or over the defaults of a new one. */
  function Write(w: World, db: DB, e: Entry): DB
  {
    var found := Instance(w, db, e);
    if found.Some? && found.value in db then db[found.value := db[found.value] + Data(e)]
    else
      var k := if found.Some? then found.value else Key(Model(w, e), w.freshPk(db, Model(w, e)));
      db[k := w.defaults(k.model) + Data(e)]
  }

  /** What validation says about a plain entry. */
  lemma ValidationExactly(w: World, e: Entry, p: Progress)
    requires KeepsPlainData(w) && Plain(e) && p.pkMap == map[]
    ensures var v := ValidateSingle(w, e, Model(w, e), p);
            && (!e.conditions.List? ==> v.Crashed?)
            && (e.conditions.List? && !Active(e) ==> v.Skipped?)
            && (e.conditions.List? && Active(e) ==>
                  && (v.Crashed? <==> (w.modelAllowed(Model(w, e)) && !e.identifiers.Dict?)
                                      || (Usable(w, e) && !e.attrs.Dict?))
                  && (!v.Crashed? && !Usable(w, e) ==> v == Invalid(None))
                  && (!v.Crashed? && Usable(w, e) ==>
                        v == if Taken(w, p.db, e) then Valid(PlainSerializer(w, p.db, e))
                             else Invalid(Some(PlainSerializer(w, p.db, e)))))
  {
    hide TagFree, FieldsOf, MergeData, RenameFields, UnwrapFields, Hits;
    PlainIdentifiers(e);
    RenameFieldsEmpty(ToFields(e.attrs));
  }

  lemma DecisionExactly(w: World, e: Entry, p: Progress)
    requires KeepsPlainData(w) && Plain(e) && p.pkMap == map[]
    ensures var d, s, kind := Decide(w, e, p), PlainSerializer(w, p.db, e), KindOf(w, p.db, e, false);
            && (kind.Raises? ==> d == Raise)
            && (kind.Fails? ==> d == if w.modelKnown(Model(w, e)) then Refuse else Fail)
            && (kind.Runs? ==>
                  if !Active(e) then d == Pass
                  else if Wanted(e) == Some(Absent) then d == if Usable(w, e) then Delete(s.target) else Pass
                  else if Wanted(e) == Some(Created) && s.target.Existing? then d == Keep(s.target.key)
                  else d == Save(s))
  {
    hide TagFree, FieldsOf, ValidateSingle, PlainSerializer, Dots, Usable, Instance, FullData;
    ValidationExactly(w, e, p);
  }

  lemma SaveEffect(w: World, e: Entry, db: DB)
    ensures var s := PlainSerializer(w, db, e);
            var k := KeyOfTarget(w, s.target, db);
            db[k := Stored(w, s, db)] == Write(w, db, e)
  {
    hide FullData, Hits;
  }

  lemma TargetIsInstance(w: World, e: Entry, db: DB)
    ensures var t, found := PlainSerializer(w, db, e).target, Instance(w, db, e);
            && (t.Existing? <==> found.Some?) && (found.Some? ==> t == Existing(found.value))
  {
    hide FullData, Hits;
  }

  /** The effect through the serializer the importer builds. */
  lemma EffectTable(w: World, db: DB, e: Entry)
    requires e.conditions.List?
    ensures var s := PlainSerializer(w, db, e);
            Effect(w, db, e) ==
            if !Active(e) || !Usable(w, e) then db
            else if Wanted(e) == Some(Absent) then if s.target.Existing? then db - {s.target.key} else db
            else if Wanted(e) == Some(Created) && s.target.Existing? then db
            else db[KeyOfTarget(w, s.target, db) := Stored(w, s, db)]
  {
    SaveEffect(w, e, db);
    TargetIsInstance(w, e, db);
    hide PlainSerializer, Write, Stored, Instance, AllTrue, KeyOfTarget;
  }

  lemma RunningStep(w: World, e: Entry, i: nat, p: Progress, raiseErrors: bool)
    requires KeepsPlainData(w) && Plain(e) && p.pkMap == map[] && i < |p.states| && KindOf(w, p.db, e, false).Runs?
    ensures var r := Step(w, DeciderOf(w), e, i, p, raiseErrors);
            r.Running? && r.p.pkMap == map[] && r.p.db == Effect(w, p.db, e)
  {
    hide TagFree, ToFields, Decide, Dots, PlainSerializer, Effect, Stored, Plain, Usable, Active, Taken, RawPk;
    hide KindOf, WellShaped, Wanted;
    RunsFacts(w, p.db, e);
    NoRawPk(e);
    DecisionExactly(w, e, p);
    EffectTable(w, p.db, e);
  }

  lemma RunsFacts(w: World, db: DB, e: Entry)
    requires KindOf(w, db, e, false).Runs?
    ensures e.conditions.List? && (!Active(e) || Wanted(e) == Some(Absent) || Usable(w, e))
  {
    hide Dots, Active, Usable;
  }

  lemma NoRawPk(e: Entry)
    requires Plain(e)
    ensures RawPk(e) == None
  {
    hide TagFree, FieldsOf;
  }

  lemma StoppedStep(w: World, e: Entry, i: nat, p: Progress, raiseErrors: bool)
    requires KeepsPlainData(w) && Plain(e) && p.pkMap == map[] && i < |p.states| && !KindOf(w, p.db, e, false).Runs?
    ensures var r := Step(w, DeciderOf(w), e, i, p, raiseErrors);
            r == (if KindOf(w, p.db, e, raiseErrors).Fails? then Failed(p) else Raised(p))
            && !KindOf(w, p.db, e, raiseErrors).Runs?
  {
    DecisionExactly(w, e, p);
    hide TagFree, ToFields, Decide, Dots, PlainSerializer, Plain, Usable, Active, Taken, WellShaped;
  }

  /** A turn of the loop ends as its kind says, and leaves the database its effect. */
  lemma StepExactly(w: World, e: Entry, i: nat, p: Progress, raiseErrors: bool)
    requires KeepsPlainData(w) && Plain(e) && p.pkMap == map[] && i < |p.states|
    ensures var r, kind := Step(w, DeciderOf(w), e, i, p, raiseErrors), KindOf(w, p.db, e, raiseErrors);
            && (r.Running? <==> kind.Runs?) && (r.Failed? <==> kind.Fails?) && (r.Raised? <==> kind.Raises?)
            && r.p.pkMap == map[] && r.p.db == if kind.Runs? then Effect(w, p.db, e) else p.db
  {
    hide Plain, Step, KindOf, Effect;
    RunsEitherWay(w, p.db, e, raiseErrors);
    if KindOf(w, p.db, e, false).Runs? {
      RunningStep(w, e, i, p, raiseErrors);
    } else {
      StoppedStep(w, e, i, p, raiseErrors);
    }
  }

  // ---------------------------------------------------------------------------
  // The whole import
  // ---------------------------------------------------------------------------

  ghost predicate AllPlain(entries: seq<Entry>) { forall i :: 0 <= i < |entries| ==> Plain(entries[i]) }

  /** The database after the effects of the first `n` entries. */
  function Effects(w: World, db: DB, entries: seq<Entry>, n: nat): DB
    requires n <= |entries|
  {
    if n == 0 then db else Effect(w, Effects(w, db, entries, n - 1), entries[n - 1])
  }

  ghost predicate Succeeds(w: World, db: DB, entries: seq<Entry>, n: nat)
    requires n <= |entries|
  {
    forall i :: 0 <= i < n ==> KindOf(w, Effects(w, db, entries, i), entries[i], false).Runs?
  }

  lemma {:induction false} PrefixExactly(w: World, entries: seq<Entry>, n: nat, p: Progress, raiseErrors: bool)
    requires KeepsPlainData(w) && AllPlain(entries) && p.pkMap == map[] && n <= |entries| == |p.states|
    ensures var r := Prefix(w, DeciderOf(w), entries, n, p, raiseErrors);
            && r.p.pkMap == map[] && (r.Running? <==> Succeeds(w, p.db, entries, n))
            && (r.Running? ==> r.p.db == Effects(w, p.db, entries, n))
  {
    hide Step, Effect, KindOf, Plain;
    if n > 0 {
      PrefixExactly(w, entries, n - 1, p, raiseErrors);
      var before := Prefix(w, DeciderOf(w), entries, n - 1, p, raiseErrors);
      if before.Running? {
        StepExactly(w, entries[n - 1], n - 1, before.p, raiseErrors);
        RunsEitherWay(w, before.p.db, entries[n - 1], raiseErrors);
      }
    }
  }

  lemma RunsEitherWay(w: World, db: DB, e: Entry, raiseErrors: bool)
    ensures KindOf(w, db, e, raiseErrors).Runs? <==> KindOf(w, db, e, false).Runs?
  {
    hide Dots, WellShaped, Active, Taken;
  }

  /**
   Applying succeeds exactly when every entry, on the database its predecessors leave, is inactive, to be
   absent, or accepted; then the database holds exactly the effects of all entries in order.
   */
  method ApplyPlain(importer: BlueprintImporter) returns (verdict: Verdict)
    requires importer.Valid() && KeepsPlainData(importer.w) && AllPlain(importer.entries)
    modifies importer
    ensures verdict == Accepted <==>
            Succeeds(importer.w, old(importer.db), importer.entries, |importer.entries|)
    ensures importer.db == if verdict == Accepted
                           then Effects(importer.w, old(importer.db), importer.entries, |importer.entries|)
                           else old(importer.db)
    ensures forall n :: 0 <= n < |importer.entries| && Succeeds(importer.w, old(importer.db), importer.entries, n) ==>
              Stops(verdict, KindAt(importer.w, old(importer.db), importer.entries, n))
  {
    hide Succeeds, Effects, Prefix;
    ghost var start := Progress(importer.db, importer.states, map[]);
    PrefixExactly(importer.w, importer.entries, |importer.entries|, start, false);
    verdict := importer.Apply();
    forall n | 0 <= n < |importer.entries| && Succeeds(importer.w, start.db, importer.entries, n)
      ensures Stops(verdict, KindAt(importer.w, start.db, importer.entries, n))
    {
      FirstStop(importer.w, importer.entries, n, |importer.entries|, start);
    }
  }

  ghost function KindAt(w: World, db: DB, entries: seq<Entry>, n: nat): Kind
    requires n < |entries|
  {
    KindOf(w, Effects(w, db, entries, n), entries[n], false)
  }

  /** The first entry that does not run decides how the import ends. */
  ghost predicate Stops(verdict: Verdict, kind: Kind)
  {
    (kind.Fails? ==> verdict == Rejected) && (kind.Raises? ==> verdict == Exception)
  }

  lemma {:induction false} FirstStop(w: World, entries: seq<Entry>, n: nat, m: nat, p: Progress)
    requires KeepsPlainData(w) && AllPlain(entries) && p.pkMap == map[] && n < m <= |entries| == |p.states|
    requires Succeeds(w, p.db, entries, n)
    ensures Stops(VerdictOf(Prefix(w, DeciderOf(w), entries, m, p, false)), KindAt(w, p.db, entries, n))
    decreases m
  {
    hide Step, Effect, KindOf, Plain, Succeeds;
    PrefixExactly(w, entries, n, p, false);
    if m == n + 1 {
      StepExactly(w, entries[n], n, Prefix(w, DeciderOf(w), entries, n, p, false).p, false);
    } else {
      FirstStop(w, entries, n, m - 1, p);
    }
  }

  /** The serializer's answer for the entry depends on neither the database nor the object. */
  ghost predicate Steady(w: World, e: Entry)
  {
    forall db, k, db', k' :: w.accepts(Model(w, e), db, k, FullData(e)) == w.accepts(Model(w, e), db', k', FullData(e))
  }

  /** With such a serializer success can be read off the entries before the import starts. */
  lemma SteadySuccess(w: World, db: DB, entries: seq<Entry>)
    requires forall i :: 0 <= i < |entries| ==> Steady(w, entries[i])
    ensures Succeeds(w, db, entries, |entries|) <==>
            forall i :: 0 <= i < |entries| ==> KindOf(w, db, entries[i], false).Runs?
  {
    forall i | 0 <= i < |entries|
      ensures KindOf(w, Effects(w, db, entries, i), entries[i], false) == KindOf(w, db, entries[i], false)
    {
      SteadyKind(w, Effects(w, db, entries, i), db, entries[i]);
    }
  }

  lemma SteadyKind(w: World, db: DB, db': DB, e: Entry)
    requires Steady(w, e)
    ensures KindOf(w, db, e, false) == KindOf(w, db', e, false)
  {
    hide Dots, WellShaped, Active, Instance, Usable, FullData;
  }

  // ---------------------------------------------------------------------------
  // Reading an entry
  // ---------------------------------------------------------------------------

  /** A model is named by exactly one dot between two parts without one. */
  lemma {:induction false} DotsExactly(app: string, model: string)
    ensures Dots(app + model) == Dots(app) + Dots(model)
    ensures Dots(app) == 0 <==> '.' !in app
    ensures Dots(".") == 1
  {
    if app == [] {
      assert app + model == model;
    } else {
      DotsExactly(app[1..], model);
      assert (app + model)[1..] == app[1..] + model && app == [app[0]] + app[1..];
    }
    assert "."[1..] == "";
  }

  lemma ModelNameExactly(app: string, model: string)
    requires '.' !in app && '.' !in model
    ensures Dots(app + "." + model) == 1
  {
    hide Dots;
    DotsExactly(app + ".", model);
    DotsExactly(app, ".");
    DotsExactly(model, "");
  }

  /** The four states by their names; anything else is no state. */
  lemma DesiredExactly(v: Node, name: string)
    requires v == Leaf(Str(name))
    ensures ToDesired(v) == Some(Absent) <==> name == "absent"
    ensures ToDesired(v) == Some(Present) <==> name == "present"
    ensures ToDesired(v) == Some(Created) <==> name == "created"
    ensures ToDesired(v) == Some(MustCreated) <==> name == "must_created"
  {
    assert |"must_created"| == 12 && |"absent"| == 6 && |"present"| == 7 && |"created"| == 7;
    assert "present"[0] == 'p' && "created"[0] == 'c';
  }

  /** A mapping read as fields: every string key with its value, and no other keys. */
  lemma {:induction false} FieldsExactly(keys: seq<Scalar>, vals: seq<Node>, f: string)
    requires |keys| == |vals| && forall i, j :: 0 <= i < j < |keys| ==> keys[i] != keys[j]
    ensures f in FieldsOf(keys, vals) <==> Str(f) in keys
    ensures forall i :: 0 <= i < |keys| && keys[i] == Str(f) ==>
              f in FieldsOf(keys, vals) && FieldsOf(keys, vals)[f] == vals[i]
  {
    if keys != [] {
      FieldsExactly(keys[1..], vals[1..], f);
      assert keys == [keys[0]] + keys[1..];
      forall i | 1 <= i < |keys| ensures keys[1..][i - 1] == keys[i] && vals[1..][i - 1] == vals[i] { }
    }
  }

  /**
   Identifiers find the objects of the model that have all their values: a mapping must be contained, a
   missing field counts as null.
   */
  lemma HitsExactly(w: World, db: DB, model: string, ids: Fields, k: Key)
    requires "pk" !in ids
    ensures k in Hits(w, db, model, ids) <==>
            && k in db && k.model == model
            && forall f :: f in ids ==>
                 var value := if f in db[k] then db[k][f] else Leaf(Null);
                 if ids[f].Dict? then w.contains(value, ids[f]) else value == ids[f]
  {
    if k in db && k.model == model {
      forall f | f in ids
        ensures FieldMatches(w, db[k], f, ids[f]) <==>
                var value := if f in db[k] then db[k][f] else Leaf(Null);
                if ids[f].Dict? then w.contains(value, ids[f]) else value == ids[f]
      { }
    }
  }

  /** A primary key finds its own object; with other identifiers either is enough. */
  lemma PkHits(w: World, db: DB, model: string, ids: Fields, k: Key)
    requires "pk" in ids
    ensures k in Hits(w, db, model, ids) <==>
            && k in db && k.model == model
            && (ids["pk"] == Leaf(k.pk) || (ids.Keys != {"pk"} && k in Hits(w, db, model, ids - {"pk"})))
  {
    hide FieldMatches;
    var others := ids - {"pk"};
    assert forall f :: f in others <==> f in ids && f != "pk";
    if k in db { assert SubQuery(w, db[k], others) <==> SubQuery(w, db[k], ids); }
  }

  // ---------------------------------------------------------------------------
  // Entries with tags and primary keys
  // ---------------------------------------------------------------------------

  /** In an import `!KeyOf` refers to the instance of an earlier entry; only a policy binding wants its other key. */
  lemma ImportedKeyOf(w: World, context: map<string, Node>, oracles: DB -> Oracles,
                      e: Entry, id: string, default: Node, p: Progress, i: nat)
    requires Acyclic(context) && w.resolve == TagLanguage(context, oracles)
    requires i < |p.states| && TagAnswers.Named(p.states[i], id)
    requires forall j :: 0 <= j < i ==> !TagAnswers.Named(p.states[j], id)
    ensures var instance := p.states[i].instance.value;
            ResolveIn(w, e, External(KeyOf(id), default), p) ==
            Ok(Leaf(if e.bindsPolicy && instance.pbmUuid.Some? then instance.pbmUuid.value else instance.pk))
  {
    var bp := Blueprint(context, p.states, e.bindsPolicy, oracles(p.db));
    TagAnswers.KeyOfAnswers(id, default, bp, Scopes([]), i);
  }

  /** A field that does not resolve makes the entry invalid, or stops the import, by the kind of error. */
  lemma UnresolvedFields(w: World, e: Entry, model: string, p: Progress)
    ensures var v, conditions := ValidateSingle(w, e, model, p), ResolveIn(w, e, e.conditions, p);
            && (conditions == Err(EntryInvalid) ==> v == Invalid(None))
            && (conditions.Err? && conditions.error != EntryInvalid ==> v == Crashed)
            && (conditions.Ok? && conditions.value.List? && AllTrue(conditions.value.items) && w.modelAllowed(model) ==>
                  var ids := ResolveIn(w, e, e.identifiers, p);
                  && (ids == Err(EntryInvalid) ==> v == Invalid(None))
                  && (ids.Err? && ids.error != EntryInvalid ==> v == Crashed))
  {
    hide ValidateWith, AllTrue;
  }

  /** For attributes a ValueError makes the entry invalid as well. */
  lemma UnresolvedAttributes(w: World, e: Entry, model: string, ids: Fields, p: Progress)
    requires ids != map[] && w.fieldsKnown(model, ids.Keys) && ("pk" in ids ==> ids["pk"].Leaf?)
    requires Hits(w, p.db, model, ids) == {} || Wanted(e) != Some(MustCreated)
    ensures var v, attrs := ValidateWith(w, e, model, ids, p), ResolveIn(w, e, e.attrs, p);
            && (attrs == Err(EntryInvalid) || attrs == Err(ValueError) ==> v == Invalid(None))
            && (attrs == Err(TypeError) || attrs == Err(IndexError) ==> v == Crashed)
            && (attrs.Ok? && !attrs.value.Dict? ==> v == Crashed)
  {
    hide Hits;
  }

  /** What an entry saves it saves under the object found, else under its own primary key, else under a new one. */
  lemma SavedUnder(w: World, e: Entry, i: nat, p: Progress, raiseErrors: bool)
    requires i < |p.states|
    ensures Decide(w, e, p).Save? ==>
              && ResolveIn(w, e, e.model, p).Ok? && ResolveIn(w, e, e.identifiers, p).Ok?
              && var model := ModelName(w, ResolveIn(w, e, e.model, p).value);
                 var ids := Identifiers(ResolveIn(w, e, e.identifiers, p).value, p.pkMap);
                 var hits := Hits(w, p.db, model, ids);
                 && ("pk" in ids ==> ids["pk"].Leaf?)
                 && Step(w, DeciderOf(w), e, i, p, raiseErrors).p.db.Keys ==
                    p.db.Keys + {if hits != {} then w.first(hits)
                                 else Key(model, if "pk" in ids then ids["pk"].s else w.freshPk(p.db, model))}
  {
    hide Decide, Identifiers, Hits, Stored, RawPk;
    if Decide(w, e, p).Save? { SavedTarget(w, e, p); }
  }

  lemma SavedTarget(w: World, e: Entry, p: Progress)
    requires Decide(w, e, p).Save?
    ensures ResolveIn(w, e, e.model, p).Ok? && ResolveIn(w, e, e.identifiers, p).Ok?
    ensures var model := ModelName(w, ResolveIn(w, e, e.model, p).value);
            var ids := Identifiers(ResolveIn(w, e, e.identifiers, p).value, p.pkMap);
            var hits := Hits(w, p.db, model, ids);
            && ("pk" in ids ==> ids["pk"].Leaf?)
            && Decide(w, e, p).serializer.target ==
               if hits != {} then Existing(w.first(hits))
               else New(model, if "pk" in ids then Some(ids["pk"].s) else None)
  {
    hide Dots, Hits, Identifiers, MergeData, RenameFields, AllTrue;
  }

  /** A raw primary key that is a collection stops the import, after the object was saved. */
  lemma CollectionAsKey(w: World, e: Entry, i: nat, p: Progress, raiseErrors: bool)
    requires i < |p.states| && (Decide(w, e, p).Save? || Decide(w, e, p).Keep?)
    ensures var r, raw := Step(w, DeciderOf(w), e, i, p, raiseErrors), ToFields(e.identifiers);
            if "pk" in raw && (raw["pk"].List? || raw["pk"].Dict?) then r.Raised? else r.Running?
  {
    hide Decide, Stored, ToFields;
  }
}
