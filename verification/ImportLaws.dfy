/**
 Laws of whole imports: applying a blueprint again changes nothing, and what MUST_CREATED protects.
 */
module ImportLaws {
  import opened Common
  import opened Tags
  import opened TagMeaning
  import opened Importer

  // ---------------------------------------------------------------------------
  // Entries identified by natural keys
  // ---------------------------------------------------------------------------

  ghost predicate KeepsPlainData(w: World)
  {
    forall e: Entry, v: Node, db: DB, states: seq<EntryState> :: TagFree(v) ==> w.resolve(e, v, db, states) == Ok(v)
  }

  /** A world that resolves fields with the tag language keeps plain data. */
  lemma TagLanguageKeepsPlainData(w: World, context: map<string, Node>, oracles: DB -> Oracles)
    requires Acyclic(context) && w.resolve == TagLanguage(context, oracles)
    ensures KeepsPlainData(w)
  {
    forall e: Entry, v: Node, db: DB, states: seq<EntryState> | TagFree(v)
      ensures w.resolve(e, v, db, states) == Ok(v)
    {
      TagFreeIsFixed(v, Blueprint(context, states, e.bindsPolicy, oracles(db)), Scopes([]));
    }
  }

  function Ids(e: Entry): Fields { ToFields(e.identifiers) }
  function FullData(e: Entry): Fields { MergeData(ToFields(e.attrs), Ids(e)) }
  function Data(e: Entry): Fields { FullData(e) - {"pk"} }
  function Model(w: World, e: Entry): string { ModelName(w, e.model) }
  function Wanted(e: Entry): Option<Desired> { ToDesired(e.state) }

  /** Free of tags, not MUST_CREATED, identified by scalars other than `pk`. */
  ghost predicate Plain(e: Entry)
  {
    && TagFree(e.model) && TagFree(e.state) && TagFree(e.conditions) && TagFree(e.identifiers) && TagFree(e.attrs)
    && Wanted(e) != Some(MustCreated)
    && "pk" !in Ids(e) && forall f :: f in Ids(e) ==> Ids(e)[f].Leaf?
  }

  /** Entries of one model differ on an identifying field that both have. */
  ghost predicate Independent(w: World, a: Entry, b: Entry)
  {
    Model(w, a) == Model(w, b) ==> exists f :: f in Ids(a) && f in Ids(b) && Ids(a)[f] != Ids(b)[f]
  }

  ghost predicate NaturalKeys(w: World, entries: seq<Entry>)
  {
    && (forall i :: 0 <= i < |entries| ==> Plain(entries[i]))
    && (forall i, j :: 0 <= i < |entries| && 0 <= j < |entries| && i != j ==> Independent(w, entries[i], entries[j]))
  }

  function EntryHits(w: World, db: DB, e: Entry): set<Key> { Hits(w, db, Model(w, e), Ids(e)) }

  /** At most one stored object has the entry's natural key. */
  ghost predicate Unique(w: World, db: DB, e: Entry)
  {
    forall k, l :: k in EntryHits(w, db, e) && l in EntryHits(w, db, e) ==> k == l
  }

  // ---------------------------------------------------------------------------
  // What the loop decides for such an entry
  // ---------------------------------------------------------------------------

  /** The entry is passed over on every database. */
  predicate Inactive(w: World, e: Entry)
  {
    || !e.conditions.List? || !AllTrue(e.conditions.items)
    || !w.modelAllowed(Model(w, e)) || Ids(e) == map[] || !w.fieldsKnown(Model(w, e), Ids(e).Keys)
  }

  function PlainSerializer(w: World, db: DB, e: Entry): Serializer
  {
    var hits := EntryHits(w, db, e);
    Serializer(if hits != {} then Existing(w.first(hits)) else New(Model(w, e), None), FullData(e))
  }

  lemma RenameValueEmpty(v: Node)
    ensures RenameValue(v, map[]) == v
  {
    match v
    case Dict(_, vals) => assert RenameUntil(vals, map[]) == vals;
    case List(items) => assert RenameUntil(items, map[]) == items;
    case _ =>
  }

  lemma RenameFieldsEmpty(fs: Fields)
    ensures RenameFields(fs, map[]) == fs
  {
    hide RenameValue;
    forall f | f in fs ensures RenameValue(fs[f], map[]) == fs[f] { RenameValueEmpty(fs[f]); }
  }

  lemma PlainIdentifiers(e: Entry)
    requires Plain(e)
    ensures Identifiers(e.identifiers, map[]) == Ids(e)
  {
    RenameFieldsEmpty(Ids(e));
    assert UnwrapFields(Ids(e)) == Ids(e);
  }

  lemma PlainValidation(w: World, e: Entry, p: Progress)
    requires KeepsPlainData(w) && Plain(e) && p.pkMap == map[]
    ensures var v := ValidateSingle(w, e, Model(w, e), p);
            && (v.Crashed? || v.Skipped? || v == Invalid(None) || v == Valid(PlainSerializer(w, p.db, e))
                || v == Invalid(Some(PlainSerializer(w, p.db, e))))
            && (v.Skipped? || v == Invalid(None) ==> Inactive(w, e))
            && (v.Valid? || (v.Invalid? && v.partial.Some?) ==> !Inactive(w, e))
  {
    hide TagFree, FieldsOf, MergeData, RenameFields, UnwrapFields, Hits;
    PlainIdentifiers(e);
    RenameFieldsEmpty(ToFields(e.attrs));
  }

  /** The decision for a plain entry depends only on its desired state and on what it hits. */
  lemma PlainDecision(w: World, e: Entry, p: Progress)
    requires KeepsPlainData(w) && Plain(e) && p.pkMap == map[]
    ensures var d, s := Decide(w, e, p), PlainSerializer(w, p.db, e);
            && (d == Pass || d.Keep? || d == Save(s) || d == Delete(s.target)
                || d == Refuse || d == Fail || d == Raise)
            && (d.Pass? ==> Inactive(w, e))
            && (d.Keep? ==> Wanted(e) == Some(Created) && s.target == Existing(d.key))
            && (d.Save? ==> Wanted(e) == Some(Present) || (Wanted(e) == Some(Created) && s.target.New?))
            && (d.Delete? ==> Wanted(e) == Some(Absent))
            && (d.Keep? || d.Save? || d.Delete? ==> !Inactive(w, e))
  {
    hide TagFree, FieldsOf, ValidateSingle, PlainSerializer, Inactive, Dots;
    PlainValidation(w, e, p);
  }

  // ---------------------------------------------------------------------------
  // A step settles its entry and leaves the others alone
  // ---------------------------------------------------------------------------

  /** The database already is as the entry wants it. */
  ghost predicate Settled(w: World, db: DB, e: Entry)
  {
    var hits := EntryHits(w, db, e);
    Inactive(w, e) ||
    match Wanted(e)
    case Some(Absent) => hits == {}
    case Some(Created) => hits != {}
    case Some(Present) => hits != {} && forall k :: k in hits ==> db[k] + Data(e) == db[k]
    case _ => true
  }

  /** Both databases show the entry the same objects. */
  ghost predicate SameView(w: World, db: DB, db': DB, e: Entry)
  {
    EntryHits(w, db, e) == EntryHits(w, db', e) && forall k :: k in EntryHits(w, db, e) ==> db[k] == db'[k]
  }

  lemma DataHasIds(e: Entry)
    requires Plain(e)
    ensures Ids(e).Keys <= Data(e).Keys && forall f :: f in Ids(e) ==> Data(e)[f] == Ids(e)[f]
  {
  }

  /** An object written for `e` carries the natural key of `e`. */
  lemma WrittenMatches(w: World, e: Entry, k: Key, base: Fields)
    requires Plain(e)
    ensures Matches(w, k, base + Data(e), Ids(e))
  {
    DataHasIds(e);
  }

  lemma MatchesOnlyOne(w: World, a: Entry, b: Entry, k: Key, o: Fields)
    requires Plain(a) && Plain(b) && Matches(w, k, o, Ids(a)) && Matches(w, k, o, Ids(b))
    ensures forall f :: f in Ids(a) && f in Ids(b) ==> Ids(a)[f] == Ids(b)[f]
  {
    forall f | f in Ids(a) && f in Ids(b) ensures Ids(a)[f] == Ids(b)[f] {
      assert FieldMatches(w, o, f, Ids(a)[f]) && FieldMatches(w, o, f, Ids(b)[f]);
    }
  }

  /** Changing only an object that `e` matches, before and after, changes nothing for the others. */
  lemma OthersUnaffected(w: World, db: DB, db': DB, k: Key, e: Entry, other: Entry)
    requires Plain(e) && Plain(other) && Independent(w, e, other) && k.model == Model(w, e)
    requires k in db ==> Matches(w, k, db[k], Ids(e))
    requires k in db' ==> Matches(w, k, db'[k], Ids(e))
    requires db - {k} == db' - {k}
    ensures SameView(w, db, db', other)
  {
    hide Matches, TagFree, FieldsOf;
    forall l | l != k ensures l in db <==> l in db'
                      ensures l in db ==> db[l] == db'[l]
    {
      assert l in db <==> l in db - {k};
      assert l in db' <==> l in db' - {k};
    }
    if Model(w, e) == Model(w, other) {
      if k in db && Matches(w, k, db[k], Ids(other)) { MatchesOnlyOne(w, e, other, k, db[k]); }
      if k in db' && Matches(w, k, db'[k], Ids(other)) { MatchesOnlyOne(w, e, other, k, db'[k]); }
    }
    assert k !in EntryHits(w, db, other) && k !in EntryHits(w, db', other);
    assert EntryHits(w, db, other) == EntryHits(w, db', other);
  }

  ghost predicate StepLaw(w: World, e: Entry, db: DB, db': DB)
  {
    && Settled(w, db', e) && Unique(w, db', e)
    && (Settled(w, db, e) ==> db' == db)
    && forall other :: Plain(other) && Independent(w, e, other) ==> SameView(w, db, db', other)
  }

  /** Writing the data of `e` over its only object, or as a new object. */
  lemma WriteLaw(w: World, e: Entry, db: DB, k: Key, base: Fields)
    requires Plain(e) && !Inactive(w, e) && k.model == Model(w, e)
    requires if k in db then EntryHits(w, db, e) == {k} && base == db[k] else EntryHits(w, db, e) == {}
    requires Wanted(e) == Some(Present) || (Wanted(e) == Some(Created) && k !in db)
    ensures StepLaw(w, e, db, db[k := base + Data(e)])
  {
    hide Data, Plain, Independent;
    var db' := db[k := base + Data(e)];
    WrittenMatches(w, e, k, base);
    hide Matches, SubQuery, SameView;
    assert EntryHits(w, db', e) == {k};
    assert db'[k] + Data(e) == db'[k];
    assert db - {k} == db' - {k};
    forall other | Plain(other) && Independent(w, e, other) ensures SameView(w, db, db', other) {
      if k in db { assert k in EntryHits(w, db, e); }
      OthersUnaffected(w, db, db', k, e, other);
    }
    if Settled(w, db, e) { assert db' == db; }
  }

  lemma SaveLaw(w: World, e: Entry, db: DB)
    requires Lawful(w) && Plain(e) && Unique(w, db, e) && !Inactive(w, e)
    requires var s := PlainSerializer(w, db, e);
             Wanted(e) == Some(Present) || (Wanted(e) == Some(Created) && s.target.New?)
    ensures var s := PlainSerializer(w, db, e); var k := KeyOfTarget(w, s.target, db);
            StepLaw(w, e, db, db[k := Stored(w, s, db)])
  {
    hide Plain, Matches, MergeData, StepLaw, Inactive;
    var s := PlainSerializer(w, db, e);
    var k := KeyOfTarget(w, s.target, db);
    var hits := EntryHits(w, db, e);
    assert hits == if k in db then {k} else {};
    WriteLaw(w, e, db, k, if k in db then db[k] else w.defaults(k.model));
  }

  lemma DeleteLaw(w: World, e: Entry, db: DB)
    requires Lawful(w) && Plain(e) && Unique(w, db, e) && Wanted(e) == Some(Absent) && !Inactive(w, e)
    ensures var t := PlainSerializer(w, db, e).target;
            StepLaw(w, e, db, if t.Existing? then db - {t.key} else db)
  {
    hide Matches, Plain, Independent;
    var hits := EntryHits(w, db, e);
    if hits != {} {
      var k := w.first(hits);
      var db' := db - {k};
      assert hits == {k};
      assert EntryHits(w, db', e) == {};
      assert db - {k} == db' - {k};
      forall other | Plain(other) && Independent(w, e, other) ensures SameView(w, db, db', other) {
        OthersUnaffected(w, db, db', k, e, other);
      }
    }
  }

  /** One successful turn of the loop settles its entry, idempotently, and nothing else. */
  lemma TurnLaw(w: World, e: Entry, i: nat, p: Progress, raiseErrors: bool)
    requires Lawful(w) && KeepsPlainData(w) && Plain(e) && p.pkMap == map[] && i < |p.states|
    requires Unique(w, p.db, e) && Step(w, DeciderOf(w), e, i, p, raiseErrors).Running?
    ensures var p' := Step(w, DeciderOf(w), e, i, p, raiseErrors).p; p'.pkMap == map[] && StepLaw(w, e, p.db, p'.db)
  {
    hide TagFree, FieldsOf, Decide, Hits, StepLaw, Stored, FullData, Inactive;
    PlainDecision(w, e, p);
    match Decide(w, e, p)
    case Pass => UnchangedLaw(w, e, p.db);
    case Keep(_) => UnchangedLaw(w, e, p.db);
    case Save(_) => SaveLaw(w, e, p.db);
    case Delete(_) => DeleteLaw(w, e, p.db);
    case _ =>
  }

  lemma UnchangedLaw(w: World, e: Entry, db: DB)
    requires Unique(w, db, e)
    requires Inactive(w, e) || (Wanted(e) == Some(Created) && EntryHits(w, db, e) != {})
    ensures StepLaw(w, e, db, db)
  {
  }

  // ---------------------------------------------------------------------------
  // Applying twice
  // ---------------------------------------------------------------------------

  ghost predicate AllUnique(w: World, db: DB, entries: seq<Entry>)
  {
    forall i :: 0 <= i < |entries| ==> Unique(w, db, entries[i])
  }

  ghost predicate AllSettled(w: World, db: DB, entries: seq<Entry>, n: nat)
    requires n <= |entries|
  {
    forall i :: 0 <= i < n ==> Settled(w, db, entries[i])
  }

  lemma ViewKeepsSettled(w: World, db: DB, db': DB, e: Entry)
    requires SameView(w, db, db', e)
    ensures Settled(w, db, e) <==> Settled(w, db', e)
    ensures Unique(w, db, e) <==> Unique(w, db', e)
  {
    hide EntryHits, Inactive;
  }

  lemma {:induction false} PrefixLaw(w: World, entries: seq<Entry>, n: nat, p: Progress, raiseErrors: bool)
    requires Lawful(w) && KeepsPlainData(w) && NaturalKeys(w, entries) && AllUnique(w, p.db, entries)
    requires n <= |entries| == |p.states| && p.pkMap == map[]
    ensures var r := Prefix(w, DeciderOf(w), entries, n, p, raiseErrors);
            r.Running? ==>
              && r.p.pkMap == map[] && AllUnique(w, r.p.db, entries) && AllSettled(w, r.p.db, entries, n)
              && (AllSettled(w, p.db, entries, |entries|) ==> r.p.db == p.db)
  {
    hide Step, Settled, Unique, SameView, Plain, Independent;
    if n > 0 {
      PrefixLaw(w, entries, n - 1, p, raiseErrors);
      var before := Prefix(w, DeciderOf(w), entries, n - 1, p, raiseErrors);
      var after := Prefix(w, DeciderOf(w), entries, n, p, raiseErrors);
      if after.Running? {
        TurnLaw(w, entries[n - 1], n - 1, before.p, raiseErrors);
        forall i | 0 <= i < |entries| && i != n - 1
          ensures Settled(w, before.p.db, entries[i]) <==> Settled(w, after.p.db, entries[i])
          ensures Unique(w, after.p.db, entries[i])
        {
          ViewKeepsSettled(w, before.p.db, after.p.db, entries[i]);
        }
      }
    }
  }

  /** What a second application of the same blueprint does to the database. */
  lemma SecondApply(w: World, entries: seq<Entry>, db: DB, states: seq<EntryState>, states': seq<EntryState>)
    requires Lawful(w) && KeepsPlainData(w) && NaturalKeys(w, entries) && AllUnique(w, db, entries)
    requires |entries| == |states| == |states'|
    requires ApplyAll(w, entries, db, states, false).Running?
    ensures var once := ApplyAll(w, entries, db, states, false).p.db;
            var twice := ApplyAll(w, entries, once, states', false);
            AllSettled(w, once, entries, |entries|) && (twice.Running? ==> twice.p.db == once)
  {
    hide Step, Settled, Unique;
    PrefixLaw(w, entries, |entries|, Progress(db, states, map[]), false);
    var once := ApplyAll(w, entries, db, states, false).p.db;
    PrefixLaw(w, entries, |entries|, Progress(once, states', map[]), false);
  }

  /** Applying a blueprint again, whatever the second verdict, leaves the database as it was. */
  method ApplyTwice(importer: BlueprintImporter) returns (first: Verdict, second: Verdict, once: DB)
    requires importer.Valid() && Lawful(importer.w) && KeepsPlainData(importer.w)
    requires NaturalKeys(importer.w, importer.entries) && AllUnique(importer.w, importer.db, importer.entries)
    modifies importer
    ensures first == Accepted ==>
              importer.db == once && AllSettled(importer.w, once, importer.entries, |importer.entries|)
    ensures first != Accepted ==> once == old(importer.db)
  {
    hide ApplyAll, NaturalKeys, Lawful, KeepsPlainData, AllUnique, AllSettled;
    ghost var states := importer.states;
    first := importer.Apply();
    once := importer.db;
    if first == Accepted {
      SecondApply(importer.w, importer.entries, old(importer.db), states, importer.states);
    }
    second := importer.Apply();
  }

  // ---------------------------------------------------------------------------
  // MUST_CREATED
  // ---------------------------------------------------------------------------

  /** The objects an entry finds, whatever tags its identifiers hold. */
  function Found(w: World, e: Entry, p: Progress): set<Key>
  {
    var name, ids := ResolveIn(w, e, e.model, p), ResolveIn(w, e, e.identifiers, p);
    if name.Err? || ids.Err? then {} else Hits(w, p.db, ModelName(w, name.value), Identifiers(ids.value, p.pkMap))
  }

  lemma ValidatedTarget(w: World, e: Entry, p: Progress)
    requires ResolveIn(w, e, e.model, p).Ok?
    ensures var v := ValidateSingle(w, e, ModelName(w, ResolveIn(w, e, e.model, p).value), p);
            && (v.Valid? ==> (Found(w, e, p) != {} <==> v.serializer.target.Existing?))
            && (v.Valid? && Found(w, e, p) != {} ==> v.serializer.target == Existing(w.first(Found(w, e, p))))
            && (Found(w, e, p) != {} && Wanted(e) == Some(MustCreated) ==>
                  !v.Valid? && (v.Invalid? ==> v.partial.None?))
  {
    hide FieldsOf, MergeData, RenameFields, UnwrapFields, Matches;
  }

  /**
   The check compares the unresolved state.  So an entry that resolves to MUST_CREATED updates an
   existing object exactly when it validates, finds one, and does not spell the state out.
   */
  lemma MustCreatedUpdatesExactly(w: World, e: Entry, p: Progress)
    requires ResolveIn(w, e, e.state, p).Ok? && ToDesired(ResolveIn(w, e, e.state, p).value) == Some(MustCreated)
    ensures var d, name := Decide(w, e, p), ResolveIn(w, e, e.model, p);
            d.Save? && d.serializer.target.Existing? <==>
              && name.Ok? && Dots(ModelName(w, name.value)) == 1 && w.modelKnown(ModelName(w, name.value))
              && ValidateSingle(w, e, ModelName(w, name.value), p).Valid?
              && Found(w, e, p) != {} && Wanted(e) != Some(MustCreated)
  {
    hide ValidateSingle, Found, Dots;
    if ResolveIn(w, e, e.model, p).Ok? { ValidatedTarget(w, e, p); }
  }

  /** Spelled out, MUST_CREATED never touches an object that is found. */
  lemma MustCreatedLiteral(w: World, e: Entry, p: Progress)
    requires Wanted(e) == Some(MustCreated) && Found(w, e, p) != {}
    ensures var d := Decide(w, e, p); d.Pass? || d.Refuse? || d.Fail? || d.Raise?
  {
    ValidatedTarget(w, e, p);
    hide ValidateSingle, Found, Dots;
  }

  /** An entry of model `a.b` whose state is `!Context state`. */
  const TAGGED: Entry :=
    Entry(None, Leaf(Str("a.b")), Context("state", Leaf(Null)), List([]),
          Dict([Str("slug")], [Leaf(Str("login"))]), Dict([Str("title")], [Leaf(Str("new"))]), false)

  const STORED := Key("a.b", Int(1))

  /** A witness: the blueprint context says `must_created`, and the entry overwrites the existing object. */
  lemma TaggedMustCreatedUpdates(w: World, oracles: DB -> Oracles, states: seq<EntryState>)
    requires Lawful(w) && w.modelKnown("a.b") && w.modelAllowed("a.b")
    requires w.fieldsKnown("a.b", {"slug"})
    requires forall db, k, data :: w.accepts("a.b", db, k, data)
    requires Acyclic(map["state" := Leaf(Str("must_created"))])
    requires w.resolve == TagLanguage(map["state" := Leaf(Str("must_created"))], oracles)
    ensures var stored := map["slug" := Leaf(Str("login")), "title" := Leaf(Str("old"))];
            var p := Progress(map[STORED := stored], states, map[]);
            var d := Decide(w, TAGGED, p);
            d.Save? && d.serializer.target == Existing(STORED) && "title" in d.serializer.data &&
            d.serializer.data["title"] == Leaf(Str("new"))
  {
    hide ValidateSingle, Hits, FieldsOf, Dots, TagLanguage, TagFree, Decide, ToDesired;
    var ctx := map["state" := Leaf(Str("must_created"))];
    var stored := map["slug" := Leaf(Str("login")), "title" := Leaf(Str("old"))];
    var p := Progress(map[STORED := stored], states, map[]);
    TagLanguageKeepsPlainData(w, ctx, oracles);
    TaggedResolves(w, ctx, oracles, p);
    TaggedHits(w, p.db);
    TaggedFields();
    TaggedValidation(w, p);
    MustCreatedName();
    PlainModel(w, TAGGED, p);
    ValidatedDecision(w, TAGGED, p, "a.b", MustCreated);
  }

  lemma MustCreatedName()
    ensures ToDesired(Leaf(Str("must_created"))) == Some(MustCreated)
  {
    assert |"must_created"| == 12 && |"absent"| == 6 && |"present"| == 7 && |"created"| == 7;
  }

  lemma PlainModel(w: World, e: Entry, p: Progress)
    requires KeepsPlainData(w) && TagFree(e.model)
    ensures ResolveIn(w, e, e.model, p) == Ok(e.model)
  {
  }

  /** What happens to an entry that validates, whatever tags it holds, by the state it asks for. */
  lemma ValidatedDecision(w: World, e: Entry, p: Progress, model: string, desired: Desired)
    requires ResolveIn(w, e, e.model, p) == Ok(Leaf(Str(model))) && Dots(model) == 1 && w.modelKnown(model)
    requires ResolveIn(w, e, e.state, p).Ok? && ToDesired(ResolveIn(w, e, e.state, p).value) == Some(desired)
    ensures var v, d := ValidateSingle(w, e, model, p), Decide(w, e, p);
            && (v.Valid? ==>
                  d == if desired.Absent? then Delete(v.serializer.target)
                       else if desired.Created? && v.serializer.target.Existing? then Keep(v.serializer.target.key)
                       else Save(v.serializer))
            && (v.Skipped? ==> d == Pass) && (v.Crashed? ==> d == Raise)
            && (v.Invalid? && !desired.Absent? ==> d == Refuse)
            && (v.Invalid? && desired.Absent? ==> d == if v.partial.Some? then Delete(v.partial.value.target) else Pass)
  {
    hide ValidateSingle, Dots;
  }

  lemma TaggedFields()
    ensures ToFields(TAGGED.identifiers) == map["slug" := Leaf(Str("login"))]
    ensures ToFields(TAGGED.attrs) == map["title" := Leaf(Str("new"))]
    ensures Dots("a.b") == 1
    ensures TagFree(TAGGED.model) && TagFree(TAGGED.conditions) && TagFree(TAGGED.identifiers) && TagFree(TAGGED.attrs)
  {
    assert FieldsOf([], []) == map[];
    assert Dots("b") == 0 && Dots(".b") == 1;
  }

  lemma TaggedResolves(w: World, ctx: map<string, Node>, oracles: DB -> Oracles, p: Progress)
    requires Acyclic(ctx) && "state" in ctx && !ctx["state"].IsTag() && w.resolve == TagLanguage(ctx, oracles)
    ensures ResolveIn(w, TAGGED, TAGGED.state, p) == Ok(ctx["state"])
  {
    var bp := Blueprint(ctx, p.states, TAGGED.bindsPolicy, oracles(p.db));
    assert Direct(TAGGED.state, bp, Scopes([])) == Ok(ctx["state"]);
    assert Resolve(TAGGED.state, bp, Scopes([])) == Direct(TAGGED.state, bp, Scopes([]));
  }

  lemma TaggedHits(w: World, db: DB)
    requires db.Keys == {STORED} && "slug" in db[STORED] && db[STORED]["slug"] == Leaf(Str("login"))
    ensures Hits(w, db, "a.b", map["slug" := Leaf(Str("login"))]) == {STORED}
  {
    var ids := map["slug" := Leaf(Str("login"))];
    assert STORED in Hits(w, db, "a.b", ids);
  }

  lemma TaggedData()
    ensures var data := MergeData(map["title" := Leaf(Str("new"))], map["slug" := Leaf(Str("login"))]);
            "title" in data && data["title"] == Leaf(Str("new"))
  {
  }

  lemma PlainRenaming()
    ensures Identifiers(TAGGED.identifiers, map[]) == map["slug" := Leaf(Str("login"))]
    ensures RenameFields(ToFields(TAGGED.attrs), map[]) == map["title" := Leaf(Str("new"))]
  {
    TaggedFields();
  }

  lemma TaggedValidation(w: World, p: Progress)
    requires Lawful(w) && KeepsPlainData(w) && p.pkMap == map[] && w.modelAllowed("a.b")
    requires w.fieldsKnown("a.b", {"slug"}) && forall db, k, data :: w.accepts("a.b", db, k, data)
    requires Hits(w, p.db, "a.b", map["slug" := Leaf(Str("login"))]) == {STORED}
    ensures var v := ValidateSingle(w, TAGGED, "a.b", p);
            v.Valid? && v.serializer.target == Existing(STORED) && "title" in v.serializer.data &&
            v.serializer.data["title"] == Leaf(Str("new"))
  {
    TaggedFields();
    PlainRenaming();
    TaggedData();
    hide Hits, FieldsOf, TagFree, MergeData, RenameFields, UnwrapFields;
    var ids := map["slug" := Leaf(Str("login"))];
    assert ids.Keys == {"slug"};
    assert w.first({STORED}) == STORED;
  }
}
