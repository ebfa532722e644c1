/**
 The blueprint importer (authentik/blueprints/v1/importer.py): what one entry does to the database,
 what a whole run does, and the importer object that runs it inside a transaction.
 */
module Importer {
  import opened Common
  import opened Tags

  type Fields = map<string, Node>
  datatype Key = Key(model: string, pk: Scalar)
  type DB = map<Key, Fields>

  datatype Desired = Absent | Present | Created | MustCreated

  /** One blueprint entry; every field may hold tags. */
  datatype Entry = Entry(
    id: Option<string>, model: Node, state: Node, conditions: Node, identifiers: Node, attrs: Node,
    bindsPolicy: bool)

  /** Resolution of a field of an entry, which reads the database and the other entries' instances. */
  type FieldResolver = (Entry, Node, DB, seq<EntryState>) -> Result<Node>

  /** What the importer reads besides the database: tags, Django, the serializers. */
  datatype World = World(
    resolve: FieldResolver,
    render: Node -> string,
    modelKnown: string -> bool,
    modelAllowed: string -> bool,
    fieldsKnown: (string, set<string>) -> bool,
    contains: (Node, Node) -> bool,
    first: set<Key> -> Key,
    accepts: (string, DB, Option<Key>, Fields) -> bool,
    defaults: string -> Fields,
    freshPk: (DB, string) -> Scalar,
    pbmUuid: Key -> Option<Scalar>)

  ghost predicate Lawful(w: World)
  {
    && (forall s: set<Key> :: s != {} ==> w.first(s) in s)
    && (forall db: DB, m: string :: Key(m, w.freshPk(db, m)) !in db)
  }

  datatype Progress = Progress(db: DB, states: seq<EntryState>, pkMap: map<Node, Scalar>)

  // ---------------------------------------------------------------------------
  // Resolving an entry
  // ---------------------------------------------------------------------------

  /** The tag language as the field resolver of a blueprint with the given context. */
  function TagLanguage(context: map<string, Node>, oracles: DB -> Oracles): FieldResolver
    requires Acyclic(context)
  {
    (e: Entry, v: Node, db: DB, states: seq<EntryState>) =>
      Resolve(v, Blueprint(context, states, e.bindsPolicy, oracles(db)), Scopes([]))
  }

  function ResolveIn(w: World, e: Entry, v: Node, p: Progress): Result<Node>
  {
    w.resolve(e, v, p.db, p.states)
  }

  function FieldsOf(keys: seq<Scalar>, vals: seq<Node>): Fields
  {
    if keys == [] || vals == [] then map[]
    else (if keys[0].Str? then map[keys[0].s := vals[0]] else map[]) + FieldsOf(keys[1..], vals[1..])
  }

  function ToFields(v: Node): Fields { if v.Dict? then FieldsOf(v.keys, v.vals) else map[] }

  function ToDesired(v: Node): Option<Desired>
  {
    if v == Leaf(Str("absent")) then Some(Absent)
    else if v == Leaf(Str("present")) then Some(Present)
    else if v == Leaf(Str("created")) then Some(Created)
    else if v == Leaf(Str("must_created")) then Some(MustCreated)
    else None
  }

  // ---------------------------------------------------------------------------
  // Primary-key rewriting
  // ---------------------------------------------------------------------------

  function Rename(v: Node, pkMap: map<Node, Scalar>): Node { if v in pkMap then Leaf(pkMap[v]) else v }

  predicate Unhashable(v: Node) { v.List? || v.Dict? }

  /** Where the walk over a list stops: at its first unhashable element, which raises TypeError. */
  function Stop(xs: seq<Node>): (n: nat)
    ensures n <= |xs| && forall j :: 0 <= j < n ==> !Unhashable(xs[j])
    ensures n < |xs| ==> Unhashable(xs[n])
  {
    if xs == [] || Unhashable(xs[0]) then 0 else 1 + Stop(xs[1..])
  }

  function RenameUntil(xs: seq<Node>, pkMap: map<Node, Scalar>): seq<Node>
  {
    seq(|xs|, j requires 0 <= j < |xs| => if j < Stop(xs) then Rename(xs[j], pkMap) else xs[j])
  }

  function RenameValue(v: Node, pkMap: map<Node, Scalar>): Node
  {
    match v
    case Dict(keys, vals) => Dict(keys, RenameUntil(vals, pkMap))
    case List(items) => List(RenameUntil(items, pkMap))
    case _ => Rename(v, pkMap)
  }

  function RenameFields(fs: Fields, pkMap: map<Node, Scalar>): Fields
  {
    map f | f in fs :: RenameValue(fs[f], pkMap)
  }

  // ---------------------------------------------------------------------------
  // Finding the object of an entry
  // ---------------------------------------------------------------------------

  /** An identifier that is a mapping with a `pk` stands for that pk. */
  function Unwrap(v: Node): Node
  {
    if !v.Dict? then v else
    var i := IndexOf(v.keys, Str("pk"));
    if i < |v.keys| && i < |v.vals| then v.vals[i] else v
  }

  function UnwrapFields(fs: Fields): Fields { map f | f in fs :: Unwrap(fs[f]) }

  function Field(o: Fields, f: string): Node { if f in o then o[f] else Leaf(Null) }

  predicate FieldMatches(w: World, o: Fields, f: string, v: Node)
  {
    if v.Dict? then w.contains(Field(o, f), v) else Field(o, f) == v
  }

  predicate SubQuery(w: World, o: Fields, ids: Fields)
  {
    forall f :: f in ids && f != "pk" ==> FieldMatches(w, o, f, ids[f])
  }

  /** `__query_from_identifier`: the pk, or all the other identifiers together. */
  predicate Matches(w: World, k: Key, o: Fields, ids: Fields)
  {
    if "pk" !in ids then SubQuery(w, o, ids)
    else Leaf(k.pk) == ids["pk"] || (ids.Keys != {"pk"} && SubQuery(w, o, ids))
  }

  function Hits(w: World, db: DB, model: string, ids: Fields): set<Key>
  {
    set k | k in db && k.model == model && Matches(w, k, db[k], ids)
  }

  // ---------------------------------------------------------------------------
  // One entry
  // ---------------------------------------------------------------------------

  /** The instance handed to the serializer: a stored object, or a new one with an optional pk. */
  datatype Target = Existing(key: Key) | New(model: string, pk: Option<Scalar>)
  datatype Serializer = Serializer(target: Target, data: Fields)

  datatype Validation =
    | Skipped
    | Valid(serializer: Serializer)
    | Invalid(partial: Option<Serializer>)   // EntryInvalidError
    | Crashed                                // any other exception

  function Failure(e: Error): Validation { if e == EntryInvalid then Invalid(None) else Crashed }

  function MergeData(attrs: Fields, ids: Fields): Fields
  {
    map f | f in attrs.Keys + ids.Keys ::
      if f !in ids then attrs[f] else if f !in attrs then ids[f] else MergeValue(attrs[f], ids[f])
  }

  function Identifiers(resolved: Node, pkMap: map<Node, Scalar>): Fields
  {
    UnwrapFields(RenameFields(ToFields(resolved), pkMap))
  }

  /** `_validate_single` from the identifiers on. */
  function ValidateWith(w: World, e: Entry, model: string, ids: Fields, p: Progress): Validation
  {
    if ids == map[] then Invalid(None)
    else if "pk" in ids && !ids["pk"].Leaf? then Crashed
    else if !w.fieldsKnown(model, ids.Keys) then Invalid(None)
    else
      var hits := Hits(w, p.db, model, ids);
      if hits != {} && ToDesired(e.state) == Some(MustCreated) then Invalid(None)
      else
        var target := if hits != {} then Existing(w.first(hits))
                      else New(model, if "pk" in ids then Some(ids["pk"].s) else None);
        match ResolveIn(w, e, e.attrs, p)
        case Err(err) => if err == ValueError then Invalid(None) else Failure(err)
        case Ok(attrs) =>
          if !attrs.Dict? then Crashed
          else
            var s := Serializer(target, MergeData(RenameFields(ToFields(attrs), p.pkMap), ids));
            var instance := if target.Existing? then Some(target.key) else None;
            if w.accepts(model, p.db, instance, s.data) then Valid(s) else Invalid(Some(s))
  }

  /** `_validate_single`. */
  function ValidateSingle(w: World, e: Entry, model: string, p: Progress): Validation
  {
    match ResolveIn(w, e, e.conditions, p)
    case Err(err) => Failure(err)
    case Ok(conditions) =>
      if !conditions.List? then Crashed
      else if !AllTrue(conditions.items) then Skipped
      else if !w.modelAllowed(model) then Invalid(None)
      else match ResolveIn(w, e, e.identifiers, p)
        case Err(err) => Failure(err)
        case Ok(ids) =>
          if !ids.Dict? then Crashed else ValidateWith(w, e, model, Identifiers(ids, p.pkMap), p)
  }

  /** What the loop body decides to do with one entry. */
  datatype Decision =
    | Pass
    | Keep(key: Key)
    | Save(serializer: Serializer)
    | Delete(target: Target)
    | Refuse                     // an EntryInvalidError: reported or raised, as the caller asked
    | Fail                       // `_apply_models` returns False
    | Raise                      // any other exception

  function Reconcile(desired: Desired, s: Serializer): Decision
  {
    if desired.Absent? then Delete(s.target)
    else if desired.Created? && s.target.Existing? then Keep(s.target.key)
    else Save(s)
  }

  function Dots(s: string): nat { if s == "" then 0 else (if s[0] == '.' then 1 else 0) + Dots(s[1..]) }

  function ModelName(w: World, name: Node): string
  {
    if name.Leaf? && name.s.Str? then name.s.s else w.render(name)
  }

  /** The loop body of `_apply_models` up to, and without, its effects. */
  function Decide(w: World, e: Entry, p: Progress): Decision
  {
    match ResolveIn(w, e, e.model, p)
    case Err(_) => Raise
    case Ok(name) =>
      var model := ModelName(w, name);
      if Dots(model) != 1 then Raise
      else if !w.modelKnown(model) then Fail
      else DecideValidated(ValidateSingle(w, e, model, p), ResolveIn(w, e, e.state, p))
  }

  function DecideValidated(validation: Validation, state: Result<Node>): Decision
  {
    if validation.Crashed? then Raise
    else if validation.Skipped? then Pass
    else if state.Err? || ToDesired(state.value).None? then Raise
    else
      var desired := ToDesired(state.value).value;
      match validation
      case Valid(s) => Reconcile(desired, s)
      case Invalid(partial) =>
        if !desired.Absent? then Refuse
        else if partial.Some? then Delete(partial.value.target)
        else Pass
  }

  function KeyOfTarget(w: World, t: Target, db: DB): Key
  {
    match t
    case Existing(k) => k
    case New(model, pk) => Key(model, if pk.Some? then pk.value else w.freshPk(db, model))
  }

  /** `serializer.save()`: an update is partial, a new object starts from the model's defaults. */
  function Stored(w: World, s: Serializer, db: DB): Fields
  {
    var base := if s.target.Existing? && s.target.key in db then db[s.target.key]
                else w.defaults(KeyOfTarget(w, s.target, db).model);
    base + (s.data - {"pk"})
  }

  function RawPk(e: Entry): Option<Node>
  {
    var ids := ToFields(e.identifiers); if "pk" in ids then Some(ids["pk"]) else None
  }

  /** Bookkeeping after an entry has its instance `k`. */
  function Record(w: World, e: Entry, i: nat, k: Key, db: DB, p: Progress): Progress
    requires i < |p.states|
  {
    Progress(db,
             p.states[i := EntryState(e.id, Some(Instance(k.pk, w.pbmUuid(k))))],
             if RawPk(e).Some? then p.pkMap[RawPk(e).value := k.pk] else p.pkMap)
  }

  datatype Run = Running(p: Progress) | Failed(p: Progress) | Raised(p: Progress)

  /** The effects of a decision.  A raw pk that cannot be a dictionary key raises after the save. */
  function Perform(w: World, e: Entry, i: nat, d: Decision, p: Progress, raiseErrors: bool): (r: Run)
    requires i < |p.states|
    ensures |r.p.states| == |p.states|
  {
    match d
    case Pass => Running(p)
    case Refuse => if raiseErrors then Raised(p) else Failed(p)
    case Fail => Failed(p)
    case Raise => Raised(p)
    case Delete(t) => Running(if t.Existing? then p.(db := p.db - {t.key}) else p)
    case Keep(k) => Settle(w, e, i, k, p.db, p)
    case Save(s) =>
      var k := KeyOfTarget(w, s.target, p.db);
      Settle(w, e, i, k, p.db[k := Stored(w, s, p.db)], p)
  }

  function Settle(w: World, e: Entry, i: nat, k: Key, db: DB, p: Progress): (r: Run)
    requires i < |p.states|
    ensures |r.p.states| == |p.states|
  {
    if RawPk(e).Some? && Unhashable(RawPk(e).value) then Raised(p.(db := db))
    else Running(Record(w, e, i, k, db, p))
  }

  /** How the loop body decides; the program decides with `Decide`. */
  type Decider = (Entry, Progress) -> Decision

  function DeciderOf(w: World): Decider { (e: Entry, p: Progress) => Decide(w, e, p) }

  function Step(w: World, decide: Decider, e: Entry, i: nat, p: Progress, raiseErrors: bool): (r: Run)
    requires i < |p.states|
    ensures |r.p.states| == |p.states|
  {
    Perform(w, e, i, decide(e, p), p, raiseErrors)
  }

  /** The first `n` turns of the loop in `_apply_models`. */
  function Prefix(w: World, decide: Decider, entries: seq<Entry>, n: nat, p: Progress, raiseErrors: bool): (r: Run)
    requires n <= |entries| == |p.states|
    ensures |r.p.states| == |p.states|
  {
    if n == 0 then Running(p) else
    var before := Prefix(w, decide, entries, n - 1, p, raiseErrors);
    if before.Running? then Step(w, decide, entries[n - 1], n - 1, before.p, raiseErrors) else before
  }

  /** `_apply_models`, which starts with an empty primary-key map. */
  function ApplyAll(w: World, entries: seq<Entry>, db: DB, states: seq<EntryState>, raiseErrors: bool): (r: Run)
    requires |entries| == |states|
    ensures |r.p.states| == |states|
  {
    Prefix(w, DeciderOf(w), entries, |entries|, Progress(db, states, map[]), raiseErrors)
  }

  /** Asking for errors to be raised changes how a run fails and nothing else. */
  lemma {:induction false} RaisingChangesOnlyFailures(
    w: World, decide: Decider, entries: seq<Entry>, n: nat, p: Progress)
    requires n <= |entries| == |p.states|
    ensures var quiet, loud := Prefix(w, decide, entries, n, p, false), Prefix(w, decide, entries, n, p, true);
            quiet.p == loud.p && (quiet.Running? <==> loud.Running?)
  {
    hide Settle, Stored;
    if n > 0 { RaisingChangesOnlyFailures(w, decide, entries, n - 1, p); }
  }

  // ---------------------------------------------------------------------------
  // The importer object
  // ---------------------------------------------------------------------------

  datatype Verdict = Accepted | Rejected | Exception

  function VerdictOf(r: Run): Verdict
  {
    match r case Running(_) => Accepted case Failed(_) => Rejected case Raised(_) => Exception
  }

  class BlueprintImporter {
    const w: World
    const version: int
    const entries: seq<Entry>
    var db: DB
    var states: seq<EntryState>         // entry._state of each entry
    var pkMap: map<Node, Scalar>        // __pk_map

    ghost predicate Valid() reads this { |states| == |entries| }

    constructor (w: World, version: int, entries: seq<Entry>, db: DB)
      ensures Valid() && this.w == w && this.version == version && this.entries == entries && this.db == db
      ensures forall i :: 0 <= i < |states| ==> states[i].instance.None?
    {
      this.w, this.version, this.entries, this.db := w, version, entries, db;
      states := seq(|entries|, i requires 0 <= i < |entries| => EntryState(entries[i].id, None));
      pkMap := map[];
    }

    /** The loop of `__update_pks_for_attrs` over one list, in place. */
    method RenameInPlace(a: array<Node>)
      modifies a
      ensures a[..] == RenameUntil(old(a[..]), pkMap)
    {
      var i := 0;
      while i < a.Length && !Unhashable(a[i])
        invariant 0 <= i <= a.Length
        invariant forall j :: 0 <= j < i ==> !Unhashable(old(a[j])) && a[j] == Rename(old(a[j]), pkMap)
        invariant forall j :: i <= j < a.Length ==> a[j] == old(a[j])
      {
        a[i] := Rename(a[i], pkMap);
        i := i + 1;
      }
      ghost var was := old(a[..]);
      assert i == Stop(was);
    }

    method RenameList(xs: seq<Node>) returns (r: seq<Node>)
      ensures r == RenameUntil(xs, pkMap)
    {
      var a := new Node[|xs|](i requires 0 <= i < |xs| => xs[i]);
      assert a[..] == xs;
      RenameInPlace(a);
      r := a[..];
    }

    /** `__update_pks_for_attrs`, over the attributes in any order. */
    method UpdatePks(attrs: Fields) returns (r: Fields)
      ensures r == RenameFields(attrs, pkMap)
    {
      hide RenameUntil;
      r := attrs;
      var todo := attrs.Keys;
      while todo != {}
        invariant todo <= attrs.Keys == r.Keys
        invariant forall f :: f in attrs ==> r[f] == if f in todo then attrs[f] else RenameValue(attrs[f], pkMap)
        decreases |todo|
      {
        var f :| f in todo;
        var v := attrs[f];
        if v.Dict? {
          var vals := RenameList(v.vals);
          r := r[f := Dict(v.keys, vals)];
        } else if v.List? {
          var items := RenameList(v.items);
          r := r[f := List(items)];
        } else {
          r := r[f := Rename(v, pkMap)];
        }
        todo := todo - {f};
      }
    }

    /** One turn of the loop. */
    method Turn(i: nat, raiseErrors: bool) returns (verdict: Verdict)
      requires Valid() && i < |entries|
      modifies this
      ensures Valid()
      ensures var r := Step(w, DeciderOf(w), entries[i], i, old(Progress(db, states, pkMap)), raiseErrors);
              verdict == VerdictOf(r) && Progress(db, states, pkMap) == r.p
    {
      var r := Step(w, DeciderOf(w), entries[i], i, Progress(db, states, pkMap), raiseErrors);
      db, states, pkMap := r.p.db, r.p.states, r.p.pkMap;
      verdict := VerdictOf(r);
    }

    method ApplyModels(raiseErrors: bool) returns (verdict: Verdict)
      requires Valid()
      modifies this
      ensures Valid()
      ensures var r := ApplyAll(w, entries, old(db), old(states), raiseErrors);
              verdict == VerdictOf(r) && Progress(db, states, pkMap) == r.p
    {
      hide Step;
      pkMap := map[];
      ghost var start := Progress(db, states, pkMap);
      verdict := Accepted;
      var i := 0;
      while i < |entries| && verdict == Accepted
        invariant 0 <= i <= |entries| && Valid()
        invariant var r := Prefix(w, DeciderOf(w), entries, i, start, raiseErrors);
                  verdict == VerdictOf(r) && Progress(db, states, pkMap) == r.p
      {
        verdict := Turn(i, raiseErrors);
        i := i + 1;
      }
      PrefixStops(w, DeciderOf(w), entries, i, |entries|, start, raiseErrors);
    }

    /** `apply`: the transaction is rolled back unless every entry was applied. */
    method Apply() returns (verdict: Verdict)
      requires Valid()
      modifies this
      ensures Valid()
      ensures var r := ApplyAll(w, entries, old(db), old(states), false);
              verdict == VerdictOf(r) && db == if r.Running? then r.p.db else old(db)
    {
      var saved := db;
      verdict := ApplyModels(false);
      if verdict != Accepted { db := saved; }
    }

    /** `validate`: always rolled back; the blueprint copy is put back on a normal return only. */
    method Validate(raiseErrors: bool) returns (verdict: Verdict)
      requires Valid()
      modifies this
      ensures Valid() && db == old(db)
      ensures verdict != Exception ==> states == old(states)
      ensures version == 1 ==> verdict == VerdictOf(ApplyAll(w, entries, old(db), old(states), raiseErrors))
      ensures version != 1 ==> verdict == Rejected && pkMap == old(pkMap)
    {
      var original := states;
      if version != 1 { return Rejected; }
      var saved := db;
      verdict := ApplyModels(raiseErrors);
      db := saved;
      if verdict != Exception { states := original; }
    }

    /** Validating first never changes what applying does, and a positive verdict is kept. */
    method ValidateThenApply(raiseErrors: bool) returns (validated: Verdict, applied: Verdict)
      requires Valid()
      modifies this
      ensures validated == Accepted ==> applied == Accepted
      ensures validated != Exception ==>
                var alone := ApplyAll(w, entries, old(db), old(states), false);
                applied == VerdictOf(alone) && db == if alone.Running? then alone.p.db else old(db)
      ensures applied != Accepted ==> db == old(db)
    {
      validated := Validate(raiseErrors);
      RaisingChangesOnlyFailures(w, DeciderOf(w), entries, |entries|, Progress(db, old(states), map[]));
      applied := Apply();
    }
  }

  lemma {:induction false} PrefixStops(
    w: World, decide: Decider, entries: seq<Entry>, m: nat, n: nat, p: Progress, raiseErrors: bool)
    requires m <= n <= |entries| == |p.states|
    ensures m == n || !Prefix(w, decide, entries, m, p, raiseErrors).Running? ==>
              Prefix(w, decide, entries, n, p, raiseErrors) == Prefix(w, decide, entries, m, p, raiseErrors)
    decreases n
  {
    hide Step;
    if m < n { PrefixStops(w, decide, entries, m, n - 1, p, raiseErrors); }
  }
}
