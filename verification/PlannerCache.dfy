/**
 The flow planner and its cache (authentik/flows/planner.py, authentik/flows/signals.py).
 */
module PlannerCache {
  import opened Common
  import opened FlowPlans

  /** A FlowStageBinding row; `target` is the primary key of its flow. */
  datatype Row = Row(pk: string, target: string, stage: string, order: int, evaluateOnPlan: bool, reEvaluate: bool)
  type Plan = seq<Entry<Row>>

  /** Policy verdicts, and the order in which the database returns the bindings of a flow. */
  datatype Oracle = Oracle(
    flowPasses: (string, string) -> bool,
    bindingPasses: (Row, string) -> bool,
    sort: set<Row> -> seq<Row>)

  function Without<T(==)>(xs: seq<T>, x: T): seq<T>
  {
    if xs == [] then [] else
    var rest := Without(xs[..|xs| - 1], x);
    if xs[|xs| - 1] == x then rest else rest + [xs[|xs| - 1]]
  }

  /** The rows come back completely, by `order`, and dropping a row does not reorder the rest. */
  ghost predicate Sorts(o: Oracle)
  {
    && (forall rows: set<Row> :: multiset(o.sort(rows)) == multiset(rows))
    && (forall rows: set<Row>, i, j :: 0 <= i < j < |o.sort(rows)| ==> o.sort(rows)[i].order <= o.sort(rows)[j].order)
    && (forall rows: set<Row>, r: Row :: SortsWithout(o, rows, r))
  }

  ghost predicate SortsWithout(o: Oracle, rows: set<Row>, r: Row)
  {
    r in rows ==> o.sort(rows - {r}) == Without(o.sort(rows), r)
  }

  // ---------------------------------------------------------------------------
  // Cache keys
  // ---------------------------------------------------------------------------

  const CACHE_PREFIX := "goauthentik.io/flows/planner/"
  const UUID_LENGTH := 36

  /** `cache_key` on rendered primary keys. */
  function CacheKey(flow: string, user: Option<string>): string
  {
    CACHE_PREFIX + flow + (if user.Some? then "#" + user.value else "")
  }

  /** A key belongs to a flow exactly when it starts with the flow's prefix: UUIDs are equally long. */
  lemma PrefixIsFlow(flow: string, other: string, user: Option<string>)
    requires |flow| == |other|
    ensures CacheKey(flow, None) <= CacheKey(other, user) <==> flow == other
  {
    var key := CacheKey(other, user);
    var n := |CACHE_PREFIX|;
    assert key[n..n + |other|] == other;
    assert CacheKey(flow, None)[n..n + |flow|] == flow;
    if CacheKey(flow, None) <= key {
      assert CacheKey(flow, None) == key[..n + |flow|];
      assert key[..n + |flow|][n..] == key[n..n + |flow|];
    }
    if flow == other { assert key[..n + |flow|] == CacheKey(flow, None); }
  }

  lemma KeysAreDistinct(flow: string, other: string, user: Option<string>, user': Option<string>)
    requires |flow| == |other| && CacheKey(flow, user) == CacheKey(other, user')
    ensures flow == other && user == user'
  {
    var n := |CACHE_PREFIX| + |flow|;
    assert CacheKey(flow, None) == CacheKey(flow, user)[..n];
    PrefixIsFlow(flow, other, user');
    assert CacheKey(flow, user)[n..] == CacheKey(other, user')[n..];
    assert CacheKey(flow, user)[n..] == if user.Some? then "#" + user.value else "";
    assert CacheKey(other, user')[n..] == if user'.Some? then "#" + user'.value else "";
    if user.Some? && user'.Some? {
      assert ("#" + user.value)[1..] == user.value && ("#" + user'.value)[1..] == user'.value;
    }
  }

  // ---------------------------------------------------------------------------
  // Building a plan
  // ---------------------------------------------------------------------------

  predicate Planned(o: Oracle, row: Row, user: string) { !row.evaluateOnPlan || o.bindingPasses(row, user) }

  function EntryFor(row: Row): Entry<Row>
  {
    Entry(row, if row.reEvaluate then ReevaluateMarker(row) else StageMarker)
  }

  function Built(o: Oracle, rows: seq<Row>, user: string): Plan
  {
    if rows == [] then []
    else
      var plan, last := Built(o, rows[..|rows| - 1], user), rows[|rows| - 1];
      if Planned(o, last, user) then plan + [EntryFor(last)] else plan
  }

  function RowsOf(rows: map<string, Row>, flow: string): set<Row>
  {
    set pk | pk in rows && rows[pk].target == flow :: rows[pk]
  }

  function Fresh(o: Oracle, rows: map<string, Row>, flow: string, user: string): Plan
  {
    Built(o, o.sort(RowsOf(rows, flow)), user)
  }

  /** `e` shows `row`: its policies are asked again when its marker says so. */
  ghost predicate Shows(e: Entry<Row>, row: Row)
  {
    && e.binding == row && (row.reEvaluate ==> e.marker == ReevaluateMarker(row))
    && (!row.reEvaluate ==> e.marker == StageMarker)
  }

  /** The plan shows, in order, the rows at the indices `ks`: exactly those whose policies, if evaluated now, pass. */
  ghost predicate Selects(o: Oracle, rows: seq<Row>, user: string, plan: Plan, ks: seq<nat>)
  {
    && |ks| == |plan| && (forall i, j :: 0 <= i < j < |ks| ==> ks[i] < ks[j])
    && (forall i :: 0 <= i < |ks| ==>
          ks[i] < |rows| && Shows(plan[i], rows[ks[i]])
          && (rows[ks[i]].evaluateOnPlan ==> o.bindingPasses(rows[ks[i]], user)))
    && (forall k :: 0 <= k < |rows| && (rows[k].evaluateOnPlan ==> o.bindingPasses(rows[k], user)) ==> k in ks)
  }

  lemma SelectsOneMore(o: Oracle, rows: seq<Row>, row: Row, user: string, plan: Plan, ks: seq<nat>)
    requires Selects(o, rows, user, plan, ks)
    ensures if Planned(o, row, user) then Selects(o, rows + [row], user, plan + [EntryFor(row)], ks + [|rows|])
            else Selects(o, rows + [row], user, plan, ks)
  {
    hide Shows;
    assert Shows(EntryFor(row), row) by { EntryShows(row); }
    var more := rows + [row];
    forall k | 0 <= k < |rows| ensures more[k] == rows[k] { }
  }

  lemma EntryShows(row: Row)
    ensures Shows(EntryFor(row), row)
  {
  }

  lemma {:induction false} BuiltExactly(o: Oracle, rows: seq<Row>, user: string) returns (ks: seq<nat>)
    ensures Selects(o, rows, user, Built(o, rows, user), ks)
  {
    if rows == [] {
      ks := [];
    } else {
      hide Selects;
      var init, last := rows[..|rows| - 1], rows[|rows| - 1];
      ks := BuiltExactly(o, init, user);
      SelectsOneMore(o, init, last, user, Built(o, init, user), ks);
      assert rows == init + [last];
      ks := if Planned(o, last, user) then ks + [|init|] else ks;
    }
  }

  /**
   A fresh plan has one entry for each binding of the flow whose policies, if evaluated now, pass, and no
   other, by `order`, with the marker its binding asks for.
   */
  lemma FreshExactly(o: Oracle, rows: map<string, Row>, flow: string, user: string)
    requires Sorts(o) && Keyed(rows)
    ensures var plan := Fresh(o, rows, flow, user);
            && (forall i :: 0 <= i < |plan| ==> Shows(plan[i], plan[i].binding))
            && (forall i, j :: 0 <= i < j < |plan| ==>
                  plan[i].binding != plan[j].binding && plan[i].binding.order <= plan[j].binding.order)
            && forall row :: (exists e :: e in plan && e.binding == row) <==>
                             && row.pk in rows && rows[row.pk] == row && row.target == flow
                             && (row.evaluateOnPlan ==> o.bindingPasses(row, user))
  {
    var sorted, plan := o.sort(RowsOf(rows, flow)), Fresh(o, rows, flow, user);
    var ks := BuiltExactly(o, sorted, user);
    SortedOnce(o, RowsOf(rows, flow));
    SelectedOrder(o, sorted, user, plan, ks);
    forall row
      ensures (exists e :: e in plan && e.binding == row) <==>
              && row.pk in rows && rows[row.pk] == row && row.target == flow
              && (row.evaluateOnPlan ==> o.bindingPasses(row, user))
    {
      SelectedRows(o, sorted, user, plan, ks, row);
      assert row in RowsOf(rows, flow) <==> row.pk in rows && rows[row.pk] == row && row.target == flow;
      hide RowsOf, Sorts, Selects, Fresh;
    }
    hide RowsOf, Sorts, Selects, Fresh;
  }

  lemma SelectedRows(o: Oracle, rows: seq<Row>, user: string, plan: Plan, ks: seq<nat>, row: Row)
    requires Selects(o, rows, user, plan, ks)
    ensures (exists e :: e in plan && e.binding == row) <==>
            row in rows && (row.evaluateOnPlan ==> o.bindingPasses(row, user))
  {
    if row in rows && (row.evaluateOnPlan ==> o.bindingPasses(row, user)) {
      var k: nat :| k < |rows| && rows[k] == row;
      var i :| 0 <= i < |ks| && ks[i] == k;
      assert plan[i] in plan && plan[i].binding == row;
    }
    if e :| e in plan && e.binding == row {
      var i :| 0 <= i < |plan| && plan[i] == e;
      assert rows[ks[i]] in rows;
    }
  }

  lemma SelectedOrder(o: Oracle, rows: seq<Row>, user: string, plan: Plan, ks: seq<nat>)
    requires Selects(o, rows, user, plan, ks)
    requires forall i, j :: 0 <= i < j < |rows| ==> rows[i] != rows[j] && rows[i].order <= rows[j].order
    ensures forall i :: 0 <= i < |plan| ==> Shows(plan[i], plan[i].binding)
    ensures forall i, j :: 0 <= i < j < |plan| ==>
              plan[i].binding != plan[j].binding && plan[i].binding.order <= plan[j].binding.order
  {
    forall i | 0 <= i < |plan| ensures plan[i].binding == rows[ks[i]] { assert Shows(plan[i], rows[ks[i]]); }
  }

  ghost predicate Keyed(rows: map<string, Row>) { forall pk :: pk in rows ==> rows[pk].pk == pk }

  lemma SortedOnce(o: Oracle, rows: set<Row>)
    requires Sorts(o)
    ensures var sorted := o.sort(rows);
            && (forall row :: row in sorted <==> row in rows)
            && forall i, j :: 0 <= i < j < |sorted| ==> sorted[i] != sorted[j] && sorted[i].order <= sorted[j].order
  {
    var sorted := o.sort(rows);
    assert multiset(sorted) == multiset(rows);
    forall row ensures row in sorted <==> row in rows { assert row in multiset(sorted) <==> row in multiset(rows); }
    forall i, j | 0 <= i < j < |sorted| ensures sorted[i] != sorted[j] {
      assert sorted == sorted[..j] + [sorted[j]] + sorted[j + 1..];
      assert multiset(sorted)[sorted[j]] <= 1;
      assert sorted[i] in sorted[..j];
    }
  }

  // ---------------------------------------------------------------------------
  // Planning and invalidation as steps
  // ---------------------------------------------------------------------------

  datatype State = State(rows: map<string, Row>, configures: map<string, bool>, cache: map<string, Plan>)

  datatype Request = Request(flow: string, user: string, useCache: bool, allowEmpty: bool)

  datatype Outcome = NonApplicable | EmptyFlow | Taken(plan: Plan)

  predicate Hit(s: State, r: Request)
  {
    CacheKey(r.flow, Some(r.user)) in s.cache && r.useCache && !(r.flow in s.configures && s.configures[r.flow])
  }

  /** `FlowPlanner.plan`: the outcome and the new cache. */
  function PlanStep(o: Oracle, s: State, r: Request): (Outcome, State)
  {
    var key := CacheKey(r.flow, Some(r.user));
    if !o.flowPasses(r.flow, r.user) then (NonApplicable, s)
    else if Hit(s, r) then (Taken(s.cache[key]), s)
    else
      var plan := Fresh(o, s.rows, r.flow, r.user);
      (if plan == [] && !r.allowEmpty then EmptyFlow else Taken(plan),
       if r.useCache then s.(cache := s.cache[key := plan]) else s)
  }

  /** The planner without a cache. */
  function Rebuild(o: Oracle, s: State, r: Request): Outcome
  {
    PlanStep(o, s.(cache := map[]), r).0
  }

  function Invalidate(cache: map<string, Plan>, flow: string): map<string, Plan>
  {
    map key | key in cache && !(CacheKey(flow, None) <= key) :: cache[key]
  }

  function InvalidateAll(cache: map<string, Plan>, flows: set<string>): map<string, Plan>
  {
    map key | key in cache && forall f :: f in flows ==> !(CacheKey(f, None) <= key) :: cache[key]
  }

  function FlowsWithStage(rows: map<string, Row>, stage: string): set<string>
  {
    set pk | pk in rows && rows[pk].stage == stage :: rows[pk].target
  }

  datatype Step =
    | PlanFlow(r: Request)
    | SaveFlow(flow: string, configures: bool)
    | DeleteFlow(flow: string)
    | SaveBinding(row: Row)
    | DeleteBinding(pk: string)
    | SaveStage(stage: string)
    | DeleteStage(stage: string)
    | Expire(keys: set<string>)

  function Next(o: Oracle, s: State, step: Step): State
  {
    match step
    case PlanFlow(r) => PlanStep(o, s, r).1
    case SaveFlow(flow, configures) =>
      s.(configures := s.configures[flow := configures], cache := Invalidate(s.cache, flow))
    case DeleteFlow(flow) =>
      State(map pk | pk in s.rows && s.rows[pk].target != flow :: s.rows[pk],
            s.configures - {flow}, Invalidate(s.cache, flow))
    case SaveBinding(row) => s.(rows := s.rows[row.pk := row], cache := Invalidate(s.cache, row.target))
    case DeleteBinding(pk) =>
      if pk !in s.rows then s
      else s.(rows := s.rows - {pk}, cache := Invalidate(s.cache, s.rows[pk].target))
    case SaveStage(stage) => s.(cache := InvalidateAll(s.cache, FlowsWithStage(s.rows, stage)))
    case DeleteStage(stage) =>
      s.(rows := map pk | pk in s.rows && s.rows[pk].stage != stage :: s.rows[pk],
         cache := InvalidateAll(s.cache, FlowsWithStage(s.rows, stage)))
    case Expire(keys) => s.(cache := s.cache - keys)
  }

  /** Flows have UUIDs as primary keys, and a save does not move a binding to another flow. */
  predicate Proper(s: State, step: Step)
  {
    match step
    case PlanFlow(r) => |r.flow| == UUID_LENGTH
    case SaveBinding(row) =>
      |row.target| == UUID_LENGTH && (row.pk in s.rows ==> s.rows[row.pk].target == row.target)
    case _ => true
  }

  function Run(o: Oracle, s: State, steps: seq<Step>): State
  {
    if steps == [] then s else Next(o, Run(o, s, steps[..|steps| - 1]), steps[|steps| - 1])
  }

  predicate ProperRun(o: Oracle, s: State, steps: seq<Step>)
  {
    steps == [] ||
    (ProperRun(o, s, steps[..|steps| - 1]) && Proper(Run(o, s, steps[..|steps| - 1]), steps[|steps| - 1]))
  }

  // ---------------------------------------------------------------------------
  // What a step does
  // ---------------------------------------------------------------------------

  /** No binding of the flow has policies that let the user in. */
  ghost predicate NothingToShow(o: Oracle, rows: map<string, Row>, flow: string, user: string)
  {
    forall pk :: pk in rows && rows[pk].target == flow ==> rows[pk].evaluateOnPlan && !o.bindingPasses(rows[pk], user)
  }

  /** The flow configures something and is never answered from the cache. */
  predicate Configuring(s: State, flow: string) { flow in s.configures && s.configures[flow] }

  /**
   The answer of the planner.  A denied flow does not apply.  A cached plan is served as it is, unless
   the caller or the flow forbids it; otherwise the plan is built, stored if the cache is used, and
   refused only if it is empty and may not be.
   */
  lemma PlanExactly(o: Oracle, s: State, r: Request)
    requires Sorts(o) && Keyed(s.rows)
    ensures var (out, s') := PlanStep(o, s, r);
            var key, built := CacheKey(r.flow, Some(r.user)), Fresh(o, s.rows, r.flow, r.user);
            var served := r.useCache && !Configuring(s, r.flow) && key in s.cache;
            && (out == NonApplicable <==> !o.flowPasses(r.flow, r.user))
            && (o.flowPasses(r.flow, r.user) && served ==> out == Taken(s.cache[key]))
            && (o.flowPasses(r.flow, r.user) && !served ==>
                  out == if NothingToShow(o, s.rows, r.flow, r.user) && !r.allowEmpty then EmptyFlow else Taken(built))
            && s' == if o.flowPasses(r.flow, r.user) && !served && r.useCache
                     then s.(cache := s.cache[key := built]) else s
  {
    var built := Fresh(o, s.rows, r.flow, r.user);
    FreshExactly(o, s.rows, r.flow, r.user);
    hide Fresh, CacheKey, Sorts;
    if built != [] {
      assert built[0] in built && built[0].binding.pk in s.rows;
    } else {
      forall pk | pk in s.rows && s.rows[pk].target == r.flow
        ensures s.rows[pk].evaluateOnPlan && !o.bindingPasses(s.rows[pk], r.user)
      {
        assert s.rows[pk].pk == pk;
      }
    }
  }

  function RowUnder(rows: map<string, Row>, pk: string): Option<Row> { if pk in rows then Some(rows[pk]) else None }

  /** Saving a binding puts its row; deleting takes the rows of the flow, the binding or the stage. */
  lemma RowsAfter(o: Oracle, s: State, step: Step, pk: string)
    ensures var was := RowUnder(s.rows, pk);
            RowUnder(Next(o, s, step).rows, pk) ==
            match step
            case SaveBinding(row) => if pk == row.pk then Some(row) else was
            case DeleteFlow(flow) => if was.Some? && was.value.target == flow then None else was
            case DeleteBinding(gone) => if pk == gone then None else was
            case DeleteStage(stage) => if was.Some? && was.value.stage == stage then None else was
            case _ => was
  {
    hide Fresh;
  }

  /** Only saving and deleting a flow changes what it configures. */
  lemma ConfiguresAfter(o: Oracle, s: State, step: Step, flow: string)
    ensures Configuring(Next(o, s, step), flow) <==>
            match step
            case SaveFlow(f, configures) => if f == flow then configures else Configuring(s, flow)
            case DeleteFlow(f) => f != flow && Configuring(s, flow)
            case _ => Configuring(s, flow)
  {
    hide Fresh;
  }

  /** The flows whose cached plans a step forgets. */
  ghost predicate Forgets(s: State, step: Step, flow: string)
  {
    match step
    case SaveFlow(f, _) => f == flow
    case DeleteFlow(f) => f == flow
    case SaveBinding(row) => row.target == flow
    case DeleteBinding(pk) => pk in s.rows && s.rows[pk].target == flow
    case SaveStage(stage) => exists pk :: pk in s.rows && s.rows[pk].stage == stage && s.rows[pk].target == flow
    case DeleteStage(stage) => exists pk :: pk in s.rows && s.rows[pk].stage == stage && s.rows[pk].target == flow
    case _ => false
  }

  /** A step names flows by primary keys, which are equally long. */
  predicate Addressed(step: Step)
  {
    match step
    case SaveFlow(flow, _) => |flow| == UUID_LENGTH
    case DeleteFlow(flow) => |flow| == UUID_LENGTH
    case SaveBinding(row) => |row.target| == UUID_LENGTH
    case _ => true
  }

  /** A step other than planning and expiry forgets the plans of the flows it concerns, and keeps all others. */
  lemma CacheAfter(o: Oracle, s: State, step: Step, flow: string, user: string)
    requires Tidy(s.rows) && Addressed(step) && |flow| == UUID_LENGTH && !step.PlanFlow? && !step.Expire?
    ensures var key, cache := CacheKey(flow, Some(user)), Next(o, s, step).cache;
            && (key in cache <==> key in s.cache && !Forgets(s, step, flow))
            && (key in cache ==> cache[key] == s.cache[key])
  {
    hide CacheKey, Fresh;
    forall f: string | |f| == UUID_LENGTH ensures CacheKey(f, None) <= CacheKey(flow, Some(user)) <==> f == flow {
      PrefixIsFlow(f, flow, Some(user));
    }
  }

  // ---------------------------------------------------------------------------
  // The cache refines rebuilding
  // ---------------------------------------------------------------------------

  /** The plan cached for a flow and user, if any, is what a fresh build would give now. */
  ghost predicate UpToDate(o: Oracle, s: State, flow: string, user: string)
  {
    CacheKey(flow, Some(user)) in s.cache && |flow| == UUID_LENGTH ==>
      s.cache[CacheKey(flow, Some(user))] == Fresh(o, s.rows, flow, user)
  }

  ghost predicate Tidy(rows: map<string, Row>)
  {
    forall pk :: pk in rows ==> rows[pk].pk == pk && |rows[pk].target| == UUID_LENGTH
  }

  /** Every cached plan is up to date. */
  ghost predicate Coherent(o: Oracle, s: State)
  {
    Tidy(s.rows) && forall flow: string, user: string :: UpToDate(o, s, flow, user)
  }

  lemma PlanKeepsCoherent(o: Oracle, s: State, r: Request)
    requires Coherent(o, s) && |r.flow| == UUID_LENGTH
    ensures Coherent(o, PlanStep(o, s, r).1)
  {
    hide Fresh, CacheKey;
    var s' := PlanStep(o, s, r).1;
    forall f: string, u: string ensures UpToDate(o, s', f, u) {
      assert UpToDate(o, s, f, u);
      if |f| == UUID_LENGTH && CacheKey(f, Some(u)) == CacheKey(r.flow, Some(r.user)) {
        KeysAreDistinct(f, r.flow, Some(u), Some(r.user));
      }
    }
  }

  /** Changing rows of `flows` only, and forgetting those flows' plans, keeps the cache coherent. */
  lemma EditKeepsCoherent(o: Oracle, s: State, s': State, flows: set<string>)
    requires Coherent(o, s)
    requires Tidy(s'.rows)
    requires forall f :: |f| == UUID_LENGTH && f !in flows ==> SameFor(s.rows, s'.rows, f)
    requires forall key :: key in s'.cache ==> key in s.cache && s'.cache[key] == s.cache[key]
    requires forall key, f :: key in s'.cache && f in flows && |f| == UUID_LENGTH ==> !(CacheKey(f, None) <= key)
    ensures Coherent(o, s')
  {
    hide CacheKey, RowsOf, Built;
    forall f: string, u: string ensures UpToDate(o, s', f, u) {
      assert UpToDate(o, s, f, u);
      if CacheKey(f, Some(u)) in s'.cache && |f| == UUID_LENGTH {
        PrefixIsFlow(f, f, Some(u));
        assert f !in flows;
        SameRows(s.rows, s'.rows, f);
      }
    }
  }

  lemma StepKeepsCoherent(o: Oracle, s: State, step: Step)
    requires Coherent(o, s) && Proper(s, step)
    ensures Coherent(o, Next(o, s, step))
  {
    hide CacheKey, Fresh, UpToDate;
    var s' := Next(o, s, step);
    match step
    case PlanFlow(r) => PlanKeepsCoherent(o, s, r);
    case SaveFlow(flow, _) => EditKeepsCoherent(o, s, s', {flow});
    case DeleteFlow(flow) => EditKeepsCoherent(o, s, s', {flow});
    case SaveBinding(_) => BindingKeepsCoherent(o, s, step);
    case DeleteBinding(_) => BindingKeepsCoherent(o, s, step);
    case SaveStage(stage) => StageKeepsCoherent(o, s, stage);
    case DeleteStage(stage) => StageKeepsCoherent(o, s, stage);
    case Expire(_) => EditKeepsCoherent(o, s, s', {});
  }

  lemma BindingKeepsCoherent(o: Oracle, s: State, step: Step)
    requires Coherent(o, s) && Proper(s, step) && (step.SaveBinding? || step.DeleteBinding?)
    ensures Coherent(o, Next(o, s, step))
  {
    hide CacheKey, Fresh, UpToDate;
    match step
    case SaveBinding(row) => EditKeepsCoherent(o, s, Next(o, s, step), {row.target});
    case DeleteBinding(pk) => if pk in s.rows { EditKeepsCoherent(o, s, Next(o, s, step), {s.rows[pk].target}); }
  }

  lemma StageKeepsCoherent(o: Oracle, s: State, stage: string)
    requires Coherent(o, s)
    ensures Coherent(o, Next(o, s, SaveStage(stage))) && Coherent(o, Next(o, s, DeleteStage(stage)))
  {
    hide CacheKey, Fresh, UpToDate;
    EditKeepsCoherent(o, s, Next(o, s, SaveStage(stage)), FlowsWithStage(s.rows, stage));
    EditKeepsCoherent(o, s, Next(o, s, DeleteStage(stage)), FlowsWithStage(s.rows, stage));
  }

  ghost predicate SameFor(rows: map<string, Row>, rows': map<string, Row>, f: string)
  {
    forall pk :: (pk in rows && rows[pk].target == f) || (pk in rows' && rows'[pk].target == f) ==>
                   pk in rows && pk in rows' && rows[pk] == rows'[pk]
  }

  lemma SameRows(rows: map<string, Row>, rows': map<string, Row>, f: string)
    requires SameFor(rows, rows', f)
    ensures RowsOf(rows, f) == RowsOf(rows', f)
  {
    forall r | r in RowsOf(rows, f) ensures r in RowsOf(rows', f) {
      var pk :| pk in rows && rows[pk].target == f && rows[pk] == r;
    }
    forall r | r in RowsOf(rows', f) ensures r in RowsOf(rows, f) {
      var pk :| pk in rows' && rows'[pk].target == f && rows'[pk] == r;
    }
  }

  lemma {:induction false} RunKeepsCoherent(o: Oracle, s: State, steps: seq<Step>)
    requires Coherent(o, s) && ProperRun(o, s, steps)
    ensures Coherent(o, Run(o, s, steps))
  {
    if steps != [] {
      hide Coherent, Next, Proper;
      RunKeepsCoherent(o, s, steps[..|steps| - 1]);
      StepKeepsCoherent(o, Run(o, s, steps[..|steps| - 1]), steps[|steps| - 1]);
    }
  }

  /**
   After any run, a cached planner answers as a planner without a cache, with one exception: a hit
   on an empty plan is returned, where rebuilding would raise EmptyFlowException.
   */
  lemma CacheRefinesRebuilding(o: Oracle, s: State, steps: seq<Step>, r: Request)
    requires Coherent(o, s) && ProperRun(o, s, steps) && |r.flow| == UUID_LENGTH
    ensures var now := Run(o, s, steps); var outcome := PlanStep(o, now, r).0;
            && (outcome.Taken? ==> outcome.plan == Fresh(o, now.rows, r.flow, r.user))
            && (outcome == Rebuild(o, now, r) <==>
                !(Hit(now, r) && o.flowPasses(r.flow, r.user) && !r.allowEmpty
                  && Fresh(o, now.rows, r.flow, r.user) == []))
  {
    hide Fresh, CacheKey, Next, Proper;
    RunKeepsCoherent(o, s, steps);
    assert UpToDate(o, Run(o, s, steps), r.flow, r.user);
    hide Run, ProperRun;
  }

  /** The second request for an empty flow succeeds where the first one raised. */
  lemma EmptyPlanIsServed(o: Oracle, s: State, r: Request)
    requires Coherent(o, s) && |r.flow| == UUID_LENGTH
    requires PlanStep(o, s, r).0 == EmptyFlow && r.useCache && !(r.flow in s.configures && s.configures[r.flow])
    ensures PlanStep(o, PlanStep(o, s, r).1, r).0 == Taken([])
  {
    hide Fresh, CacheKey;
  }

  // ---------------------------------------------------------------------------
  // The two ways to a stale plan
  // ---------------------------------------------------------------------------

  lemma {:induction false} BuiltWithout(o: Oracle, rows: seq<Row>, row: Row, user: string)
    ensures Built(o, Without(rows, row), user) == Without(Built(o, rows, user), EntryFor(row))
  {
    if rows != [] {
      var init, last := rows[..|rows| - 1], rows[|rows| - 1];
      BuiltWithout(o, init, row, user);
      var kept, plan := Without(init, row), Built(o, init, user);
      assert (kept + [last])[..|kept|] == kept;
      assert (plan + [EntryFor(last)])[..|plan|] == plan;
    }
  }

  lemma {:induction false} WithoutFixed<T>(xs: seq<T>, x: T)
    ensures Without(xs, x) == xs <==> x !in xs
    ensures x !in Without(xs, x) && |Without(xs, x)| <= |xs|
  {
    if xs != [] {
      var init, last := xs[..|xs| - 1], xs[|xs| - 1];
      WithoutFixed(init, x);
      assert xs == init + [last];
    }
  }

  /** Dropping a row changes a fresh plan exactly when the plan contained it. */
  lemma FreshWithout(o: Oracle, rows: map<string, Row>, pk: string, user: string)
    requires Sorts(o) && pk in rows && forall k :: k in rows ==> rows[k].pk == k
    ensures var row := rows[pk];
            Fresh(o, rows - {pk}, row.target, user) == Fresh(o, rows, row.target, user) <==>
            EntryFor(row) !in Fresh(o, rows, row.target, user)
  {
    var row := rows[pk];
    assert RowsOf(rows - {pk}, row.target) == RowsOf(rows, row.target) - {row} by {
      forall r | r in RowsOf(rows, row.target) && r != row ensures r in RowsOf(rows - {pk}, row.target) {
        var k :| k in rows && rows[k].target == row.target && rows[k] == r;
        assert k in rows - {pk};
      }
    }
    assert SortsWithout(o, RowsOf(rows, row.target), row);
    BuiltWithout(o, o.sort(RowsOf(rows, row.target)), row, user);
    WithoutFixed(Fresh(o, rows, row.target, user), EntryFor(row));
  }

  /** Some cached plan of the flow that the binding leaves still contains the binding. */
  ghost predicate LeavesStale(s: State, row: Row)
  {
    row.pk in s.rows && s.rows[row.pk].target != row.target && exists u :: Shown(s, s.rows[row.pk], u)
  }

  ghost predicate Shown(s: State, row: Row, user: string)
  {
    CacheKey(row.target, Some(user)) in s.cache && EntryFor(row) in s.cache[CacheKey(row.target, Some(user))]
  }

  /** Moving a binding to another flow breaks the cache exactly when the old flow's cached plans show it. */
  lemma MovingABinding(o: Oracle, s: State, row: Row)
    requires Sorts(o) && Coherent(o, s) && |row.target| == UUID_LENGTH
    ensures Coherent(o, Next(o, s, SaveBinding(row))) <==> !LeavesStale(s, row)
  {
    if row.pk !in s.rows || s.rows[row.pk].target == row.target {
      StepKeepsCoherent(o, s, SaveBinding(row));
    } else {
      hide LeavesStale, Coherent, Next;
      if LeavesStale(s, row) { MoveBreaks(o, s, row); } else { MoveKeeps(o, s, row); }
    }
  }

  lemma MoveBreaks(o: Oracle, s: State, row: Row)
    requires Sorts(o) && Coherent(o, s) && |row.target| == UUID_LENGTH && LeavesStale(s, row)
    ensures !Coherent(o, Next(o, s, SaveBinding(row)))
  {
    hide CacheKey, Fresh, Sorts, EntryFor;
    var was := s.rows[row.pk].target;
    var u :| Shown(s, s.rows[row.pk], u);
    PrefixIsFlow(row.target, was, Some(u));
    MovedEntry(o, s, row, was, u);
    assert !UpToDate(o, Next(o, s, SaveBinding(row)), was, u);
  }

  lemma MoveKeeps(o: Oracle, s: State, row: Row)
    requires Sorts(o) && Coherent(o, s) && |row.target| == UUID_LENGTH
    requires row.pk in s.rows && s.rows[row.pk].target != row.target && !LeavesStale(s, row)
    ensures Coherent(o, Next(o, s, SaveBinding(row)))
  {
    hide UpToDate, Sorts, Shown;
    forall f: string, u: string ensures UpToDate(o, Next(o, s, SaveBinding(row)), f, u) {
      MovedUpToDate(o, s, row, f, u);
    }
  }

  lemma MovedUpToDate(o: Oracle, s: State, row: Row, f: string, u: string)
    requires Sorts(o) && Coherent(o, s) && |row.target| == UUID_LENGTH
    requires row.pk in s.rows && s.rows[row.pk].target != row.target && !Shown(s, s.rows[row.pk], u)
    ensures UpToDate(o, Next(o, s, SaveBinding(row)), f, u)
  {
    hide Coherent, CacheKey, Fresh, Sorts, EntryFor, Next;
    if CacheKey(f, Some(u)) in Next(o, s, SaveBinding(row)).cache && |f| == UUID_LENGTH { MovedEntry(o, s, row, f, u); }
  }

  /** A witness: one binding is planned for one user, then moved to another flow. */
  lemma MovedAfterPlanning(o: Oracle, flow: string, other: string, user: string)
    requires Sorts(o) && o.flowPasses(flow, user) && |flow| == |other| == UUID_LENGTH && flow != other
    ensures var row := Row("b", flow, "s", 0, false, true);
            var planned := PlanStep(o, State(map["b" := row], map[], map[]), Request(flow, user, true, false)).1;
            Coherent(o, planned) && !Coherent(o, Next(o, planned, SaveBinding(row.(target := other))))
  {
    var row, r := Row("b", flow, "s", 0, false, true), Request(flow, user, true, false);
    var start := State(map["b" := row], map[], map[]);
    assert Coherent(o, start);
    PlanKeepsCoherent(o, start, r);
    var planned := PlanStep(o, start, r).1;
    DoomedIsShown(o, start.rows, "b", user);
    assert Shown(planned, row, user);
    MovingABinding(o, planned, row.(target := other));
  }

  /** What the move does to one cached plan. */
  lemma MovedEntry(o: Oracle, s: State, row: Row, f: string, u: string)
    requires Sorts(o) && Coherent(o, s) && |row.target| == |f| == UUID_LENGTH
    requires row.pk in s.rows && s.rows[row.pk].target != row.target
    requires CacheKey(f, Some(u)) in Next(o, s, SaveBinding(row)).cache
    ensures var s', key := Next(o, s, SaveBinding(row)), CacheKey(f, Some(u));
            && key in s.cache && s'.cache[key] == s.cache[key]
            && (s'.cache[key] == Fresh(o, s'.rows, f, u) <==>
                !(f == s.rows[row.pk].target && EntryFor(s.rows[row.pk]) in s.cache[key]))
  {
    hide CacheKey, Fresh, Sorts, EntryFor;
    PrefixIsFlow(row.target, f, Some(u));
    assert UpToDate(o, s, f, u);
    MovedFresh(o, s, row, f, u);
  }

  lemma MovedFresh(o: Oracle, s: State, row: Row, f: string, u: string)
    requires Sorts(o) && Coherent(o, s) && row.pk in s.rows && s.rows[row.pk].target != row.target && f != row.target
    ensures var s' := Next(o, s, SaveBinding(row)); var was := s.rows[row.pk].target;
            && (f != was ==> Fresh(o, s'.rows, f, u) == Fresh(o, s.rows, f, u))
            && (f == was ==> (Fresh(o, s'.rows, f, u) == Fresh(o, s.rows, f, u) <==>
                              EntryFor(s.rows[row.pk]) !in Fresh(o, s.rows, f, u)))
  {
    hide Sorts, EntryFor, Built, CacheKey;
    if f != s.rows[row.pk].target {
      SameRows(s.rows, Next(o, s, SaveBinding(row)).rows, f);
    } else {
      SameRows(Next(o, s, SaveBinding(row)).rows, s.rows - {row.pk}, f);
      FreshWithout(o, s.rows, row.pk, u);
    }
  }

  /** The caller plans after the deletion signal of `pk` and before the row is gone. */
  function PlannedMeanwhile(o: Oracle, s: State, pk: string, r: Request): State
  {
    var planned := PlanStep(o, s.(cache := Invalidate(s.cache, r.flow)), r).1;
    planned.(rows := planned.rows - {pk})
  }

  /**
   The signal for a deletion fires before the row is gone.  A plan that is built in between breaks the
   cache exactly when it is stored and contains the doomed binding.
   */
  lemma PlanDuringDelete(o: Oracle, s: State, pk: string, r: Request)
    requires Sorts(o) && Coherent(o, s) && pk in s.rows && r.flow == s.rows[pk].target
    ensures Coherent(o, PlannedMeanwhile(o, s, pk, r)) <==>
            !(o.flowPasses(r.flow, r.user) && r.useCache && Planned(o, s.rows[pk], r.user))
  {
    var deleted := Next(o, s, DeleteBinding(pk));
    StepKeepsCoherent(o, s, DeleteBinding(pk));
    var key := CacheKey(r.flow, Some(r.user));
    PrefixIsFlow(r.flow, r.flow, Some(r.user));
    var end := PlannedMeanwhile(o, s, pk, r);
    if o.flowPasses(r.flow, r.user) && r.useCache {
      DoomedIsShown(o, s.rows, pk, r.user);
      hide Sorts, Built, CacheKey, EntryFor;
      FreshWithout(o, s.rows, pk, r.user);
      assert end == deleted.(cache := deleted.cache[key := Fresh(o, s.rows, r.flow, r.user)]);
      StoredMeanwhile(o, deleted, r.flow, r.user, Fresh(o, s.rows, r.flow, r.user));
    } else {
      assert end == deleted;
    }
  }

  /** Storing one plan keeps the cache coherent exactly when it is a fresh one. */
  lemma StoredMeanwhile(o: Oracle, s: State, flow: string, user: string, plan: seq<Entry<Row>>)
    requires Coherent(o, s) && |flow| == UUID_LENGTH
    ensures Coherent(o, s.(cache := s.cache[CacheKey(flow, Some(user)) := plan])) <==>
            plan == Fresh(o, s.rows, flow, user)
  {
    hide Fresh, CacheKey;
    var s' := s.(cache := s.cache[CacheKey(flow, Some(user)) := plan]);
    if plan == Fresh(o, s.rows, flow, user) {
      forall f: string, u: string ensures UpToDate(o, s', f, u) {
        assert UpToDate(o, s, f, u);
        if |f| == UUID_LENGTH && CacheKey(f, Some(u)) == CacheKey(flow, Some(user)) {
          KeysAreDistinct(f, flow, Some(u), Some(user));
        }
      }
    } else {
      assert !UpToDate(o, s', flow, user);
    }
  }

  lemma DoomedIsShown(o: Oracle, rows: map<string, Row>, pk: string, user: string)
    requires Sorts(o) && pk in rows
    ensures EntryFor(rows[pk]) in Fresh(o, rows, rows[pk].target, user) <==> Planned(o, rows[pk], user)
  {
    var row, sorted := rows[pk], o.sort(RowsOf(rows, rows[pk].target));
    assert row in RowsOf(rows, row.target);
    assert row in multiset(sorted);
    if Planned(o, row, user) { BuiltContains(o, sorted, row, user); } else { BuiltOmits(o, sorted, row, user); }
  }

  lemma {:induction false} BuiltOmits(o: Oracle, rows: seq<Row>, row: Row, user: string)
    requires !Planned(o, row, user)
    ensures EntryFor(row) !in Built(o, rows, user)
  {
    if rows != [] { BuiltOmits(o, rows[..|rows| - 1], row, user); }
  }

  lemma {:induction false} BuiltContains(o: Oracle, rows: seq<Row>, row: Row, user: string)
    requires row in rows && Planned(o, row, user)
    ensures EntryFor(row) in Built(o, rows, user)
  {
    if row != rows[|rows| - 1] {
      assert rows == rows[..|rows| - 1] + [rows[|rows| - 1]];
      BuiltContains(o, rows[..|rows| - 1], row, user);
    }
  }

  // ---------------------------------------------------------------------------
  // The planner and the signal handlers as the program runs them
  // ---------------------------------------------------------------------------

  class Server {
    const o: Oracle
    var s: State

    constructor (o: Oracle, rows: map<string, Row>, configures: map<string, bool>)
      ensures this.o == o && s == State(rows, configures, map[])
    {
      this.o, s := o, State(rows, configures, map[]);
    }

    /** `_build_plan`: the loop over the flow's bindings, appending to a plan object. */
    method BuildPlan(flow: string, user: string) returns (plan: FlowPlan<Row>)
      ensures fresh(plan) && plan.Valid() && plan.Plan() == Fresh(o, s.rows, flow, user)
    {
      plan := new FlowPlan<Row>();
      var bindings := o.sort(RowsOf(s.rows, flow));
      var i := 0;
      while i < |bindings|
        invariant 0 <= i <= |bindings|
        invariant fresh(plan) && plan.Valid() && plan.Plan() == Built(o, bindings[..i], user)
      {
        var binding, keep, marker := bindings[i], true, StageMarker;
        if binding.evaluateOnPlan { keep := o.bindingPasses(binding, user); }
        if binding.reEvaluate && keep { marker := ReevaluateMarker(binding); }
        assert bindings[..i + 1][..i] == bindings[..i];
        if keep { plan.Append(binding, Some(marker)); }
        i := i + 1;
      }
      assert bindings[..i] == bindings;
    }

    method Plan(r: Request) returns (outcome: Outcome)
      modifies this
      ensures (outcome, s) == PlanStep(o, old(s), r)
    {
      if !o.flowPasses(r.flow, r.user) { return NonApplicable; }
      var key := CacheKey(r.flow, Some(r.user));
      if !(r.flow in s.configures && s.configures[r.flow]) {
        if key in s.cache && r.useCache { return Taken(s.cache[key]); }
      }
      var built := BuildPlan(r.flow, r.user);
      var plan := Snapshot(built);
      if r.useCache { s := s.(cache := s.cache[key := plan]); }
      if built.bindings == [] && !r.allowEmpty { return EmptyFlow; }
      return Taken(plan);
    }

    /** The plan object as the cache stores it. */
    method Snapshot(plan: FlowPlan<Row>) returns (p: seq<Entry<Row>>)
      requires plan.Valid()
      ensures p == plan.Plan()
    {
      p := seq(|plan.bindings|, i requires 0 <= i < |plan.bindings| && plan.Valid() reads plan =>
             Entry(plan.bindings[i], plan.markers[i]));
    }

    method DeleteCachePrefix(flow: string) returns (total: nat)
      modifies this
      ensures s == old(s).(cache := Invalidate(old(s).cache, flow))
      ensures total == |old(s).cache| - |s.cache|
    {
      var keys := set key | key in s.cache && CacheKey(flow, None) <= key;
      ghost var was := s.cache;
      s := s.(cache := s.cache - keys);
      assert s.cache == Invalidate(was, flow);
      assert s.cache.Keys == was.Keys - keys && keys <= was.Keys;
      total := |keys|;
    }

    /** The handler for a Stage: one deletion per binding that uses it. */
    method InvalidateStage(stage: string)
      modifies this
      ensures s == old(s).(cache := InvalidateAll(old(s).cache, FlowsWithStage(old(s).rows, stage)))
    {
      hide InvalidateAll, Invalidate;
      var todo := set pk | pk in s.rows && s.rows[pk].stage == stage;
      ghost var flows: set<string> := {};
      InvalidateNone(s.cache);
      while todo != {}
        invariant s == old(s).(cache := InvalidateAll(old(s).cache, flows))
        invariant todo <= s.rows.Keys && forall pk :: pk in todo ==> s.rows[pk].stage == stage
        invariant flows <= FlowsWithStage(s.rows, stage)
        invariant forall pk :: pk in s.rows && s.rows[pk].stage == stage ==> pk in todo || s.rows[pk].target in flows
        decreases |todo|
      {
        var pk :| pk in todo;
        ghost var flow := s.rows[pk].target;
        var _ := DeleteCachePrefix(s.rows[pk].target);
        InvalidateOneMore(old(s).cache, flows, flow);
        todo, flows := todo - {pk}, flows + {flow};
      }
      assert flows == FlowsWithStage(s.rows, stage);
    }
  }

  lemma InvalidateNone(cache: map<string, seq<Entry<Row>>>)
    ensures InvalidateAll(cache, {}) == cache
  {
  }

  lemma InvalidateOneMore(cache: map<string, seq<Entry<Row>>>, flows: set<string>, flow: string)
    ensures Invalidate(InvalidateAll(cache, flows), flow) == InvalidateAll(cache, flows + {flow})
  {
  }
}
