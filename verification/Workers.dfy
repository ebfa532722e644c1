/**
 Worker ids of the gunicorn arbiter (lifecycle/gunicorn.conf.py): ids are reused once during a
 reload, when every worker exists twice.
 */
module Workers {
  import opened Common

  /** The set `set(range(1, n + 1))`. */
  function Range(n: nat): (r: set<int>)
    ensures |r| == n && forall i :: i in r <==> 1 <= i <= n
  {
    if n == 0 then {} else Range(n - 1) + {n}
  }

  /** The arbiter: ids open for reuse, the current worker count, and the ids of the live workers. */
  datatype Arbiter = Arbiter(overload: set<int>, current: nat, live: map<nat, int>)

  ghost function Holders(a: Arbiter, id: int): set<nat> { set pid | pid in a.live && a.live[pid] == id }

  function InUse(a: Arbiter): set<int> { set pid | pid in a.live :: a.live[pid] }

  datatype Event =
    | Resize(workers: nat)          // nworkers_changed
    | Reload(workers: nat)          // on_reload, with cfg.workers
    | Fork(pid: nat, id: int)       // pre_fork gave the new worker this id
    | Exit(pid: nat)

  /** The ids `_next_worker_id` may return; an empty set is a KeyError. */
  function Candidates(a: Arbiter): set<int>
  {
    if a.overload != {} then a.overload else Range(a.current) - InUse(a)
  }

  predicate Enabled(a: Arbiter, e: Event)
  {
    match e
    case Fork(pid, id) => pid !in a.live && id in Candidates(a)
    case Exit(pid) => pid in a.live
    case _ => true
  }

  function Next(a: Arbiter, e: Event): Arbiter
  {
    match e
    case Resize(n) => a.(current := n)
    case Reload(n) => a.(overload := Range(n))
    case Fork(pid, id) => a.(overload := a.overload - {id}, live := a.live[pid := id])
    case Exit(pid) => a.(live := a.live - {pid})
  }

  const STARTING := Arbiter({}, 0, map[])

  function Run(a: Arbiter, events: seq<Event>): Arbiter
  {
    if events == [] then a else Next(Run(a, events[..|events| - 1]), events[|events| - 1])
  }

  predicate Possible(a: Arbiter, events: seq<Event>)
  {
    events == [] ||
    (Possible(a, events[..|events| - 1]) && Enabled(Run(a, events[..|events| - 1]), events[|events| - 1]))
  }

  // ---------------------------------------------------------------------------
  // At most two holders
  // ---------------------------------------------------------------------------

  ghost function Claims(a: Arbiter, id: int): nat { |Holders(a, id)| + (if id in a.overload then 1 else 0) }

  /** No id is held twice and still open for reuse. */
  ghost predicate Bounded(a: Arbiter) { forall id :: Claims(a, id) <= 2 }

  ghost predicate Settled(a: Arbiter, n: nat) { forall id :: 1 <= id <= n ==> |Holders(a, id)| <= 1 }

  lemma ForkClaims(a: Arbiter, pid: nat, id: int, other: int)
    requires Enabled(a, Fork(pid, id))
    ensures Claims(Next(a, Fork(pid, id)), other) ==
            if other == id && a.overload == {} then 1 else Claims(a, other)
  {
    var b := Next(a, Fork(pid, id));
    if other == id {
      assert Holders(b, id) == Holders(a, id) + {pid};
      if a.overload == {} {
        FreshId(a, pid, id);
      }
    } else {
      assert Holders(b, other) == Holders(a, other);
    }
  }

  lemma ExitClaims(a: Arbiter, pid: nat, other: int)
    requires pid in a.live
    ensures Claims(Next(a, Exit(pid)), other) <= Claims(a, other)
  {
    var b := Next(a, Exit(pid));
    assert Holders(b, other) == Holders(a, other) - {pid};
  }

  /** A reload keeps the bound exactly when no id it reopens has two live holders. */
  lemma ReloadExactly(a: Arbiter, n: nat)
    requires Bounded(a)
    ensures Bounded(Next(a, Reload(n))) <==> Settled(a, n)
  {
    var b := Next(a, Reload(n));
    forall id ensures Holders(b, id) == Holders(a, id) { }
    forall id ensures Claims(b, id) == |Holders(a, id)| + (if 1 <= id <= n then 1 else 0)
              ensures |Holders(a, id)| <= 2
    {
      assert Claims(a, id) <= 2;
    }
  }

  /** A witness: a second reload while both generations of worker 1 live opens its id a third time. */
  lemma ReloadTooSoon()
    ensures var events := [Resize(1), Fork(10, 1), Reload(1), Fork(11, 1), Reload(1)];
            Possible(STARTING, events) && Claims(Run(STARTING, events), 1) == 3
  {
    hide Run, Possible;
    assert Run(STARTING, []) == STARTING && Possible(STARTING, []) by { NothingYet(STARTING); }
    var a1 := OneMore(STARTING, [], Resize(1));
    assert Range(1) == {1} && InUse(a1) == {};
    var e1 := [] + [Resize(1)];
    var a2 := OneMore(STARTING, e1, Fork(10, 1));
    var a3 := OneMore(STARTING, e1 + [Fork(10, 1)], Reload(1));
    var a4 := OneMore(STARTING, e1 + [Fork(10, 1)] + [Reload(1)], Fork(11, 1));
    var a5 := OneMore(STARTING, e1 + [Fork(10, 1)] + [Reload(1)] + [Fork(11, 1)], Reload(1));
    assert e1 + [Fork(10, 1)] + [Reload(1)] + [Fork(11, 1)] + [Reload(1)]
        == [Resize(1), Fork(10, 1), Reload(1), Fork(11, 1), Reload(1)];
    assert Holders(a5, 1) == {10, 11};
  }

  lemma NothingYet(a: Arbiter)
    ensures Run(a, []) == a && Possible(a, [])
  {
  }

  lemma OneMore(a: Arbiter, events: seq<Event>, e: Event) returns (b: Arbiter)
    requires Possible(a, events) && Enabled(Run(a, events), e)
    ensures b == Next(Run(a, events), e) == Run(a, events + [e]) && Possible(a, events + [e])
  {
    assert (events + [e])[..|events|] == events;
    b := Next(Run(a, events), e);
  }

  /** Reloads start only when every id has at most one live holder. */
  ghost predicate Calm(a: Arbiter, events: seq<Event>)
  {
    events == [] ||
    (Calm(a, events[..|events| - 1]) &&
     (events[|events| - 1].Reload? ==> Settled(Run(a, events[..|events| - 1]), events[|events| - 1].workers)))
  }

  lemma {:induction false} RunIsBounded(a: Arbiter, events: seq<Event>)
    requires Bounded(a) && Possible(a, events) && Calm(a, events)
    ensures Bounded(Run(a, events))
  {
    if events != [] {
      var init, last := events[..|events| - 1], events[|events| - 1];
      RunIsBounded(a, init);
      EventIsBounded(Run(a, init), last);
    }
  }

  lemma EventIsBounded(a: Arbiter, e: Event)
    requires Bounded(a) && Enabled(a, e) && (e.Reload? ==> Settled(a, e.workers))
    ensures Bounded(Next(a, e))
  {
    hide Claims;
    match e
    case Resize(n) => forall id ensures Claims(Next(a, e), id) == Claims(a, id) { SameClaims(a, Next(a, e), id); }
    case Reload(n) => ReloadExactly(a, n);
    case Fork(pid, id) => forall other ensures Claims(Next(a, e), other) <= 2 { ForkClaims(a, pid, id, other); }
    case Exit(pid) => forall other ensures Claims(Next(a, e), other) <= 2 { ExitClaims(a, pid, other); }
  }

  lemma SameClaims(a: Arbiter, b: Arbiter, id: int)
    requires a.live == b.live && a.overload == b.overload
    ensures Claims(a, id) == Claims(b, id)
  {
    assert Holders(a, id) == Holders(b, id);
  }

  // ---------------------------------------------------------------------------
  // Outside a reload
  // ---------------------------------------------------------------------------

  lemma {:induction false} ImageIsSmaller(a: Arbiter)
    ensures |InUse(a)| <= |a.live|
    decreases |a.live|
  {
    if a.live == map[] {
      assert InUse(a) == {};
    } else {
      var p :| p in a.live;
      var b := a.(live := a.live - {p});
      assert b.live.Keys == a.live.Keys - {p};
      ImageIsSmaller(b);
      assert InUse(a) == InUse(b) + {a.live[p]} by {
        forall q | q in a.live && q != p ensures a.live[q] in InUse(b) { assert q in b.live && b.live[q] == a.live[q]; }
        forall id | id in InUse(b) ensures id in InUse(a) {
          var q :| q in b.live && b.live[q] == id;
          assert q in a.live;
        }
      }
    }
  }

  lemma NonEmpty(s: set<int>)
    requires s != {}
    ensures exists id :: id in s
  {
    assert (forall id :: id !in s) ==> s == {};
  }

  /** With nothing open for reuse, a fork gets an id in range that no live worker holds. */
  lemma FreshId(a: Arbiter, pid: nat, id: int)
    requires a.overload == {} && Enabled(a, Fork(pid, id))
    ensures 1 <= id <= a.current && Holders(a, id) == {}
  {
    forall p | p in a.live ensures a.live[p] in InUse(a) { }
    assert Holders(a, id) == {};
  }

  /** While fewer workers live than there should be, the arbiter never runs out of ids. */
  lemma AnIdExists(a: Arbiter)
    requires a.overload != {} || |a.live| < a.current
    ensures Candidates(a) != {}
  {
    if a.overload == {} {
      ImageIsSmaller(a);
      if Candidates(a) == {} { SubsetSize(Range(a.current), InUse(a)); }
    }
  }

  // ---------------------------------------------------------------------------
  // After a reload
  // ---------------------------------------------------------------------------

  /** The ids handed out, in order. */
  function Issued(events: seq<Event>): seq<int>
  {
    if events == [] then [] else
    var init, last := Issued(events[..|events| - 1]), events[|events| - 1];
    if last.Fork? then init + [last.id] else init
  }

  ghost predicate Unique(xs: seq<int>) { forall i, j :: 0 <= i < j < |xs| ==> xs[i] != xs[j] }

  function Ids(xs: seq<int>): set<int> { set x | x in xs }

  ghost predicate NoReload(events: seq<Event>) { forall e :: e in events ==> !e.Reload? }

  /** While ids are open for reuse, each is issued at most once, and what is left is what was not issued. */
  lemma {:induction false} ReuseOnce(a: Arbiter, events: seq<Event>)
    requires Possible(a, events) && NoReload(events) && |Issued(events)| <= |a.overload|
    ensures Unique(Issued(events)) && Ids(Issued(events)) <= a.overload
    ensures Run(a, events).overload == a.overload - Ids(Issued(events))
    ensures |Ids(Issued(events))| == |Issued(events)|
  {
    if events != [] {
      var init, last := events[..|events| - 1], events[|events| - 1];
      assert last in events;
      ReuseOnce(a, init);
      var ids := Issued(init);
      if last.Fork? {
        hide Possible;
        assert Issued(events) == ids + [last.id];
        assert |a.overload - Ids(ids)| == |a.overload| - |ids|;
        assert Run(a, init).overload != {};
        assert Ids(Issued(events)) == Ids(ids) + {last.id};
      }
    } else {
      assert Ids([]) == {};
    }
  }

  /**
   The `n` forks that follow a reload with `n` workers get each of the ids 1 to `n` exactly once,
   whatever exits and resizes happen in between.
   */
  lemma ReloadReissuesAll(a: Arbiter, n: nat, events: seq<Event>)
    requires Possible(Next(a, Reload(n)), events) && NoReload(events) && |Issued(events)| == n
    ensures Unique(Issued(events)) && Ids(Issued(events)) == Range(n)
    ensures Run(Next(a, Reload(n)), events).overload == {}
  {
    ReuseOnce(Next(a, Reload(n)), events);
    var ids := Ids(Issued(events));
    assert |Range(n) - ids| == |Range(n)| - |ids|;
  }

  /** The hooks as they change the arbiter object. */
  class Server {
    var state: Arbiter

    constructor ()
      ensures state == STARTING
    {
      state := STARTING;
    }

    /** Resizing moves no claim; with nothing to reuse and too few workers, a fork finds an id. */
    method NworkersChanged(n: nat)
      modifies this
      ensures state == Next(old(state), Resize(n)) && (old(Bounded(state)) ==> Bounded(state))
      ensures |state.live| < n ==> Candidates(state) != {}
    {
      if Bounded(state) { EventIsBounded(state, Resize(n)); }
      state := state.(current := n);
      if |state.live| < n { AnIdExists(state); }
    }

    /** Reloading offers every id again, and keeps the bound exactly when none of them is held twice. */
    method OnReload(workers: nat)
      modifies this
      ensures state == Next(old(state), Reload(workers)) && (workers > 0 ==> Candidates(state) == Range(workers))
      ensures old(Bounded(state)) ==> (Bounded(state) <==> old(Settled(state, workers)))
    {
      if Bounded(state) { ReloadExactly(state, workers); }
      state := state.(overload := Range(workers));
      assert workers > 0 ==> 1 in Range(workers);
    }

    /** `_next_worker_id`, then the fork itself; None is the KeyError of an empty pool. */
    method PreFork(pid: nat) returns (id: Option<int>)
      requires pid !in state.live
      modifies this
      ensures id.None? ==> Candidates(state) == {} && state == old(state)
      ensures id.Some? ==> Enabled(old(state), Fork(pid, id.value)) && state == Next(old(state), Fork(pid, id.value))
      ensures old(state.overload != {} || |state.live| < state.current) ==> id.Some?
    {
      if state.overload != {} || |state.live| < state.current { AnIdExists(state); }
      if Candidates(state) == {} { return None; }
      NonEmpty(Candidates(state));
      if state.overload != {} {
        var next :| next in state.overload;
        state := state.(overload := state.overload - {next});
        id := Some(next);
      } else {
        var free := Range(state.current) - InUse(state);
        var next :| next in free;
        assert state.overload - {next} == state.overload;
        id := Some(next);
      }
      state := state.(live := state.live[pid := id.value]);
    }
  }
}
