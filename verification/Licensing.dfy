/**
 Licence status over time (authentik/enterprise/license.py, authentik/enterprise/models.py,
 authentik/core/tasks.py).  Times are seconds since the epoch.
 */
module Licensing {
  const HOUR := 3600
  const DAY := 24 * HOUR
  const WEEK := 7 * DAY
  const THRESHOLD_WARNING_ADMIN := 2 * WEEK
  const THRESHOLD_WARNING_USER := 4 * WEEK
  const THRESHOLD_WARNING_EXPIRY := 2 * WEEK
  const THRESHOLD_READ_ONLY := 6 * WEEK
  const USAGE_RETENTION := 90 * DAY
  const RECORD_INTERVAL := 8 * HOUR

  datatype Status = Unlicensed | Valid | Expired | ExpirySoon | LimitExceededAdmin | LimitExceededUser | ReadOnly

  datatype License = License(expiry: int, internalUsers: nat, externalUsers: nat)
  datatype Usage = Usage(recordDate: int, expires: int, status: Status)

  /** The licences and the current user counts. */
  datatype Install = Install(licenses: seq<License>, internalUsers: nat, externalUsers: nat)

  datatype Total = Total(exp: int, internalUsers: nat, externalUsers: nat)

  // ---------------------------------------------------------------------------
  // Totals
  // ---------------------------------------------------------------------------

  function InternalSum(ls: seq<License>, now: int): nat
  {
    if ls == [] then 0
    else InternalSum(ls[..|ls| - 1], now) + (if ls[|ls| - 1].expiry >= now then ls[|ls| - 1].internalUsers else 0)
  }

  function ExternalSum(ls: seq<License>, now: int): nat
  {
    if ls == [] then 0
    else ExternalSum(ls[..|ls| - 1], now) + (if ls[|ls| - 1].expiry >= now then ls[|ls| - 1].externalUsers else 0)
  }

  /** The latest expiry; zero stands for "not set yet". */
  function LatestExpiry(ls: seq<License>): int
  {
    if ls == [] then 0 else
    var exp, e := LatestExpiry(ls[..|ls| - 1]), ls[|ls| - 1].expiry;
    var exp' := if exp == 0 then e else exp;
    if exp' < e then e else exp'
  }

  function TotalOf(ls: seq<License>, now: int): Total
  {
    Total(LatestExpiry(ls), InternalSum(ls, now), ExternalSum(ls, now))
  }

  /** `LicenseKey.get_total`. */
  method GetTotal(ls: seq<License>, now: int) returns (total: Total)
    ensures total == TotalOf(ls, now)
  {
    total := Total(0, 0, 0);
    var i := 0;
    while i < |ls|
      invariant 0 <= i <= |ls| && total == TotalOf(ls[..i], now)
    {
      var lic := ls[i];
      assert ls[..i + 1][..i] == ls[..i];
      if lic.expiry >= now {
        total := total.(internalUsers := total.internalUsers + lic.internalUsers,
                        externalUsers := total.externalUsers + lic.externalUsers);
      }
      if total.exp == 0 { total := total.(exp := lic.expiry); }
      if total.exp < lic.expiry { total := total.(exp := lic.expiry); }
      i := i + 1;
    }
    assert ls[..i] == ls;
  }

  /** Licences expire after the epoch, so the total expiry is the maximum. */
  ghost predicate Dated(ls: seq<License>) { forall l :: l in ls ==> l.expiry > 0 }

  lemma LatestStep(ls: seq<License>)
    requires ls != [] && ls[|ls| - 1].expiry > 0
    ensures var before, last := LatestExpiry(ls[..|ls| - 1]), ls[|ls| - 1].expiry;
            LatestExpiry(ls) == if before < last then last else before
  {
  }

  lemma {:induction false} LatestIsMaximum(ls: seq<License>)
    requires Dated(ls)
    ensures LatestExpiry(ls) >= 0 && (LatestExpiry(ls) == 0 <==> ls == [])
    ensures forall l :: l in ls ==> l.expiry <= LatestExpiry(ls)
    ensures ls != [] ==> exists l :: l in ls && l.expiry == LatestExpiry(ls)
  {
    if ls != [] {
      var init, last := ls[..|ls| - 1], ls[|ls| - 1];
      assert last in ls;
      LatestIsMaximum(init);
      LatestStep(ls);
      hide LatestExpiry, Dated;
      forall l | l in ls ensures l == last || l in init { assert ls == init + [last]; }
      if LatestExpiry(ls) != last.expiry {
        var l :| l in init && l.expiry == LatestExpiry(init);
        assert l in ls;
      }
    }
  }

  /** A licence counts until it expires, and allowances add up. */
  lemma {:induction false} SumsAddUp(a: seq<License>, b: seq<License>, now: int)
    ensures InternalSum(a + b, now) == InternalSum(a, now) + InternalSum(b, now)
    ensures ExternalSum(a + b, now) == ExternalSum(a, now) + ExternalSum(b, now)
    ensures forall l: License :: InternalSum([l], now) == (if now <= l.expiry then l.internalUsers else 0)
                              && ExternalSum([l], now) == (if now <= l.expiry then l.externalUsers else 0)
  {
    if b == [] {
      assert a + b == a;
    } else {
      SumsAddUp(a, b[..|b| - 1], now);
      assert (a + b)[..|a + b| - 1] == a + b[..|b| - 1];
    }
    forall l: License ensures InternalSum([l], now) == (if now <= l.expiry then l.internalUsers else 0)
                      ensures ExternalSum([l], now) == (if now <= l.expiry then l.externalUsers else 0)
    {
      assert [l][..0] == [];
    }
  }

  /** Allowances only shrink as time passes. */
  lemma {:induction false} SumsShrink(ls: seq<License>, now: int, later: int)
    requires now <= later
    ensures InternalSum(ls, later) <= InternalSum(ls, now) && ExternalSum(ls, later) <= ExternalSum(ls, now)
  {
    if ls != [] { SumsShrink(ls[..|ls| - 1], now, later); }
  }

  /** Past the latest expiry nothing is allowed. */
  lemma {:induction false} NothingAfterExpiry(ls: seq<License>, now: int)
    requires forall l :: l in ls ==> l.expiry < now
    ensures InternalSum(ls, now) == 0 && ExternalSum(ls, now) == 0
  {
    if ls != [] {
      assert ls[|ls| - 1] in ls;
      NothingAfterExpiry(ls[..|ls| - 1], now);
    }
  }

  // ---------------------------------------------------------------------------
  // Status
  // ---------------------------------------------------------------------------

  /** `_last_valid_date`; the epoch when there is no valid record. */
  function LastValid(rs: seq<Usage>): int
  {
    if rs == [] then 0 else
    var rest, r := LastValid(rs[..|rs| - 1]), rs[|rs| - 1];
    if r.status.Valid? && (rest < r.recordDate || !HasValid(rs[..|rs| - 1])) then r.recordDate else rest
  }

  predicate HasValid(rs: seq<Usage>) { exists r :: r in rs && r.status.Valid? }

  predicate Exceeded(w: Install, now: int)
  {
    w.internalUsers > InternalSum(w.licenses, now) || w.externalUsers > ExternalSum(w.licenses, now)
  }

  /** `LicenseKey.status`. */
  function StatusAt(w: Install, rs: seq<Usage>, now: int): Status
  {
    var exp, last := LatestExpiry(w.licenses), LastValid(rs);
    if exp == 0 && w.licenses == [] then Unlicensed
    else if Exceeded(w, now) && last < now - THRESHOLD_READ_ONLY then ReadOnly
    else if Exceeded(w, now) && last < now - THRESHOLD_WARNING_USER then LimitExceededUser
    else if Exceeded(w, now) && last < now - THRESHOLD_WARNING_ADMIN then LimitExceededAdmin
    else if exp < now then if exp < now - THRESHOLD_READ_ONLY then ReadOnly else Expired
    else if exp <= now + THRESHOLD_WARNING_EXPIRY then ExpirySoon
    else Status.Valid
  }

  // ---------------------------------------------------------------------------
  // Recording and cleaning up
  // ---------------------------------------------------------------------------

  datatype Event = Record(time: int) | Clean(time: int)

  predicate Recent(rs: seq<Usage>, now: int) { exists r :: r in rs && r.recordDate >= now - RECORD_INTERVAL }

  function Kept(rs: seq<Usage>, now: int): seq<Usage>
  {
    if rs == [] then [] else
    var rest, r := Kept(rs[..|rs| - 1], now), rs[|rs| - 1];
    if r.expires > now then rest + [r] else rest
  }

  /** `record_usage` adds a row unless one was added in the last eight hours; cleanup drops expired rows. */
  function After(w: Install, rs: seq<Usage>, e: Event): seq<Usage>
  {
    match e
    case Record(now) =>
      if Recent(rs, now) then rs else rs + [Usage(now, now + USAGE_RETENTION, StatusAt(w, rs, now))]
    case Clean(now) => Kept(rs, now)
  }

  function Run(w: Install, events: seq<Event>): seq<Usage>
  {
    if events == [] then [] else After(w, Run(w, events[..|events| - 1]), events[|events| - 1])
  }

  /** The usage table as recording and cleanup change it. */
  class UsageTable {
    var rows: seq<Usage>

    constructor ()
      ensures rows == []
    {
      rows := [];
    }

    /** `record_usage`: looks for a recent row, newest first, and creates one if there is none. */
    method RecordUsage(w: Install, now: int)
      modifies this
      ensures rows == After(w, old(rows), Record(now))
    {
      var i := |rows|;
      while i > 0
        invariant 0 <= i <= |rows| && forall j :: i <= j < |rows| ==> rows[j].recordDate < now - RECORD_INTERVAL
      {
        i := i - 1;
        if rows[i].recordDate >= now - RECORD_INTERVAL {
          assert rows[i] in rows;
          return;
        }
      }
      rows := rows + [Usage(now, now + USAGE_RETENTION, StatusAt(w, rows, now))];
    }

    /** `clean_expired_models` for usage rows. */
    method CleanExpired(w: Install, now: int)
      modifies this
      ensures rows == After(w, old(rows), Clean(now))
    {
      var all, kept, i := rows, [], 0;
      while i < |all|
        invariant 0 <= i <= |all| && kept == Kept(all[..i], now)
      {
        assert all[..i + 1][..i] == all[..i];
        if all[i].expires > now { kept := kept + [all[i]]; }
        i := i + 1;
      }
      assert all[..i] == all;
      rows := kept;
    }
  }

  ghost predicate Chronological(events: seq<Event>)
  {
    forall i, j :: 0 <= i < j < |events| ==> events[i].time <= events[j].time
  }

  /** Events happen in order, no earlier than six weeks after the epoch and no later than `now`. */
  ghost predicate Until(events: seq<Event>, now: int)
  {
    Chronological(events) && forall e :: e in events ==> THRESHOLD_READ_ONLY < e.time <= now
  }

  /** What every run keeps of its rows. */
  ghost predicate Sound(w: Install, rs: seq<Usage>)
  {
    forall r :: r in rs ==>
      && r.expires == r.recordDate + USAGE_RETENTION && r.recordDate > 0
      && (r.status.Valid? ==> LatestExpiry(w.licenses) > r.recordDate + THRESHOLD_WARNING_EXPIRY)
  }

  lemma {:induction false} KeptMembers(rs: seq<Usage>, now: int, r: Usage)
    ensures r in Kept(rs, now) <==> r in rs && r.expires > now
  {
    if rs != [] {
      KeptMembers(rs[..|rs| - 1], now, r);
      assert rs == rs[..|rs| - 1] + [rs[|rs| - 1]];
    }
  }

  /** The last valid date is the latest date of a valid row. */
  lemma {:induction false} LastValidIsLatest(rs: seq<Usage>)
    ensures HasValid(rs) ==> exists r :: r in rs && r.status.Valid? && r.recordDate == LastValid(rs)
    ensures forall r :: r in rs && r.status.Valid? ==> r.recordDate <= LastValid(rs)
    ensures !HasValid(rs) ==> LastValid(rs) == 0
  {
    if rs != [] {
      var init, last := rs[..|rs| - 1], rs[|rs| - 1];
      LastValidIsLatest(init);
      assert rs == init + [last];
      assert last in rs;
      if HasValid(init) { var r :| r in init && r.status.Valid?; assert r in rs; }
    }
  }

  lemma EventKeepsSound(w: Install, rs: seq<Usage>, e: Event)
    requires Sound(w, rs) && e.time > 0
    ensures Sound(w, After(w, rs, e))
  {
    if e.Clean? {
      forall r | r in Kept(rs, e.time) ensures r in rs { KeptMembers(rs, e.time, r); }
    }
  }

  lemma {:induction false} RunIsSound(w: Install, events: seq<Event>)
    requires forall e :: e in events ==> e.time > 0
    ensures Sound(w, Run(w, events))
  {
    if events != [] {
      hide Sound, After;
      assert events[|events| - 1] in events;
      RunIsSound(w, events[..|events| - 1]);
      EventKeepsSound(w, Run(w, events[..|events| - 1]), events[|events| - 1]);
    }
    if events == [] { assert Sound(w, []); }
  }

  // ---------------------------------------------------------------------------
  // Cleaning up is invisible
  // ---------------------------------------------------------------------------

  /** The run without its cleanups. */
  function WithoutCleanups(events: seq<Event>): seq<Event>
  {
    if events == [] then [] else
    var init, last := WithoutCleanups(events[..|events| - 1]), events[|events| - 1];
    if last.Clean? then init else init + [last]
  }

  /** `kept` is `all` without some rows that are at least as old as the retention. */
  ghost predicate Trimmed(kept: seq<Usage>, all: seq<Usage>, now: int)
  {
    && (forall r :: r in kept ==> r in all)
    && (forall r :: r in all ==> r in kept || r.recordDate <= now - USAGE_RETENTION)
  }

  lemma TrimmedLastValid(kept: seq<Usage>, all: seq<Usage>, now: int)
    requires Trimmed(kept, all, now) && forall r :: r in all ==> r.recordDate > 0
    ensures LastValid(kept) == LastValid(all) ||
            (LastValid(kept) < now - THRESHOLD_READ_ONLY && LastValid(all) < now - THRESHOLD_READ_ONLY)
  {
    LastValidIsLatest(kept);
    LastValidIsLatest(all);
    if HasValid(all) {
      var r :| r in all && r.status.Valid? && r.recordDate == LastValid(all);
      if r in kept { assert HasValid(kept); }
    }
  }

  /** Rows outlive the six-week threshold, so trimmed rows give the same status. */
  lemma TrimmedStatus(w: Install, kept: seq<Usage>, all: seq<Usage>, now: int, later: int)
    requires Trimmed(kept, all, now) && now <= later && forall r :: r in all ==> r.recordDate > 0
    ensures StatusAt(w, kept, later) == StatusAt(w, all, later)
  {
    TrimmedLastValid(kept, all, now);
  }

  lemma RecordKeepsTrimmed(w: Install, kept: seq<Usage>, all: seq<Usage>, before: int, now: int)
    requires Trimmed(kept, all, before) && before <= now && Sound(w, all)
    ensures Trimmed(After(w, kept, Record(now)), After(w, all, Record(now)), now)
  {
    TrimmedStatus(w, kept, all, before, now);
    hide StatusAt;
    assert Recent(kept, now) <==> Recent(all, now);
  }

  lemma CleanKeepsTrimmed(w: Install, kept: seq<Usage>, all: seq<Usage>, before: int, now: int)
    requires Trimmed(kept, all, before) && before <= now && Sound(w, all)
    ensures Trimmed(After(w, kept, Clean(now)), all, now)
  {
    forall r ensures r in Kept(kept, now) <==> r in kept && r.expires > now { KeptMembers(kept, now, r); }
  }

  lemma {:induction false} RunIsTrimmed(w: Install, events: seq<Event>, now: int)
    requires Until(events, now)
    ensures Trimmed(Run(w, events), Run(w, WithoutCleanups(events)), now)
    ensures Sound(w, Run(w, WithoutCleanups(events)))
  {
    if events != [] {
      var init, last := events[..|events| - 1], events[|events| - 1];
      assert last in events;
      RunIsTrimmed(w, init, last.time);
      var kept, all := Run(w, init), Run(w, WithoutCleanups(init));
      if last.Clean? {
        CleanKeepsTrimmed(w, kept, all, last.time, last.time);
      } else {
        var shorter := WithoutCleanups(init);
        assert (shorter + [last])[..|shorter|] == shorter;
        RecordKeepsTrimmed(w, kept, all, last.time, last.time);
        EventKeepsSound(w, all, last);
      }
    }
  }

  /** Erasing every cleanup from a run leaves the status unchanged, then and at every later time. */
  lemma CleanupIsInvisible(w: Install, events: seq<Event>, now: int)
    requires Until(events, now)
    ensures StatusAt(w, Run(w, events), now) == StatusAt(w, Run(w, WithoutCleanups(events)), now)
  {
    RunIsTrimmed(w, events, now);
    TrimmedStatus(w, Run(w, events), Run(w, WithoutCleanups(events)), now, now);
  }

  // ---------------------------------------------------------------------------
  // READ_ONLY is absorbing
  // ---------------------------------------------------------------------------

  lemma LastValidIsOld(w: Install, rs: seq<Usage>)
    requires Sound(w, rs)
    ensures LastValid(rs) == 0 || LastValid(rs) < LatestExpiry(w.licenses) - THRESHOLD_WARNING_EXPIRY
  {
    LastValidIsLatest(rs);
  }

  lemma CleanedLastValidShrinks(w: Install, rs: seq<Usage>, now: int)
    requires Sound(w, rs)
    ensures LastValid(Kept(rs, now)) <= LastValid(rs) && Sound(w, Kept(rs, now))
  {
    LastValidIsLatest(rs);
    LastValidIsLatest(Kept(rs, now));
    forall r | r in Kept(rs, now) ensures r in rs { KeptMembers(rs, now, r); }
  }

  /** Time alone never leaves READ_ONLY. */
  lemma ReadOnlyStays(w: Install, rs: seq<Usage>, now: int, later: int)
    requires Sound(w, rs) && Dated(w.licenses) && THRESHOLD_READ_ONLY < now <= later
    requires StatusAt(w, rs, now) == ReadOnly
    ensures StatusAt(w, rs, later) == ReadOnly
  {
    SumsShrink(w.licenses, now, later);
    LatestIsMaximum(w.licenses);
    LastValidIsOld(w, rs);
  }

  lemma EventKeepsReadOnly(w: Install, rs: seq<Usage>, now: int, e: Event)
    requires Sound(w, rs) && Dated(w.licenses) && THRESHOLD_READ_ONLY < now <= e.time
    requires StatusAt(w, rs, now) == ReadOnly
    ensures StatusAt(w, After(w, rs, e), e.time) == ReadOnly
  {
    ReadOnlyStays(w, rs, now, e.time);
    LatestIsMaximum(w.licenses);
    LastValidIsOld(w, rs);
    match e
    case Record(_) => if !Recent(rs, e.time) { AddingNonValid(rs, Usage(e.time, e.time + USAGE_RETENTION, ReadOnly)); }
    case Clean(_) => CleanedLastValidShrinks(w, rs, e.time);
  }

  lemma AddingNonValid(rs: seq<Usage>, r: Usage)
    requires !r.status.Valid?
    ensures LastValid(rs + [r]) == LastValid(rs)
  {
    assert (rs + [r])[..|rs|] == rs;
  }

  /** Once READ_ONLY, a fixed installation stays READ_ONLY through every later record and cleanup. */
  lemma {:induction false} ReadOnlyIsAbsorbing(w: Install, events: seq<Event>, more: seq<Event>, now: int, later: int)
    requires Dated(w.licenses) && Until(events, now) && THRESHOLD_READ_ONLY < now <= later
    requires Until(more, later) && forall e :: e in more ==> now <= e.time
    requires StatusAt(w, Run(w, events), now) == ReadOnly
    ensures StatusAt(w, Run(w, events + more), later) == ReadOnly
    decreases |more|
  {
    hide StatusAt, After, Sound, Dated;
    RunIsSound(w, events + more);
    if more == [] {
      assert events + more == events;
      ReadOnlyStays(w, Run(w, events), now, later);
    } else {
      var init, last := more[..|more| - 1], more[|more| - 1];
      assert last in more && (events + more)[..|events + more| - 1] == events + init;
      ReadOnlyIsAbsorbing(w, events, init, now, last.time);
      RunIsSound(w, events + init);
      EventKeepsReadOnly(w, Run(w, events + init), last.time, last);
      ReadOnlyStays(w, Run(w, events + more), last.time, later);
    }
  }

  // ---------------------------------------------------------------------------
  // The user limit refreshes itself
  // ---------------------------------------------------------------------------

  /** The status is VALID exactly when a licence is far from expiry and the limit held, or was VALID, recently. */
  lemma ValidExactly(w: Install, rs: seq<Usage>, now: int)
    requires Dated(w.licenses)
    ensures StatusAt(w, rs, now) == Status.Valid <==>
            && LatestExpiry(w.licenses) > now + THRESHOLD_WARNING_EXPIRY && w.licenses != []
            && (!Exceeded(w, now) || LastValid(rs) >= now - THRESHOLD_WARNING_ADMIN)
  {
    LatestIsMaximum(w.licenses);
  }

  /** When the last row was added: a record within eight hours of the last row adds none. */
  function RowTime(events: seq<Event>): int
    requires events != []
  {
    var last := events[|events| - 1];
    if |events| == 1 then last.time else
    var time := RowTime(events[..|events| - 1]);
    if last.Record? && last.time - RECORD_INTERVAL > time then last.time else time
  }

  /** The run starts with a record, and at every event, and now, the last row is at most a fortnight old. */
  ghost predicate Regular(events: seq<Event>, now: int)
  {
    && events != [] && events[|events| - 1].time <= now <= RowTime(events) + THRESHOLD_WARNING_ADMIN
    && if |events| == 1 then events[0].Record? else Regular(events[..|events| - 1], events[|events| - 1].time)
  }

  /** An installation whose user counts change over time. */
  datatype History = History(licenses: seq<License>, internal: int -> nat, external: int -> nat) {
    function At(time: int): Install { Install(licenses, internal(time), external(time)) }
  }

  function RunOver(h: History, events: seq<Event>): seq<Usage>
  {
    if events == [] then []
    else After(h.At(events[|events| - 1].time), RunOver(h, events[..|events| - 1]), events[|events| - 1])
  }

  /** The rows of a regular run: the newest is valid. */
  ghost predicate Renewed(rs: seq<Usage>, time: int)
  {
    && Usage(time, time + USAGE_RETENTION, Status.Valid) in rs
    && forall r :: r in rs ==> r.recordDate <= time
  }

  lemma RenewedIsValid(w: Install, rs: seq<Usage>, time: int, now: int)
    requires Dated(w.licenses) && w.licenses != [] && LatestExpiry(w.licenses) > now + THRESHOLD_WARNING_EXPIRY
    requires Renewed(rs, time) && now <= time + THRESHOLD_WARNING_ADMIN
    ensures StatusAt(w, rs, now) == Status.Valid
  {
    LastValidIsLatest(rs);
    ValidExactly(w, rs, now);
  }

  lemma EventRenews(w: Install, rs: seq<Usage>, time: int, e: Event)
    requires Dated(w.licenses) && w.licenses != [] && LatestExpiry(w.licenses) > e.time + THRESHOLD_WARNING_EXPIRY
    requires Renewed(rs, time) && time <= e.time <= time + THRESHOLD_WARNING_ADMIN
    ensures Renewed(After(w, rs, e), if e.Record? && e.time - RECORD_INTERVAL > time then e.time else time)
  {
    RenewedIsValid(w, rs, time, e.time);
    hide StatusAt;
    if e.Clean? {
      forall r ensures r in Kept(rs, e.time) <==> r in rs && r.expires > e.time { KeptMembers(rs, e.time, r); }
    }
  }

  /**
   Recording usage at least every fortnight keeps the status VALID, whatever the number of users does
   after the first record and whatever cleanups run: each VALID row renews the grace period that the
   next one relies on.
   */
  lemma {:induction false} LimitIsNeverEnforced(h: History, events: seq<Event>, now: int)
    requires Dated(h.licenses) && h.licenses != [] && Regular(events, now)
    requires LatestExpiry(h.licenses) > now + THRESHOLD_WARNING_EXPIRY
    requires StatusAt(h.At(events[0].time), [], events[0].time) == Status.Valid
    ensures Renewed(RunOver(h, events), RowTime(events)) && RowTime(events) <= now
    ensures StatusAt(h.At(now), RunOver(h, events), now) == Status.Valid
  {
    var last := events[|events| - 1];
    hide StatusAt, Dated, LatestExpiry;
    if |events| == 1 {
      assert events[..0] == [];
      assert RunOver(h, events) == [] + [Usage(last.time, last.time + USAGE_RETENTION, Status.Valid)];
    } else {
      LimitIsNeverEnforced(h, events[..|events| - 1], last.time);
      EventRenews(h.At(last.time), RunOver(h, events[..|events| - 1]), RowTime(events[..|events| - 1]), last);
    }
    RenewedIsValid(h.At(now), RunOver(h, events), RowTime(events), now);
  }

  // ---------------------------------------------------------------------------
  // Exactly when the limit is enforced
  // ---------------------------------------------------------------------------

  /** A run of events up to now that starts with a VALID record, after which the limit is always exceeded. */
  ghost predicate Overrun(h: History, events: seq<Event>, now: int)
  {
    && Dated(h.licenses) && h.licenses != [] && LatestExpiry(h.licenses) > now + THRESHOLD_WARNING_EXPIRY
    && events != [] && Until(events, now) && events[0].Record?
    && StatusAt(h.At(events[0].time), [], events[0].time) == Status.Valid
    && forall t {:trigger h.At(t)} :: t > events[0].time ==> Exceeded(h.At(t), t)
  }

  lemma OverrunBefore(h: History, events: seq<Event>, now: int)
    requires Overrun(h, events, now) && |events| > 1
    ensures Overrun(h, events[..|events| - 1], events[|events| - 1].time)
  {
    hide Dated, LatestExpiry, StatusAt, Exceeded;
    var init, last := events[..|events| - 1], events[|events| - 1];
    assert last in events;
    forall e | e in init ensures e in events && e.time <= last.time { }
  }

  /** The first fortnight of a run is regular. */
  lemma {:induction false} FirstFortnight(events: seq<Event>, now: int)
    requires events != [] && Until(events, now) && events[0].Record? && now <= events[0].time + THRESHOLD_WARNING_ADMIN
    ensures Regular(events, now) && events[0].time <= RowTime(events)
  {
    var init, last := events[..|events| - 1], events[|events| - 1];
    assert last in events;
    if |events| > 1 { FirstFortnight(init, last.time); }
  }

  /** Events after the valid rows have lapsed add no valid row. */
  lemma EventKeepsLapsed(w: Install, rs: seq<Usage>, e: Event)
    requires Dated(w.licenses) && Exceeded(w, e.time)
    requires LastValid(rs) < e.time - THRESHOLD_WARNING_ADMIN && e.time > THRESHOLD_READ_ONLY
    ensures LastValid(After(w, rs, e)) < e.time - THRESHOLD_WARNING_ADMIN
  {
    hide Exceeded, LastValid;
    match e
    case Record(now) =>
      ValidExactly(w, rs, now);
      AddingNonValid(rs, Usage(now, now + USAGE_RETENTION, StatusAt(w, rs, now)));
    case Clean(now) =>
      LastValidIsLatest(rs);
      LastValidIsLatest(Kept(rs, now));
      forall r | r in Kept(rs, now) ensures r in rs { KeptMembers(rs, now, r); }
  }

  lemma RenewedBound(rs: seq<Usage>, time: int)
    requires Renewed(rs, time)
    ensures LastValid(rs) == time
  {
    LastValidIsLatest(rs);
  }

  /** After one irregular gap every valid row is, and stays, more than a fortnight old. */
  lemma {:induction false} IrregularLapses(h: History, events: seq<Event>, now: int)
    requires Overrun(h, events, now) && !Regular(events, now)
    ensures LastValid(RunOver(h, events)) < now - THRESHOLD_WARNING_ADMIN
  {
    hide Dated, LatestExpiry, LastValid, Exceeded, StatusAt, Renewed;
    var init, last := events[..|events| - 1], events[|events| - 1];
    assert last in events;
    if |events| > 1 && !Regular(init, last.time) {
      OverrunBefore(h, events, now);
      IrregularLapses(h, init, last.time);
      if last.time == events[0].time { FirstFortnight(init, last.time); }
      EventKeepsLapsed(h.At(last.time), RunOver(h, init), last);
    } else {
      if |events| > 1 { RowTimeGrows(events); }
      LimitIsNeverEnforced(h, events, last.time);
      RenewedBound(RunOver(h, events), RowTime(events));
    }
  }

  lemma RowTimeGrows(events: seq<Event>)
    requires |events| > 1
    ensures RowTime(events) >= RowTime(events[..|events| - 1])
  {
  }

  /**
   With more users than licensed ever since the first record, the status is VALID exactly for a regular
   run: the limit is enforced from the first gap of more than a fortnight between rows on.
   */
  lemma LimitIsEnforcedExactly(h: History, events: seq<Event>, now: int)
    requires Overrun(h, events, now) && now > events[0].time
    ensures Exceeded(h.At(now), now)
    ensures StatusAt(h.At(now), RunOver(h, events), now) == Status.Valid <==> Regular(events, now)
  {
    if Regular(events, now) {
      LimitIsNeverEnforced(h, events, now);
    } else {
      IrregularLapses(h, events, now);
      ValidExactly(h.At(now), RunOver(h, events), now);
    }
  }

  /** One licensed user; five users from just after the start on. */
  function Crowded(start: int): History
  {
    History([License(start + 10 * WEEK, 1, 0)], t => if t <= start then 1 else 5, t => 0)
  }

  lemma CrowdedOverruns(start: int, events: seq<Event>)
    requires start > THRESHOLD_READ_ONLY && events == [Record(start), Record(start + 2 * WEEK)]
    ensures Overrun(Crowded(start), events, start + 4 * WEEK)
  {
    var h := Crowded(start);
    var ls := h.licenses;
    assert ls[..0] == [] && InternalSum(ls, start) == 1 && ExternalSum(ls, start) == 0;
    LatestIsMaximum(ls);
    assert ls[0] in ls;
    ValidExactly(h.At(start), [], start);
    forall t | t > start ensures Exceeded(h.At(t), t) { SumsShrink(ls, start, t); }
  }

  /** A witness: records two weeks apart keep the status VALID while the limit is exceeded. */
  lemma ExceededAndValid(start: int, events: seq<Event>)
    requires start > THRESHOLD_READ_ONLY && events == [Record(start), Record(start + 2 * WEEK)]
    ensures var h, now := Crowded(start), start + 4 * WEEK;
            Exceeded(h.At(now), now) && StatusAt(h.At(now), RunOver(h, events), now) == Status.Valid
  {
    CrowdedOverruns(start, events);
    hide Overrun, RunOver, StatusAt, Exceeded;
    assert events[..1] == [Record(start)];
    assert RowTime(events[..1]) == start && Regular(events[..1], start + 2 * WEEK);
    assert RowTime(events) == start + 2 * WEEK;
    LimitIsEnforcedExactly(Crowded(start), events, start + 4 * WEEK);
  }

  // ---------------------------------------------------------------------------
  // The status of every run, from times and user counts alone
  // ---------------------------------------------------------------------------

  /** The record at `i` adds a row: no earlier one added a row within eight hours of it. */
  ghost predicate AddsRow(events: seq<Event>, i: nat)
    requires i < |events|
    decreases i
  {
    events[i].Record? &&
    forall j :: 0 <= j < i && AddsRow(events, j) ==> events[j].time < events[i].time - 8 * HOUR
  }

  ghost function RowAt(h: History, events: seq<Event>, i: nat): Usage
    requires i < |events|
  {
    var now := events[i].time;
    Usage(now, now + 90 * DAY, StatusAt(h.At(now), RunOver(h, events[..i]), now))
  }

  /** The first `n` events leave the rows that records added, except some as old as the retention. */
  ghost predicate RowsAre(h: History, events: seq<Event>, n: nat, rs: seq<Usage>, now: int)
    requires n <= |events|
  {
    && (forall r :: r in rs ==> exists i :: 0 <= i < n && AddsRow(events, i) && r == RowAt(h, events, i))
    && (forall i :: 0 <= i < n && AddsRow(events, i) ==>
          RowAt(h, events, i) in rs || events[i].time <= now - USAGE_RETENTION)
  }

  lemma UntilBefore(events: seq<Event>, n: nat, now: int, i: nat)
    requires i < n <= |events| && Until(events[..n], now)
    ensures Until(events[..i], events[i].time) && THRESHOLD_READ_ONLY < events[i].time <= now
  {
    assert forall j :: 0 <= j < n ==> events[..n][j] == events[j];
    assert events[i] in events[..n];
    forall e | e in events[..i] ensures THRESHOLD_READ_ONLY < e.time <= events[i].time { assert e in events[..n]; }
  }

  lemma AddsRowStep(events: seq<Event>, n: nat)
    requires n < |events|
    ensures AddsRow(events, n) <==>
            && events[n].Record?
            && forall j :: 0 <= j < n && AddsRow(events, j) ==> events[j].time < events[n].time - 8 * HOUR
  {
  }

  lemma RecordKeepsRows(h: History, events: seq<Event>, n: nat, rs: seq<Usage>)
    requires n < |events| && rs == RunOver(h, events[..n]) && RowsAre(h, events, n, rs, events[n].time)
    requires events[n].Record?
    ensures RowsAre(h, events, n + 1, After(h.At(events[n].time), rs, events[n]), events[n].time)
  {
    hide StatusAt, AddsRow, RunOver;
    var now := events[n].time;
    AddsRowStep(events, n);
    assert Recent(rs, now) <==> !AddsRow(events, n);
    var rs' := After(h.At(now), rs, events[n]);
    assert AddsRow(events, n) ==> rs' == rs + [RowAt(h, events, n)];
    hide RowAt, After, Recent;
    assert forall r :: r in rs ==> r in rs';
  }

  lemma CleanKeepsRows(h: History, events: seq<Event>, n: nat, rs: seq<Usage>)
    requires n < |events| && RowsAre(h, events, n, rs, events[n].time) && events[n].Clean?
    ensures RowsAre(h, events, n + 1, After(h.At(events[n].time), rs, events[n]), events[n].time)
  {
    hide StatusAt, AddsRow, RunOver;
    var now := events[n].time;
    AddsRowStep(events, n);
    forall r ensures r in Kept(rs, now) <==> r in rs && r.expires > now { KeptMembers(rs, now, r); }
  }

  lemma RowsLater(h: History, events: seq<Event>, n: nat, rs: seq<Usage>, now: int, later: int)
    requires n <= |events| && RowsAre(h, events, n, rs, now) && now <= later
    ensures RowsAre(h, events, n, rs, later)
  {
    hide AddsRow, RowAt;
  }

  lemma {:induction false} RunRows(h: History, events: seq<Event>, n: nat, now: int)
    requires n <= |events| && Until(events[..n], now)
    ensures RowsAre(h, events, n, RunOver(h, events[..n]), now)
  {
    hide AddsRow, RowAt, After, Until, Chronological, RunOver;
    if n == 0 {
      assert RunOver(h, events[..n]) == [] by { RunOverStep(h, events, n); }
    } else {
      hide RowsAre;
      var before, last := RunOver(h, events[..n - 1]), events[n - 1];
      UntilBefore(events, n, now, n - 1);
      RunRows(h, events, n - 1, last.time);
      RunOverStep(h, events, n);
      if last.Record? {
        RecordKeepsRows(h, events, n - 1, before);
      } else {
        CleanKeepsRows(h, events, n - 1, before);
      }
      RowsLater(h, events, n, RunOver(h, events[..n]), last.time, now);
    }
  }

  lemma RunOverStep(h: History, events: seq<Event>, n: nat)
    requires n <= |events|
    ensures RunOver(h, events[..n]) ==
            if n == 0 then [] else After(h.At(events[n - 1].time), RunOver(h, events[..n - 1]), events[n - 1])
  {
    hide After;
    if n > 0 { assert events[..n][..n - 1] == events[..n - 1]; }
  }

  /**
   Some row leads up to `now`: it is at most a fortnight old, and the limit held when it was added or
   another such row leads up to it in turn.
   */
  ghost predicate Bridged(h: History, events: seq<Event>, n: nat, now: int)
    requires n <= |events|
    decreases n
  {
    exists i :: 0 <= i < n && AddsRow(events, i) && events[i].time >= now - THRESHOLD_WARNING_ADMIN
                && (!Exceeded(h.At(events[i].time), events[i].time) || Bridged(h, events, i, events[i].time))
  }

  /** A recent valid row is a row that leads up to now. */
  lemma LastValidBridges(h: History, events: seq<Event>, n: nat, rs: seq<Usage>, now: int)
    requires n <= |events| && RowsAre(h, events, n, rs, now) && now > THRESHOLD_READ_ONLY
    requires forall i :: 0 <= i < n ==>
      (RowAt(h, events, i).status.Valid? <==>
       !Exceeded(h.At(events[i].time), events[i].time) || Bridged(h, events, i, events[i].time))
    ensures LastValid(rs) >= now - THRESHOLD_WARNING_ADMIN <==> Bridged(h, events, n, now)
  {
    hide StatusAt, Exceeded, LastValid, RunOver;
    LastValidIsLatest(rs);
  }

  /**
   For every history and every run: the status is VALID exactly when a licence is far from expiry and
   the limit holds now, or rows at most a fortnight apart lead from a time when it held up to now.
   */
  lemma {:induction false} ValidRunExactly(h: History, events: seq<Event>, n: nat, now: int)
    requires Dated(h.licenses) && n <= |events| && Until(events[..n], now) && now > THRESHOLD_READ_ONLY
    ensures StatusAt(h.At(now), RunOver(h, events[..n]), now) == Status.Valid <==>
            && h.licenses != [] && LatestExpiry(h.licenses) > now + THRESHOLD_WARNING_EXPIRY
            && (!Exceeded(h.At(now), now) || Bridged(h, events, n, now))
    decreases n
  {
    hide StatusAt, Exceeded, LastValid, RunOver, Bridged, Until, LatestExpiry, Dated;
    ValidExactly(h.At(now), RunOver(h, events[..n]), now);
    if h.licenses != [] && LatestExpiry(h.licenses) > now + THRESHOLD_WARNING_EXPIRY {
      RunRows(h, events, n, now);
      forall i | 0 <= i < n
        ensures RowAt(h, events, i).status.Valid? <==>
                !Exceeded(h.At(events[i].time), events[i].time) || Bridged(h, events, i, events[i].time)
      {
        UntilBefore(events, n, now, i);
        ValidRunExactly(h, events, i, events[i].time);
      }
      LastValidBridges(h, events, n, RunOver(h, events[..n]), now);
    }
  }

  // ---------------------------------------------------------------------------
  // Every status
  // ---------------------------------------------------------------------------

  /** When each status applies: `over2` says that there is no valid row of the last two weeks, and so on. */
  ghost predicate StatusFits(
    status: Status, licensed: bool, exceeded: bool, over2: bool, over4: bool, over6: bool, exp: int, now: int)
  {
    match status
    case Unlicensed => !licensed
    case LimitExceededAdmin => licensed && exceeded && over2 && !over4
    case LimitExceededUser => licensed && exceeded && over4 && !over6
    case ReadOnly => licensed && ((exceeded && over6) || (!(exceeded && over2) && exp < now - 6 * WEEK))
    case Expired => licensed && !(exceeded && over2) && now - 6 * WEEK <= exp < now
    case ExpirySoon => licensed && !(exceeded && over2) && now <= exp <= now + 2 * WEEK
    case Valid => licensed && !(exceeded && over2) && exp > now + 2 * WEEK
  }

  /** Every status exactly, from the date of the last valid row, the limit and the latest expiry. */
  lemma StatusExactly(w: Install, rs: seq<Usage>, now: int, status: Status)
    requires Dated(w.licenses)
    ensures var last := LastValid(rs);
            StatusAt(w, rs, now) == status <==>
            StatusFits(status, w.licenses != [], Exceeded(w, now),
                       last < now - 2 * WEEK, last < now - 4 * WEEK, last < now - 6 * WEEK,
                       LatestExpiry(w.licenses), now)
  {
    LatestIsMaximum(w.licenses);
  }

  /** The record at `i` added a valid row: a licence was far from expiry, and the limit held or rows led up to it. */
  ghost predicate ValidRow(h: History, events: seq<Event>, i: nat)
    requires i < |events|
  {
    var time := events[i].time;
    && AddsRow(events, i) && h.licenses != [] && LatestExpiry(h.licenses) > time + 2 * WEEK
    && (!Exceeded(h.At(time), time) || Bridged(h, events, i, time))
  }

  ghost predicate ValidSince(h: History, events: seq<Event>, n: nat, time: int)
    requires n <= |events|
  {
    exists i :: 0 <= i < n && ValidRow(h, events, i) && events[i].time >= time
  }

  lemma ValidSinceExactly(h: History, events: seq<Event>, n: nat, rs: seq<Usage>, now: int, time: int)
    requires n <= |events| && RowsAre(h, events, n, rs, now) && time > 0 && time >= now - 6 * WEEK
    requires forall i :: 0 <= i < n && AddsRow(events, i) ==>
      (RowAt(h, events, i).status.Valid? <==> ValidRow(h, events, i))
    ensures LastValid(rs) >= time <==> ValidSince(h, events, n, time)
  {
    hide ValidRow, StatusAt, LastValid, RunOver, AddsRow;
    LastValidIsLatest(rs);
    if ValidSince(h, events, n, time) {
      var i :| 0 <= i < n && ValidRow(h, events, i) && events[i].time >= time;
      assert AddsRow(events, i) by { ValidRowAdds(h, events, i); }
      assert RowAt(h, events, i) in rs;
    }
    if LastValid(rs) >= time {
      var r :| r in rs && r.status.Valid? && r.recordDate == LastValid(rs);
      var i :| 0 <= i < n && AddsRow(events, i) && r == RowAt(h, events, i);
    }
  }

  lemma ValidRowAdds(h: History, events: seq<Event>, i: nat)
    requires i < |events| && ValidRow(h, events, i)
    ensures AddsRow(events, i)
  {
  }

  lemma RowExactly(h: History, events: seq<Event>, n: nat, now: int, i: nat)
    requires Dated(h.licenses) && i < n <= |events| && Until(events[..n], now) && AddsRow(events, i)
    ensures RowAt(h, events, i).status.Valid? <==> ValidRow(h, events, i)
  {
    hide StatusAt, Exceeded, RunOver, Bridged, Until, LatestExpiry, Dated, AddsRow;
    UntilBefore(events, n, now, i);
    ValidRunExactly(h, events, i, events[i].time);
  }

  /** Every status of every run exactly, from the times of the records, the user counts and the licences. */
  lemma RunStatusExactly(h: History, events: seq<Event>, n: nat, now: int, status: Status)
    requires Dated(h.licenses) && n <= |events| && Until(events[..n], now) && now > THRESHOLD_READ_ONLY
    ensures StatusAt(h.At(now), RunOver(h, events[..n]), now) == status <==>
            StatusFits(status, h.licenses != [], Exceeded(h.At(now), now),
                       !ValidSince(h, events, n, now - 2 * WEEK), !ValidSince(h, events, n, now - 4 * WEEK),
                       !ValidSince(h, events, n, now - 6 * WEEK), LatestExpiry(h.licenses), now)
  {
    hide StatusAt, StatusFits, Exceeded, LastValid, RunOver, ValidRow, ValidSince, Until, LatestExpiry, Dated, AddsRow;
    var rs := RunOver(h, events[..n]);
    StatusExactly(h.At(now), rs, now, status);
    RunRows(h, events, n, now);
    forall i | 0 <= i < n && AddsRow(events, i)
      ensures RowAt(h, events, i).status.Valid? <==> ValidRow(h, events, i)
    {
      RowExactly(h, events, n, now, i);
    }
    hide RowAt, RowsAre;
    ValidSinceExactly(h, events, n, rs, now, now - 2 * WEEK);
    ValidSinceExactly(h, events, n, rs, now, now - 4 * WEEK);
    ValidSinceExactly(h, events, n, rs, now, now - 6 * WEEK);
  }
}
