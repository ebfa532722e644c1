/**
 The policy engine (authentik/policies/engine.py, process.py, models.py): counted static bindings,
 evaluated policy bindings, a result cache, and the verdict they combine to.
 */
module PolicyEngine {
  import opened Common

  datatype Mode = ModeAll | ModeAny

  type Pk = string

  datatype Binding = Binding(
    pk: Pk, policy: Option<Pk>, group: Option<Pk>, user: Option<Pk>,
    negate: bool, failureResult: bool, order: int)

  /** What evaluating a policy can do. */
  datatype Evaluation =
    | Passed(passing: bool, messages: seq<string>)
    | PolicyError(message: string)
    | Crash(message: string)

  datatype PolicyResult = PolicyResult(passing: bool, messages: seq<string>)

  /** The requesting user, the groups they belong to, and the policies as an oracle. */
  datatype Request = Request(
    user: Option<Pk>, groups: set<Pk>, authenticated: bool, debug: bool,
    evaluate: Pk -> Evaluation, isRootType: Pk -> bool)

  // ---------------------------------------------------------------------------
  // One binding
  // ---------------------------------------------------------------------------

  /** `PolicyBinding.passes`. */
  function Passes(b: Binding, r: Request): Evaluation
  {
    if b.policy.Some? then r.evaluate(b.policy.value)
    else if b.group.Some? then Passed(b.group.value in r.groups, [])
    else if b.user.Some? then Passed(r.user == b.user, [])
    else Passed(false, [])
  }

  /** `PolicyProcess.run`: negation applies to a verdict, not to the result of a failed policy. */
  function Execute(b: Binding, r: Request): PolicyResult
  {
    match Passes(b, r)
    case Passed(passing, messages) => PolicyResult(passing != b.negate, messages)
    case PolicyError(message) => PolicyResult(b.failureResult, [message])
    case Crash(message) => PolicyResult(false, [message])
  }

  /** A crash leaves `execute` before the result is stored. */
  predicate Cacheable(b: Binding, r: Request) { r.authenticated && !r.debug && !Passes(b, r).Crash? }

  /**
   Whether a binding lets the user pass, by what is bound.  Negation turns a verdict around.  It does not
   touch a failed policy, which counts as the binding says, or a crashed one, which denies.
   */
  ghost predicate Grants(b: Binding, r: Request)
  {
    if b.policy.Some? then
      match r.evaluate(b.policy.value)
      case Passed(passing, _) => passing <==> !b.negate
      case PolicyError(_) => b.failureResult
      case Crash(_) => false
    else if b.group.Some? then b.group.value in r.groups <==> !b.negate
    else b.negate <==> !(b.user.Some? && b.user == r.user)
  }

  lemma OutcomeExactly(b: Binding, r: Request)
    ensures Execute(b, r).passing <==> Grants(b, r)
  {
  }

  /** The messages of a policy are its own, or the one of its failure; other bindings say nothing. */
  lemma MessagesExactly(b: Binding, r: Request)
    ensures Execute(b, r).messages ==
            if b.policy.None? then [] else
            match r.evaluate(b.policy.value)
            case Passed(_, messages) => messages
            case PolicyError(message) => [message]
            case Crash(message) => [message]
  {
  }

  predicate IsStatic(b: Binding) { b.policy.None? && (b.group.Some? || b.user.Some?) }

  /** Exactly one of policy, group and user is set. */
  predicate WellFormed(b: Binding)
  {
    || (b.policy.Some? && b.group.None? && b.user.None?)
    || (b.policy.None? && b.group.Some? && b.user.None?)
    || (b.policy.None? && b.group.None? && b.user.Some?)
  }

  ghost predicate AllWellFormed(bs: seq<Binding>) { forall b :: b in bs ==> WellFormed(b) }

  // ---------------------------------------------------------------------------
  // Static bindings by counting
  // ---------------------------------------------------------------------------

  /** The filter of the `passing` aggregate. */
  predicate Counted(b: Binding, user: Pk, groups: set<Pk>)
  {
    || ((b.user == Some(user) || (b.group.Some? && b.group.value in groups)) && !b.negate)
    || (((b.user.Some? && b.user != Some(user)) || (b.group.Some? && b.group.value !in groups)) && b.negate)
  }

  function Total(bs: seq<Binding>): nat
  {
    if bs == [] then 0 else (if IsStatic(bs[0]) then 1 else 0) + Total(bs[1..])
  }

  function Passing(bs: seq<Binding>, user: Pk, groups: set<Pk>): nat
  {
    if bs == [] then 0 else (if Counted(bs[0], user, groups) then 1 else 0) + Passing(bs[1..], user, groups)
  }

  /** `compute_static_bindings`: None when there is nothing to say. */
  function StaticResult(bs: seq<Binding>, r: Request): Option<bool>
  {
    var passing := if r.user.Some? then Passing(bs, r.user.value, r.groups) else 0;
    if Total(bs) == 0 && passing == 0 then None else Some(passing > 0)
  }

  lemma {:induction false} TotalIsAny(bs: seq<Binding>)
    ensures Total(bs) > 0 <==> exists b :: b in bs && IsStatic(b)
  {
    if bs != [] {
      TotalIsAny(bs[1..]);
      assert bs == [bs[0]] + bs[1..];
    }
  }

  lemma {:induction false} PassingIsAny(bs: seq<Binding>, user: Pk, groups: set<Pk>)
    ensures Passing(bs, user, groups) > 0 <==> exists b :: b in bs && Counted(b, user, groups)
  {
    if bs != [] {
      PassingIsAny(bs[1..], user, groups);
      assert bs == [bs[0]] + bs[1..];
    }
  }

  /** Counting agrees with evaluating: the static result is "some static binding passes". */
  lemma CountingIsEvaluating(bs: seq<Binding>, r: Request)
    requires AllWellFormed(bs) && r.user.Some?
    ensures StaticResult(bs, r).None? <==> forall b :: b in bs ==> !IsStatic(b)
    ensures StaticResult(bs, r).Some? ==>
              (StaticResult(bs, r).value <==> exists b :: b in bs && IsStatic(b) && Grants(b, r))
  {
    TotalIsAny(bs);
    PassingIsAny(bs, r.user.value, r.groups);
    forall b | b in bs ensures Counted(b, r.user.value, r.groups) <==> IsStatic(b) && Grants(b, r) { }
  }

  /**
   A user without a primary key is not counted, so any static binding denies them; evaluation
   disagrees exactly when a static binding is negated.
   */
  lemma CountingAnonymousUsers(bs: seq<Binding>, r: Request)
    requires AllWellFormed(bs) && r.user.None? && r.groups == {}
    ensures StaticResult(bs, r) == if exists b :: b in bs && IsStatic(b) then Some(false) else None
    ensures (exists b :: b in bs && IsStatic(b) && Grants(b, r)) <==> exists b :: b in bs && IsStatic(b) && b.negate
  {
    TotalIsAny(bs);
    forall b | b in bs && IsStatic(b) ensures Grants(b, r) == b.negate { }
  }

  // ---------------------------------------------------------------------------
  // The verdict
  // ---------------------------------------------------------------------------

  predicate AllPass(rs: seq<PolicyResult>) { forall x :: x in rs ==> x.passing }
  predicate AnyPass(rs: seq<PolicyResult>) { exists x :: x in rs && x.passing }

  predicate Combined(mode: Mode, empty: bool, rs: seq<PolicyResult>)
  {
    if rs == [] then empty else if mode.ModeAll? then AllPass(rs) else AnyPass(rs)
  }

  /** What an administrator expects of bindings: any one, or every policy and one static binding. */
  ghost predicate Expected(mode: Mode, empty: bool, bs: seq<Binding>, r: Request)
  {
    if bs == [] then empty
    else if mode.ModeAny? then exists b :: b in bs && Grants(b, r)
    else
      && (forall b :: b in bs && b.policy.Some? ==> Grants(b, r))
      && ((exists b :: b in bs && IsStatic(b)) ==> exists b :: b in bs && IsStatic(b) && Grants(b, r))
  }

  /** Cached results are results of evaluation. */
  ghost predicate Correct(cache: map<Pk, PolicyResult>, bs: seq<Binding>, r: Request)
  {
    forall b :: b in bs && b.pk in cache ==> cache[b.pk] == Execute(b, r)
  }

  /** The request is one to cache for, and the policy, if there is one, did not crash. */
  ghost predicate Storable(b: Binding, r: Request)
  {
    r.authenticated && !r.debug && (b.policy.Some? ==> !r.evaluate(b.policy.value).Crash?)
  }

  lemma CacheableExactly(b: Binding, r: Request)
    ensures Cacheable(b, r) <==> Storable(b, r)
  {
  }

  /** A cache gains results of cacheable bindings only, and keeps what it knows of the others. */
  ghost predicate Grown(before: map<Pk, PolicyResult>, cache: map<Pk, PolicyResult>, bs: seq<Binding>, r: Request)
  {
    && (forall k :: k in before ==> k in cache)
    && (forall k :: k in cache && !(k in before && cache[k] == before[k]) ==>
          exists b :: b in bs && b.pk == k && Storable(b, r))
  }

  ghost predicate Distinct(bs: seq<Binding>)
  {
    forall i, j :: 0 <= i < j < |bs| ==> bs[i].pk != bs[j].pk
  }

  datatype Process = Process(order: int, result: PolicyResult)

  /** `list.sort` by order, stable. */
  function Insert(p: Process, ps: seq<Process>): seq<Process>
  {
    if ps == [] || p.order <= ps[0].order then [p] + ps else [ps[0]] + Insert(p, ps[1..])
  }

  function Sorted(ps: seq<Process>): seq<Process>
  {
    if ps == [] then [] else Insert(ps[0], Sorted(ps[1..]))
  }

  predicate Ordered(ps: seq<Process>) { forall i, j :: 0 <= i < j < |ps| ==> ps[i].order <= ps[j].order }

  lemma {:induction false} InsertKeeps(p: Process, ps: seq<Process>)
    ensures multiset(Insert(p, ps)) == multiset{p} + multiset(ps)
  {
    if ps != [] && p.order > ps[0].order {
      InsertKeeps(p, ps[1..]);
      assert ps == [ps[0]] + ps[1..];
    }
  }

  lemma {:induction false} InsertOrders(p: Process, ps: seq<Process>)
    requires Ordered(ps)
    ensures Ordered(Insert(p, ps))
  {
    if ps != [] && p.order > ps[0].order {
      InsertOrders(p, ps[1..]);
      InsertKeeps(p, ps[1..]);
      var rest := Insert(p, ps[1..]);
      hide Insert;
      forall i | 0 <= i < |rest| ensures ps[0].order <= rest[i].order {
        assert rest[i] in multiset(rest);
        assert rest[i] == p || rest[i] in ps[1..];
      }
    }
  }

  lemma {:induction false} SortedLaws(ps: seq<Process>)
    ensures Ordered(Sorted(ps)) && multiset(Sorted(ps)) == multiset(ps)
  {
    if ps != [] {
      SortedLaws(ps[1..]);
      InsertOrders(ps[0], Sorted(ps[1..]));
      InsertKeeps(ps[0], Sorted(ps[1..]));
      assert ps == [ps[0]] + ps[1..];
    }
  }

  function Results(ps: seq<Process>): seq<PolicyResult>
  {
    seq(|ps|, i requires 0 <= i < |ps| => ps[i].result)
  }

  function Messages(rs: seq<PolicyResult>): seq<string>
  {
    if rs == [] then [] else Messages(rs[..|rs| - 1]) + rs[|rs| - 1].messages
  }

  /** The counted result as one more result, if there is one. */
  function Static(counted: Option<bool>): seq<PolicyResult>
  {
    if counted.Some? then [PolicyResult(counted.value, [])] else []
  }

  /** Messages are joined in the order of the results. */
  lemma {:induction false} MessagesJoin(a: seq<PolicyResult>, b: seq<PolicyResult>)
    ensures Messages(a + b) == Messages(a) + Messages(b)
    ensures |b| == 1 ==> Messages(b) == b[0].messages
  {
    if b == [] {
      assert a + b == a;
    } else {
      var init := b[..|b| - 1];
      MessagesJoin(a, init);
      assert (a + b)[..|a + b| - 1] == a + init;
    }
  }

  datatype EngineError = RootPolicy | MissingResults

  datatype Verdict = Verdict(passing: bool, messages: seq<string>) | Raised(error: EngineError)

  /** The results gathered for `bs`, in any order: each binding's own result, and no others. */
  ghost predicate Gathered(ps: seq<Process>, cached: seq<PolicyResult>, bs: seq<Binding>, r: Request)
  {
    && |ps| + |cached| == |bs|
    && (forall b :: b in bs ==> Process(b.order, Execute(b, r)) in ps || Execute(b, r) in cached)
    && (forall p :: p in ps ==> exists b :: b in bs && p == Process(b.order, Execute(b, r)))
    && (forall c :: c in cached ==> exists b :: b in bs && c == Execute(b, r))
  }

  lemma GatheredPasses(ps: seq<Process>, cached: seq<PolicyResult>, bs: seq<Binding>, r: Request)
    requires Gathered(ps, cached, bs, r)
    ensures var all := Results(ps) + cached;
            && |all| == |bs|
            && (AllPass(all) <==> forall b :: b in bs ==> Grants(b, r))
            && (AnyPass(all) <==> exists b :: b in bs && Grants(b, r))
  {
    forall b ensures Execute(b, r).passing <==> Grants(b, r) { OutcomeExactly(b, r); }
    hide Grants, Execute;
    var all := Results(ps) + cached;
    forall b | b in bs ensures Execute(b, r) in all {
      var p := Process(b.order, Execute(b, r));
      if p in ps {
        var i :| 0 <= i < |ps| && ps[i] == p;
        assert all[i] == Execute(b, r);
      }
    }
    forall x | x in all ensures exists b :: b in bs && x == Execute(b, r) {
      if x in Results(ps) {
        var i :| 0 <= i < |ps| && Results(ps)[i] == x;
        assert ps[i] in ps;
      }
    }
  }

  lemma GatheredSorted(ps: seq<Process>, cached: seq<PolicyResult>, bs: seq<Binding>, r: Request)
    requires Gathered(ps, cached, bs, r)
    ensures Gathered(Sorted(ps), cached, bs, r)
  {
    SortedLaws(ps);
    forall p ensures p in Sorted(ps) <==> p in ps {
      assert p in multiset(Sorted(ps)) <==> p in multiset(ps);
    }
    assert |multiset(Sorted(ps))| == |multiset(ps)|;
  }

  class Engine {
    const mode: Mode
    const useCache: bool
    const emptyResult: bool
    const request: Request
    var cache: map<Pk, PolicyResult>          // the entries of this user and session, by binding
    var cached: seq<PolicyResult>             // __cached_policies
    var processes: seq<Process>               // __processes
    var expected: nat                         // __expected_result_count
    var counted: Option<bool>                  // __static_result

    constructor (mode: Mode, useCache: bool, emptyResult: bool, request: Request, cache: map<Pk, PolicyResult>)
      ensures this.mode == mode && this.useCache == useCache && this.emptyResult == emptyResult
      ensures this.request == request && this.cache == cache
      ensures cached == [] && processes == [] && expected == 0 && counted == None
    {
      this.mode, this.useCache, this.emptyResult := mode, useCache, emptyResult;
      this.request, this.cache := request, cache;
      cached, processes, expected, counted := [], [], 0, None;
    }

    /** One binding: its cached result, or a process that evaluates it and caches what did not crash. */
    method EvaluateOne(b: Binding, ghost all: seq<Binding>, ghost done: seq<Binding>)
      requires Distinct(all) && Correct(cache, all, request) && b in all && Gathered(processes, cached, done, request)
      modifies this`cache, this`cached, this`processes
      ensures Correct(cache, all, request) && Gathered(processes, cached, done + [b], request)
      ensures cache == if (useCache && b.pk in old(cache)) || !Cacheable(b, request) then old(cache)
                       else old(cache)[b.pk := Execute(b, request)]
    {
      hide Gathered, Execute, Correct, Distinct, Cacheable;
      ghost var ps, cs := processes, cached;
      if useCache && b.pk in cache {
        CachedIsExecuted(cache, all, b, request);
        cached := cached + [cache[b.pk]];
      } else {
        var result := Execute(b, request);
        if Cacheable(b, request) {
          CacheStaysCorrect(cache, all, b, request);
          cache := cache[b.pk := result];
        }
        processes := processes + [Process(b.order, result)];
      }
      OneMore(ps, cs, done, b, request, processes, cached);
    }

    /** The loop of `build` over the bindings to evaluate. */
    method Evaluate(bs: seq<Binding>, ghost all: seq<Binding>) returns (error: Option<EngineError>)
      requires cached == [] && processes == [] && expected == 0
      requires Distinct(all) && Correct(cache, all, request) && forall b :: b in bs ==> b in all
      modifies this`cache, this`cached, this`processes, this`expected
      ensures error == if exists b :: b in bs && b.policy.Some? && request.isRootType(b.policy.value)
                       then Some(RootPolicy) else None
      ensures Correct(cache, all, request)
      ensures error.None? ==> Gathered(processes, cached, bs, request) && expected == |bs|
      ensures Grown(old(cache), cache, bs, request)
      ensures error.None? ==> forall b :: b in bs && Storable(b, request) ==> b.pk in cache
    {
      hide Gathered, Execute, Correct, Distinct, Cacheable, Storable;
      GatheredNone(request);
      var i := 0;
      while i < |bs|
        invariant 0 <= i <= |bs| && expected == i
        invariant forall j :: 0 <= j < i ==> !(bs[j].policy.Some? && request.isRootType(bs[j].policy.value))
        invariant Correct(cache, all, request)
        invariant Gathered(processes, cached, bs[..i], request)
        invariant Grown(old(cache), cache, bs, request)
        invariant forall b :: b in bs[..i] && Storable(b, request) ==> b.pk in cache
      {
        var b := bs[i];
        expected := expected + 1;
        if b.policy.Some? && request.isRootType(b.policy.value) { return Some(RootPolicy); }
        assert bs[..i + 1] == bs[..i] + [b];
        EvaluateOne(b, all, bs[..i]);
        CacheableExactly(b, request);
        i := i + 1;
      }
      assert bs[..i] == bs;
      return None;
    }

    /** `result`: sorts the processes in place and combines everything. */
    method Result(ghost bs: seq<Binding>) returns (v: Verdict)
      requires Gathered(processes, cached, bs, request) && expected == |bs|
      modifies this`processes
      ensures Ordered(processes) && multiset(processes) == old(multiset(processes))
      ensures v.Verdict? && v.passing == Combined(mode, emptyResult, Results(processes) + cached + Static(counted))
      ensures v.messages == if Results(processes) + cached == [] then [] else Messages(Results(processes) + cached)
      ensures Gathered(processes, cached, bs, request)
    {
      hide Sorted, Execute, AllPass, AnyPass, Messages;
      SortedLaws(processes);
      GatheredSorted(processes, cached, bs, request);
      processes := Sorted(processes);
      var results := Results(processes) + cached;
      if |results| < expected { return Raised(MissingResults); }
      var all := results + Static(counted);
      MessagesStatic(results, counted);
      if |all| == 0 { return Verdict(emptyResult, []); }
      return Verdict(if mode.ModeAll? then AllPass(all) else AnyPass(all), Messages(all));
    }

    /** Engine over a QuerySet: static bindings are counted, policy bindings evaluated. */
    method Check(bs: seq<Binding>) returns (v: Verdict)
      requires cached == [] && processes == [] && expected == 0 && counted == None
      requires Distinct(bs) && Correct(cache, bs, request)
      modifies this
      ensures Correct(cache, bs, request)
      ensures v == Raised(RootPolicy) <==> exists b :: b in bs && b.policy.Some? && request.isRootType(b.policy.value)
      ensures v.Raised? ==> v == Raised(RootPolicy)
      ensures v.Verdict? && AllWellFormed(bs) && request.user.Some? ==>
                (v.passing <==> Expected(mode, emptyResult, bs, request))
    {
      hide Execute, Correct, Distinct, StaticResult, Gathered, Grown, Ordered, Results, Messages;
      counted := StaticResult(bs, request);
      var policies := WithPolicy(bs);
      WithPolicyLaws(bs);
      var error := Evaluate(policies, bs);
      if error.Some? { return Raised(error.value); }
      v := Result(policies);
      if AllWellFormed(bs) && request.user.Some? {
        GatheredPasses(processes, cached, policies, request);
        CountingIsEvaluating(bs, request);
        Closed(mode, emptyResult, bs, policies, Results(processes) + cached, counted, request);
      }
    }

    /** Engine over a plain iterable: every binding is evaluated on its own. */
    method CheckEach(bs: seq<Binding>) returns (v: Verdict)
      requires cached == [] && processes == [] && expected == 0 && counted == None
      requires Distinct(bs) && Correct(cache, bs, request)
      modifies this`cache, this`cached, this`processes, this`expected
      ensures Correct(cache, bs, request)
      ensures v == Raised(RootPolicy) <==> exists b :: b in bs && b.policy.Some? && request.isRootType(b.policy.value)
      ensures v.Verdict? ==> (v.passing <==> ExpectedEach(mode, emptyResult, bs, request))
    {
      hide Execute, Correct, Distinct, Gathered, Grown, Ordered, Results, Messages;
      var error := Evaluate(bs, bs);
      if error.Some? { return Raised(error.value); }
      v := Result(bs);
      GatheredPasses(processes, cached, bs, request);
      assert Results(processes) + cached + [] == Results(processes) + cached;
      assert |Results(processes) + cached| == |bs|;
    }
  }

  ghost predicate ExpectedEach(mode: Mode, empty: bool, bs: seq<Binding>, r: Request)
  {
    if bs == [] then empty
    else if mode.ModeAny? then exists b :: b in bs && Grants(b, r)
    else forall b :: b in bs ==> Grants(b, r)
  }

  // ---------------------------------------------------------------------------
  // Lemmas of the engine
  // ---------------------------------------------------------------------------

  function WithPolicy(bs: seq<Binding>): seq<Binding>
  {
    if bs == [] then [] else (if bs[0].policy.Some? then [bs[0]] else []) + WithPolicy(bs[1..])
  }

  lemma {:induction false} WithPolicyMembers(bs: seq<Binding>, b: Binding)
    ensures b in WithPolicy(bs) <==> b in bs && b.policy.Some?
  {
    if bs != [] {
      WithPolicyMembers(bs[1..], b);
      assert bs == [bs[0]] + bs[1..];
    }
  }

  lemma {:induction false} WithPolicyDistinct(bs: seq<Binding>)
    requires Distinct(bs)
    ensures Distinct(WithPolicy(bs))
  {
    if bs != [] {
      WithPolicyDistinct(bs[1..]);
      var rest := WithPolicy(bs[1..]);
      forall j | 0 <= j < |rest| ensures rest[j].pk != bs[0].pk {
        WithPolicyMembers(bs[1..], rest[j]);
        var k :| 0 <= k < |bs| - 1 && bs[1..][k] == rest[j];
        assert bs[k + 1] == rest[j];
      }
    }
  }

  lemma WithPolicyLaws(bs: seq<Binding>)
    requires Distinct(bs)
    ensures Distinct(WithPolicy(bs)) && forall b :: b in WithPolicy(bs) <==> b in bs && b.policy.Some?
  {
    WithPolicyDistinct(bs);
    forall b ensures b in WithPolicy(bs) <==> b in bs && b.policy.Some? { WithPolicyMembers(bs, b); }
  }

  lemma CachedIsExecuted(cache: map<Pk, PolicyResult>, bs: seq<Binding>, b: Binding, r: Request)
    requires Correct(cache, bs, r) && b in bs && b.pk in cache
    ensures cache[b.pk] == Execute(b, r)
  {
  }

  lemma CacheStaysCorrect(cache: map<Pk, PolicyResult>, bs: seq<Binding>, b: Binding, r: Request)
    requires b in bs && Distinct(bs) && Correct(cache, bs, r)
    ensures Correct(cache[b.pk := Execute(b, r)], bs, r)
  {
    hide Execute;
    var i :| 0 <= i < |bs| && bs[i] == b;
    forall c | c in bs && c.pk == b.pk ensures c == b {
      var j :| 0 <= j < |bs| && bs[j] == c;
      assert i == j;
    }
  }

  lemma GatheredNone(r: Request)
    ensures Gathered([], [], [], r)
  {
  }

  lemma MessagesStatic(rs: seq<PolicyResult>, counted: Option<bool>)
    ensures Messages(rs + Static(counted)) == if rs == [] then [] else Messages(rs)
  {
    if counted.Some? {
      var last := PolicyResult(counted.value, []);
      assert (rs + [last])[..|rs|] == rs;
      assert Messages(rs) + [] == Messages(rs);
    } else {
      assert rs + [] == rs;
    }
  }

  lemma OneMore(ps: seq<Process>, cs: seq<PolicyResult>, bs: seq<Binding>, b: Binding, r: Request,
                ps': seq<Process>, cs': seq<PolicyResult>)
    requires Gathered(ps, cs, bs, r)
    requires (ps' == ps + [Process(b.order, Execute(b, r))] && cs' == cs) || (ps' == ps && cs' == cs + [Execute(b, r)])
    ensures Gathered(ps', cs', bs + [b], r)
  {
    assert b in bs + [b];
    assert forall x :: x in bs ==> x in bs + [b];
  }

  /** The closed form of the verdict. */
  lemma Closed(mode: Mode, empty: bool, bs: seq<Binding>, policies: seq<Binding>, rs: seq<PolicyResult>,
               counted: Option<bool>, r: Request)
    requires AllWellFormed(bs) && |rs| == |policies|
    requires forall b :: b in policies <==> b in bs && b.policy.Some?
    requires AllPass(rs) <==> forall b :: b in policies ==> Grants(b, r)
    requires AnyPass(rs) <==> exists b :: b in policies && Grants(b, r)
    requires counted.None? <==> forall b :: b in bs ==> !IsStatic(b)
    requires counted.Some? ==> (counted.value <==> exists b :: b in bs && IsStatic(b) && Grants(b, r))
    ensures Combined(mode, empty, rs + Static(counted)) <==> Expected(mode, empty, bs, r)
  {
    hide Execute;
    var last := Static(counted);
    var all := rs + last;
    assert AllPass(all) <==> AllPass(rs) && AllPass(last);
    assert AnyPass(all) <==> AnyPass(rs) || AnyPass(last);
    assert counted.Some? ==> last[0] in last;
    assert policies != [] ==> policies[0] in policies;
    if bs != [] {
      assert bs[0] in bs;
      assert all != [];
    }
  }

  /**
   Counting and evaluating one by one always agree in MODE_ANY.  In MODE_ALL they agree unless every
   policy passes while the static bindings disagree among themselves.
   */
  lemma CountingAgainstEach(empty: bool, bs: seq<Binding>, r: Request)
    requires AllWellFormed(bs)
    ensures Expected(ModeAny, empty, bs, r) <==> ExpectedEach(ModeAny, empty, bs, r)
    ensures (Expected(ModeAll, empty, bs, r) <==> ExpectedEach(ModeAll, empty, bs, r)) <==>
            !(&& (forall b :: b in bs && b.policy.Some? ==> Grants(b, r))
              && (exists b :: b in bs && IsStatic(b) && Grants(b, r))
              && (exists b :: b in bs && IsStatic(b) && !Grants(b, r)))
    ensures (forall a, b :: a in bs && b in bs && IsStatic(a) && IsStatic(b) ==> a == b) ==>
              (Expected(ModeAll, empty, bs, r) <==> ExpectedEach(ModeAll, empty, bs, r))
  {
  }

  function ForUser(pk: Pk, user: Pk): Binding { Binding(pk, None, None, Some(user), false, false, 0) }

  /** A witness: one user binding fits, another does not; counting passes and evaluating does not. */
  lemma StaticBindingsDisagree(r: Request)
    requires r.user == Some("u")
    ensures var bs := [ForUser("1", "u"), ForUser("2", "v")];
            AllWellFormed(bs) && Expected(ModeAll, true, bs, r) && !ExpectedEach(ModeAll, true, bs, r)
  {
    var fits, other := ForUser("1", "u"), ForUser("2", "v");
    assert fits in [fits, other] && IsStatic(fits) && Grants(fits, r);
    assert other in [fits, other] && !Grants(other, r);
  }
}
