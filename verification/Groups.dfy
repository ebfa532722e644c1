/**
 Group hierarchies (authentik/core/models.py): the depth-limited recursive query that climbs from a
 user's groups to their parents, against the closure it stands for.
 */
module Groups {
  import opened Common

  const GROUP_RECURSION_LIMIT := 20

  /** The `parent` column of the groups that have one; nothing rules out cycles. */
  type Parents<!G> = map<G, G>

  datatype Row<G> = Row(group: G, depth: nat)

  // ---------------------------------------------------------------------------
  // The closure
  // ---------------------------------------------------------------------------

  /** `a` is `n` parents above `g`. */
  predicate Above<G(==)>(parents: Parents<G>, g: G, n: nat, a: G)
  {
    if n == 0 then a == g else g in parents && Above(parents, parents[g], n - 1, a)
  }

  ghost predicate Ancestor<G>(parents: Parents<G>, g: G, a: G) { exists n: nat :: Above(parents, g, n, a) }

  ghost function Known<G>(parents: Parents<G>, starts: set<G>): set<G>
  {
    starts + parents.Keys + parents.Values
  }

  /** The groups of `starts` and all their ancestors. */
  ghost function Closure<G>(parents: Parents<G>, starts: set<G>): set<G>
  {
    set a | a in Known(parents, starts) && exists g :: g in starts && Ancestor(parents, g, a)
  }

  lemma {:induction false} AboveIsKnown<G>(parents: Parents<G>, starts: set<G>, g: G, n: nat, a: G)
    requires g in Known(parents, starts) && Above(parents, g, n, a)
    ensures a in Known(parents, starts)
  {
    if n > 0 {
      assert parents[g] in parents.Values;
      AboveIsKnown(parents, starts, parents[g], n - 1, a);
    }
  }

  lemma InClosure<G>(parents: Parents<G>, starts: set<G>, g: G, n: nat, a: G)
    requires g in starts && Above(parents, g, n, a)
    ensures a in Closure(parents, starts)
  {
    AboveIsKnown(parents, starts, g, n, a);
    assert Ancestor(parents, g, a);
  }

  lemma {:induction false} AboveCompose<G>(parents: Parents<G>, g: G, m: nat, a: G, n: nat, b: G)
    requires Above(parents, g, m, a) && Above(parents, a, n, b)
    ensures Above(parents, g, m + n, b)
  {
    if m > 0 { AboveCompose(parents, parents[g], m - 1, a, n, b); }
  }

  /** The group `m` steps up on the way to a group `n` steps up. */
  ghost function OnTheWay<G>(parents: Parents<G>, g: G, n: nat, a: G, m: nat): (b: G)
    requires Above(parents, g, n, a) && m <= n
    ensures Above(parents, g, m, b) && Above(parents, b, n - m, a)
  {
    if m == 0 then g else OnTheWay(parents, parents[g], n - 1, a, m - 1)
  }

  // ---------------------------------------------------------------------------
  // The recursive query
  // ---------------------------------------------------------------------------

  /** One iteration of the recursive part: join every row of the previous one with its parent. */
  function Climbed<G(==)>(parents: Parents<G>, rows: seq<Row<G>>): seq<Row<G>>
  {
    if rows == [] then []
    else (if rows[0].group in parents && rows[0].depth + 1 < GROUP_RECURSION_LIMIT
          then [Row(parents[rows[0].group], rows[0].depth + 1)] else []) + Climbed(parents, rows[1..])
  }

  ghost predicate Justified<G>(parents: Parents<G>, starts: seq<G>, r: Row<G>)
  {
    r.depth < GROUP_RECURSION_LIMIT && exists g :: g in starts && Above(parents, g, r.depth, r.group)
  }

  /** Evaluates WITH RECURSIVE ... UNION ALL as the database does, one level at a time. */
  method WithParents<G(==)>(parents: Parents<G>, starts: seq<G>) returns (rows: seq<Row<G>>)
    ensures |rows| <= GROUP_RECURSION_LIMIT * |starts|
    ensures forall r :: r in rows <==> Justified(parents, starts, r)
  {
    hide Justified, Climbed;
    var level := seq(|starts|, i requires 0 <= i < |starts| => Row(starts[i], 0));
    rows := level;
    ghost var depth, room := 0, GROUP_RECURSION_LIMIT * |starts| - |starts|;
    LevelZero(parents, starts, level);
    while level != []
      invariant depth < GROUP_RECURSION_LIMIT || level == []
      invariant depth <= GROUP_RECURSION_LIMIT && |level| <= |starts|
      invariant |rows| + room == GROUP_RECURSION_LIMIT * |starts|
      invariant room >= (GROUP_RECURSION_LIMIT - 1 - depth) * |starts| && room >= 0
      invariant forall r :: r in level <==> Justified(parents, starts, r) && r.depth == depth
      invariant forall r :: r in rows <==> Justified(parents, starts, r) && r.depth <= depth
      decreases GROUP_RECURSION_LIMIT - depth
    {
      ClimbedLevel(parents, starts, level, depth);
      level := Climbed(parents, level);
      rows := rows + level;
      Room(depth, |level|, |starts|, room);
      depth, room := depth + 1, room - |level|;
    }
    NoneBeyond(parents, starts, depth);
  }

  lemma Room(depth: nat, level: nat, starts: nat, room: int)
    requires level <= starts && (depth + 1 >= GROUP_RECURSION_LIMIT ==> level == 0)
    requires room >= (GROUP_RECURSION_LIMIT - 1 - depth) * starts && room >= 0
    ensures room - level >= (GROUP_RECURSION_LIMIT - 1 - (depth + 1)) * starts && room - level >= 0
  {
    var left := GROUP_RECURSION_LIMIT - 1 - depth;
    assert left * starts == (left - 1) * starts + starts;
    if left >= 1 { assert (left - 1) * starts >= 0; }
  }

  lemma LevelZero<G>(parents: Parents<G>, starts: seq<G>, level: seq<Row<G>>)
    requires level == seq(|starts|, i requires 0 <= i < |starts| => Row(starts[i], 0))
    ensures forall r :: r in level <==> Justified(parents, starts, r) && r.depth == 0
  {
    forall r | Justified(parents, starts, r) && r.depth == 0 ensures r in level {
      var g :| g in starts && Above(parents, g, 0, r.group);
      var i :| 0 <= i < |starts| && starts[i] == g;
      assert level[i] == r;
    }
    forall r | r in level ensures Justified(parents, starts, r) {
      assert Above(parents, r.group, 0, r.group);
    }
  }

  lemma {:induction false} ClimbedRows<G>(parents: Parents<G>, rows: seq<Row<G>>, r: Row<G>)
    ensures |Climbed(parents, rows)| <= |rows|
    ensures r in Climbed(parents, rows) <==>
            exists q :: q in rows && q.group in parents && q.depth + 1 < GROUP_RECURSION_LIMIT
                        && r == Row(parents[q.group], q.depth + 1)
  {
    if rows != [] {
      ClimbedRows(parents, rows[1..], r);
      assert rows == [rows[0]] + rows[1..];
    }
  }

  lemma {:induction false} AboveLast<G>(parents: Parents<G>, g: G, n: nat, a: G)
    ensures Above(parents, g, n + 1, a) <==>
            exists b :: Above(parents, g, n, b) && b in parents && parents[b] == a
  {
    if Above(parents, g, n + 1, a) {
      var b := OnTheWay(parents, g, n + 1, a, n);
      assert Above(parents, b, 1, a);
      assert Above(parents, parents[b], 0, a);
    }
    forall b | Above(parents, g, n, b) && b in parents && parents[b] == a
      ensures Above(parents, g, n + 1, a)
    {
      assert Above(parents, parents[b], 0, a);
      assert Above(parents, b, 1, a);
      AboveCompose(parents, g, n, b, 1, a);
    }
  }

  lemma JustifiedStep<G>(parents: Parents<G>, starts: seq<G>, r: Row<G>)
    requires r.depth > 0
    ensures Justified(parents, starts, r) <==>
            exists q :: Justified(parents, starts, q) && q.group in parents && q.depth + 1 < GROUP_RECURSION_LIMIT
                        && r == Row(parents[q.group], q.depth + 1)
  {
    if Justified(parents, starts, r) {
      var g :| g in starts && Above(parents, g, r.depth, r.group);
      AboveLast(parents, g, r.depth - 1, r.group);
      var b :| Above(parents, g, r.depth - 1, b) && b in parents && parents[b] == r.group;
      var q := Row(b, r.depth - 1);
      assert Justified(parents, starts, q) && r == Row(parents[q.group], q.depth + 1);
    }
    forall q | Justified(parents, starts, q) && q.group in parents && q.depth + 1 < GROUP_RECURSION_LIMIT
               && r == Row(parents[q.group], q.depth + 1)
      ensures Justified(parents, starts, r)
    {
      var g :| g in starts && Above(parents, g, q.depth, q.group);
      AboveLast(parents, g, q.depth, r.group);
    }
  }

  lemma ClimbedLevel<G>(parents: Parents<G>, starts: seq<G>, level: seq<Row<G>>, depth: nat)
    requires forall r :: r in level <==> Justified(parents, starts, r) && r.depth == depth
    ensures |Climbed(parents, level)| <= |level|
    ensures depth + 1 >= GROUP_RECURSION_LIMIT ==> Climbed(parents, level) == []
    ensures forall r :: r in Climbed(parents, level) <==> Justified(parents, starts, r) && r.depth == depth + 1
  {
    hide Justified;
    forall r ensures r in Climbed(parents, level) <==> Justified(parents, starts, r) && r.depth == depth + 1 {
      ClimbedRows(parents, level, r);
      if r.depth > 0 { JustifiedStep(parents, starts, r); }
    }
    if Climbed(parents, level) != [] { ClimbedRows(parents, level, Climbed(parents, level)[0]); }
    if level != [] { ClimbedRows(parents, level, level[0]); }
  }

  lemma NoneBeyond<G>(parents: Parents<G>, starts: seq<G>, depth: nat)
    requires forall r :: !(Justified(parents, starts, r) && r.depth == depth)
    ensures forall r :: Justified(parents, starts, r) ==> r.depth < depth
  {
    forall r | Justified(parents, starts, r) ensures r.depth < depth {
      if r.depth >= depth {
        var g :| g in starts && Above(parents, g, r.depth, r.group);
        var q := Row(OnTheWay(parents, g, r.depth, r.group, depth), depth);
        assert Justified(parents, starts, q);
      }
    }
  }

  // ---------------------------------------------------------------------------
  // Query against closure
  // ---------------------------------------------------------------------------

  /** The groups the query returns. */
  ghost function Climb<G>(parents: Parents<G>, starts: set<G>): set<G>
  {
    set a | a in Known(parents, starts) && Within(parents, starts, a)
  }

  ghost predicate Within<G>(parents: Parents<G>, starts: set<G>, a: G)
  {
    exists g :: g in starts && Near(parents, g, GROUP_RECURSION_LIMIT, a)
  }

  ghost predicate Near<G>(parents: Parents<G>, g: G, limit: nat, a: G)
  {
    exists n: nat :: n < limit && Above(parents, g, n, a)
  }

  /** Every starting chain visits at most 20 distinct groups. */
  ghost predicate Short<G>(parents: Parents<G>, starts: set<G>)
  {
    forall g :: g in starts ==> |Closure(parents, {g})| <= GROUP_RECURSION_LIMIT
  }

  /** On every parent graph, cyclic or not, the query returns only groups of the closure. */
  lemma QueryIsSound<G>(parents: Parents<G>, starts: set<G>)
    ensures starts <= Climb(parents, starts) <= Closure(parents, starts)
  {
    forall g | g in starts ensures g in Climb(parents, starts) {
      assert Above(parents, g, 0, g);
      assert Near(parents, g, GROUP_RECURSION_LIMIT, g);
    }
    forall a | a in Climb(parents, starts) ensures a in Closure(parents, starts) {
      var g :| g in starts && Near(parents, g, GROUP_RECURSION_LIMIT, a);
      var n: nat :| n < GROUP_RECURSION_LIMIT && Above(parents, g, n, a);
      InClosure(parents, starts, g, n, a);
    }
  }

  /** The fewest steps from `g` to its ancestor `a`. */
  ghost function Distance<G>(parents: Parents<G>, g: G, a: G): (n: nat)
    requires Ancestor(parents, g, a)
    ensures Above(parents, g, n, a) && forall m: nat :: m < n ==> !Above(parents, g, m, a)
  {
    var n: nat :| Above(parents, g, n, a); Least(parents, g, a, n)
  }

  ghost function Least<G>(parents: Parents<G>, g: G, a: G, n: nat): (m: nat)
    requires Above(parents, g, n, a)
    ensures Above(parents, g, m, a) && forall k: nat :: k < m ==> !Above(parents, g, k, a)
  {
    if exists k: nat :: k < n && Above(parents, g, k, a)
    then var k: nat :| k < n && Above(parents, g, k, a); Least(parents, g, a, k)
    else n
  }

  lemma NearMore<G>(parents: Parents<G>, g: G, limit: nat, a: G)
    requires Near(parents, g, limit, a)
    ensures Near(parents, g, limit + 1, a)
  {
    var n: nat :| n < limit && Above(parents, g, n, a);
  }

  lemma NotMetBefore<G>(parents: Parents<G>, g: G, a: G, m: nat, b: G)
    requires Ancestor(parents, g, a) && m <= Distance(parents, g, a)
    requires Above(parents, b, Distance(parents, g, a) - m, a)
    ensures !Near(parents, g, m, b)
  {
    var d := Distance(parents, g, a);
    forall k: nat | k < m && Above(parents, g, k, b) ensures false {
      AboveCompose(parents, g, k, b, d - m, a);
    }
  }

  /** The groups met on the first `m` steps of the shortest way to `a` are all different. */
  lemma {:induction false} ShortestWay<G>(parents: Parents<G>, g: G, a: G, m: nat) returns (met: set<G>)
    requires Ancestor(parents, g, a) && m <= Distance(parents, g, a) + 1
    ensures |met| == m && met <= Closure(parents, {g})
    ensures forall b :: b in met ==> Near(parents, g, m, b)
  {
    hide Closure;
    if m == 0 {
      met := {};
    } else {
      met := ShortestWay(parents, g, a, m - 1);
      forall b | b in met ensures Near(parents, g, m, b) { NearMore(parents, g, m - 1, b); }
      var d := Distance(parents, g, a);
      var b := OnTheWay(parents, g, d, a, m - 1);
      assert b !in met by { NotMetBefore(parents, g, a, m - 1, b); }
      InClosure(parents, {g}, g, m - 1, b);
      assert Near(parents, g, m, b);
      met := met + {b};
    }
  }

  /** An ancestor is found whenever the chain from one starting group visits at most 20 groups. */
  lemma ShortChainIsFound<G>(parents: Parents<G>, g: G, a: G)
    requires Ancestor(parents, g, a) && |Closure(parents, {g})| <= GROUP_RECURSION_LIMIT
    ensures Near(parents, g, GROUP_RECURSION_LIMIT, a)
  {
    var met := ShortestWay(parents, g, a, Distance(parents, g, a) + 1);
    SubsetSize(met, Closure(parents, {g}));
  }

  /** One more level of the query would find no new group. */
  ghost predicate Settled<G(!new)>(parents: Parents<G>, starts: set<G>)
  {
    forall g, b :: g in starts && Above(parents, g, GROUP_RECURSION_LIMIT, b) ==> b in Climb(parents, starts)
  }

  /** A way past the limit is shortened, from another start, until it is within the limit. */
  lemma {:induction false} SettledFinds<G(!new)>(parents: Parents<G>, starts: set<G>, g: G, n: nat, a: G)
    requires Settled(parents, starts) && g in starts && Above(parents, g, n, a)
    ensures a in Climb(parents, starts)
    decreases n
  {
    hide Above;
    if n < GROUP_RECURSION_LIMIT {
      Found(parents, starts, g, a);
    } else {
      var b := OnTheWay(parents, g, n, a, GROUP_RECURSION_LIMIT);
      var g' :| g' in starts && Near(parents, g', GROUP_RECURSION_LIMIT, b);
      var m: nat :| m < GROUP_RECURSION_LIMIT && Above(parents, g', m, b);
      AboveCompose(parents, g', m, b, n - GROUP_RECURSION_LIMIT, a);
      SettledFinds(parents, starts, g', m + n - GROUP_RECURSION_LIMIT, a);
    }
  }

  /**
   For any number of starting groups the query is the closure exactly when one more level would find
   nothing new; it is enough that every starting chain visits at most 20 distinct groups.
   */
  lemma QueryIsClosure<G(!new)>(parents: Parents<G>, starts: set<G>)
    ensures Climb(parents, starts) == Closure(parents, starts) <==> Settled(parents, starts)
    ensures Short(parents, starts) ==> Climb(parents, starts) == Closure(parents, starts)
  {
    hide Closure, Climb, Above;
    QueryIsSound(parents, starts);
    if Climb(parents, starts) == Closure(parents, starts) {
      forall g, b | g in starts && Above(parents, g, GROUP_RECURSION_LIMIT, b) ensures b in Climb(parents, starts) {
        InClosure(parents, starts, g, GROUP_RECURSION_LIMIT, b);
      }
    }
    forall a | a in Closure(parents, starts) && (Settled(parents, starts) || Short(parents, starts))
      ensures a in Climb(parents, starts)
    {
      var g := StartOf(parents, starts, a);
      if Settled(parents, starts) {
        SettledFinds(parents, starts, g, Distance(parents, g, a), a);
      } else {
        ShortChainIsFound(parents, g, a);
        Found(parents, starts, g, a);
      }
    }
  }

  lemma StartOf<G>(parents: Parents<G>, starts: set<G>, a: G) returns (g: G)
    requires a in Closure(parents, starts)
    ensures g in starts && Ancestor(parents, g, a)
  {
    g :| g in starts && Ancestor(parents, g, a);
  }

  lemma Found<G>(parents: Parents<G>, starts: set<G>, g: G, a: G)
    requires g in starts && Near(parents, g, GROUP_RECURSION_LIMIT, a)
    ensures a in Climb(parents, starts)
  {
    var n: nat :| n < GROUP_RECURSION_LIMIT && Above(parents, g, n, a);
    AboveIsKnown(parents, starts, g, n, a);
  }

  /** For one starting group that condition is exact: a longer chain always loses an ancestor. */
  lemma OneChainExactly<G(!new)>(parents: Parents<G>, g: G)
    ensures Climb(parents, {g}) == Closure(parents, {g}) <==> |Closure(parents, {g})| <= GROUP_RECURSION_LIMIT
  {
    if |Closure(parents, {g})| <= GROUP_RECURSION_LIMIT {
      QueryIsClosure(parents, {g});
    } else if Climb(parents, {g}) == Closure(parents, {g}) {
      hide Near, Closure;
      AtMostOnePerStep(parents, g, Climb(parents, {g}), GROUP_RECURSION_LIMIT);
    }
  }

  /** The groups met on the first `limit` steps up from `g`. */
  ghost function Path<G>(parents: Parents<G>, g: G, limit: nat): set<G>
  {
    if limit == 0 then {} else {g} + if g in parents then Path(parents, parents[g], limit - 1) else {}
  }

  lemma {:induction false} PathIsShort<G>(parents: Parents<G>, g: G, limit: nat)
    ensures |Path(parents, g, limit)| <= limit
  {
    if limit > 0 && g in parents { PathIsShort(parents, parents[g], limit - 1); }
  }

  lemma {:induction false} NearIsOnPath<G>(parents: Parents<G>, g: G, limit: nat, n: nat, a: G)
    requires n < limit && Above(parents, g, n, a)
    ensures a in Path(parents, g, limit)
  {
    if n > 0 { NearIsOnPath(parents, parents[g], limit - 1, n - 1, a); }
  }

  lemma AtMostOnePerStep<G>(parents: Parents<G>, g: G, found: set<G>, limit: nat)
    requires forall a :: a in found ==> Near(parents, g, limit, a)
    ensures |found| <= limit
  {
    forall a | a in found ensures a in Path(parents, g, limit) {
      var n: nat :| n < limit && Above(parents, g, n, a);
      NearIsOnPath(parents, g, limit, n, a);
    }
    SubsetSize(found, Path(parents, g, limit));
    PathIsShort(parents, g, limit);
  }

  lemma {:induction false} StraightLine(parents: Parents<int>, top: int, g: int, n: nat, a: int)
    requires forall i :: i in parents <==> 0 <= i < top
    requires forall i :: 0 <= i < top ==> parents[i] == i + 1
    requires 0 <= g && g + n <= top
    ensures Above(parents, g, n, a) <==> a == g + n
    decreases n
  {
    if n > 0 { StraightLine(parents, top, g + 1, n - 1, a); }
  }

  /** A witness: a group 20 parents up is an ancestor, and the query does not return it. */
  lemma TwentiethParentIsLost(parents: Parents<int>)
    requires forall i :: i in parents <==> 0 <= i < 20
    requires forall i :: 0 <= i < 20 ==> parents[i] == i + 1
    ensures 20 in Closure(parents, {0}) && 20 !in Climb(parents, {0})
  {
    var top := 20;
    StraightLine(parents, top, 0, top, top);
    InClosure(parents, {0}, 0, top, top);
    forall n: nat | n < top ensures !Above(parents, 0, n, top) { StraightLine(parents, top, 0, n, top); }
  }

  // ---------------------------------------------------------------------------
  // Membership
  // ---------------------------------------------------------------------------

  datatype User<G> = User(groups: seq<G>)

  function ToSet<G(==)>(xs: seq<G>): set<G> { set x | x in xs }

  lemma RowsAreClimb<G>(parents: Parents<G>, starts: seq<G>, a: G)
    ensures a in Climb(parents, ToSet(starts)) <==> exists r :: Justified(parents, starts, r) && r.group == a
  {
    if a in Climb(parents, ToSet(starts)) {
      var g :| g in ToSet(starts) && Near(parents, g, GROUP_RECURSION_LIMIT, a);
      var n: nat :| n < GROUP_RECURSION_LIMIT && Above(parents, g, n, a);
      assert Justified(parents, starts, Row(a, n));
    }
    forall r | Justified(parents, starts, r) && r.group == a ensures a in Climb(parents, ToSet(starts)) {
      var g :| g in starts && Above(parents, g, r.depth, a);
      AboveIsKnown(parents, ToSet(starts), g, r.depth, a);
      assert Near(parents, g, GROUP_RECURSION_LIMIT, a);
      assert Within(parents, ToSet(starts), a);
    }
  }

  /** `User.all_groups`, as the set of groups in the rows. */
  method AllGroups<G(==)>(parents: Parents<G>, user: User<G>) returns (all: set<G>)
    ensures all == Climb(parents, ToSet(user.groups))
  {
    var rows := WithParents(parents, user.groups);
    all := set r | r in rows :: r.group;
    forall a ensures a in all <==> a in Climb(parents, ToSet(user.groups)) {
      RowsAreClimb(parents, user.groups, a);
    }
  }

  /**
   `Group.is_member` and `User.is_superuser`: exact about ancestors fewer than 20 parents up, hence sound,
   and exact about all ancestors when one more level would find nothing new.
   */
  method Membership<G(==,!new)>(parents: Parents<G>, superuser: set<G>, user: User<G>, group: G)
    returns (isMember: bool, isSuperuser: bool)
    ensures isMember <==> Within(parents, ToSet(user.groups), group)
    ensures isSuperuser <==> exists a :: a in superuser && Within(parents, ToSet(user.groups), a)
    ensures var closure := Closure(parents, ToSet(user.groups));
            && (isMember ==> group in closure)
            && (isSuperuser ==> superuser * closure != {})
            && (Settled(parents, ToSet(user.groups)) ==>
                  (isMember <==> group in closure) && (isSuperuser <==> superuser * closure != {}))
  {
    hide Closure, Settled, Climb;
    var all := AllGroups(parents, user);
    isMember, isSuperuser := group in all, superuser * all != {};
    QueryIsSound(parents, ToSet(user.groups));
    QueryIsClosure(parents, ToSet(user.groups));
    forall a ensures a in all <==> Within(parents, ToSet(user.groups), a) { InClimb(parents, ToSet(user.groups), a); }
    if isSuperuser { var a :| a in superuser * all; }
    if a :| a in superuser && a in all { assert a in superuser * all; }
  }

  lemma InClimb<G>(parents: Parents<G>, starts: set<G>, a: G)
    ensures a in Climb(parents, starts) <==> Within(parents, starts, a)
  {
    if Within(parents, starts, a) {
      var g :| g in starts && Near(parents, g, GROUP_RECURSION_LIMIT, a);
      Found(parents, starts, g, a);
    }
  }
}
