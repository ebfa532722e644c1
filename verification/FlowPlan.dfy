/**
 The flow plan (authentik/flows/planner.py, authentik/flows/markers.py): two parallel lists edited
 in place, and what every run of edits keeps.
 */
module FlowPlans {
  import opened Common

  /** StageMarker has no handler; ReevaluateMarker asks the policies of a binding again. */
  datatype Marker<B> = StageMarker | ReevaluateMarker(binding: B)

  /** A plan entry: a binding together with its own marker. */
  datatype Entry<B> = Entry(binding: B, marker: Marker<B>)

  /** Where Python's `list.insert` puts an element: a negative index counts back, both ends clamp. */
  function Position(length: nat, index: int): (i: nat)
    ensures i <= length
    ensures 0 <= index <= length ==> i == index
    ensures index < 0 <= length + index ==> i == length + index
    ensures (index > length ==> i == length) && (length + index < 0 ==> i == 0)
  {
    var n := if index < 0 then index + length else index;
    if n < 0 then 0 else if n > length then length else n
  }

  function InsertAt<T>(xs: seq<T>, index: int, x: T): seq<T>
  {
    var i := Position(|xs|, index);
    xs[..i] + [x] + xs[i..]
  }

  /** The new element is at its position, and the others keep their order around it. */
  lemma InsertedAt<T>(xs: seq<T>, index: int, x: T)
    ensures var r, i := InsertAt(xs, index, x), Position(|xs|, index);
            && |r| == |xs| + 1 && r[i] == x
            && (forall k :: 0 <= k < i ==> r[k] == xs[k])
            && (forall k :: i < k < |r| ==> r[k] == xs[k - 1])
  {
  }

  /** `StageMarker.process` accepts; `ReevaluateMarker.process` asks the policies of its binding. */
  predicate Accepts<B>(e: Entry<B>, passes: B -> bool)
  {
    match e.marker case StageMarker => true case ReevaluateMarker(b) => passes(b)
  }

  /** The length of the longest rejected prefix. */
  function Rejected<B>(plan: seq<Entry<B>>, passes: B -> bool): (n: nat)
    ensures n <= |plan|
  {
    if plan == [] || Accepts(plan[0], passes) then 0 else 1 + Rejected(plan[1..], passes)
  }

  /** Exactly the stages in front that are re-evaluated and whose policies do not pass are dropped. */
  lemma {:induction false} RejectedExactly<B>(plan: seq<Entry<B>>, passes: B -> bool)
    ensures var n := Rejected(plan, passes);
            && (forall i :: 0 <= i < n ==> plan[i].marker.ReevaluateMarker? && !passes(plan[i].marker.binding))
            && (n < |plan| ==> plan[n].marker.StageMarker? || passes(plan[n].marker.binding))
  {
    if plan != [] { RejectedExactly(plan[1..], passes); }
  }

  class FlowPlan<B(==)> {
    var bindings: seq<B>
    var markers: seq<Marker<B>>

    ghost predicate Valid() reads this { |bindings| == |markers| }

    /** The plan as the list of pairs the two lists stand for. */
    ghost function Plan(): (p: seq<Entry<B>>)
      requires Valid()
      reads this
      ensures |p| == |bindings| && forall i :: 0 <= i < |p| ==> p[i] == Entry(bindings[i], markers[i])
    {
      seq(|bindings|, i requires 0 <= i < |bindings| && Valid() reads this => Entry(bindings[i], markers[i]))
    }

    constructor ()
      ensures Valid() && Plan() == []
    {
      bindings, markers := [], [];
    }

    method Append(binding: B, marker: Option<Marker<B>>)
      requires Valid()
      modifies this
      ensures Valid() && Plan() == old(Plan()) + [Entry(binding, if marker.Some? then marker.value else StageMarker)]
    {
      bindings := bindings + [binding];
      markers := markers + [if marker.Some? then marker.value else StageMarker];
    }

    method InsertStage(binding: B, marker: Option<Marker<B>>, index: int)
      requires Valid()
      modifies this
      ensures Valid()
      ensures Plan() == InsertAt(old(Plan()), index, Entry(binding, if marker.Some? then marker.value else StageMarker))
    {
      var m := if marker.Some? then marker.value else StageMarker;
      InsertedAt(bindings, index, binding);
      InsertedAt(markers, index, m);
      InsertedAt(Plan(), index, Entry(binding, m));
      bindings, markers := InsertAt(bindings, index, binding), InsertAt(markers, index, m);
      hide InsertAt, Position;
    }

    /** Returns the first accepted binding and drops exactly the rejected entries before it. */
    method Next(passes: B -> bool) returns (r: Option<B>)
      requires Valid()
      modifies this
      ensures Valid() && Plan() == old(Plan())[Rejected(old(Plan()), passes)..]
      ensures r == if Plan() == [] then None else Some(Plan()[0].binding)
      decreases |bindings|
    {
      if |markers| + |bindings| == 0 { return None; }
      var binding, marker := bindings[0], markers[0];
      ghost var before := Plan();
      assert before[0] == Entry(binding, marker);
      if marker.StageMarker? || passes(marker.binding) { return Some(binding); }
      bindings, markers := RemoveFirst(bindings, binding), RemoveFirst(markers, marker);
      assert Plan() == before[1..];
      if |markers| + |bindings| == 0 { return None; }
      r := Next(passes);
    }

    method Pop()
      requires Valid()
      modifies this
      ensures Valid() && Plan() == if old(Plan()) == [] then [] else old(Plan())[1..]
    {
      if markers == [] && bindings == [] { return; }
      markers, bindings := markers[1..], bindings[1..];
    }

    method Perform(edit: Edit<B>)
      requires Valid()
      modifies this
      ensures Valid() && Plan() == Do(History(old(Plan()), [], []), edit).left
    {
      match edit
      case Append(e) => Append(e.binding, Some(e.marker));
      case Insert(e, index) => InsertStage(e.binding, Some(e.marker), index);
      case Next(passes) => var _ := Next(passes);
      case Pop => Pop();
    }

    /** Any run of edits on the object is the run on the pairs it stands for. */
    method Play(edits: seq<Edit<B>>)
      requires Valid()
      modifies this
      ensures Valid() && Plan() == Run(old(Plan()), edits).left
    {
      hide Do;
      var i := 0;
      while i < |edits|
        invariant 0 <= i <= |edits| && Valid() && Plan() == Run(old(Plan()), edits[..i]).left
      {
        assert edits[..i + 1][..i] == edits[..i];
        SameLeft(History(Plan(), [], []), Run(old(Plan()), edits[..i]), edits[i]);
        Perform(edits[i]);
        i := i + 1;
      }
      assert edits[..i] == edits;
    }

    /** `requires_flow_executor`; the strict zip is what needs the two lists to be equally long. */
    method RequiresFlowExecutor<V(==)>(view: B -> V, silent: set<V>) returns (r: bool)
      requires Valid()
      ensures r <==>
                || silent == {}
                || exists e :: e in Plan() && (e.marker.ReevaluateMarker? || view(e.binding) !in silent)
    {
      if silent == {} { return true; }
      r := false;
      var i := 0;
      while i < |bindings|
        invariant 0 <= i <= |bindings|
        invariant r <==> exists j :: 0 <= j < i && Unskippable(Plan()[j], view, silent)
      {
        assert Plan()[i] == Entry(bindings[i], markers[i]);
        if view(bindings[i]) !in silent { r := true; }
        if markers[i].ReevaluateMarker? { r := true; }
        i := i + 1;
      }
    }
  }

  /** The executor is needed to show the stage, or to ask its policies again. */
  predicate Unskippable<B, V(==)>(e: Entry<B>, view: B -> V, silent: set<V>)
  {
    view(e.binding) !in silent || e.marker.ReevaluateMarker?
  }

  function FirstIndex<T(==)>(xs: seq<T>, x: T): (i: nat)
    requires x in xs
    ensures i < |xs| && xs[i] == x && x !in xs[..i]
  {
    if xs[0] == x then 0 else 1 + FirstIndex(xs[1..], x)
  }

  /** Python's `list.remove`: drops the first element equal to `x`. */
  function RemoveFirst<T(==)>(xs: seq<T>, x: T): seq<T>
    requires x in xs
  {
    var i := FirstIndex(xs, x); xs[..i] + xs[i + 1..]
  }

  // ---------------------------------------------------------------------------
  // Runs
  // ---------------------------------------------------------------------------

  /** One edit of a plan; the policies may answer differently at every `Next`. */
  datatype Edit<!B> =
    | Append(e: Entry<B>)
    | Insert(e: Entry<B>, index: int)
    | Next(passes: B -> bool)
    | Pop

  /** What a run has done: what is left, and what was popped or dropped, in order. */
  datatype History<B> = History(left: seq<Entry<B>>, removed: seq<Entry<B>>, popped: seq<Entry<B>>)

  function Do<B>(h: History<B>, edit: Edit<B>): History<B>
  {
    match edit
    case Append(e) => h.(left := h.left + [e])
    case Insert(e, index) => h.(left := InsertAt(h.left, index, e))
    case Next(passes) =>
      var n := Rejected(h.left, passes);
      h.(left := h.left[n..], removed := h.removed + h.left[..n])
    case Pop =>
      if h.left == [] then h
      else History(h.left[1..], h.removed + [h.left[0]], h.popped + [h.left[0]])
  }

  lemma SameLeft<B>(a: History<B>, b: History<B>, edit: Edit<B>)
    requires a.left == b.left
    ensures Do(a, edit).left == Do(b, edit).left
  {
  }

  function Run<B>(plan: seq<Entry<B>>, edits: seq<Edit<B>>): History<B>
  {
    if edits == [] then History(plan, [], [])
    else Do(Run(plan, edits[..|edits| - 1]), edits[|edits| - 1])
  }

  /** `s` is `t` with some elements left out. */
  predicate Subsequence<T(==)>(s: seq<T>, t: seq<T>)
  {
    s == [] || (t != [] && (if s[|s| - 1] == t[|t| - 1] then Subsequence(s[..|s| - 1], t[..|t| - 1])
                            else Subsequence(s, t[..|t| - 1])))
  }

  lemma {:induction false} SubsequenceWeaken<T>(s: seq<T>, t: seq<T>, x: T)
    requires Subsequence(s, t)
    ensures Subsequence(s, t + [x])
    decreases |s|, |t|, 1
  {
    assert (t + [x])[..|t|] == t;
    if s != [] && s[|s| - 1] == x {
      SubsequenceDropLast(s, t);
    }
  }

  lemma {:induction false} SubsequenceDropLast<T>(s: seq<T>, t: seq<T>)
    requires s != [] && Subsequence(s, t)
    ensures Subsequence(s[..|s| - 1], t)
    decreases |s|, |t|, 0
  {
    var t' := t[..|t| - 1];
    assert t' + [t[|t| - 1]] == t;
    if s[|s| - 1] == t[|t| - 1] {
      SubsequenceWeaken(s[..|s| - 1], t', t[|t| - 1]);
    } else {
      SubsequenceDropLast(s, t');
      SubsequenceWeaken(s[..|s| - 1], t', t[|t| - 1]);
    }
  }

  lemma {:induction false} SubsequenceAppend<T>(s: seq<T>, t: seq<T>, more: seq<T>)
    requires Subsequence(s, t)
    ensures Subsequence(s, t + more)
  {
    if more == [] {
      assert t + more == t;
    } else {
      SubsequenceAppend(s, t, more[..|more| - 1]);
      SubsequenceWeaken(s, t + more[..|more| - 1], more[|more| - 1]);
      assert t + more[..|more| - 1] + [more[|more| - 1]] == t + more;
    }
  }

  function Added<B>(edit: Edit<B>): seq<Entry<B>>
  {
    if edit.Append? || edit.Insert? then [edit.e] else []
  }

  function AllAdded<B>(edits: seq<Edit<B>>): seq<Entry<B>>
  {
    if edits == [] then [] else AllAdded(edits[..|edits| - 1]) + Added(edits[|edits| - 1])
  }

  ghost function Held<B>(h: History<B>): multiset<Entry<B>> { multiset(h.left) + multiset(h.removed) }

  /** Moving a prefix of what is left to what was removed conserves everything, in order. */
  lemma MovedIsKept<B>(h: History<B>, n: nat)
    requires n <= |h.left|
    ensures (h.removed + h.left[..n]) + h.left[n..] == h.removed + h.left
    ensures multiset(h.left[n..]) + multiset(h.removed + h.left[..n]) == Held(h)
  {
    assert h.left == h.left[..n] + h.left[n..];
  }

  lemma EditConserves<B>(h: History<B>, edit: Edit<B>)
    ensures Held(Do(h, edit)) == Held(h) + multiset(Added(edit))
  {
    match edit
    case Append(_) =>
    case Insert(e, index) => InsertKeepsAll(h.left, index, e);
    case Next(passes) => MovedIsKept(h, Rejected(h.left, passes));
    case Pop =>
      if h.left != [] {
        assert h.left[..1] == [h.left[0]];
        MovedIsKept(h, 1);
      }
  }

  /** Nothing is lost or invented: every entry is left over or was removed exactly once. */
  lemma {:induction false} Conservation<B>(plan: seq<Entry<B>>, edits: seq<Edit<B>>)
    ensures Held(Run(plan, edits)) == multiset(plan) + multiset(AllAdded(edits))
  {
    if edits != [] {
      hide Do, Held;
      Conservation(plan, edits[..|edits| - 1]);
      EditConserves(Run(plan, edits[..|edits| - 1]), edits[|edits| - 1]);
    }
  }

  lemma InsertKeepsAll<T>(xs: seq<T>, index: int, x: T)
    ensures multiset(InsertAt(xs, index, x)) == multiset(xs) + multiset{x}
  {
    var i := Position(|xs|, index);
    assert xs == xs[..i] + xs[i..];
  }

  /**
   Without insertions a plan is a queue: what was removed, followed by what is left, is the built
   plan followed by what was appended.  Hence the popped stages keep the planned order.
   */
  lemma {:induction false} PlannedOrder<B>(plan: seq<Entry<B>>, edits: seq<Edit<B>>)
    requires forall i :: 0 <= i < |edits| ==> !edits[i].Insert?
    ensures var h := Run(plan, edits);
            h.removed + h.left == plan + AllAdded(edits) && Subsequence(h.popped, plan + AllAdded(edits))
  {
    QueueOrder(plan, edits);
    PoppedAreRemoved(plan, edits);
    var h := Run(plan, edits);
    SubsequenceAppend(h.popped, h.removed, h.left);
  }

  lemma EditKeepsOrder<B>(h: History<B>, edit: Edit<B>)
    requires !edit.Insert?
    ensures Do(h, edit).removed + Do(h, edit).left == h.removed + h.left + Added(edit)
  {
    match edit
    case Append(e) =>
    case Next(passes) => MovedIsKept(h, Rejected(h.left, passes));
    case Pop =>
      if h.left != [] {
        assert h.left[..1] == [h.left[0]];
        MovedIsKept(h, 1);
      }
  }

  lemma {:induction false} QueueOrder<B>(plan: seq<Entry<B>>, edits: seq<Edit<B>>)
    requires forall i :: 0 <= i < |edits| ==> !edits[i].Insert?
    ensures Run(plan, edits).removed + Run(plan, edits).left == plan + AllAdded(edits)
  {
    if edits != [] {
      hide Do;
      var before, last := edits[..|edits| - 1], edits[|edits| - 1];
      QueueOrder(plan, before);
      EditKeepsOrder(Run(plan, before), last);
    }
  }

  lemma {:induction false} PoppedAreRemoved<B>(plan: seq<Entry<B>>, edits: seq<Edit<B>>)
    ensures Subsequence(Run(plan, edits).popped, Run(plan, edits).removed)
  {
    if edits != [] {
      var before, last := edits[..|edits| - 1], edits[|edits| - 1];
      PoppedAreRemoved(plan, before);
      var h := Run(plan, before);
      match last
      case Next(passes) => SubsequenceAppend(h.popped, h.removed, h.left[..Rejected(h.left, passes)]);
      case Pop =>
        if h.left != [] {
          var x := h.left[0];
          assert (h.popped + [x])[..|h.popped|] == h.popped && (h.removed + [x])[..|h.removed|] == h.removed;
        }
      case _ =>
    }
  }

  /** A stage is presented only after its marker accepted it: `Next` then `Pop` pops an accepted entry. */
  lemma PresentedIsAccepted<B>(h: History<B>, passes: B -> bool)
    ensures var after := Do(Do(h, Next(passes)), Pop);
            |after.popped| == |h.popped| + (if Rejected(h.left, passes) < |h.left| then 1 else 0) &&
            (|after.popped| > |h.popped| ==> Accepts(after.popped[|h.popped|], passes))
  {
    RejectedExactly(h.left, passes);
  }
}
