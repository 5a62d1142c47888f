/**
  In which order nodes enter. Before a request has been heard of at j, j may enter as often
  as it likes; from then on j can be ahead of it once, and only with an earlier request.
 */
module MutexFairness {
  import opened MutexNode
  import opened MutexNetwork
  import opened MutexSafety
  import opened MutexProgress

  /** i is in lock, at its wait. */
  ghost predicate Waits(s: State, i: PeerId) {
    Pending(s, i) && !s.nodes[i].inside
  }

  /** j has handled i's request. */
  ghost predicate Heard(s: State, i: PeerId, j: PeerId) {
    (i, j) in s.chan && Requests(s.chan[(i, j)]) == 0
  }

  /** j waits too, and its request comes before i's. */
  ghost predicate Ahead(s: State, i: PeerId, j: PeerId) {
    Waits(s, i) && Waits(s, j) && Before(s.nodes[j].request.value, s.nodes[i].request.value)
  }

  ghost predicate NeverEnters(steps: seq<Step>, i: PeerId) {
    forall k | 0 <= k < |steps| :: steps[k] != Enter(i)
  }

  /** How often j enters. */
  ghost function Entrances(steps: seq<Step>, j: PeerId): nat {
    if |steps| == 0 then 0 else (if steps[0] == Enter(j) then 1 else 0) + Entrances(steps[1..], j)
  }

  /** How often anybody enters. */
  ghost function AllEntrances(steps: seq<Step>): nat {
    if |steps| == 0 then 0 else (if steps[0].Enter? then 1 else 0) + AllEntrances(steps[1..])
  }

  /** Until it enters a node waits with the same request. */
  lemma StillWaits(s: State, step: Step, i: PeerId)
    requires Inv(s) && Enabled(s, step) && Waits(s, i) && step != Enter(i)
    ensures Waits(Apply(Addressed, s, step), i) && Apply(Addressed, s, step).nodes[i].request == s.nodes[i].request
  {
  }

  lemma StillHeard(s: State, step: Step, i: PeerId, j: PeerId)
    requires Inv(s) && Enabled(s, step) && Waits(s, i) && step != Enter(i) && Heard(s, i, j)
    ensures Heard(Apply(Addressed, s, step), i, j)
  {
    StepKeepsInv(s, step);
    StillWaits(s, step, i);
    if step.Recv? && step.to == i {
      var envs := OnMessage(s.nodes[i], step.from, s.chan[(step.from, i)][0]).1;
      if |envs| == 1 {
        StreamOfOne(Addressed, envs[0], j);
      }
      CountsAppend(s.chan[(i, j)], Stream(Addressed, envs, j));
    }
  }

  /** Who enters before i has an earlier request than i. */
  lemma EntersFromAhead(s: State, i: PeerId, j: PeerId)
    requires Inv(s) && Waits(s, i) && j != i && Enabled(s, Enter(j))
    ensures Ahead(s, i, j) && !Ahead(Apply(Addressed, s, Enter(j)), i, j)
  {
    StepKeepsInv(s, Enter(j));
    InsidePrecedes(Apply(Addressed, s, Enter(j)), j, i);
  }

  /** A node that has heard of i's request and has none of its own has answered it; its clock is past it. */
  lemma ClockIsPast(s: State, i: PeerId, j: PeerId)
    requires Inv(s) && Pending(s, i) && Heard(s, i, j) && s.nodes[j].request.None?
    ensures s.nodes[i].request.value.time < s.nodes[j].time
  {
    assert PairAt(s, i, j);
    NoEntries(s.nodes[j].deferred, i);
  }

  /** Nobody who has heard of i's request gets ahead of it. */
  lemma NoneGetsAhead(s: State, step: Step, i: PeerId, j: PeerId)
    requires Inv(s) && Enabled(s, step) && Waits(s, i) && step != Enter(i) && Heard(s, i, j)
    ensures Ahead(Apply(Addressed, s, step), i, j) ==> Ahead(s, i, j)
  {
    StillWaits(s, step, i);
    if step == Lock(j) {
      ClockIsPast(s, i, j);
    }
  }

  /**
    Once j has heard of i's request it enters before i at most once, and only if it
    is waiting then with an earlier request.
   */
  lemma {:induction false} OvertakenOnce(s: State, steps: seq<Step>, i: PeerId, j: PeerId)
    requires Inv(s) && Run(Addressed, s, steps).Some? && NeverEnters(steps, i)
    requires Waits(s, i) && j != i && Heard(s, i, j)
    ensures Entrances(steps, j) <= if Ahead(s, i, j) then 1 else 0
    decreases |steps|
  {
    if |steps| > 0 {
      var t := Apply(Addressed, s, steps[0]);
      StepKeepsInv(s, steps[0]);
      StillWaits(s, steps[0], i);
      StillHeard(s, steps[0], i, j);
      NoneGetsAhead(s, steps[0], i, j);
      if steps[0] == Enter(j) {
        EntersFromAhead(s, i, j);
      }
      OvertakenOnce(t, steps[1..], i, j);
    }
  }

  /** The nodes that are ahead of i. */
  ghost function AllAhead(s: State, i: PeerId): set<PeerId> {
    set j | j in s.nodes && Ahead(s, i, j)
  }

  ghost predicate HeardByAll(s: State, i: PeerId) {
    forall j {:trigger Heard(s, i, j)} | j in s.nodes && j != i :: Heard(s, i, j)
  }

  lemma FewerAhead(s: State, step: Step, i: PeerId)
    requires Inv(s) && Enabled(s, step) && Waits(s, i) && step != Enter(i) && HeardByAll(s, i)
    ensures |AllAhead(Apply(Addressed, s, step), i)| + (if step.Enter? then 1 else 0) <= |AllAhead(s, i)|
  {
    var t := Apply(Addressed, s, step);
    StepKeepsShape(Addressed, s, step);
    forall j | j in AllAhead(t, i)
      ensures j in AllAhead(s, i)
    {
      assert j != i;
      assert Heard(s, i, j);
      NoneGetsAhead(s, step, i, j);
    }
    if step.Enter? {
      EntersFromAhead(s, i, step.i);
      Subset(AllAhead(t, i), AllAhead(s, i) - {step.i});
    } else {
      Subset(AllAhead(t, i), AllAhead(s, i));
    }
  }

  lemma {:induction false} Subset<T>(a: set<T>, b: set<T>)
    requires a <= b
    ensures |a| <= |b|
  {
    assert |b - a| == |b| - |a|;
  }

  /**
    Once all have heard of i's request, no more nodes enter before i than have an earlier
    request then: requests that come later stay behind.
   */
  lemma {:induction false} ServedInOrder(s: State, steps: seq<Step>, i: PeerId)
    requires Inv(s) && Run(Addressed, s, steps).Some? && NeverEnters(steps, i)
    requires Waits(s, i) && HeardByAll(s, i)
    ensures AllEntrances(steps) <= |AllAhead(s, i)|
    decreases |steps|
  {
    if |steps| > 0 {
      var t := Apply(Addressed, s, steps[0]);
      StepKeepsInv(s, steps[0]);
      StepKeepsShape(Addressed, s, steps[0]);
      StillWaits(s, steps[0], i);
      forall j | j in t.nodes && j != i
        ensures Heard(t, i, j)
      {
        assert Heard(s, i, j);
        StillHeard(s, steps[0], i, j);
      }
      FewerAhead(s, steps[0], i);
      ServedInOrder(t, steps[1..], i);
    }
  }
}
