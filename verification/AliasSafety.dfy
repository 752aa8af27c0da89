/** Safety of the alias over every interleaving of every number of workers. */
module AliasSafety {
  import opened Cluster
  import opened Delivery
  import opened Workers

  ghost predicate SameName(cfgs: seq<Config>, name: string) {
    forall i :: 0 <= i < |cfgs| ==> IndexName(cfgs[i]) == name
  }

  // From the alias move on, a worker of the common configuration has the alias on
  // its index, and what it is about to delete does not include that index.
  ghost predicate WorkerSafe(c: Cluster, w: Worker, name: string) {
    && w.Name() == name
    && (w.at.Listing? || w.at.Dropping? || w.at.Sending? ==> c.targets == {name})
    && (w.at.Dropping? ==> name !in w.at.stale)
  }

  ghost predicate Safe(s: System, name: string) {
    Tidy(s.cluster) && forall i :: 0 <= i < |s.workers| ==> WorkerSafe(s.cluster, s.workers[i], name)
  }

  // What no event takes away from the cluster.
  ghost predicate Persists(c: Cluster, d: Cluster, name: string) {
    && (c.targets != {} ==> d.targets != {})
    && (c.targets == {name} ==> d.targets == {name})
    && (name in c.indices ==> name in d.indices)
  }

  lemma ProceedIsSafe(c: Cluster, w: Worker, f: Fault, verdicts: seq<Outcome>, name: string)
    requires Tidy(c) && WorkerSafe(c, w, name)
    ensures var (d, v) := Proceed(c, w, f, verdicts);
            Tidy(d) && WorkerSafe(d, v, name) && Persists(c, d, name)
  {
    hide IndexName, IsVersioned;
    ProceedKeepsTidy(c, w, f, verdicts);
    IndexNameIsVersioned(w.cfg);
    if w.at.Repointing? {
      assert (set t | t in c.targets && !IsVersioned(t)) == {};
    }
    if w.at.Sending? {
      WritesOnlyAdd(c, Writes(Accepted(w.batch, w.cfg.embedDim), w.Name()), verdicts);
    }
  }

  lemma ApplyIsSafe(s: System, e: Event, name: string)
    requires Safe(s, name)
    ensures Safe(Apply(s, e), name) && Persists(s.cluster, Apply(s, e).cluster, name)
  {
    if e.worker < |s.workers| {
      match e
      case Begin(i, docs) =>
      case Crash(i) =>
      case Request(i, f, verdicts) => ProceedIsSafe(s.cluster, s.workers[i], f, verdicts, name);
      case Remove(i, id, f) => RemoveIsSafe(s.cluster, id, f, name);
    }
  }

  lemma RemoveIsSafe(c: Cluster, id: string, f: Fault, name: string)
    requires Tidy(c)
    ensures Tidy(DeleteThroughAlias(c, id, f).0) && Persists(c, DeleteThroughAlias(c, id, f).0, name)
    ensures DeleteThroughAlias(c, id, f).0.targets == c.targets
  {
  }

  // The documents an event may take out of an index.
  ghost predicate Keeps(c: Cluster, d: Cluster, name: string, removed: set<string>) {
    name in c.indices ==> name in d.indices && c.indices[name].Keys <= d.indices[name].Keys + removed
  }

  function RemovedBy(events: seq<Event>): set<string> {
    set e | e in events && e.Remove? :: e.id
  }

  lemma ProceedKeepsDocuments(c: Cluster, w: Worker, f: Fault, verdicts: seq<Outcome>, name: string)
    requires Tidy(c) && WorkerSafe(c, w, name)
    ensures Keeps(c, Proceed(c, w, f, verdicts).0, name, {})
  {
    if w.at.Sending? {
      WritesOnlyAdd(c, Writes(Accepted(w.batch, w.cfg.embedDim), w.Name()), verdicts);
    }
  }

  lemma ApplyKeepsDocuments(s: System, e: Event, name: string)
    requires Safe(s, name)
    ensures Keeps(s.cluster, Apply(s, e).cluster, name, RemovedBy([e]))
  {
    assert e in [e];
    if e.Request? && e.worker < |s.workers| {
      ProceedKeepsDocuments(s.cluster, s.workers[e.worker], e.fault, e.verdicts, name);
    }
  }

  lemma {:induction false} RunIsSafe(s: System, events: seq<Event>, name: string)
    requires Safe(s, name)
    ensures Safe(Exec(s, events), name) && Persists(s.cluster, Exec(s, events).cluster, name)
    ensures Keeps(s.cluster, Exec(s, events).cluster, name, RemovedBy(events))
    decreases |events|
  {
    if events != [] {
      ApplyIsSafe(s, events[0], name);
      ApplyKeepsDocuments(s, events[0], name);
      RunIsSafe(Apply(s, events[0]), events[1..], name);
      assert events == [events[0]] + events[1..];
      assert RemovedBy(events) == RemovedBy([events[0]]) + RemovedBy(events[1..]);
    }
  }

  // Workers of one configuration: at every point of every run the alias has at most one
  // target, which exists; once it resolves it resolves for good; once it is on the common
  // index it stays there; that index, once there, stays, is in no pending deletion, and
  // loses no document other than by an explicit delete.
  lemma AliasSafety(c: Cluster, cfgs: seq<Config>, name: string, before: seq<Event>, after: seq<Event>)
    requires Tidy(c) && SameName(cfgs, name)
    ensures var s := Exec(Start(c, cfgs), before);
            var t := Exec(s, after);
            && Tidy(s.cluster)
            && Persists(s.cluster, t.cluster, name)
            && Keeps(s.cluster, t.cluster, name, RemovedBy(after))
            && (forall i :: 0 <= i < |s.workers| && s.workers[i].at.Dropping? ==> name !in s.workers[i].at.stale)
  {
    RunIsSafe(Start(c, cfgs), before, name);
    RunIsSafe(Exec(Start(c, cfgs), before), after, name);
  }

  // ---------- races between workers of one configuration ----------

  // About to move the alias, the worker's index is there.
  ghost predicate Secured(s: System, i: nat, name: string)
    requires i < |s.workers|
  {
    s.workers[i].at.Repointing? ==> name in s.cluster.indices
  }

  // The worker does not crash and its requests are carried out; to the others anything may happen.
  ghost predicate Unhindered(events: seq<Event>, i: nat) {
    forall e :: e in events && e.worker == i ==> !e.Crash? && (e.Request? ==> e.fault.Healthy?)
  }

  function OwnRequests(events: seq<Event>, i: nat): nat {
    if events == [] then 0
    else (if events[0].Request? && events[0].worker == i then 1 else 0) + OwnRequests(events[1..], i)
  }

  // After m events, and not before, the worker is about to send its batch, and it has needed
  // at most so many requests; it has not given up on the way.
  ghost predicate GetsToSend(s: System, events: seq<Event>, i: nat, requests: nat, m: nat) {
    && m <= |events| && i < |s.workers|
    && OwnRequests(events[..m], i) <= requests
    && |Exec(s, events[..m]).workers| == |s.workers|
    && Exec(s, events[..m]).workers[i] == s.workers[i].(at := Sending)
    && forall k :: 0 <= k < m ==> StillPreparing(Exec(s, events[..k]), i)
  }

  ghost predicate StillPreparing(s: System, i: nat) {
    i < |s.workers| && !s.workers[i].at.Idle? && !s.workers[i].at.Sending?
  }

  // One event, of the worker itself or of another, costs it at most one of its remaining requests
  // and never makes it give up.
  lemma StepMakesProgress(s: System, e: Event, i: nat, name: string)
    requires Safe(s, name) && i < |s.workers| && Secured(s, i, name)
    requires StillPreparing(s, i) && Unhindered([e], i)
    ensures var t := Apply(s, e);
            && Safe(t, name) && |t.workers| == |s.workers| && Secured(t, i, name)
            && !t.workers[i].at.Idle? && t.workers[i] == s.workers[i].(at := t.workers[i].at)
            && Remaining(t.workers[i].at) + OwnRequests([e], i) <= Remaining(s.workers[i].at)
  {
    hide IndexName, IsVersioned;
    ApplyIsSafe(s, e, name);
    assert WorkerSafe(s.cluster, s.workers[i], name);
    assert e in [e];
    assert OwnRequests([e], i) == if e.Request? && e.worker == i then 1 else 0;
  }

  lemma {:induction false} UnhinderedGetsToSend(s: System, events: seq<Event>, i: nat, name: string)
    requires Safe(s, name) && i < |s.workers| && Secured(s, i, name) && !s.workers[i].at.Idle?
    requires Unhindered(events, i) && OwnRequests(events, i) >= Remaining(s.workers[i].at)
    ensures exists m :: GetsToSend(s, events, i, Remaining(s.workers[i].at), m)
    decreases |events|
  {
    var left := Remaining(s.workers[i].at);
    if left == 0 {
      assert events[..0] == [];
      assert GetsToSend(s, events, i, left, 0);
    } else {
      var e, rest := events[0], events[1..];
      assert forall x :: x in [e] || x in rest ==> x in events;
      StepMakesProgress(s, e, i, name);
      var t := Apply(s, e);
      UnhinderedGetsToSend(t, rest, i, name);
      var m :| GetsToSend(t, rest, i, Remaining(t.workers[i].at), m);
      OneEventEarlier(s, events, i, left, m);
    }
  }

  lemma OneEventEarlier(s: System, events: seq<Event>, i: nat, requests: nat, m: nat)
    requires events != [] && StillPreparing(s, i)
    requires var t := Apply(s, events[0]);
             && |t.workers| == |s.workers| && t.workers[i] == s.workers[i].(at := t.workers[i].at)
             && OwnRequests([events[0]], i) <= requests
             && GetsToSend(t, events[1..], i, requests - OwnRequests([events[0]], i), m)
    ensures GetsToSend(s, events, i, requests, m + 1)
  {
    var e, rest := events[0], events[1..];
    forall k | 0 < k <= m + 1
      ensures Exec(s, events[..k]) == Exec(Apply(s, e), rest[..k - 1])
      ensures OwnRequests(events[..k], i) == OwnRequests([e], i) + OwnRequests(rest[..k - 1], i)
    {
      assert events[..k][1..] == rest[..k - 1] && [e][1..] == [];
    }
    forall k | 0 <= k < m + 1 ensures StillPreparing(Exec(s, events[..k]), i) {
      assert k > 0 ==> StillPreparing(Exec(Apply(s, e), rest[..k - 1]), i);
    }
  }

  // However workers of one configuration get in each other's way: after any run, a worker that
  // starts an upsert and whose own requests are carried out gets to send its batch within
  // five of them, whatever happens to the requests of the others in between. Losing the race
  // for the create or for a deletion is no failure.
  lemma RacesAreBenign(
    c: Cluster, cfgs: seq<Config>, name: string, run: seq<Event>, i: nat, docs: seq<KnowledgeDoc>,
    events: seq<Event>)
    requires Tidy(c) && SameName(cfgs, name)
    requires i < |Exec(Start(c, cfgs), run).workers| && Exec(Start(c, cfgs), run).workers[i].at.Idle?
    requires docs != [] && Unhindered(events, i) && OwnRequests(events, i) >= 5
    ensures var s := Apply(Exec(Start(c, cfgs), run), Begin(i, docs));
            s.workers[i].batch == docs && exists m :: GetsToSend(s, events, i, 5, m)
  {
    hide IndexName, IsVersioned, Exec;
    RunIsSafe(Start(c, cfgs), run, name);
    var s := Exec(Start(c, cfgs), run);
    ApplyIsSafe(s, Begin(i, docs), name);
    UnhinderedGetsToSend(Apply(s, Begin(i, docs)), events, i, name);
  }

  // ---------- different configurations ----------

  // Once the alias resolves, it resolves for good, whatever happens.
  ghost predicate AliasNeverLost(cfgs: seq<Config>) {
    forall c, before, after :: Tidy(c) && Exec(Start(c, cfgs), before).cluster.targets != {} ==>
      Exec(Exec(Start(c, cfgs), before), after).cluster.targets != {}
  }

  const SOME_DOC := KnowledgeDoc("k", "", 0, "", "", [], [], "", [], "", 0)

  // One worker lists the indices, the other takes the alias; what the first does next deletes the other's index.
  function Takeover(i: nat, j: nat): seq<Event> {
    var next := Request(i, Healthy, []);
    [Begin(i, [SOME_DOC]), next, next, next,
     Begin(j, [SOME_DOC]), Request(j, Healthy, []), Request(j, Healthy, [])]
  }

  function TwoIndices(a: string, b: string): Cluster {
    Cluster(map[a := map[], b := map[]], {}, true)
  }

  lemma ExecNext(s: System, events: seq<Event>, m: nat)
    requires m < |events|
    ensures Exec(s, events[..m + 1]) == Apply(Exec(s, events[..m]), events[m])
  {
    assert events[..m + 1] == events[..m] + [events[m]];
    ExecSplits(s, events[..m], [events[m]]);
    var t := Exec(s, events[..m]);
    assert Exec(t, [events[m]]) == Exec(Apply(t, events[m]), []);
  }

  // The first worker has listed the other's index and will delete it.
  lemma FirstWorkerLists(cfgs: seq<Config>, i: nat, j: nat)
    requires i < |cfgs| && j < |cfgs| && IndexName(cfgs[i]) != IndexName(cfgs[j])
    ensures var a, b := IndexName(cfgs[i]), IndexName(cfgs[j]);
            var s := Start(TwoIndices(a, b), cfgs);
            Exec(s, Takeover(i, j)[..4]) ==
              System(TwoIndices(a, b).(targets := {a}), s.workers[i := Worker(cfgs[i], Dropping({b}), [SOME_DOC])])
  {
    hide IndexName, IsVersioned;
    var a, b := IndexName(cfgs[i]), IndexName(cfgs[j]);
    var s, es := Start(TwoIndices(a, b), cfgs), Takeover(i, j);
    IndexNameIsVersioned(cfgs[i]);
    IndexNameIsVersioned(cfgs[j]);
    assert es[..0] == [];
    ExecNext(s, es, 0);
    ExecNext(s, es, 1);
    assert Exec(s, es[..2]).workers[i].at == Repointing;
    ExecNext(s, es, 2);
    assert Exec(s, es[..3]).workers[i].at == Listing;
    ExecNext(s, es, 3);
    assert (set n | n in TwoIndices(a, b).indices && IsVersioned(n)) - {a} == {b};
  }

  // The second worker then moves the alias to its own index.
  lemma SecondWorkerTakes(cfgs: seq<Config>, i: nat, j: nat)
    requires i < |cfgs| && j < |cfgs| && IndexName(cfgs[i]) != IndexName(cfgs[j])
    ensures var a, b := IndexName(cfgs[i]), IndexName(cfgs[j]);
            var s := Start(TwoIndices(a, b), cfgs);
            Exec(s, Takeover(i, j)) ==
              System(TwoIndices(a, b).(targets := {b}),
                     s.workers[i := Worker(cfgs[i], Dropping({b}), [SOME_DOC])]
                              [j := Worker(cfgs[j], Listing, [SOME_DOC])])
  {
    hide IndexName, IsVersioned;
    var a, b := IndexName(cfgs[i]), IndexName(cfgs[j]);
    var s, es := Start(TwoIndices(a, b), cfgs), Takeover(i, j);
    IndexNameIsVersioned(cfgs[i]);
    FirstWorkerLists(cfgs, i, j);
    ExecNext(s, es, 4);
    ExecNext(s, es, 5);
    assert Exec(s, es[..6]).workers[j].at == Repointing;
    ExecNext(s, es, 6);
    assert es[..7] == es;
  }

  lemma TakeoverLosesAlias(cfgs: seq<Config>, i: nat, j: nat)
    requires i < |cfgs| && j < |cfgs| && IndexName(cfgs[i]) != IndexName(cfgs[j])
    ensures var a, b := IndexName(cfgs[i]), IndexName(cfgs[j]);
            var s := Start(TwoIndices(a, b), cfgs);
            && Tidy(s.cluster)
            && Exec(s, Takeover(i, j)).cluster.targets == {b}
            && Exec(Exec(s, Takeover(i, j)), [Request(i, Healthy, [])]).cluster.targets == {}
  {
    hide IndexName, IsVersioned;
    var t := Exec(Start(TwoIndices(IndexName(cfgs[i]), IndexName(cfgs[j])), cfgs), Takeover(i, j));
    SecondWorkerTakes(cfgs, i, j);
    var next := Request(i, Healthy, []);
    assert [next][1..] == [];
    assert Exec(t, [next]) == Exec(Apply(t, next), []) == Apply(t, next);
  }

  // The alias can never be lost exactly when all workers share one index name.
  lemma AliasIsSafeExactlyForOneName(cfgs: seq<Config>)
    ensures AliasNeverLost(cfgs)
       <==> forall i, j :: 0 <= i < |cfgs| && 0 <= j < |cfgs| ==> IndexName(cfgs[i]) == IndexName(cfgs[j])
  {
    hide IndexName, IsVersioned, Exec;
    if forall i, j :: 0 <= i < |cfgs| && 0 <= j < |cfgs| ==> IndexName(cfgs[i]) == IndexName(cfgs[j]) {
      var name := if cfgs == [] then INDEX_PREFIX else IndexName(cfgs[0]);
      forall c, before, after | Tidy(c) && Exec(Start(c, cfgs), before).cluster.targets != {}
        ensures Exec(Exec(Start(c, cfgs), before), after).cluster.targets != {}
      {
        AliasSafety(c, cfgs, name, before, after);
      }
    } else {
      var i, j :| 0 <= i < |cfgs| && 0 <= j < |cfgs| && IndexName(cfgs[i]) != IndexName(cfgs[j]);
      TakeoverLosesAlias(cfgs, i, j);
    }
  }
}
