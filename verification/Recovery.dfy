/** One call of EnsureIndexAndAlias that nobody interferes with, and what it repairs. */
module Recovery {
  import opened Wrappers
  import opened Cluster
  import opened Delivery
  import opened Workers

  // What happens to each request the call may make.
  datatype Plan = Plan(check: Fault, create: Fault, repoint: Fault, list: Fault, drop: Fault) {
    function At(stage: Stage): Fault {
      match stage
      case Checking => check
      case Creating => create
      case Repointing => repoint
      case Listing => list
      case Dropping(_) => drop
      case _ => Healthy
    }
  }

  // The worker alone, up to the point where it sends documents or gives up.
  function Drive(c: Cluster, w: Worker, plan: Plan): (Cluster, Worker)
    decreases Remaining(w.at)
  {
    if Remaining(w.at) == 0 then (c, w)
    else
      var (next, v) := Proceed(c, w, plan.At(w.at), []);
      Drive(next, v, plan)
  }

  // The requests of such a call as events of a run.
  function Script(c: Cluster, w: Worker, plan: Plan, i: nat): seq<Event>
    decreases Remaining(w.at)
  {
    if Remaining(w.at) == 0 then []
    else
      var (next, v) := Proceed(c, w, plan.At(w.at), []);
      [Request(i, plan.At(w.at), [])] + Script(next, v, plan, i)
  }

  // A call without interference is one of the runs of the system.
  lemma {:induction false} DriveIsARun(s: System, i: nat, plan: Plan)
    requires i < |s.workers|
    ensures var (c, w) := Drive(s.cluster, s.workers[i], plan);
            Exec(s, Script(s.cluster, s.workers[i], plan, i)) == System(c, s.workers[i := w])
    decreases Remaining(s.workers[i].at)
  {
    var w := s.workers[i];
    if Remaining(w.at) > 0 {
      var e := Request(i, plan.At(w.at), []);
      var t := Apply(s, e);
      DriveIsARun(t, i, plan);
      var rest := Script(t.cluster, t.workers[i], plan, i);
      assert ([e] + rest)[1..] == rest;
    }
  }

  // Only the concrete index is left among the versioned ones, and the alias is on it.
  ghost predicate Settled(c: Cluster, name: string) {
    && c.targets == {name} && name in c.indices
    && forall n :: n in c.indices && IsVersioned(n) ==> n == name
  }

  // Outside the versioned indices nothing changes, and the named index keeps its documents.
  ghost predicate OthersKept(c: Cluster, d: Cluster, name: string) {
    && (forall n :: !IsVersioned(n) ==> (n in c.indices <==> n in d.indices))
    && (forall n :: !IsVersioned(n) && n in c.indices ==> d.indices[n] == c.indices[n])
    && (name in d.indices ==> d.indices[name] == Contents(c, name))
  }

  lemma CleanUp(c: Cluster, w: Worker, plan: Plan)
    requires w.at.Listing? && c.targets == {w.Name()} && w.Name() in c.indices
    ensures var (d, v) := Drive(c, w, plan);
            v.at.Sending? ==> Settled(d, w.Name()) && OthersKept(c, d, w.Name())
  {
    hide IndexName, IsVersioned;
    IndexNameIsVersioned(w.cfg);
    var (c1, w1) := Proceed(c, w, plan.At(w.at), []);
    if w1.at.Dropping? {
      var (c2, w2) := Proceed(c1, w1, plan.At(w1.at), []);
      assert Drive(c, w, plan) == Drive(c1, w1, plan) == Drive(c2, w2, plan) == (c2, w2);
    } else {
      assert Drive(c, w, plan) == Drive(c1, w1, plan) == (c1, w1);
      if w1.at.Sending? {
        NothingStale(c, w, plan);
      }
    }
  }

  // A worker that goes from listing straight to sending has seen no other versioned index.
  lemma NothingStale(c: Cluster, w: Worker, plan: Plan)
    requires w.at.Listing? && w.Name() in c.indices && Proceed(c, w, plan.list, []).1.at.Sending?
    ensures forall n :: n in c.indices && IsVersioned(n) ==> n == w.Name()
  {
    hide IndexName, IsVersioned;
    IndexNameIsVersioned(w.cfg);
    var rows := CatIndices(c, plan.list).1;
    assert w.Name() in rows && rows - {w.Name()} == {};
    forall n | n in c.indices && IsVersioned(n) ensures n == w.Name() {
      assert n in rows && n !in rows - {w.Name()};
    }
  }

  lemma Swap(c: Cluster, w: Worker, plan: Plan)
    requires w.at.Repointing? && forall t :: t in c.targets ==> IsVersioned(t)
    ensures var (d, v) := Drive(c, w, plan);
            v.at.Sending? ==> Settled(d, w.Name()) && OthersKept(c, d, w.Name())
  {
    hide IndexName, IsVersioned;
    var (c1, w1) := Proceed(c, w, plan.At(w.at), []);
    if w1.at.Listing? {
      assert (set t | t in c.targets && !IsVersioned(t)) == {};
      CleanUp(c1, w1, plan);
    }
  }

  // From any state in which the alias is on versioned indices only, one successful call
  // leaves exactly the concrete index, with the alias on it, whatever was refused on the way:
  // in particular the index exists although every 400 on create is ignored.
  lemma SuccessSettles(c: Cluster, w: Worker, plan: Plan)
    requires w.at.Checking? && forall t :: t in c.targets ==> IsVersioned(t)
    ensures var (d, v) := Drive(c, w, plan);
            v.at.Sending? ==> Settled(d, w.Name()) && OthersKept(c, d, w.Name())
  {
    hide IndexName, IsVersioned;
    IndexNameIsVersioned(w.cfg);
    var (c1, w1) := Proceed(c, w, plan.At(w.at), []);
    if w1.at.Creating? {
      var (c2, w2) := Proceed(c1, w1, plan.At(w1.at), []);
      assert Drive(c, w, plan) == Drive(c1, w1, plan) == Drive(c2, w2, plan);
      if w2.at.Repointing? {
        Swap(c2, w2, plan);
      }
    } else if w1.at.Repointing? {
      Swap(c1, w1, plan);
    }
  }

  // On a settled cluster no further call changes anything, however it ends.
  lemma {:induction false} SettledIsStable(c: Cluster, w: Worker, plan: Plan)
    requires Settled(c, w.Name()) && !w.at.Dropping?
    ensures Drive(c, w, plan).0 == c
    decreases Remaining(w.at)
  {
    hide IndexName, IsVersioned;
    IndexNameIsVersioned(w.cfg);
    if Remaining(w.at) > 0 {
      assert (set t | t in c.targets && !IsVersioned(t)) + {w.Name()} == c.targets;
      assert (set n | n in c.indices && IsVersioned(n)) == {w.Name()};
      var (d, v) := Proceed(c, w, plan.At(w.at), []);
      assert d == c;
      SettledIsStable(c, v, plan);
    }
  }

  // After any run of any workers, stopped anywhere, of whatever configurations, one
  // undisturbed successful call repairs the cluster, and a second one changes nothing.
  lemma CrashRecovery(
    c: Cluster, cfgs: seq<Config>, run: seq<Event>, cfg: Config, batch: seq<KnowledgeDoc>, plan: Plan, again: Plan)
    requires Tidy(c)
    ensures var s := Exec(Start(c, cfgs), run).cluster;
            var call := Worker(cfg, Checking, batch);
            var (d, v) := Drive(s, call, plan);
            v.at.Sending? ==>
              && Settled(d, IndexName(cfg)) && OthersKept(s, d, IndexName(cfg))
              && Drive(d, call, again).0 == d
  {
    RunsKeepTidy(Start(c, cfgs), run);
    var s := Exec(Start(c, cfgs), run).cluster;
    var call := Worker(cfg, Checking, batch);
    SuccessSettles(s, call, plan);
    var (d, v) := Drive(s, call, plan);
    if v.at.Sending? {
      SettledIsStable(d, call, again);
    }
  }

  // ---------- when a call succeeds ----------

  ghost predicate HasStale(c: Cluster, name: string) {
    exists n :: n in c.indices && IsVersioned(n) && n != name
  }

  // The index is found, or the create request passes for an index that is there afterwards.
  predicate IndexSecured(c: Cluster, name: string, plan: Plan) {
    || (plan.check.Healthy? && name in c.indices)
    || plan.create.Healthy?
    || (plan.create == Refused(400) && name in c.indices)
  }

  lemma CleanUpSucceedsExactlyWhen(c: Cluster, w: Worker, plan: Plan)
    requires w.at.Listing? && w.Name() in c.indices
    ensures Drive(c, w, plan).1.at.Sending? <==>
              plan.list.Healthy? && (HasStale(c, w.Name()) ==> plan.drop.Healthy?)
  {
    hide IndexName, IsVersioned;
    IndexNameIsVersioned(w.cfg);
    var (c1, w1) := Proceed(c, w, plan.list, []);
    if w1.at.Dropping? {
      var n :| n in w1.at.stale;
      assert HasStale(c, w.Name());
      var (c2, w2) := Proceed(c1, w1, plan.drop, []);
      assert Drive(c, w, plan) == Drive(c1, w1, plan) == Drive(c2, w2, plan) == (c2, w2);
    } else if plan.list.Healthy? {
      assert w.Name() in CatIndices(c, plan.list).1;
      NothingStale(c, w, plan);
      assert Drive(c, w, plan) == Drive(c1, w1, plan) == (c1, w1);
    }
  }

  lemma SwapSucceedsExactlyWhen(c: Cluster, w: Worker, plan: Plan)
    requires w.at.Repointing?
    ensures Drive(c, w, plan).1.at.Sending? <==>
              && w.Name() in c.indices && plan.repoint.Healthy?
              && plan.list.Healthy? && (HasStale(c, w.Name()) ==> plan.drop.Healthy?)
  {
    hide IndexName, IsVersioned;
    var (c1, w1) := Proceed(c, w, plan.repoint, []);
    if w1.at.Listing? {
      CleanUpSucceedsExactlyWhen(c1, w1, plan);
    }
  }

  // An undisturbed call succeeds exactly when the index exists or gets created, the alias moves,
  // the indices are listed, and those that are stale, if any, are deleted. A check that is
  // refused reads as absent; a create that is refused with 400 passes, but helps only if the
  // index is there.
  lemma CallSucceedsExactlyWhen(c: Cluster, w: Worker, plan: Plan)
    requires w.at.Checking?
    ensures Drive(c, w, plan).1.at.Sending? <==>
              && Replied(plan.check) && IndexSecured(c, w.Name(), plan)
              && plan.repoint.Healthy? && plan.list.Healthy?
              && (HasStale(c, w.Name()) ==> plan.drop.Healthy?)
  {
    hide IndexName, IsVersioned;
    var (c1, w1) := Proceed(c, w, plan.check, []);
    if w1.at.Creating? {
      var (c2, w2) := Proceed(c1, w1, plan.create, []);
      assert Drive(c, w, plan) == Drive(c1, w1, plan) == Drive(c2, w2, plan);
      if w2.at.Repointing? {
        SwapSucceedsExactlyWhen(c2, w2, plan);
        assert HasStale(c2, w.Name()) <==> HasStale(c, w.Name());
      }
    } else if w1.at.Repointing? {
      SwapSucceedsExactlyWhen(c1, w1, plan);
    }
  }

  // ---------- what a rebuild does to readers ----------

  // The ids of the documents that a search through the alias can return.
  ghost function Readable(c: Cluster): set<string> {
    set t, id | t in c.targets && t in c.indices && id in c.indices[t] :: id
  }

  ghost function OwnDocuments(c: Cluster, name: string): set<string> {
    Contents(c, name).Keys
  }

  // The alias request of the call is made, for an index that is there, and carried out.
  predicate AliasMoves(c: Cluster, name: string, plan: Plan) {
    Replied(plan.check) && IndexSecured(c, name, plan) && CarriedOut(plan.repoint)
  }

  ghost predicate SameIndices(c: Cluster, d: Cluster, names: set<string>) {
    forall n :: n in names && n in c.indices ==> n in d.indices && d.indices[n] == c.indices[n]
  }

  // The clean-up, however it goes, spares the named index and leaves the alias on it.
  lemma CleanUpSparesOwn(c: Cluster, w: Worker, plan: Plan)
    requires w.at.Listing? && c.targets == {w.Name()} && w.Name() in c.indices
    ensures var d := Drive(c, w, plan).0;
            d.targets == c.targets && SameIndices(c, d, c.targets)
  {
    hide IndexName, IsVersioned;
    var (c1, w1) := Proceed(c, w, plan.list, []);
    if w1.at.Dropping? {
      var (c2, w2) := Proceed(c1, w1, plan.drop, []);
      assert Drive(c, w, plan) == Drive(c1, w1, plan) == Drive(c2, w2, plan) == (c2, w2);
    } else {
      assert Drive(c, w, plan) == Drive(c1, w1, plan) == (c1, w1);
    }
  }

  // The alias is moved exactly when the request for it is carried out on an index that is there.
  lemma SwapMovesAlias(c: Cluster, w: Worker, plan: Plan)
    requires w.at.Repointing? && Tidy(c)
    ensures var d, name := Drive(c, w, plan).0, w.Name();
            if CarriedOut(plan.repoint) && name in c.indices
            then d.targets == {name} && SameIndices(c, d, {name})
            else d.targets == c.targets && SameIndices(c, d, c.targets)
  {
    hide IndexName, IsVersioned;
    var (c1, w1) := Proceed(c, w, plan.repoint, []);
    assert Drive(c, w, plan) == Drive(c1, w1, plan);
    if CarriedOut(plan.repoint) && w.Name() in c.indices {
      assert (set t | t in c.targets && !IsVersioned(t)) == {};
      assert c1.targets == {w.Name()};
    }
    if w1.at.Listing? {
      CleanUpSparesOwn(c1, w1, plan);
    }
  }

  lemma CallMovesAlias(c: Cluster, w: Worker, plan: Plan)
    requires w.at.Checking? && Tidy(c)
    ensures var d, name := Drive(c, w, plan).0, w.Name();
            if AliasMoves(c, name, plan)
            then d.targets == {name} && name in d.indices && d.indices[name] == Contents(c, name)
            else d.targets == c.targets && SameIndices(c, d, c.targets)
  {
    hide IndexName, IsVersioned;
    var (c1, w1) := Proceed(c, w, plan.check, []);
    assert Drive(c, w, plan) == Drive(c1, w1, plan);
    if w1.at.Creating? {
      var (c2, w2) := Proceed(c1, w1, plan.create, []);
      assert Drive(c1, w1, plan) == Drive(c2, w2, plan);
      if w2.at.Repointing? {
        SwapMovesAlias(c2, w2, plan);
      }
    } else if w1.at.Repointing? {
      SwapMovesAlias(c1, w1, plan);
    }
  }

  // The alias moves before the new index is filled. From then on, whether the call succeeds or
  // fails later, readers see what the concrete index held before the call, and nothing of what
  // only older indices held. So they lose nothing exactly when the alias does not move or the
  // concrete index holds already all they could read.
  lemma ContentKeptExactlyWhenPresent(c: Cluster, w: Worker, plan: Plan)
    requires w.at.Checking? && Tidy(c)
    ensures var d, moves := Drive(c, w, plan).0, AliasMoves(c, w.Name(), plan);
            && Readable(d) == (if moves then OwnDocuments(c, w.Name()) else Readable(c))
            && (Readable(c) <= Readable(d) <==> !moves || Readable(c) <= OwnDocuments(c, w.Name()))
  {
    hide IndexName, IsVersioned, Drive;
    CallMovesAlias(c, w, plan);
    var d := Drive(c, w, plan).0;
    if AliasMoves(c, w.Name(), plan) {
      forall id ensures id in Readable(d) <==> id in d.indices[w.Name()] {
        assert w.Name() in d.targets;
      }
    } else {
      assert Readable(d) == Readable(c);
    }
  }

  // An older index with one document, which the alias serves.
  function ServedByOlder(previous: string, doc: KnowledgeDoc): Cluster {
    Cluster(map[previous := map[doc.knowledgeId := doc]], {previous}, true)
  }

  // For a worker of a newer configuration whose requests are all carried out, the call goes on
  // to send documents with nothing left to read.
  lemma RebuildInterruptsReaders(cfg: Config, previous: string, doc: KnowledgeDoc)
    requires IsVersioned(previous) && previous != IndexName(cfg)
    ensures var c := ServedByOlder(previous, doc);
            var (d, v) := Drive(c, Worker(cfg, Checking, [doc]), Plan(Healthy, Healthy, Healthy, Healthy, Healthy));
            && Tidy(c) && v.at.Sending? && Readable(c) == {doc.knowledgeId} && Readable(d) == {}
  {
    hide IndexName, IsVersioned, Drive;
    var c, w := ServedByOlder(previous, doc), Worker(cfg, Checking, [doc]);
    CallSucceedsExactlyWhen(c, w, Plan(Healthy, Healthy, Healthy, Healthy, Healthy));
    ContentKeptExactlyWhenPresent(c, w, Plan(Healthy, Healthy, Healthy, Healthy, Healthy));
    assert previous in c.targets && doc.knowledgeId in c.indices[previous];
    assert doc.knowledgeId in Readable(c);
  }

  // If the listing then fails, so does the call, and no document will be sent: readers are left with nothing.
  lemma FailedRebuildLeavesNothing(cfg: Config, previous: string, doc: KnowledgeDoc)
    requires IsVersioned(previous) && previous != IndexName(cfg)
    ensures var c := ServedByOlder(previous, doc);
            var (d, v) := Drive(c, Worker(cfg, Checking, [doc]), Plan(Healthy, Healthy, Healthy, NotSent, Healthy));
            && Tidy(c) && v.at.Idle? && Readable(c) == {doc.knowledgeId} && Readable(d) == {}
  {
    hide IndexName, IsVersioned, Drive;
    var c, w := ServedByOlder(previous, doc), Worker(cfg, Checking, [doc]);
    CallSucceedsExactlyWhen(c, w, Plan(Healthy, Healthy, Healthy, NotSent, Healthy));
    CallEnds(c, w, Plan(Healthy, Healthy, Healthy, NotSent, Healthy));
    ContentKeptExactlyWhenPresent(c, w, Plan(Healthy, Healthy, Healthy, NotSent, Healthy));
    assert previous in c.targets && doc.knowledgeId in c.indices[previous];
    assert doc.knowledgeId in Readable(c);
  }

  // A call gets to sending or gives up.
  lemma {:induction false} CallEnds(c: Cluster, w: Worker, plan: Plan)
    ensures Drive(c, w, plan).1.at.Sending? || Drive(c, w, plan).1.at.Idle?
    decreases Remaining(w.at)
  {
    hide IndexName, IsVersioned;
    if Remaining(w.at) > 0 {
      var (d, v) := Proceed(c, w, plan.At(w.at), []);
      CallEnds(d, v, plan);
    }
  }
}
