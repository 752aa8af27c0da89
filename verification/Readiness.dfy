/** The readiness gate of Status: what an open gate means, when a full upsert opens it, and which index it is about. */
module Readiness {
  import opened Cluster
  import opened Delivery
  import opened Sets
  import opened Workers
  import opened AliasSafety
  import opened Recovery
  import opened StoredDocuments

  // The reply to the statistics query.
  datatype Stats = Stats(count: nat, lastIndexed: int, model: string)

  // The count is exact, and the reported model is that of some document.
  ghost predicate Honest(index: Index, stats: Stats) {
    && stats.count == |index|
    && (index == map[] ==> stats.model == "")
    && (index != map[] ==> exists id :: id in index && index[id].embedModelVersion == stats.model)
  }

  predicate GateOpen(cfg: Config, active: string, stats: Stats) {
    active != "" && stats.count == cfg.expectedDocCount && (stats.model == "" || stats.model == cfg.embedModel)
  }

  ghost predicate DrawnFrom(events: seq<Event>, catalog: set<string>) {
    forall e :: e in events && e.Begin? ==> forall d :: d in e.docs ==> d.knowledgeId in catalog
  }

  function InCatalog(catalog: set<string>): (string, KnowledgeDoc) -> bool {
    (n: string, d: KnowledgeDoc) => d.knowledgeId in catalog
  }

  ghost predicate HoldsOnly(c: Cluster, catalog: set<string>) {
    AllDocs(c, InCatalog(catalog))
  }

  // Every batch draws from a catalog. The alias is read after any run of any workers, the statistics
  // of the index it was on after any further run. Then the gate is open exactly when that index holds
  // as many documents of the catalog as are expected, neither fewer nor more, and the statistics name the
  // configured model or none; and an open gate means the whole catalog exactly when that has this size.
  lemma ReadyMeansExactCount(
    c: Cluster, cfgs: seq<Config>, run: seq<Event>, later: seq<Event>, catalog: set<string>,
    cfg: Config, active: string, stats: Stats)
    requires Tidy(c) && HoldsOnly(c, catalog) && DrawnFrom(run + later, catalog)
    requires active in Exec(Start(c, cfgs), run).cluster.targets
    requires active in Exec(Start(c, cfgs), run + later).cluster.indices ==>
               Honest(Exec(Start(c, cfgs), run + later).cluster.indices[active], stats)
    ensures Exec(Start(c, cfgs), run).cluster.targets == {active}
    ensures var s := Exec(Start(c, cfgs), run + later).cluster;
            active in s.indices ==>
              var ids := s.indices[active].Keys;
              && ids <= catalog
              && (GateOpen(cfg, active, stats) <==>
                    |ids| == cfg.expectedDocCount && (stats.model == "" || stats.model == cfg.embedModel))
              && (GateOpen(cfg, active, stats) ==> (ids == catalog <==> |catalog| == cfg.expectedDocCount))
  {
    var start, s := Start(c, cfgs), Exec(Start(c, cfgs), run + later).cluster;
    RunsKeepTidy(start, run);
    assert IsVersioned(active);
    RunKeepsDocs(start, cfgs, run + later, InCatalog(catalog));
    if active in s.indices {
      assert s.indices[active].Keys <= catalog;
      assert |s.indices[active].Keys| == |s.indices[active]|;
      if |s.indices[active].Keys| == |catalog| {
        SubsetOfSameSize(s.indices[active].Keys, catalog);
      }
    }
  }

  // So with a catalog of the expected size the gate is open exactly when the index holds the whole
  // catalog: repeated or duplicated upserts and documents refused on the way cannot open it early.
  lemma ReadyMeansComplete(
    c: Cluster, cfgs: seq<Config>, run: seq<Event>, later: seq<Event>, catalog: set<string>,
    cfg: Config, active: string, stats: Stats)
    requires Tidy(c) && HoldsOnly(c, catalog) && DrawnFrom(run + later, catalog)
    requires |catalog| == cfg.expectedDocCount
    requires active in Exec(Start(c, cfgs), run).cluster.targets
    requires active in Exec(Start(c, cfgs), run + later).cluster.indices ==>
               Honest(Exec(Start(c, cfgs), run + later).cluster.indices[active], stats)
    ensures Exec(Start(c, cfgs), run).cluster.targets == {active}
    ensures var s := Exec(Start(c, cfgs), run + later).cluster;
            active in s.indices ==>
              (GateOpen(cfg, active, stats) <==>
                 s.indices[active].Keys == catalog && (stats.model == "" || stats.model == cfg.embedModel))
  {
    hide GateOpen, Exec, Honest, Tidy, HoldsOnly, DrawnFrom;
    ReadyMeansExactCount(c, cfgs, run, later, catalog, cfg, active, stats);
  }

  // ---------- a complete upsert opens the gate ----------

  ghost predicate AllGranted(verdicts: seq<Outcome>) {
    forall v :: v in verdicts ==> v.Granted()
  }

  function IdsOf(docs: seq<KnowledgeDoc>): set<string> {
    set d | d in docs :: d.knowledgeId
  }

  // With every item granted, the index gains the documents; an id that is not among them keeps its own.
  lemma GrantedWrites(c: Cluster, docs: seq<KnowledgeDoc>, name: string, verdicts: seq<Outcome>, model: string)
    requires name in c.indices && |verdicts| == |docs| && AllGranted(verdicts)
    requires forall d :: d in docs ==> d.embedModelVersion == model
    ensures var after := WriteAll(c, Writes(docs, name), verdicts).0;
            && after.targets == c.targets && name in after.indices
            && after.indices[name].Keys == c.indices[name].Keys + IdsOf(docs)
            && forall id :: id in IdsOf(docs) ==> after.indices[name][id].embedModelVersion == model
  {
    var (after, outcomes) := WriteAll(c, Writes(docs, name), verdicts);
    EachItemOnItsOwn(c, docs, name, verdicts);
    IndexedMeansStored(c, docs, name, verdicts);
    assert outcomes == verdicts;
    forall d | d in docs ensures d.knowledgeId in GrantedIds(docs, outcomes) {
      var i :| 0 <= i < |docs| && docs[i] == d;
      assert outcomes[i] in verdicts;
    }
    assert GrantedIds(docs, outcomes) == IdsOf(docs);
    forall id | id in IdsOf(docs) ensures after.indices[name][id].embedModelVersion == model {
      assert StoredUnder(Contents(c, name), Contents(after, name), docs, outcomes, id);
    }
  }

  // An undisturbed upsert whose bulk request is carried out, and whether it got that far.
  function Upsert(
    c: Cluster, cfg: Config, batch: seq<KnowledgeDoc>, plan: Plan, verdicts: seq<Outcome>): (Cluster, bool)
  {
    var (d, v) := Drive(c, Worker(cfg, Checking, batch), plan);
    (Proceed(d, v, Healthy, verdicts).0, v.at.Sending?)
  }

  lemma UpsertWritesBatch(
    c: Cluster, cfg: Config, batch: seq<KnowledgeDoc>, plan: Plan, verdicts: seq<Outcome>)
    requires forall t :: t in c.targets ==> IsVersioned(t)
    requires batch != [] && forall d :: d in batch ==> InDimension(d, cfg.embedDim)
    requires Upsert(c, cfg, batch, plan, verdicts).1
    ensures var name, d := IndexName(cfg), Drive(c, Worker(cfg, Checking, batch), plan).0;
            && Settled(d, name) && OthersKept(c, d, name)
            && Upsert(c, cfg, batch, plan, verdicts).0 == WriteAll(d, Writes(batch, name), verdicts).0
  {
    hide IndexName, IsVersioned, Drive, Settled, OthersKept, WriteAll, Accepted;
    SuccessSettles(c, Worker(cfg, Checking, batch), plan);
    DriveKeepsCall(c, Worker(cfg, Checking, batch), plan);
    AllAccepted(batch, cfg.embedDim);
  }

  lemma GateCountsIndex(index: Index, cfg: Config, active: string, stats: Stats)
    requires active != "" && Honest(index, stats)
    requires forall id :: id in index ==> index[id].embedModelVersion == cfg.embedModel
    ensures GateOpen(cfg, active, stats) <==> |index.Keys| == cfg.expectedDocCount
  {
  }

  // After any run of any workers whose batches draw from the same catalog, one undisturbed upsert
  // of the whole catalog with every item granted leaves the alias on the concrete index, and the gate
  // open exactly when the catalog has the expected size: one document too many keeps it closed.
  lemma CompleteUpsertOpensGate(
    c: Cluster, cfgs: seq<Config>, run: seq<Event>,
    cfg: Config, batch: seq<KnowledgeDoc>, plan: Plan, verdicts: seq<Outcome>, stats: Stats)
    requires Tidy(c) && HoldsOnly(c, IdsOf(batch)) && DrawnFrom(run, IdsOf(batch))
    requires batch != []
    requires forall d :: d in batch ==> InDimension(d, cfg.embedDim) && d.embedModelVersion == cfg.embedModel
    requires |verdicts| == |batch| && AllGranted(verdicts)
    requires Upsert(Exec(Start(c, cfgs), run).cluster, cfg, batch, plan, verdicts).1
    requires var e := Upsert(Exec(Start(c, cfgs), run).cluster, cfg, batch, plan, verdicts).0;
             IndexName(cfg) in e.indices ==> Honest(e.indices[IndexName(cfg)], stats)
    ensures var e := Upsert(Exec(Start(c, cfgs), run).cluster, cfg, batch, plan, verdicts).0;
            && e.targets == {IndexName(cfg)}
            && (GateOpen(cfg, IndexName(cfg), stats) <==> |IdsOf(batch)| == cfg.expectedDocCount)
  {
    hide IndexName, IsVersioned, Exec, Drive, Proceed, WriteAll;
    RunsKeepTidy(Start(c, cfgs), run);
    RunKeepsDocs(Start(c, cfgs), cfgs, run, InCatalog(IdsOf(batch)));
    UpsertDecidesGate(Exec(Start(c, cfgs), run).cluster, cfg, batch, plan, verdicts, stats);
  }

  lemma ContentsWithin(c: Cluster, name: string, catalog: set<string>)
    requires HoldsOnly(c, catalog) && IsVersioned(name)
    ensures Contents(c, name).Keys <= catalog
  {
  }

  lemma UpsertDecidesGate(
    c: Cluster, cfg: Config, batch: seq<KnowledgeDoc>, plan: Plan, verdicts: seq<Outcome>, stats: Stats)
    requires Tidy(c) && HoldsOnly(c, IdsOf(batch)) && batch != []
    requires forall d :: d in batch ==> InDimension(d, cfg.embedDim) && d.embedModelVersion == cfg.embedModel
    requires |verdicts| == |batch| && AllGranted(verdicts)
    requires Upsert(c, cfg, batch, plan, verdicts).1
    requires var e := Upsert(c, cfg, batch, plan, verdicts).0;
             IndexName(cfg) in e.indices ==> Honest(e.indices[IndexName(cfg)], stats)
    ensures var e := Upsert(c, cfg, batch, plan, verdicts).0;
            && e.targets == {IndexName(cfg)}
            && (GateOpen(cfg, IndexName(cfg), stats) <==> |IdsOf(batch)| == cfg.expectedDocCount)
  {
    hide IndexName, IsVersioned, Drive, Upsert, WriteAll, HoldsOnly, GateOpen, Honest, InDimension;
    var name, e := IndexName(cfg), Upsert(c, cfg, batch, plan, verdicts).0;
    IndexNameIsVersioned(cfg);
    UpsertWritesBatch(c, cfg, batch, plan, verdicts);
    var d := Drive(c, Worker(cfg, Checking, batch), plan).0;
    GrantedWrites(d, batch, name, verdicts, cfg.embedModel);
    ContentsWithin(c, name, IdsOf(batch));
    assert e.indices[name].Keys == IdsOf(batch);
    NotEmpty(cfg);
    GateCountsIndex(e.indices[name], cfg, name, stats);
  }

  lemma NotEmpty(cfg: Config)
    ensures IndexName(cfg) != ""
  {
  }

  lemma {:induction false} DriveKeepsCall(c: Cluster, w: Worker, plan: Plan)
    ensures Drive(c, w, plan).1.cfg == w.cfg
    ensures Drive(c, w, plan).1.at.Sending? ==> Drive(c, w, plan).1.batch == w.batch
    decreases Remaining(w.at)
  {
    hide IndexName, IsVersioned;
    if Remaining(w.at) > 0 {
      var (d, v) := Proceed(c, w, plan.At(w.at), []);
      DriveKeepsCall(d, v, plan);
    }
  }

  lemma {:induction false} AllAccepted(docs: seq<KnowledgeDoc>, dim: int)
    requires forall d :: d in docs ==> InDimension(d, dim)
    ensures Accepted(docs, dim) == docs
  {
    hide InDimension;
    if docs != [] {
      var last := |docs| - 1;
      var init := docs[..last];
      forall d | d in init ensures InDimension(d, dim) {
        assert d in docs;
      }
      AllAccepted(init, dim);
      assert docs[last] in docs && docs == init + [docs[last]];
    }
  }

  // ---------- which index the gate is about ----------

  // The alias is on the index and its statistics open the gate.
  ghost predicate OpensGate(cfg: Config, c: Cluster, active: string, stats: Stats) {
    && active in c.targets && active in c.indices
    && Honest(c.indices[active], stats) && GateOpen(cfg, active, stats)
  }

  // The alias on an older index that holds as many documents as expected, all of the configured model:
  // the gate is open on an index that is not the configured one.
  lemma GateOpensOnOlderIndex(cfg: Config, previous: string, index: Index, lastIndexed: int)
    requires IsVersioned(previous) && previous != IndexName(cfg)
    requires |index| == cfg.expectedDocCount
    requires forall id :: id in index ==> index[id].embedModelVersion == cfg.embedModel
    ensures var c := Cluster(map[previous := index], {previous}, true);
            var model := if index == map[] then "" else cfg.embedModel;
            Tidy(c) && OpensGate(cfg, c, previous, Stats(|index|, lastIndexed, model))
  {
    hide IndexName;
    if index != map[] {
      var id :| id in index;
      assert index[id].embedModelVersion == cfg.embedModel;
    }
  }

  // From any cluster whose alias is on the configured index or on none, after any run of the
  // workers, an open gate is about the configured index.
  ghost predicate GateTellsIndex(cfg: Config, cfgs: seq<Config>) {
    forall c, run, active, stats ::
      Tidy(c) && c.targets <= {IndexName(cfg)} && OpensGate(cfg, Exec(Start(c, cfgs), run).cluster, active, stats) ==>
        active == IndexName(cfg)
  }

  lemma {:induction false} TargetsStayWithin(s: System, run: seq<Event>, name: string)
    requires Safe(s, name) && s.cluster.targets <= {name}
    ensures Exec(s, run).cluster.targets <= {name}
    decreases |run|
  {
    if run != [] {
      ApplyIsSafe(s, run[0], name);
      assert Apply(s, run[0]).cluster.targets <= {name} by {
        hide IndexName, IsVersioned;
        if run[0].worker < |s.workers| {
          assert WorkerSafe(s.cluster, s.workers[run[0].worker], name);
        }
      }
      TargetsStayWithin(Apply(s, run[0]), run[1..], name);
    }
  }

  // As many documents of one model as wanted, under ids of different lengths.
  function Filled(n: nat, doc: KnowledgeDoc): (r: Index)
    ensures |r| == n
    ensures forall id :: id in r ==> |id| < n && r[id] == doc.(knowledgeId := id)
  {
    if n == 0 then map[]
    else
      var id := seq(n - 1, _ => 'k');
      Filled(n - 1, doc)[id := doc.(knowledgeId := id)]
  }

  // An undisturbed call of one worker takes the alias to its own index, with what that holds.
  lemma CallTakesAlias(cfgs: seq<Config>, i: nat, index: Index)
    requires i < |cfgs|
    ensures var name := IndexName(cfgs[i]);
            var c := Cluster(map[name := index], {}, true);
            Tidy(c) && exists run ::
              var d := Exec(Start(c, cfgs), run).cluster;
              d.targets == {name} && name in d.indices && d.indices[name] == index
  {
    hide IndexName, IsVersioned, Exec, Drive, Script;
    var c := Cluster(map[IndexName(cfgs[i]) := index], {}, true);
    var plan := Plan(Healthy, Healthy, Healthy, Healthy, Healthy);
    var s, begin := Start(c, cfgs), Begin(i, [SOME_DOC]);
    var t := Apply(s, begin);
    var rest := Script(c, t.workers[i], plan, i);
    DriveIsARun(t, i, plan);
    CallMovesAlias(c, t.workers[i], plan);
    BeginThen(s, begin, rest);
    assert Exec(s, [begin] + rest).cluster.targets == {IndexName(cfgs[i])};
  }

  lemma BeginThen(s: System, e: Event, rest: seq<Event>)
    ensures Exec(s, [e] + rest) == Exec(Apply(s, e), rest)
  {
    assert ([e] + rest)[1..] == rest;
  }

  lemma FilledOpensGate(cfg: Config, c: Cluster, active: string)
    requires cfg.expectedDocCount >= 0 && active != "" && active in c.targets && active in c.indices
    requires c.indices[active] == Filled(cfg.expectedDocCount, SOME_DOC.(embedModelVersion := cfg.embedModel))
    ensures exists stats :: OpensGate(cfg, c, active, stats)
  {
    var index := c.indices[active];
    if index != map[] {
      var id :| id in index;
      assert index[id].embedModelVersion == cfg.embedModel;
    }
    assert OpensGate(cfg, c, active, Stats(|index|, 0, if index == map[] then "" else cfg.embedModel));
  }

  // An open gate always is about the configured index exactly when all workers of the fleet share its
  // name (or no number of documents would ever be the expected one).
  lemma GateTellsIndexExactlyForOneName(cfg: Config, cfgs: seq<Config>)
    ensures GateTellsIndex(cfg, cfgs) <==> cfg.expectedDocCount < 0 || SameName(cfgs, IndexName(cfg))
  {
    hide IndexName, IsVersioned, Exec;
    var name := IndexName(cfg);
    if SameName(cfgs, name) {
      forall c, run, active, stats | Tidy(c) && c.targets <= {name}
        && OpensGate(cfg, Exec(Start(c, cfgs), run).cluster, active, stats)
        ensures active == name
      {
        TargetsStayWithin(Start(c, cfgs), run, name);
      }
    } else if cfg.expectedDocCount >= 0 {
      var i :| 0 <= i < |cfgs| && IndexName(cfgs[i]) != name;
      var other := IndexName(cfgs[i]);
      var index := Filled(cfg.expectedDocCount, SOME_DOC.(embedModelVersion := cfg.embedModel));
      var c := Cluster(map[other := index], {}, true);
      CallTakesAlias(cfgs, i, index);
      var run :| var d := Exec(Start(c, cfgs), run).cluster;
                 d.targets == {other} && other in d.indices && d.indices[other] == index;
      NotEmpty(cfgs[i]);
      FilledOpensGate(cfg, Exec(Start(c, cfgs), run).cluster, other);
      var stats :| OpensGate(cfg, Exec(Start(c, cfgs), run).cluster, other, stats);
      assert !GateTellsIndex(cfg, cfgs);
    }
  }
}
