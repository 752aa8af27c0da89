/**
 Any number of workers, each with its own configuration, running the bulk upsert
 of the knowledge store against one cluster. A worker moves by one request at a
 time and keeps what it read between requests. A run is a sequence of events;
 everything that is not determined by the code is part of the event.
 */
module Workers {
  import opened Wrappers
  import opened Cluster
  import opened Delivery

  // Where a worker is, with what it remembers.
  datatype Stage =
    | Idle
    | Checking                       // about to ask whether its index exists
    | Creating                       // about to create it
    | Repointing                     // about to move the alias
    | Listing                        // about to list the versioned indices
    | Dropping(stale: set<string>)   // about to delete the others it has listed
    | Sending                        // about to send the accepted documents

  datatype Worker = Worker(cfg: Config, at: Stage, batch: seq<KnowledgeDoc>) {
    function Name(): string { IndexName(cfg) }

    function Stop(): Worker { this.(at := Idle, batch := []) }
  }

  // ---------- the drift guard ----------

  predicate InDimension(d: KnowledgeDoc, dim: int) {
    |d.vector| == dim
  }

  function Accepted(docs: seq<KnowledgeDoc>, dim: int): seq<KnowledgeDoc> {
    if docs == [] then []
    else Accepted(docs[..|docs| - 1], dim) + if InDimension(docs[|docs| - 1], dim) then [docs[|docs| - 1]] else []
  }

  // The positions, in ascending order, of the documents with a vector of the dimension,
  // or, with `inside` false, of the others.
  function GuardedAt(docs: seq<KnowledgeDoc>, dim: int, inside: bool): (at: seq<nat>)
    ensures |at| <= |docs| && forall k :: 0 <= k < |at| ==> at[k] < |docs|
  {
    if docs == [] then []
    else
      var last := |docs| - 1;
      GuardedAt(docs[..last], dim, inside) + if (|docs[last].vector| == dim) == inside then [last] else []
  }

  lemma {:induction false} GuardedAtExactly(docs: seq<KnowledgeDoc>, dim: int, inside: bool)
    ensures forall j, k :: 0 <= j < k < |GuardedAt(docs, dim, inside)| ==>
              GuardedAt(docs, dim, inside)[j] < GuardedAt(docs, dim, inside)[k]
    ensures forall i :: 0 <= i < |docs| ==> (i in GuardedAt(docs, dim, inside) <==> (|docs[i].vector| == dim) == inside)
  {
    if docs != [] {
      var last := |docs| - 1;
      var before, at := GuardedAt(docs[..last], dim, inside), GuardedAt(docs, dim, inside);
      GuardedAtExactly(docs[..last], dim, inside);
      assert at == before + if (|docs[last].vector| == dim) == inside then [last] else [];
      hide GuardedAt;
      forall i | 0 <= i < last ensures i in at <==> (|docs[i].vector| == dim) == inside {
        assert docs[..last][i] == docs[i];
      }
    }
  }

  function ReadAt(docs: seq<KnowledgeDoc>, at: seq<nat>): seq<KnowledgeDoc>
    requires forall k :: 0 <= k < |at| ==> at[k] < |docs|
  {
    seq(|at|, k requires 0 <= k < |at| => docs[at[k]])
  }

  // One more document goes to the end of the ones inside or to the end of the ones outside.
  lemma ReadAtLast(docs: seq<KnowledgeDoc>, dim: int, inside: bool)
    requires docs != []
    ensures var last := |docs| - 1;
            ReadAt(docs, GuardedAt(docs, dim, inside))
              == ReadAt(docs[..last], GuardedAt(docs[..last], dim, inside))
                 + if (|docs[last].vector| == dim) == inside then [docs[last]] else []
  {
  }

  // What passes is the batch at those positions: nothing is added, reordered, repeated or left out.
  lemma {:induction false} AcceptedAreInDimension(docs: seq<KnowledgeDoc>, dim: int)
    ensures Accepted(docs, dim) == ReadAt(docs, GuardedAt(docs, dim, true))
  {
    if docs != [] {
      AcceptedAreInDimension(docs[..|docs| - 1], dim);
      ReadAtLast(docs, dim, true);
    }
  }

  lemma AcceptedMembers(docs: seq<KnowledgeDoc>, dim: int)
    ensures forall d :: d in Accepted(docs, dim) <==> d in docs && InDimension(d, dim)
  {
    AcceptedAreInDimension(docs, dim);
    GuardedAtExactly(docs, dim, true);
    var at := GuardedAt(docs, dim, true);
    forall d | d in Accepted(docs, dim) ensures d in docs && InDimension(d, dim) {
      var k :| 0 <= k < |at| && docs[at[k]] == d;
      assert at[k] in at;
    }
    forall d | d in docs && InDimension(d, dim) ensures d in Accepted(docs, dim) {
      var i :| 0 <= i < |docs| && docs[i] == d;
      var k :| 0 <= k < |at| && at[k] == i;
      assert Accepted(docs, dim)[k] == d;
    }
  }

  // Every action names the concrete index itself.
  function Writes(docs: seq<KnowledgeDoc>, index: string): seq<Write> {
    seq(|docs|, i requires 0 <= i < |docs| => Write(index, docs[i].knowledgeId, docs[i]))
  }

  // How many requests may still come before the documents are sent.
  function Remaining(stage: Stage): nat {
    match stage
    case Checking => 5
    case Creating => 4
    case Repointing => 3
    case Listing => 2
    case Dropping(_) => 1
    case _ => 0
  }

  // ---------- one request of one worker ----------

  // An error status is an error for every request but two: a 400 on create and a 404 on delete pass.
  function Proceed(c: Cluster, w: Worker, f: Fault, verdicts: seq<Outcome>): (Cluster, Worker) {
    match w.at
    case Idle => (c, w)
    case Checking =>
      var reply := HeadIndex(c, w.Name(), f);
      (c, if reply.None? then w.Stop() else w.(at := if reply.value == 200 then Repointing else Creating))
    case Creating =>
      var (next, reply) := PutIndex(c, w.Name(), f);
      (next, if reply.None? || (IsError(reply.value) && reply.value != 400) then w.Stop() else w.(at := Repointing))
    case Repointing =>
      var (next, reply) := PostAliases(c, w.Name(), f);
      (next, if reply.None? || IsError(reply.value) then w.Stop() else w.(at := Listing))
    case Listing =>
      var (reply, rows) := CatIndices(c, f);
      if reply.None? || (IsError(reply.value) && reply.value != 404) then (c, w.Stop())
      else
        var stale := if IsError(reply.value) then {} else rows - {w.Name()};
        (c, w.(at := if stale == {} then Sending else Dropping(stale)))
    case Dropping(stale) =>
      var (next, reply) := DeleteIndices(c, stale, f);
      (next, if reply.None? || (IsError(reply.value) && reply.value != 404) then w.Stop() else w.(at := Sending))
    case Sending =>
      var accepted := Accepted(w.batch, w.cfg.embedDim);
      (if accepted == [] then c else PostBulk(c, Writes(accepted, w.Name()), verdicts, f).0, w.Stop())
  }

  // ---------- systems and runs ----------

  datatype System = System(cluster: Cluster, workers: seq<Worker>)

  datatype Event =
    | Begin(worker: nat, docs: seq<KnowledgeDoc>)                     // a bulk upsert is called
    | Request(worker: nat, fault: Fault, verdicts: seq<Outcome>)      // the worker's next request
    | Crash(worker: nat)                                              // the call ends wherever it is
    | Remove(worker: nat, id: string, fault: Fault)                   // a delete by id, through the alias

  function Apply(s: System, e: Event): System {
    if e.worker >= |s.workers| then s
    else
      var w := s.workers[e.worker];
      match e
      case Begin(i, docs) =>
        if w.at.Idle? && docs != [] then s.(workers := s.workers[i := w.(at := Checking, batch := docs)]) else s
      case Request(i, f, verdicts) =>
        var (c, next) := Proceed(s.cluster, w, f, verdicts);
        System(c, s.workers[i := next])
      case Crash(i) => s.(workers := s.workers[i := w.Stop()])
      case Remove(i, id, f) => s.(cluster := DeleteThroughAlias(s.cluster, id, f).0)
  }

  function Exec(s: System, events: seq<Event>): System
    decreases |events|
  {
    if events == [] then s else Exec(Apply(s, events[0]), events[1..])
  }

  // All workers at rest.
  function Start(c: Cluster, cfgs: seq<Config>): System {
    System(c, seq(|cfgs|, i requires 0 <= i < |cfgs| => Worker(cfgs[i], Idle, [])))
  }

  lemma {:induction false} ExecSplits(s: System, before: seq<Event>, after: seq<Event>)
    ensures Exec(s, before + after) == Exec(Exec(s, before), after)
    decreases |before|
  {
    if before == [] {
      assert before + after == after;
    } else {
      assert (before + after)[1..] == before[1..] + after;
      ExecSplits(Apply(s, before[0]), before[1..], after);
    }
  }

  // ---------- what holds for any configurations ----------

  lemma ProceedKeepsTidy(c: Cluster, w: Worker, f: Fault, verdicts: seq<Outcome>)
    requires Tidy(c)
    ensures Tidy(Proceed(c, w, f, verdicts).0)
  {
    IndexNameIsVersioned(w.cfg);
    if w.at.Sending? {
      WritesOnlyAdd(c, Writes(Accepted(w.batch, w.cfg.embedDim), w.Name()), verdicts);
    }
  }

  // A bulk request removes no index and no document and leaves the alias alone.
  lemma {:induction false} WritesOnlyAdd(c: Cluster, writes: seq<Write>, verdicts: seq<Outcome>)
    ensures var after := WriteAll(c, writes, verdicts).0;
            && after.targets == c.targets && after.autoCreate == c.autoCreate
            && forall n :: n in c.indices ==> n in after.indices && c.indices[n].Keys <= after.indices[n].Keys
    decreases |writes|
  {
    if writes != [] {
      var verdict := if verdicts == [] then NO_VERDICT else verdicts[0];
      WritesOnlyAdd(WriteOne(c, writes[0], verdict).0, writes[1..], if verdicts == [] then [] else verdicts[1..]);
    }
  }

  lemma {:induction false} RunsKeepTidy(s: System, events: seq<Event>)
    requires Tidy(s.cluster)
    ensures Tidy(Exec(s, events).cluster)
    decreases |events|
  {
    if events != [] {
      var e := events[0];
      if e.Request? && e.worker < |s.workers| {
        ProceedKeepsTidy(s.cluster, s.workers[e.worker], e.fault, e.verdicts);
      }
      RunsKeepTidy(Apply(s, e), events[1..]);
    }
  }
}
