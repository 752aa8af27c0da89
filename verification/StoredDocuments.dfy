/** What a bulk request stores, and what the documents of the versioned indices have in common after any run. */
module StoredDocuments {
  import opened Cluster
  import opened Delivery
  import opened Workers

  // ---------- one bulk request ----------

  // One verdict an item, as long as the index is there or gets created.
  lemma {:induction false} EachItemOnItsOwn(c: Cluster, docs: seq<KnowledgeDoc>, name: string, verdicts: seq<Outcome>)
    ensures var outcomes := WriteAll(c, Writes(docs, name), verdicts).1;
            forall i :: 0 <= i < |docs| ==>
              outcomes[i] == if name !in c.indices && !c.autoCreate then INDEX_NOT_FOUND
                             else if i < |verdicts| then verdicts[i] else NO_VERDICT
    decreases |docs|
  {
    if docs != [] {
      var rest1 := if verdicts == [] then [] else verdicts[1..];
      WritesHead(c, docs, name, verdicts);
      EachItemOnItsOwn(OneWritten(c, docs[0], name, verdicts).0, docs[1..], name, rest1);
    }
  }

  function OneWritten(c: Cluster, d: KnowledgeDoc, name: string, verdicts: seq<Outcome>): (Cluster, Outcome) {
    WriteOne(c, Write(name, d.knowledgeId, d), if verdicts == [] then NO_VERDICT else verdicts[0])
  }

  lemma WritesHead(c: Cluster, docs: seq<KnowledgeDoc>, name: string, verdicts: seq<Outcome>)
    requires docs != []
    ensures var (next, outcome) := OneWritten(c, docs[0], name, verdicts);
            var rest := if verdicts == [] then [] else verdicts[1..];
            var (after, outcomes) := WriteAll(next, Writes(docs[1..], name), rest);
            WriteAll(c, Writes(docs, name), verdicts) == (after, [outcome] + outcomes)
  {
    assert Writes(docs, name)[1..] == Writes(docs[1..], name);
  }

  lemma OneWrittenStores(c: Cluster, d: KnowledgeDoc, name: string, verdicts: seq<Outcome>)
    ensures var (next, outcome) := OneWritten(c, d, name, verdicts);
            && next == c.(indices := next.indices) && next.indices - {name} == c.indices - {name}
            && (name in next.indices <==> name in c.indices || c.autoCreate)
            && Contents(next, name)
                 == if outcome.Granted() then Contents(c, name)[d.knowledgeId := d] else Contents(c, name)
  {
  }

  function GrantedIds(docs: seq<KnowledgeDoc>, outcomes: seq<Outcome>): set<string>
    requires |docs| == |outcomes|
  {
    set i | 0 <= i < |docs| && outcomes[i].Granted() :: docs[i].knowledgeId
  }

  // The document is the last one of its id that was granted.
  ghost predicate LastGranted(docs: seq<KnowledgeDoc>, outcomes: seq<Outcome>, i: int, d: KnowledgeDoc)
    requires |docs| == |outcomes|
  {
    && 0 <= i < |docs| && outcomes[i].Granted() && docs[i] == d
    && forall j :: i < j < |docs| && outcomes[j].Granted() ==> docs[j].knowledgeId != d.knowledgeId
  }

  // The id is among those granted and holds the last document granted for it, or it is not and
  // holds what it held before.
  ghost predicate StoredUnder(
    before: Index, after: Index, docs: seq<KnowledgeDoc>, outcomes: seq<Outcome>, id: string)
    requires |docs| == |outcomes|
  {
    id in after &&
    if id in GrantedIds(docs, outcomes)
    then after[id].knowledgeId == id && exists i :: LastGranted(docs, outcomes, i, after[id])
    else id in before && after[id] == before[id]
  }

  // What is counted as indexed is what the index gains: exactly the ids granted, each with the
  // last document granted for it. Other ids, other indices and the alias stay as they are. This
  // holds too for an index that is gone by then: it is created on the fly, or nothing is granted.
  lemma {:induction false} IndexedMeansStored(c: Cluster, docs: seq<KnowledgeDoc>, name: string, verdicts: seq<Outcome>)
    ensures var (after, outcomes) := WriteAll(c, Writes(docs, name), verdicts);
            && after == c.(indices := after.indices) && after.indices - {name} == c.indices - {name}
            && (name in after.indices <==> name in c.indices || (docs != [] && c.autoCreate))
            && Contents(after, name).Keys == Contents(c, name).Keys + GrantedIds(docs, outcomes)
            && forall id :: id in Contents(after, name) ==>
                 StoredUnder(Contents(c, name), Contents(after, name), docs, outcomes, id)
    decreases |docs|
  {
    hide WriteOne, OneWritten, StoredUnder, Contents;
    if docs == [] {
      hide GrantedIds;
      NothingStored(Contents(c, name));
    } else {
      hide WriteAll, Writes, GrantedIds;
      var verdicts1 := if verdicts == [] then [] else verdicts[1..];
      var (next, outcome) := OneWritten(c, docs[0], name, verdicts);
      OneWrittenStores(c, docs[0], name, verdicts);
      WritesHead(c, docs, name, verdicts);
      IndexedMeansStored(next, docs[1..], name, verdicts1);
      var (after, outcomes) := WriteAll(c, Writes(docs, name), verdicts);
      GrantedHead(docs, outcomes);
      forall id | id in Contents(after, name)
        ensures StoredUnder(Contents(c, name), Contents(after, name), docs, outcomes, id)
      {
        StoredBefore(Contents(c, name), Contents(next, name), Contents(after, name), docs, outcomes, id);
      }
    }
  }

  lemma NothingStored(index: Index)
    ensures GrantedIds([], []) == {} && forall id :: id in index ==> StoredUnder(index, index, [], [], id)
  {
  }

  lemma GrantedHead(docs: seq<KnowledgeDoc>, outcomes: seq<Outcome>)
    requires |docs| == |outcomes| > 0
    ensures GrantedIds(docs, outcomes)
         == (if outcomes[0].Granted() then {docs[0].knowledgeId} else {}) + GrantedIds(docs[1..], outcomes[1..])
  {
  }

  lemma StoredBefore(
    before: Index, next: Index, after: Index, docs: seq<KnowledgeDoc>, outcomes: seq<Outcome>, id: string)
    requires |docs| == |outcomes| > 0
    requires next == if outcomes[0].Granted() then before[docs[0].knowledgeId := docs[0]] else before
    requires StoredUnder(next, after, docs[1..], outcomes[1..], id)
    ensures StoredUnder(before, after, docs, outcomes, id)
  {
    GrantedHead(docs, outcomes);
    if id in GrantedIds(docs[1..], outcomes[1..]) {
      var i :| LastGranted(docs[1..], outcomes[1..], i, after[id]);
      forall j | i + 1 < j < |docs| && outcomes[j].Granted() ensures docs[j].knowledgeId != id {
        assert docs[1..][j - 1] == docs[j] && outcomes[1..][j - 1] == outcomes[j];
      }
      assert LastGranted(docs, outcomes, i + 1, after[id]);
    } else if id in GrantedIds(docs, outcomes) {
      forall j | 0 < j < |docs| && outcomes[j].Granted() ensures docs[j].knowledgeId != id {
        assert docs[1..][j - 1] == docs[j] && outcomes[1..][j - 1] == outcomes[j];
      }
      assert LastGranted(docs, outcomes, 0, after[id]);
    }
  }

  // ---------- what every run keeps ----------

  // Every document of a versioned index is stored under its own id and satisfies a condition on
  // its index and itself; foreign indices are not spoken of.
  ghost predicate AllDocs(c: Cluster, p: (string, KnowledgeDoc) -> bool) {
    forall n, id :: n in c.indices && IsVersioned(n) && id in c.indices[n] ==>
      c.indices[n][id].knowledgeId == id && p(n, c.indices[n][id])
  }

  // The condition on a document that passes the drift guard of a configuration.
  ghost predicate GuardedDocs(cfg: Config, docs: seq<KnowledgeDoc>, p: (string, KnowledgeDoc) -> bool) {
    forall d :: d in docs && InDimension(d, cfg.embedDim) ==> p(IndexName(cfg), d)
  }

  ghost predicate GuardedEvents(cfgs: seq<Config>, events: seq<Event>, p: (string, KnowledgeDoc) -> bool) {
    forall e :: e in events && e.Begin? && e.worker < |cfgs| ==> GuardedDocs(cfgs[e.worker], e.docs, p)
  }

  ghost predicate Holds(s: System, cfgs: seq<Config>, p: (string, KnowledgeDoc) -> bool) {
    && AllDocs(s.cluster, p) && |s.workers| == |cfgs|
    && forall i :: 0 <= i < |cfgs| ==> s.workers[i].cfg == cfgs[i] && GuardedDocs(cfgs[i], s.workers[i].batch, p)
  }

  lemma {:induction false} WritesKeepDocs(
    c: Cluster, writes: seq<Write>, verdicts: seq<Outcome>, p: (string, KnowledgeDoc) -> bool)
    requires AllDocs(c, p)
    requires forall w :: w in writes ==> w.id == w.doc.knowledgeId && p(w.index, w.doc)
    ensures AllDocs(WriteAll(c, writes, verdicts).0, p)
    decreases |writes|
  {
    if writes != [] {
      assert writes[0] in writes;
      var verdict := if verdicts == [] then NO_VERDICT else verdicts[0];
      WritesKeepDocs(WriteOne(c, writes[0], verdict).0, writes[1..], if verdicts == [] then [] else verdicts[1..], p);
    }
  }

  lemma ProceedKeepsDocs(c: Cluster, w: Worker, f: Fault, verdicts: seq<Outcome>, p: (string, KnowledgeDoc) -> bool)
    requires AllDocs(c, p) && GuardedDocs(w.cfg, w.batch, p)
    ensures AllDocs(Proceed(c, w, f, verdicts).0, p)
  {
    hide IndexName, IsVersioned, Accepted, WriteAll;
    if w.at.Sending? {
      var docs := Accepted(w.batch, w.cfg.embedDim);
      AcceptedMembers(w.batch, w.cfg.embedDim);
      forall x | x in Writes(docs, w.Name()) ensures x.id == x.doc.knowledgeId && p(x.index, x.doc) {
        var i :| 0 <= i < |docs| && Writes(docs, w.Name())[i] == x;
        assert docs[i] in docs;
      }
      WritesKeepDocs(c, Writes(docs, w.Name()), verdicts, p);
    }
  }

  lemma ApplyKeepsDocs(s: System, cfgs: seq<Config>, e: Event, p: (string, KnowledgeDoc) -> bool)
    requires Holds(s, cfgs, p) && GuardedEvents(cfgs, [e], p)
    ensures Holds(Apply(s, e), cfgs, p)
  {
    hide IndexName, IsVersioned;
    assert e in [e];
    if e.Request? && e.worker < |s.workers| {
      ProceedKeepsDocs(s.cluster, s.workers[e.worker], e.fault, e.verdicts, p);
    }
  }

  lemma {:induction false} RunKeepsDocs(
    s: System, cfgs: seq<Config>, events: seq<Event>, p: (string, KnowledgeDoc) -> bool)
    requires Holds(s, cfgs, p) && GuardedEvents(cfgs, events, p)
    ensures Holds(Exec(s, events), cfgs, p)
    decreases |events|
  {
    if events != [] {
      assert events[0] in events;
      ApplyKeepsDocs(s, cfgs, events[0], p);
      assert forall e :: e in events[1..] ==> e in events;
      RunKeepsDocs(Apply(s, events[0]), cfgs, events[1..], p);
    }
  }

  // ---------- dimensions ----------

  // The vector has the dimension of every configuration that the name can stand for.
  ghost predicate FitsName(name: string, d: KnowledgeDoc) {
    forall cfg: Config :: IndexName(cfg) == name ==> InDimension(d, cfg.embedDim)
  }

  // Workers of any configurations, in any interleaving: a document in a versioned index
  // has a vector of exactly the dimension that the index's name tells.
  lemma EveryVectorFitsItsIndex(c: Cluster, cfgs: seq<Config>, run: seq<Event>)
    requires AllDocs(c, FitsName)
    ensures var s := Exec(Start(c, cfgs), run).cluster;
            forall cfg: Config, id :: IndexName(cfg) in s.indices && id in s.indices[IndexName(cfg)] ==>
              |s.indices[IndexName(cfg)][id].vector| == cfg.embedDim
  {
    forall cfg: Config, docs ensures GuardedDocs(cfg, docs, FitsName) {
      forall d | d in docs && InDimension(d, cfg.embedDim) ensures FitsName(IndexName(cfg), d) {
        forall other: Config | IndexName(other) == IndexName(cfg) ensures InDimension(d, other.embedDim) {
          NameDeterminesSettings(MAPPING_VERSION, other.embedDim, other.modelTag,
                                 MAPPING_VERSION, cfg.embedDim, cfg.modelTag);
        }
      }
    }
    RunKeepsDocs(Start(c, cfgs), cfgs, run, FitsName);
    forall cfg: Config ensures IsVersioned(IndexName(cfg)) {
      IndexNameIsVersioned(cfg);
    }
  }
}
