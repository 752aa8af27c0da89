/**
 The knowledge store itself: the calls it makes on the cluster, in its own order
 and with its own error handling. What happens to each request is a parameter.
 The lifecycle methods are proved to do what the single worker of Recovery does,
 request by request.
 */
module KnowledgeStore {
  import opened Wrappers
  import opened Text
  import opened Cluster
  import opened Delivery
  import opened Workers
  import opened Recovery
  import opened BulkBody
  import opened BulkReply
  import opened Readiness

  // ---------- the client ----------

  class Elasticsearch {
    var cluster: Cluster

    constructor (cluster: Cluster)
      ensures this.cluster == cluster
    {
      this.cluster := cluster;
    }

    method Exists(name: string, f: Fault) returns (reply: Option<int>)
      ensures reply == HeadIndex(cluster, name, f)
    {
      reply := HeadIndex(cluster, name, f);
    }

    method Create(name: string, f: Fault) returns (reply: Option<int>)
      modifies this
      ensures (cluster, reply) == PutIndex(old(cluster), name, f)
    {
      var r := PutIndex(cluster, name, f);
      cluster, reply := r.0, r.1;
    }

    method UpdateAliases(name: string, f: Fault) returns (reply: Option<int>)
      modifies this
      ensures (cluster, reply) == PostAliases(old(cluster), name, f)
    {
      var r := PostAliases(cluster, name, f);
      cluster, reply := r.0, r.1;
    }

    // The rows come in no particular order.
    method Cat(f: Fault) returns (reply: Option<int>, rows: seq<string>)
      ensures reply == CatIndices(cluster, f).0
      ensures forall n :: n in rows <==> n in CatIndices(cluster, f).1
    {
      var r := CatIndices(cluster, f);
      reply, rows := r.0, [];
      var left := r.1;
      while left != {}
        invariant forall n :: n in r.1 <==> n in rows || n in left
      {
        var n :| n in left;
        rows, left := rows + [n], left - {n};
      }
    }

    method Delete(names: seq<string>, f: Fault) returns (reply: Option<int>)
      modifies this
      ensures (cluster, reply) == DeleteIndices(old(cluster), (set n | n in names), f)
    {
      var r := DeleteIndices(cluster, (set n | n in names), f);
      cluster, reply := r.0, r.1;
    }

    method DeleteById(id: string, f: Fault) returns (reply: Option<int>)
      modifies this
      ensures (cluster, reply) == DeleteThroughAlias(old(cluster), id, f)
    {
      var r := DeleteThroughAlias(cluster, id, f);
      cluster, reply := r.0, r.1;
    }

    // The server reads the body back; one reply item per action.
    method Bulk(codec: Codec<KnowledgeDoc>, body: string, verdicts: seq<Outcome>, f: Fault)
      returns (reply: Option<int>, items: seq<map<string, Outcome>>)
      modifies this
      ensures ReadBody(codec, body).None? ==> cluster == old(cluster) && (reply.Some? ==> IsError(reply.value))
      ensures ReadBody(codec, body).Some? ==>
                var writes := AsWrites(ReadBody(codec, body).value);
                && (cluster, reply) == PostBulk(old(cluster), writes, verdicts, f)
                && IsReply(items, WriteAll(old(cluster), writes, verdicts).1)
    {
      var read := ReadBody(codec, body);
      if read.None? {
        var r := Deliver(cluster, cluster, 400, f);
        reply, items := r.1, [];
        return;
      }
      var writes := AsWrites(read.value);
      var outcomes := WriteAll(cluster, writes, verdicts).1;
      var r := PostBulk(cluster, writes, verdicts, f);
      cluster, reply := r.0, r.1;
      items := seq(|outcomes|, i requires 0 <= i < |outcomes| => map["index" := outcomes[i]]);
    }

    method GetAlias(f: Fault) returns (reply: Option<int>, targets: set<string>)
      ensures reply == Deliver(cluster, cluster, if cluster.targets == {} then 404 else 200, f).1
      ensures targets == cluster.targets
    {
      reply, targets := Deliver(cluster, cluster, if cluster.targets == {} then 404 else 200, f).1, cluster.targets;
    }
  }

  function AsWrites(items: seq<Item<KnowledgeDoc>>): seq<Write> {
    seq(|items|, i requires 0 <= i < |items| => Write(items[i].index, items[i].id, items[i].doc))
  }

  // ---------- drift ----------

  function DriftMessage(cfg: Config, d: KnowledgeDoc): string {
    "vector_dim drift: got " + Itoa(|d.vector|) + ", expected " + Itoa(cfg.embedDim)
      + " (embed_model=" + cfg.embedModel + ")"
  }

  // The documents the guard holds back, with the errors it reports for them.
  function Drifted(cfg: Config, docs: seq<KnowledgeDoc>): seq<KnowledgeDoc> {
    if docs == [] then []
    else
      var last := docs[|docs| - 1];
      Drifted(cfg, docs[..|docs| - 1]) + if InDimension(last, cfg.embedDim) then [] else [last]
  }

  function DriftErrors(cfg: Config, docs: seq<KnowledgeDoc>): seq<BulkItemError> {
    seq(|Drifted(cfg, docs)|, i requires 0 <= i < |Drifted(cfg, docs)| =>
      BulkItemError(Drifted(cfg, docs)[i].knowledgeId, DriftMessage(cfg, Drifted(cfg, docs)[i])))
  }

  // The errors are those of the documents of another dimension, in order.
  ghost predicate HeldBack(cfg: Config, docs: seq<KnowledgeDoc>, errors: seq<BulkItemError>) {
    var at := GuardedAt(docs, cfg.embedDim, false);
    && |errors| == |at|
    && forall k :: 0 <= k < |at| ==>
         errors[k] == var d := docs[at[k]];
                      BulkItemError(d.knowledgeId,
                                    "vector_dim drift: got " + Itoa(|d.vector|) + ", expected " + Itoa(cfg.embedDim)
                                      + " (embed_model=" + cfg.embedModel + ")")
  }

  lemma {:induction false} DriftedAreOutside(cfg: Config, docs: seq<KnowledgeDoc>)
    ensures Drifted(cfg, docs) == ReadAt(docs, GuardedAt(docs, cfg.embedDim, false))
  {
    if docs != [] {
      DriftedAreOutside(cfg, docs[..|docs| - 1]);
      ReadAtLast(docs, cfg.embedDim, false);
    }
  }

  lemma DriftIsReported(cfg: Config, docs: seq<KnowledgeDoc>)
    ensures HeldBack(cfg, docs, DriftErrors(cfg, docs))
  {
    hide GuardedAt, Itoa;
    DriftedAreOutside(cfg, docs);
  }

  function DriftResult(cfg: Config, docs: seq<KnowledgeDoc>): BulkResult {
    BulkResult(0, |Drifted(cfg, docs)|, DriftErrors(cfg, docs))
  }

  function DocIds(docs: seq<KnowledgeDoc>): seq<string> {
    seq(|docs|, i requires 0 <= i < |docs| => docs[i].knowledgeId)
  }

  // The drift failures, then one verdict per accepted document.
  function UpsertResult(cfg: Config, docs: seq<KnowledgeDoc>, outcomes: seq<Outcome>): BulkResult {
    CountAll(DriftResult(cfg, docs), DocIds(Accepted(docs, cfg.embedDim)), outcomes)
  }

  lemma {:induction false} GuardSplitsBatch(cfg: Config, docs: seq<KnowledgeDoc>)
    ensures |Accepted(docs, cfg.embedDim)| + |Drifted(cfg, docs)| == |docs|
    ensures multiset(DocIds(Accepted(docs, cfg.embedDim))) + multiset(DocIds(Drifted(cfg, docs)))
         == multiset(DocIds(docs))
  {
    hide InDimension;
    if docs != [] {
      var last := |docs| - 1;
      var init, d := docs[..last], docs[last];
      GuardSplitsBatch(cfg, init);
      assert docs == init + [d];
      if InDimension(d, cfg.embedDim) {
        assert Accepted(docs, cfg.embedDim) == Accepted(init, cfg.embedDim) + [d];
        assert Drifted(cfg, docs) == Drifted(cfg, init);
      } else {
        assert Accepted(docs, cfg.embedDim) == Accepted(init, cfg.embedDim);
        assert Drifted(cfg, docs) == Drifted(cfg, init) + [d];
      }
      hide Accepted, Drifted, DocIds;
      DocIdsSnoc(init, d);
      DocIdsSnoc(Accepted(init, cfg.embedDim), d);
      DocIdsSnoc(Drifted(cfg, init), d);
    }
  }

  lemma DocIdsSnoc(docs: seq<KnowledgeDoc>, d: KnowledgeDoc)
    ensures DocIds(docs + [d]) == DocIds(docs) + [d.knowledgeId]
  {
  }

  // Every document of the batch is counted once, as indexed or as failed; the errors name the
  // drifted documents and then the refused ones, in the order of the batch.
  lemma UpsertAccountsForAll(cfg: Config, docs: seq<KnowledgeDoc>, outcomes: seq<Outcome>)
    requires |outcomes| == |Accepted(docs, cfg.embedDim)|
    ensures var out, sent := UpsertResult(cfg, docs, outcomes), DocIds(Accepted(docs, cfg.embedDim));
            && out.indexedCount + out.failedCount == |docs|
            && out.failedCount == |out.errors|
            && ErrorIds(out.errors) == DocIds(Drifted(cfg, docs)) + IdsWhere(sent, outcomes, false)
            && multiset(ErrorIds(out.errors)) + multiset(IdsWhere(sent, outcomes, true)) == multiset(DocIds(docs))
  {
    var sent := DocIds(Accepted(docs, cfg.embedDim));
    var out, refused := UpsertResult(cfg, docs, outcomes), IdsWhere(sent, outcomes, false);
    GuardSplitsBatch(cfg, docs);
    CountsAccountForAll(DriftResult(cfg, docs), sent, outcomes);
    assert ErrorIds(DriftErrors(cfg, docs)) == DocIds(Drifted(cfg, docs));
    assert |out.errors| == |ErrorIds(out.errors)|;
    assert |IdsWhere(sent, outcomes, true)| + |refused| == |sent| by {
      assert |multiset(IdsWhere(sent, outcomes, true)) + multiset(refused)| == |multiset(sent)|;
    }
  }

  // What an upsert reports: first the documents of another dimension; then, of those sent, the ones with
  // a status outside 200 to 299; the rest is counted as indexed.
  ghost predicate Reports(cfg: Config, docs: seq<KnowledgeDoc>, outcomes: seq<Outcome>, out: BulkResult) {
    var sent, refused := GuardedAt(docs, cfg.embedDim, true), RefusedAt(outcomes);
    var held := |docs| - |sent|;
    && |outcomes| == |sent| && out.indexedCount + |refused| == |sent|
    && out.failedCount == |out.errors| == held + |refused|
    && held >= 0 && HeldBack(cfg, docs, out.errors[..held])
    && forall k :: 0 <= k < |refused| ==>
         out.errors[held + k] == BulkItemError(docs[sent[refused[k]]].knowledgeId, outcomes[refused[k]].reason)
  }

  lemma UpsertReports(cfg: Config, docs: seq<KnowledgeDoc>, outcomes: seq<Outcome>)
    requires |outcomes| == |Accepted(docs, cfg.embedDim)|
    ensures Reports(cfg, docs, outcomes, UpsertResult(cfg, docs, outcomes))
  {
    hide GuardedAt, RefusedAt, HeldBack, Accepted, Drifted, DriftMessage;
    var sent := Accepted(docs, cfg.embedDim);
    AcceptedAreInDimension(docs, cfg.embedDim);
    GuardSplitsBatch(cfg, docs);
    DriftIsReported(cfg, docs);
    CountsByStatus(DriftResult(cfg, docs), DocIds(sent), outcomes);
    var errors := UpsertResult(cfg, docs, outcomes).errors;
    assert errors[..|Drifted(cfg, docs)|] == DriftErrors(cfg, docs);
  }

  datatype KnowledgeStatus = KnowledgeStatus(
    alias: string, activeIndex: string, docCount: nat, embedModelVersion: string, vectorDim: int, ready: bool,
    degraded: bool, lastIndexedUnixMs: int, expectedDocCount: int, errorMessage: string)

  // ---------- the store ----------

  class KnowledgeStore {
    const es: Elasticsearch
    const cfg: Config

    constructor (es: Elasticsearch, cfg: Config)
      ensures this.es == es && this.cfg == cfg
    {
      this.es, this.cfg := es, cfg;
    }

    // Any status but 200 reads as absent.
    method IndexExists(name: string, f: Fault) returns (r: Result<bool, string>)
      ensures r == match HeadIndex(es.cluster, name, f)
                   case None => Failure("transport")
                   case Some(status) => Success(status == 200)
    {
      var reply := es.Exists(name, f);
      if reply.None? {
        return Failure("transport");
      }
      return Success(reply.value == 200);
    }

    method CreateIndex(name: string, f: Fault) returns (r: Result<(), string>)
      modifies es
      ensures var (c, reply) := PutIndex(old(es.cluster), name, f);
              es.cluster == c && (r.Success? <==> reply.Some? && (!IsError(reply.value) || reply.value == 400))
    {
      var reply := es.Create(name, f);
      if reply.None? {
        return Failure("transport");
      }
      if IsError(reply.value) && reply.value != 400 {
        return Failure("create knowledge index " + name);
      }
      return Success(());
    }

    method ListVersionedIndices(f: Fault) returns (r: Result<seq<string>, string>)
      ensures var (reply, rows) := CatIndices(es.cluster, f);
              && (r.Success? <==> reply.Some? && (!IsError(reply.value) || reply.value == 404))
              && (r.Success? ==> forall n :: n in r.value <==> n in rows && !IsError(reply.value))
    {
      var reply, rows := es.Cat(f);
      if reply.None? {
        return Failure("transport");
      }
      if IsError(reply.value) {
        if reply.value == 404 {
          return Success([]);
        }
        return Failure("cat indices");
      }
      var out := [];
      for i := 0 to |rows|
        invariant forall n :: n in out <==> n in rows[..i]
      {
        assert rows[i] in CatIndices(es.cluster, f).1;
        if rows[i] != "" {
          out := out + [rows[i]];
        }
      }
      assert rows[..|rows|] == rows;
      return Success(out);
    }

    method DropStaleIndices(plan: Plan, ghost batch: seq<KnowledgeDoc>) returns (r: Result<(), string>)
      modifies es
      ensures var (c, w) := Drive(old(es.cluster), Worker(cfg, Listing, batch), plan);
              es.cluster == c && (r.Success? <==> w.at.Sending?)
    {
      hide IndexName, IsVersioned;
      ghost var w := Worker(cfg, Listing, batch);
      ghost var (c1, w1) := Proceed(es.cluster, w, plan.list, []);
      var keep := IndexName(cfg);
      var names := ListVersionedIndices(plan.list);
      if names.Failure? {
        return Failure(names.error);
      }
      var toDelete := [];
      for i := 0 to |names.value|
        invariant forall n :: n in toDelete <==> n in names.value[..i] && n != keep
      {
        if names.value[i] != keep {
          toDelete := toDelete + [names.value[i]];
        }
      }
      assert names.value[..|names.value|] == names.value;
      if |toDelete| == 0 {
        assert forall n :: n in names.value ==> n == keep;
        assert w1.at.Sending?;
        return Success(());
      }
      assert toDelete[0] in toDelete;
      assert w1.at == Dropping(set n | n in toDelete);
      ghost var (c2, w2) := Proceed(c1, w1, plan.drop, []);
      assert Drive(es.cluster, w, plan) == Drive(c1, w1, plan) == Drive(c2, w2, plan) == (c2, w2);
      var reply := es.Delete(toDelete, plan.drop);
      if reply.None? {
        return Failure("transport");
      }
      if IsError(reply.value) && reply.value != 404 {
        return Failure("delete stale indices");
      }
      return Success(());
    }

    method RepointAlias(plan: Plan, ghost batch: seq<KnowledgeDoc>) returns (r: Result<(), string>)
      modifies es
      ensures var (c, w) := Drive(old(es.cluster), Worker(cfg, Repointing, batch), plan);
              es.cluster == c && (r.Success? <==> w.at.Sending?)
    {
      hide IndexName, IsVersioned;
      var reply := es.UpdateAliases(IndexName(cfg), plan.repoint);
      if reply.None? {
        return Failure("transport");
      }
      if IsError(reply.value) {
        return Failure("repoint alias");
      }
      var dropped := DropStaleIndices(plan, batch);
      if dropped.Failure? {
        return Failure("alias repointed but stale-index cleanup failed: " + dropped.error);
      }
      return Success(());
    }

    // Does exactly what the undisturbed worker does, and succeeds exactly when it gets to sending.
    method EnsureIndexAndAlias(plan: Plan, ghost batch: seq<KnowledgeDoc>) returns (r: Result<string, string>)
      modifies es
      ensures var (c, w) := Drive(old(es.cluster), Worker(cfg, Checking, batch), plan);
              && es.cluster == c && (r.Success? <==> w.at.Sending?)
              && (r.Success? ==> r.value == IndexName(cfg))
    {
      hide IndexName, IsVersioned;
      var concrete := IndexName(cfg);
      ghost var (c1, w1) := Proceed(es.cluster, Worker(cfg, Checking, batch), plan.check, []);
      var found := IndexExists(concrete, plan.check);
      if found.Failure? {
        return Failure(found.error);
      }
      if !found.value {
        assert w1.at.Creating?;
        ghost var (c2, w2) := Proceed(c1, w1, plan.create, []);
        assert Drive(c1, w1, plan) == Drive(c2, w2, plan);
        var created := CreateIndex(concrete, plan.create);
        if created.Failure? {
          return Failure(created.error);
        }
      }
      var repointed := RepointAlias(plan, batch);
      if repointed.Failure? {
        return Failure(repointed.error);
      }
      return Success(concrete);
    }

    // Splits a batch at the drift guard.
    method Partition(docs: seq<KnowledgeDoc>) returns (out: BulkResult, accepted: seq<KnowledgeDoc>)
      ensures accepted == Accepted(docs, cfg.embedDim) && out == DriftResult(cfg, docs)
      ensures accepted == ReadAt(docs, GuardedAt(docs, cfg.embedDim, true))
      ensures HeldBack(cfg, docs, out.errors) && out.failedCount == |out.errors| && out.indexedCount == 0
    {
      out, accepted := EMPTY, [];
      for i := 0 to |docs|
        invariant accepted == Accepted(docs[..i], cfg.embedDim) && out == DriftResult(cfg, docs[..i])
      {
        var d := docs[i];
        assert docs[..i + 1][..i] == docs[..i];
        if |d.vector| != cfg.embedDim {
          out := out.(failedCount := out.failedCount + 1,
                      errors := out.errors + [BulkItemError(d.knowledgeId, DriftMessage(cfg, d))]);
        } else {
          accepted := accepted + [d];
        }
      }
      assert docs[..|docs|] == docs;
      AcceptedAreInDimension(docs, cfg.embedDim);
      DriftIsReported(cfg, docs);
    }

    method BulkUpsertKnowledge(
      docs: seq<KnowledgeDoc>, codec: Codec<KnowledgeDoc>, plan: Plan, f: Fault, verdicts: seq<Outcome>)
      returns (r: Result<BulkResult, string>)
      requires Faithful(codec)
      modifies es
      ensures docs == [] ==> es.cluster == old(es.cluster) && r == Success(EMPTY)
      ensures docs != [] ==>
        var (c, w) := Drive(old(es.cluster), Worker(cfg, Checking, docs), plan);
        var accepted := Accepted(docs, cfg.embedDim);
        if !w.at.Sending? || !Encodable(codec, accepted) then es.cluster == c && r.Failure?
        else
          && es.cluster == Proceed(c, w, f, verdicts).0
          && (r.Success? <==> accepted == [] || f.Healthy?)
          && (r.Success? ==>
                var outcomes := WriteAll(c, Writes(accepted, IndexName(cfg)), verdicts).1;
                r.value == UpsertResult(cfg, docs, outcomes) && Reports(cfg, docs, outcomes, r.value))
    {
      hide IndexName, IsVersioned, Drive, ReadBody, Lines, Reports, HeldBack, GuardedAt, ReadAt, WriteAll;
      if |docs| == 0 {
        return Success(EMPTY);
      }
      DriveKeepsCall(es.cluster, Worker(cfg, Checking, docs), plan);
      var ensured := EnsureIndexAndAlias(plan, docs);
      if ensured.Failure? {
        return Failure(ensured.error);
      }
      var concrete := ensured.value;
      var out, accepted := Partition(docs);
      ghost var outcomes := WriteAll(es.cluster, Writes(accepted, concrete), verdicts).1;
      UpsertReports(cfg, docs, outcomes);
      if |accepted| == 0 {
        return Success(out);
      }
      var body := WriteBody(codec, concrete, DocIds(accepted), accepted);
      if body.None? {
        return Failure("unsupported value");
      }
      assert AsWrites(Items(concrete, DocIds(accepted), accepted)) == Writes(accepted, concrete);
      var reply, items := es.Bulk(codec, body.value, verdicts, f);
      if reply.None? {
        return Failure("transport");
      }
      if IsError(reply.value) {
        return Failure("bulk index knowledge");
      }
      out := CountReply(out, DocIds(accepted), items);
      assert IsReply(items, outcomes);
      return Success(out);
    }

    // A missing document, or a missing alias, is a success; afterwards the document is gone.
    method DeleteKnowledge(id: string, f: Fault) returns (r: Result<(), string>)
      modifies es
      ensures es.cluster == DeleteThroughAlias(old(es.cluster), id, f).0
      ensures r.Success? <==>
                f.Healthy? && forall t, u :: t in old(es.cluster.targets) && u in old(es.cluster.targets) ==> t == u
      ensures r.Success? && Tidy(old(es.cluster)) ==>
                forall t :: t in es.cluster.targets ==> t in es.cluster.indices && id !in es.cluster.indices[t]
    {
      hide IsVersioned;
      var reply := es.DeleteById(id, f);
      if reply.None? {
        return Failure("transport");
      }
      if reply.value == 404 {
        return Success(());
      }
      if IsError(reply.value) {
        return Failure("delete knowledge " + id);
      }
      return Success(());
    }

    // The greatest name among the alias's targets, or "" when there is none.
    method AliasTarget(f: Fault) returns (r: Result<string, string>)
      ensures r.Success? ==>
        var best := r.value;
        && (best in es.cluster.targets || best == "")
        && (forall t :: t in es.cluster.targets ==> !Less(best, t))
      ensures r.Success? <==> f.Healthy?
    {
      var reply, targets := es.GetAlias(f);
      if reply.None? {
        return Failure("transport");
      }
      if reply.value == 404 {
        return Success("");
      }
      if IsError(reply.value) {
        return Failure("get alias");
      }
      var best, left := "", targets;
      while left != {}
        invariant left <= targets && (best in targets || best == "")
        invariant forall t :: t in targets && t !in left ==> !Less(best, t)
      {
        var idx :| idx in left;
        if Less(best, idx) {
          forall t | t in targets && t !in left ensures !Less(idx, t) {
            LessIsTotal(best, t);
            if Less(idx, t) { LessIsTransitive(best, idx, t); }
          }
          LessIsAsymmetric(best, idx);
          best := idx;
        }
        assert !Less(best, idx) by { if Less(best, idx) { LessIsAsymmetric(best, idx); } }
        left := left - {idx};
      }
      return Success(best);
    }

    // The readiness gate; the reply to the statistics query is None when that query fails.
    method Status(f: Fault, stats: Option<Stats>) returns (r: Result<KnowledgeStatus, string>)
      // without an alias the answer is a degraded, not-ready status, not an error
      ensures r.Success? <==>
                f.Healthy? && ((exists t :: t in es.cluster.targets && t != "") ==> stats.Some?)
      ensures r.Success? ==>
        var st := r.value;
        && (st.activeIndex in es.cluster.targets || st.activeIndex == "")
        && (forall t :: t in es.cluster.targets ==> !Less(st.activeIndex, t))
        && (st.ready <==> stats.Some? && GateOpen(cfg, st.activeIndex, stats.value))
        && st.degraded == !st.ready
        && (st.alias, st.embedModelVersion, st.vectorDim, st.expectedDocCount)
             == ("operator-ai-knowledge", cfg.embedModel, cfg.embedDim, cfg.expectedDocCount)
      ensures r.Success? && r.value.activeIndex == "" ==>
        var st := r.value;
        !st.ready && (st.docCount, st.lastIndexedUnixMs) == (0, 0) && st.errorMessage != ""
      ensures r.Success? && r.value.activeIndex != "" ==>
        && stats.Some?
        && var st, agrees := r.value, stats.value.model == "" || stats.value.model == cfg.embedModel;
        && (st.docCount, st.lastIndexedUnixMs) == (stats.value.count, stats.value.lastIndexed)
        && (st.ready <==> st.docCount == st.expectedDocCount && agrees)
        && (st.errorMessage == "" <==> agrees)
    {
      var active := AliasTarget(f);
      if active.Failure? {
        return Failure(active.error);
      }
      var st := KnowledgeStatus(KNOWLEDGE_ALIAS, "", 0, cfg.embedModel, cfg.embedDim, false, false, 0,
                                cfg.expectedDocCount, "");
      if active.value == "" {
        assert forall t :: t in es.cluster.targets ==> (t != "" ==> Less("", t));
        return Success(st.(ready := false, degraded := true,
                           errorMessage := "alias " + KNOWLEDGE_ALIAS + " does not exist yet (index not built)"));
      }
      st := st.(activeIndex := active.value);
      if stats.None? {
        return Failure("index stats");
      }
      st := st.(docCount := stats.value.count, lastIndexedUnixMs := stats.value.lastIndexed);
      var modelMatches := stats.value.model == "" || stats.value.model == cfg.embedModel;
      st := st.(ready := stats.value.count == cfg.expectedDocCount && modelMatches);
      st := st.(degraded := !st.ready);
      if !modelMatches {
        st := st.(errorMessage := "embed_model_version mismatch");
      }
      return Success(st);
    }
  }
}
