/**
 Hybrid search over the knowledge alias: which retrievers run, what happens
 when one of them fails, and the cut to the requested number of hits.
 The retrievers' replies are inputs.
 */
module SemanticSearch {
  import opened Wrappers
  import opened Text
  import opened Fusion
  import opened FusionLaws
  import opened FusedAnswer
  import FuseRrf

  const DEFAULT_RRF_K: nat := 60
  const RETRIEVER_CANDIDATES: nat := 50

  datatype Reply = Ranked(list: seq<RankedDoc>, tookMs: int) | Failed(error: string)

  datatype SearchResult = SearchResult(hits: seq<KnowledgeHit>, tookMs: int, degraded: bool)

  // What a caller asks for, after the handler's conversions.
  datatype Query = Query(vector: seq<real>, text: string, topK: int, rrfK: int) {
    predicate WantsVector() { |vector| > 0 }

    ghost predicate WantsText() { !Blank(text) }

    function K(): nat { if rrfK <= 0 then DEFAULT_RRF_K else rrfK }

    function Limit(): nat { if topK <= 0 then 1 else topK }
  }

  // A retriever contributes its list only if it was asked and answered.
  function Contribution(wanted: bool, reply: Reply): Option<seq<RankedDoc>> {
    if wanted && reply.Ranked? then Some(reply.list) else None
  }

  function ListOr(o: Option<seq<RankedDoc>>): seq<RankedDoc> {
    if o.Some? then o.value else []
  }

  function Cut(hits: seq<KnowledgeHit>, limit: nat): seq<KnowledgeHit> {
    if |hits| > limit then hits[..limit] else hits
  }

  // The hits of a search that does not fail.
  ghost function Answer(q: Query, knn: Reply, bm25: Reply): seq<KnowledgeHit> {
    Cut(Fused(ListOr(Contribution(q.WantsVector(), knn)), ListOr(Contribution(q.WantsText(), bm25)), q.K()), q.Limit())
  }

  lemma NothingToFuse(k: nat)
    ensures Fused([], [], k) == []
  {
    assert Union([], []) == {};
    FusionIsUnique([], [], k, []);
  }

  // One hit per document, cut to the number asked for, or to 1 if that is not positive; and, for lists
  // that repeat no document, the scores for the constant asked for, or for 60 if that is not positive.
  ghost predicate AsAsked(q: Query, vector: seq<RankedDoc>, text: seq<RankedDoc>, hits: seq<KnowledgeHit>) {
    var limit, all := if q.topK >= 1 then q.topK else 1, |Union(vector, text)|;
    && |hits| == (if all < limit then all else limit)
    && (Distinct(vector) && Distinct(text) ==>
          forall h :: h in hits ==>
            h.score == var k := if q.rrfK >= 1 then q.rrfK else 60; Part(k, h.vectorRank) + Part(k, h.textRank))
  }

  lemma AnswerIsAsAsked(q: Query, vector: seq<RankedDoc>, text: seq<RankedDoc>)
    ensures AsAsked(q, vector, text, Cut(Fused(vector, text, q.K()), q.Limit()))
  {
    FusedCounts(vector, text, q.K());
    if Distinct(vector) && Distinct(text) {
      ScoreFromRanks(vector, text, q.K());
    }
  }

  method Search(q: Query, knn: Reply, bm25: Reply) returns (r: Result<SearchResult, string>)
    // An error comes back only when no retriever succeeded and at least one failed; the kNN error wins.
    ensures r.Failure? <==>
      && ((q.vector != [] && knn.Failed?) || (!Blank(q.text) && bm25.Failed?))
      && !(q.vector != [] && knn.Ranked?) && !(!Blank(q.text) && bm25.Ranked?)
    ensures r.Failure? && q.vector != [] ==> r == Failure(knn.error)
    ensures r.Failure? && q.vector == [] ==> r == Failure(bm25.error)
    ensures r.Success? ==> r.value.hits == Answer(q, knn, bm25)
    ensures r.Success? ==>
      AsAsked(q, if q.vector != [] && knn.Ranked? then knn.list else [],
              if !Blank(q.text) && bm25.Ranked? then bm25.list else [], r.value.hits)
    // Degraded means exactly one retriever contributed.
    ensures r.Success? ==>
      (r.value.degraded <==> (q.vector != [] && knn.Ranked?) != (!Blank(q.text) && bm25.Ranked?))
    // The time reported is the longer of the two.
    ensures r.Success? && q.vector != [] && knn.Ranked? ==> r.value.tookMs >= knn.tookMs
    ensures r.Success? && !Blank(q.text) && bm25.Ranked? ==> r.value.tookMs >= bm25.tookMs
    ensures r.Success? ==>
      || r.value.tookMs == 0
      || (q.vector != [] && knn.Ranked? && r.value.tookMs == knn.tookMs)
      || (!Blank(q.text) && bm25.Ranked? && r.value.tookMs == bm25.tookMs)
  {
    hide Blank, TrimSpace, IsAnswer, Part, AsAsked, Distinct, Union;
    var topK, rrfK := q.topK, q.rrfK;
    if topK <= 0 {
      topK := 1;
    }
    if rrfK <= 0 {
      rrfK := DEFAULT_RRF_K;
    }
    var wantVector := |q.vector| > 0;
    var wantText := TrimSpace(q.text) != "";
    TrimsToNothingExactlyWhenBlank(q.text);
    var vectorList, textList := [], [];
    var vectorErr, textErr := None, None;
    var tookMs := 0;
    if wantVector {
      match knn
      case Ranked(list, took) => vectorList, tookMs := list, took;
      case Failed(error) => vectorErr := Some(error);
    }
    if wantText {
      match bm25
      case Ranked(list, took) =>
        textList := list;
        if took > tookMs {
          tookMs := took;
        }
      case Failed(error) => textErr := Some(error);
    }
    var vectorOk := wantVector && vectorErr.None?;
    var textOk := wantText && textErr.None?;
    AnswerIsAsAsked(q, vectorList, textList);
    if !vectorOk && !textOk {
      if vectorErr.Some? {
        return Failure(vectorErr.value);
      }
      if textErr.Some? {
        return Failure(textErr.value);
      }
      NothingToFuse(q.K());
      return Success(SearchResult([], tookMs, false));
    }
    var fused := FuseRrf.FuseRRF(vectorList, textList, rrfK);
    if |fused| > topK {
      fused := fused[..topK];
    }
    return Success(SearchResult(fused, tookMs, !(vectorOk && textOk)));
  }

  // A smaller limit gives a prefix of what a larger one gives.
  lemma SmallerLimitIsPrefix(q: Query, knn: Reply, bm25: Reply, topK: int)
    requires topK <= q.topK
    ensures Answer(q.(topK := topK), knn, bm25) <= Answer(q, knn, bm25)
  {
  }

  // With one contributing retriever the answer is the head of its own list, in its own order.
  lemma DegradedSearchKeepsOrder(q: Query, knn: Reply, bm25: Reply)
    requires Contribution(q.WantsVector(), knn).Some? != Contribution(q.WantsText(), bm25).Some?
    requires var list := if Contribution(q.WantsVector(), knn).Some? then knn.list else bm25.list;
             Distinct(list)
    ensures var byVector := Contribution(q.WantsVector(), knn).Some?;
            var list := if byVector then knn.list else bm25.list;
            var m := if |list| > q.Limit() then q.Limit() else |list|;
            Answer(q, knn, bm25) == Ranking(list[..m], q.K(), byVector)
  {
    var list := if Contribution(q.WantsVector(), knn).Some? then knn.list else bm25.list;
    SingleListKeepsOrder(list, q.K());
  }

  // With the worker's own candidate count and constant, the cut never keeps a document
  // found by one retriever and drops one found by both.
  lemma CutKeepsConsensus(q: Query, knn: Reply, bm25: Reply, both: KnowledgeHit, single: KnowledgeHit)
    requires knn.Ranked? && bm25.Ranked? && q.WantsVector() && q.WantsText()
    requires Distinct(knn.list) && |knn.list| <= RETRIEVER_CANDIDATES
    requires Distinct(bm25.list) && |bm25.list| <= RETRIEVER_CANDIDATES
    requires q.rrfK <= 0 || q.rrfK >= RETRIEVER_CANDIDATES - 1
    requires both in Fused(knn.list, bm25.list, q.K()) && FoundByBoth(both)
    requires single in Answer(q, knn, bm25) && !FoundByBoth(single)
    ensures both in Answer(q, knn, bm25)
  {
    var hits := Fused(knn.list, bm25.list, q.K());
    ConsensusBoundIsExact(q.K(), RETRIEVER_CANDIDATES);
    assert ConsensusFirst(hits);
    var answer := Answer(q, knn, bm25);
    var j :| 0 <= j < |answer| && answer[j] == single;
    var i :| 0 <= i < |hits| && hits[i] == both;
    assert hits[j] == single;
    assert answer[i] == both;
  }
}
