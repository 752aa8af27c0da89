/**
 What a caller of the fusion gets, hit by hit, in terms of the positions of the two lists:
 a second description of the fused result, shown to be met by it and by nothing else.
 */
module FusedAnswer {
  import opened Text
  import opened Fusion
  import opened FusionLaws

  // ---------- scores ----------

  // What each position of a list adds to the score of a document.
  function Weights(list: seq<RankedDoc>, k: nat, id: string): seq<real> {
    seq(|list|, i requires 0 <= i < |list| => if list[i].id == id then 1.0 / ((k + i + 1) as real) else 0.0)
  }

  function Sum(xs: seq<real>): real {
    if xs == [] then 0.0 else xs[0] + Sum(xs[1..])
  }

  lemma {:induction false} SumSnoc(xs: seq<real>, x: real)
    ensures Sum(xs + [x]) == Sum(xs) + x
  {
    if xs == [] {
      assert Sum([x]) == x + Sum([x][1..]) && [x][1..] == [] && [] + [x] == [x];
    } else {
      assert (xs + [x])[1..] == xs[1..] + [x];
      SumSnoc(xs[1..], x);
    }
  }

  lemma {:induction false} ScoreIsSum(list: seq<RankedDoc>, k: nat, id: string)
    ensures Score(list, k, id) == Sum(Weights(list, k, id))
  {
    if list != [] {
      var last := |list| - 1;
      ScoreIsSum(list[..last], k, id);
      var weight := if list[last].id == id then 1.0 / ((k + last + 1) as real) else 0.0;
      assert Weights(list, k, id) == Weights(list[..last], k, id) + [weight];
      SumSnoc(Weights(list[..last], k, id), weight);
    }
  }

  // What a list that repeats no document adds, given the document's rank in it.
  function Part(k: nat, rank: nat): real {
    if rank == 0 then 0.0 else 1.0 / ((k + rank) as real)
  }

  lemma DistinctScore(list: seq<RankedDoc>, k: nat, id: string)
    requires Distinct(list)
    ensures Score(list, k, id) == Part(k, Rank(list, id))
  {
    Absent(list, k, id);
    if id in Ids(list) {
      var i := RankFindsEntry(list, k, id);
    }
  }

  // ---------- ranks and metadata ----------

  // The rank is 0 for a document that is not in the list, else that of its last position.
  ghost predicate LastAt(list: seq<RankedDoc>, id: string, rank: nat) {
    && (rank == 0 || (rank <= |list| && list[rank - 1].id == id))
    && forall i :: rank <= i < |list| ==> list[i].id != id
  }

  ghost predicate FirstAt(list: seq<RankedDoc>, id: string, i: int) {
    0 <= i < |list| && list[i].id == id && forall j :: 0 <= j < i ==> list[j].id != id
  }

  lemma {:induction false} RankIsLast(list: seq<RankedDoc>, id: string)
    ensures LastAt(list, id, Rank(list, id))
  {
    if list != [] && list[|list| - 1].id != id {
      RankIsLast(list[..|list| - 1], id);
    }
  }

  lemma {:induction false} FirstIsFirst(list: seq<RankedDoc>, id: string) returns (i: nat)
    requires id in Ids(list)
    ensures FirstAt(list, id, i) && First(list, id) == list[i]
  {
    var last := |list| - 1;
    if id in Ids(list[..last]) {
      i := FirstIsFirst(list[..last], id);
    } else {
      i := last;
      IdsSnoc(list, last);
      assert list[..last + 1] == list;
      forall j | 0 <= j < last ensures list[j].id != id {
        assert list[..last][j].id in Ids(list[..last]);
      }
    }
  }

  predicate Describes(h: KnowledgeHit, d: RankedDoc) {
    h.id == d.id && h.sourceType == d.sourceType && h.bundleIndex == d.bundleIndex && h.title == d.title
  }

  // The metadata come from the document's first position in the vector list, or in the text
  // list if the vector list does not have it.
  ghost predicate TakesMetadata(vector: seq<RankedDoc>, text: seq<RankedDoc>, h: KnowledgeHit) {
    || (exists i :: FirstAt(vector, h.id, i) && Describes(h, vector[i]))
    || ((forall i :: 0 <= i < |vector| ==> vector[i].id != h.id)
        && exists i :: FirstAt(text, h.id, i) && Describes(h, text[i]))
  }

  ghost predicate IsHit(vector: seq<RankedDoc>, text: seq<RankedDoc>, k: nat, h: KnowledgeHit) {
    && TakesMetadata(vector, text, h)
    && LastAt(vector, h.id, h.vectorRank) && LastAt(text, h.id, h.textRank)
    && h.score == Sum(Weights(vector, k, h.id)) + Sum(Weights(text, k, h.id))
  }

  lemma HitOfIsHit(vector: seq<RankedDoc>, text: seq<RankedDoc>, k: nat, id: string)
    requires id in Union(vector, text)
    ensures IsHit(vector, text, k, HitOf(vector, text, k, id))
  {
    ScoreIsSum(vector, k, id);
    ScoreIsSum(text, k, id);
    RankIsLast(vector, id);
    RankIsLast(text, id);
    if id in Ids(vector) {
      var i := FirstIsFirst(vector, id);
    } else {
      forall i | 0 <= i < |vector| ensures vector[i].id != id {
        assert vector[i].id in Ids(vector);
      }
      var i := FirstIsFirst(text, id);
    }
  }

  // A document has only one such hit.
  lemma HitIsHitOf(vector: seq<RankedDoc>, text: seq<RankedDoc>, k: nat, h: KnowledgeHit)
    requires IsHit(vector, text, k, h)
    ensures h.id in Union(vector, text) && h == HitOf(vector, text, k, h.id)
  {
    hide Score, Rank, First, Weights, Sum;
    ScoreIsSum(vector, k, h.id);
    ScoreIsSum(text, k, h.id);
    RankIsLast(vector, h.id);
    RankIsLast(text, h.id);
    MetadataAreMeta(vector, text, h);
  }

  lemma MetadataAreMeta(vector: seq<RankedDoc>, text: seq<RankedDoc>, h: KnowledgeHit)
    requires TakesMetadata(vector, text, h)
    ensures h.id in Union(vector, text) && Describes(h, Meta(vector, text, h.id))
  {
    hide First;
    if h.id in Ids(vector) {
      var j := FirstIsFirst(vector, h.id);
    } else {
      assert forall i :: 0 <= i < |vector| ==> vector[i].id in Ids(vector);
      var i: int :| FirstAt(text, h.id, i) && Describes(h, text[i]);
      assert text[i].id in Ids(text);
      var j := FirstIsFirst(text, h.id);
    }
  }

  // ---------- the order ----------

  // The higher score first, then the lower bundle index, then the id that comes first as a string.
  ghost predicate InFront(a: KnowledgeHit, b: KnowledgeHit) {
    || a.score > b.score
    || (a.score == b.score && a.bundleIndex < b.bundleIndex)
    || (a.score == b.score && a.bundleIndex == b.bundleIndex && FirstDifferenceIsLess(a.id, b.id))
  }

  lemma BeforeIsInFront(a: KnowledgeHit, b: KnowledgeHit)
    ensures Before(a, b) <==> InFront(a, b)
  {
    LessIsFirstDifference(a.id, b.id);
  }

  // ---------- the whole answer ----------

  ghost predicate IsAnswer(vector: seq<RankedDoc>, text: seq<RankedDoc>, k: nat, hits: seq<KnowledgeHit>) {
    && (forall h :: h in hits ==> IsHit(vector, text, k, h))
    && (forall d :: d in vector || d in text ==> exists h :: h in hits && h.id == d.id)
    && (forall i, j :: 0 <= i < j < |hits| ==> InFront(hits[i], hits[j]))
  }

  // The fused result is the one sequence that fits the description.
  lemma AnswerIsFusion(vector: seq<RankedDoc>, text: seq<RankedDoc>, k: nat, hits: seq<KnowledgeHit>)
    ensures IsAnswer(vector, text, k, hits) <==> hits == Fused(vector, text, k)
  {
    hide InFront, Before, IsHit, HitOf;
    forall a, b ensures Before(a, b) <==> InFront(a, b) {
      BeforeIsInFront(a, b);
    }
    if hits == Fused(vector, text, k) {
      FusionFits(vector, text, k);
    }
    if IsAnswer(vector, text, k, hits) {
      assert Sorted(hits);
      AnswerHoldsHits(vector, text, k, hits);
      FusionIsUnique(vector, text, k, hits);
    }
  }

  lemma FusionFits(vector: seq<RankedDoc>, text: seq<RankedDoc>, k: nat)
    ensures var hits := Fused(vector, text, k);
            && (forall h :: h in hits ==> IsHit(vector, text, k, h))
            && (forall d :: d in vector || d in text ==> exists h :: h in hits && h.id == d.id)
  {
    hide IsHit;
    var hits := Fused(vector, text, k);
    FusedHit(vector, text, k, "");
    forall h | h in hits ensures IsHit(vector, text, k, h) {
      HitOfIsHit(vector, text, k, h.id);
    }
    forall d | d in vector || d in text ensures exists h :: h in hits && h.id == d.id {
      IdIsThere(vector, d);
      IdIsThere(text, d);
      FusedHit(vector, text, k, d.id);
      assert HitOf(vector, text, k, d.id) in hits;
    }
  }

  lemma AnswerHoldsHits(vector: seq<RankedDoc>, text: seq<RankedDoc>, k: nat, hits: seq<KnowledgeHit>)
    requires forall h :: h in hits ==> IsHit(vector, text, k, h)
    requires forall d :: d in vector || d in text ==> exists h :: h in hits && h.id == d.id
    ensures Elems(hits) == HitsOf(vector, text, k, Union(vector, text))
  {
    hide IsHit;
    forall h | h in hits ensures h.id in Union(vector, text) && h == HitOf(vector, text, k, h.id) {
      HitIsHitOf(vector, text, k, h);
    }
    forall id | id in Union(vector, text) ensures HitOf(vector, text, k, id) in hits {
      var d := Meta(vector, text, id);
      assert d in vector || d in text;
      var h :| h in hits && h.id == d.id;
    }
  }

  lemma IdIsThere(list: seq<RankedDoc>, d: RankedDoc)
    ensures d in list ==> d.id in Ids(list)
  {
    if d in list {
      var i :| 0 <= i < |list| && list[i] == d;
    }
  }

  // With lists that repeat no document the score follows from the two ranks.
  lemma ScoreFromRanks(vector: seq<RankedDoc>, text: seq<RankedDoc>, k: nat)
    requires Distinct(vector) && Distinct(text)
    ensures forall h :: h in Fused(vector, text, k) ==> h.score == Part(k, h.vectorRank) + Part(k, h.textRank)
  {
    FusedHit(vector, text, k, "");
    forall h | h in Fused(vector, text, k) ensures h.score == Part(k, h.vectorRank) + Part(k, h.textRank) {
      DistinctScore(vector, k, h.id);
      DistinctScore(text, k, h.id);
    }
  }

  // As many hits as there are documents.
  lemma FusedCounts(vector: seq<RankedDoc>, text: seq<RankedDoc>, k: nat)
    ensures |Fused(vector, text, k)| == |Union(vector, text)|
  {
    var hits := Fused(vector, text, k);
    FusedIsOnePerDocument(vector, text, k);
    AheadOfCounts(hits, |hits|);
    assert AheadOf(hits, |hits|) == set h | h in hits :: h.id;
  }
}
