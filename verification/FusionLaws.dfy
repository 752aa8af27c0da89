/** What rank fusion guarantees about its whole result. */
module FusionLaws {
  import opened Fusion
  import opened Sets

  // ---------- lists in which every document occurs once ----------

  lemma {:induction false} EntryOf(list: seq<RankedDoc>, k: nat, i: nat)
    requires Distinct(list) && i < |list|
    ensures list[i].id in Ids(list)
    ensures Score(list, k, list[i].id) == Share(k, i + 1)
    ensures Rank(list, list[i].id) == i + 1
    ensures First(list, list[i].id) == list[i]
  {
    var last := |list| - 1;
    assert list[..last + 1] == list;
    ListSnoc(list, last, k, list[i].id);
    if i < last {
      assert list[..last][i] == list[i];
      EntryOf(list[..last], k, i);
    } else {
      assert list[i].id !in Ids(list[..last]);
      Absent(list[..last], k, list[i].id);
    }
  }

  lemma RankFindsEntry(list: seq<RankedDoc>, k: nat, id: string) returns (i: nat)
    requires Distinct(list) && id in Ids(list)
    ensures i < |list| && list[i].id == id
    ensures Score(list, k, id) == Share(k, i + 1) && Rank(list, id) == i + 1 && First(list, id) == list[i]
  {
    i :| 0 <= i < |list| && list[i].id == id;
    EntryOf(list, k, i);
  }

  lemma SharesDecrease(k: nat, m: nat, n: nat)
    requires 1 <= m <= n
    ensures 0.0 < Share(k, n) <= Share(k, m)
    ensures m < n ==> Share(k, n) < Share(k, m)
  {
    Reciprocals((k + m) as real, (k + n) as real);
  }

  lemma Reciprocals(x: real, y: real)
    requires 0.0 < x <= y
    ensures 0.0 < 1.0 / y <= 1.0 / x
    ensures x < y ==> 1.0 / y < 1.0 / x
  {
  }

  // ---------- conservation of score mass ----------

  function SumScores(hits: seq<KnowledgeHit>): real {
    if hits == [] then 0.0 else hits[0].score + SumScores(hits[1..])
  }

  // What a list of n entries hands out.
  function Mass(k: nat, n: nat): real {
    if n == 0 then 0.0 else Mass(k, n - 1) + 1.0 / ((k + n) as real)
  }

  function SumFrom(hits: seq<KnowledgeHit>, list: seq<RankedDoc>, k: nat): real {
    if hits == [] then 0.0 else Score(list, k, hits[0].id) + SumFrom(hits[1..], list, k)
  }

  ghost predicate OnePerId(hits: seq<KnowledgeHit>) {
    forall i, j :: 0 <= i < j < |hits| ==> hits[i].id != hits[j].id
  }

  lemma {:induction false} SumFromSnoc(hits: seq<KnowledgeHit>, list: seq<RankedDoc>, k: nat)
    requires list != [] && OnePerId(hits)
    ensures var last := |list| - 1;
            SumFrom(hits, list, k) == SumFrom(hits, list[..last], k)
              + if exists h :: h in hits && h.id == list[last].id then Share(k, |list|) else 0.0
  {
    if hits != [] {
      SumFromSnoc(hits[1..], list, k);
      var id := list[|list| - 1].id;
      assert hits == [hits[0]] + hits[1..];
      assert hits[0] in hits;
      if hits[0].id == id {
        assert forall h :: h in hits[1..] ==> h.id != id;
      } else {
        assert (exists h :: h in hits && h.id == id) ==> exists h :: h in hits[1..] && h.id == id;
      }
    }
  }

  lemma {:induction false} SumFromIsMass(hits: seq<KnowledgeHit>, list: seq<RankedDoc>, k: nat)
    requires OnePerId(hits)
    requires forall d :: d in list ==> exists h :: h in hits && h.id == d.id
    ensures SumFrom(hits, list, k) == Mass(k, |list|)
  {
    if list == [] {
      NothingFromEmpty(hits, k);
    } else {
      var last := |list| - 1;
      assert forall d :: d in list[..last] ==> d in list;
      SumFromIsMass(hits, list[..last], k);
      SumFromSnoc(hits, list, k);
      assert list[last] in list;
    }
  }

  lemma {:induction false} NothingFromEmpty(hits: seq<KnowledgeHit>, k: nat)
    ensures SumFrom(hits, [], k) == 0.0
  {
    if hits != [] {
      NothingFromEmpty(hits[1..], k);
    }
  }

  lemma {:induction false} SumSplits(vector: seq<RankedDoc>, text: seq<RankedDoc>, k: nat, hits: seq<KnowledgeHit>)
    requires forall h :: h in hits ==> h.score == Score(vector, k, h.id) + Score(text, k, h.id)
    ensures SumScores(hits) == SumFrom(hits, vector, k) + SumFrom(hits, text, k)
  {
    if hits != [] {
      SumSplits(vector, text, k, hits[1..]);
    }
  }

  lemma FusedHit(vector: seq<RankedDoc>, text: seq<RankedDoc>, k: nat, id: string)
    ensures id in Union(vector, text) ==> HitOf(vector, text, k, id) in Fused(vector, text, k)
    ensures forall h :: h in Fused(vector, text, k) ==>
              h.id in Union(vector, text) && h == HitOf(vector, text, k, h.id)
  {
    var hits := Fused(vector, text, k);
    assert forall h :: h in hits <==> h in Elems(hits);
  }

  // One hit per document of the union, no more and no less.
  lemma FusedIsOnePerDocument(vector: seq<RankedDoc>, text: seq<RankedDoc>, k: nat)
    ensures OnePerId(Fused(vector, text, k))
    ensures (set h | h in Fused(vector, text, k) :: h.id) == Union(vector, text)
  {
    var hits := Fused(vector, text, k);
    FusedHit(vector, text, k, "");
    forall i, j | 0 <= i < j < |hits| ensures hits[i].id != hits[j].id {
      assert hits[i] in hits && hits[j] in hits;
      BeforeIsStrictTotalOrder(hits[i], hits[j], hits[i]);
    }
    forall id | id in Union(vector, text) ensures id in set h | h in hits :: h.id {
      FusedHit(vector, text, k, id);
      assert HitOf(vector, text, k, id).id == id;
    }
  }

  // The scores add up to what the two lists hand out, even when a list repeats a document.
  lemma FusionConservesMass(vector: seq<RankedDoc>, text: seq<RankedDoc>, k: nat)
    ensures SumScores(Fused(vector, text, k)) == Mass(k, |vector|) + Mass(k, |text|)
  {
    var hits := Fused(vector, text, k);
    FusedIsOnePerDocument(vector, text, k);
    forall d | d in vector + text ensures exists h :: h in hits && h.id == d.id {
      assert d.id in Union(vector, text) by {
        var both := vector + text;
        var i :| 0 <= i < |both| && both[i] == d;
        assert i < |vector| ==> vector[i].id in Ids(vector);
        assert i >= |vector| ==> text[i - |vector|].id in Ids(text);
      }
      FusedHit(vector, text, k, d.id);
    }
    FusedHit(vector, text, k, "");
    SumSplits(vector, text, k, hits);
    SumFromIsMass(hits, vector, k);
    SumFromIsMass(hits, text, k);
  }

  // ---------- appending a candidate ----------

  function Without(hits: seq<KnowledgeHit>, id: string): seq<KnowledgeHit> {
    if hits == [] then []
    else (if hits[0].id == id then [] else [hits[0]]) + Without(hits[1..], id)
  }

  lemma {:induction false} WithoutKeepsOrder(hits: seq<KnowledgeHit>, id: string)
    requires Sorted(hits)
    ensures Sorted(Without(hits, id))
    ensures forall h :: h in Without(hits, id) <==> h in hits && h.id != id
  {
    if hits != [] {
      assert hits == [hits[0]] + hits[1..];
      WithoutKeepsOrder(hits[1..], id);
      forall h | h in Without(hits[1..], id) ensures Before(hits[0], h) {
        assert h in hits[1..];
      }
    }
  }

  // If two fusions agree on all hits but one document's, they agree on their order too.
  lemma SameApartFrom(
    v1: seq<RankedDoc>, t1: seq<RankedDoc>, v2: seq<RankedDoc>, t2: seq<RankedDoc>, k: nat, id: string)
    requires forall x :: x != id ==> (x in Union(v1, t1) <==> x in Union(v2, t2))
    requires forall x :: x != id && x in Union(v1, t1) ==> HitOf(v1, t1, k, x) == HitOf(v2, t2, k, x)
    ensures Without(Fused(v1, t1, k), id) == Without(Fused(v2, t2, k), id)
  {
    var a, b := Fused(v1, t1, k), Fused(v2, t2, k);
    WithoutKeepsOrder(a, id);
    WithoutKeepsOrder(b, id);
    forall h ensures h in Without(a, id) <==> h in Without(b, id) {
      FusedHit(v1, t1, k, h.id);
      FusedHit(v2, t2, k, h.id);
    }
    assert Elems(Without(a, id)) == Elems(Without(b, id));
    SortedIsUnique(Without(a, id), Without(b, id));
  }

  lemma AppendAt(list: seq<RankedDoc>, x: RankedDoc, k: nat, id: string)
    requires id != x.id
    ensures id in Ids(list + [x]) <==> id in Ids(list)
    ensures Score(list + [x], k, id) == Score(list, k, id) && Rank(list + [x], id) == Rank(list, id)
    ensures id in Ids(list) ==> First(list + [x], id) == First(list, id)
  {
    assert (list + [x])[..|list|] == list && (list + [x])[..|list| + 1] == list + [x];
    ListSnoc(list + [x], |list|, k, id);
  }

  // A candidate added at the end of either list moves no other hit and changes none.
  lemma TailIndependence(vector: seq<RankedDoc>, text: seq<RankedDoc>, k: nat, x: RankedDoc)
    ensures Without(Fused(vector + [x], text, k), x.id) == Without(Fused(vector, text, k), x.id)
    ensures Without(Fused(vector, text + [x], k), x.id) == Without(Fused(vector, text, k), x.id)
  {
    forall id | id != x.id
      ensures id in Ids(vector + [x]) <==> id in Ids(vector)
      ensures id in Ids(text + [x]) <==> id in Ids(text)
      ensures id in Union(vector, text) ==> HitOf(vector + [x], text, k, id) == HitOf(vector, text, k, id)
      ensures id in Union(vector, text) ==> HitOf(vector, text + [x], k, id) == HitOf(vector, text, k, id)
    {
      AppendAt(vector, x, k, id);
      AppendAt(text, x, k, id);
    }
    SameApartFrom(vector + [x], text, vector, text, k, x.id);
    SameApartFrom(vector, text + [x], vector, text, k, x.id);
  }

  // ---------- exchanging the retrievers ----------

  function Exchanged(h: KnowledgeHit): KnowledgeHit {
    h.(vectorRank := h.textRank, textRank := h.vectorRank)
  }

  function AllExchanged(hits: seq<KnowledgeHit>): seq<KnowledgeHit> {
    seq(|hits|, i requires 0 <= i < |hits| => Exchanged(hits[i]))
  }

  ghost predicate AgreeOnShared(vector: seq<RankedDoc>, text: seq<RankedDoc>) {
    forall id :: id in Ids(vector) && id in Ids(text) ==> First(vector, id) == First(text, id)
  }

  // Swapping the lists swaps the ranks and nothing else, exactly when the lists
  // describe their shared documents alike.
  lemma RetrieverSymmetry(vector: seq<RankedDoc>, text: seq<RankedDoc>, k: nat)
    ensures Fused(text, vector, k) == AllExchanged(Fused(vector, text, k)) <==> AgreeOnShared(vector, text)
  {
    var hits, swapped := Fused(vector, text, k), AllExchanged(Fused(vector, text, k));
    forall h ensures h in swapped <==> Exchanged(h) in hits {
      if Exchanged(h) in hits {
        var i :| 0 <= i < |hits| && hits[i] == Exchanged(h);
        assert swapped[i] == h;
      }
    }
    if AgreeOnShared(vector, text) {
      forall h ensures h in swapped <==> h in HitsOf(text, vector, k, Union(text, vector)) {
        FusedHit(vector, text, k, h.id);
        assert h.id in Union(vector, text) ==> Exchanged(HitOf(vector, text, k, h.id)) == HitOf(text, vector, k, h.id);
      }
      assert Elems(swapped) == HitsOf(text, vector, k, Union(text, vector));
      FusionIsUnique(text, vector, k, swapped);
    }
    if Fused(text, vector, k) == swapped {
      forall id | id in Ids(vector) && id in Ids(text) ensures First(vector, id) == First(text, id) {
        FusedHit(vector, text, k, id);
        FusedHit(text, vector, k, id);
        assert Exchanged(HitOf(text, vector, k, id)) in hits;
      }
    }
  }

  // ---------- a single list ----------

  // A ranked list as hits of its own, rank by rank.
  function Ranking(list: seq<RankedDoc>, k: nat, isVector: bool): seq<KnowledgeHit> {
    seq(|list|, i requires 0 <= i < |list| =>
      KnowledgeHit(list[i].id, list[i].sourceType, list[i].bundleIndex, list[i].title, Share(k, i + 1),
                   if isVector then i + 1 else 0, if isVector then 0 else i + 1))
  }

  lemma RankingIsFusion(list: seq<RankedDoc>, k: nat, isVector: bool)
    requires Distinct(list)
    ensures IsFusion(if isVector then list else [], if isVector then [] else list, k, Ranking(list, k, isVector))
  {
    var vector, text := if isVector then list else [], if isVector then [] else list;
    var hits := Ranking(list, k, isVector);
    forall i, j | 0 <= i < j < |hits| ensures Before(hits[i], hits[j]) {
      SharesDecrease(k, i + 1, j + 1);
    }
    forall i | 0 <= i < |list|
      ensures list[i].id in Union(vector, text) && hits[i] == HitOf(vector, text, k, list[i].id)
    {
      RankingEntry(list, k, isVector, i);
    }
    assert Union(vector, text) == Ids(list);
    forall h | h in HitsOf(vector, text, k, Union(vector, text)) ensures h in hits {
      var i :| 0 <= i < |list| && list[i].id == h.id;
      assert hits[i] == h;
    }
    assert Elems(hits) == HitsOf(vector, text, k, Union(vector, text));
  }

  lemma RankingEntry(list: seq<RankedDoc>, k: nat, isVector: bool, i: nat)
    requires Distinct(list) && i < |list|
    ensures var vector, text := if isVector then list else [], if isVector then [] else list;
            list[i].id in Union(vector, text) && Ranking(list, k, isVector)[i] == HitOf(vector, text, k, list[i].id)
  {
    EntryOf(list, k, i);
    Absent([], k, list[i].id);
  }

  // With one list only, fusion keeps that list's order, exactly when it repeats no document.
  lemma SingleListKeepsOrder(list: seq<RankedDoc>, k: nat)
    ensures Fused(list, [], k) == Ranking(list, k, true) <==> Distinct(list)
    ensures Fused([], list, k) == Ranking(list, k, false) <==> Distinct(list)
  {
    if Distinct(list) {
      RankingIsFusion(list, k, true);
      RankingIsFusion(list, k, false);
      FusionIsUnique(list, [], k, Ranking(list, k, true));
      FusionIsUnique([], list, k, Ranking(list, k, false));
    }
    FusedIsOnePerDocument(list, [], k);
    FusedIsOnePerDocument([], list, k);
    forall b: bool | OnePerId(Ranking(list, k, b)) ensures Distinct(list) {
      forall i, j | 0 <= i < j < |list| ensures list[i].id != list[j].id {
        assert Ranking(list, k, b)[i].id != Ranking(list, k, b)[j].id;
      }
    }
  }

  // ---------- promotion in one list ----------

  // Entry p moves up to position q and those it passes move down by one.
  function Promoted(list: seq<RankedDoc>, p: nat, q: nat): seq<RankedDoc>
    requires q <= p < |list|
  {
    list[..q] + [list[p]] + list[q..p] + list[p + 1..]
  }

  // Where the entry now at position m was before the promotion.
  function Origin(p: nat, q: nat, m: nat): nat {
    if m == q then p else if q < m <= p then m - 1 else m
  }

  lemma PromotedAt(list: seq<RankedDoc>, p: nat, q: nat, m: nat)
    requires q <= p < |list| && m < |list|
    ensures |Promoted(list, p, q)| == |list| && Promoted(list, p, q)[m] == list[Origin(p, q, m)]
  {
  }

  lemma PromotedIds(list: seq<RankedDoc>, p: nat, q: nat)
    requires q <= p < |list| && Distinct(list)
    ensures Distinct(Promoted(list, p, q)) && Ids(Promoted(list, p, q)) == Ids(list)
  {
    var after := Promoted(list, p, q);
    forall a, b | 0 <= a < b < |after| ensures after[a].id != after[b].id {
      PromotedAt(list, p, q, a);
      PromotedAt(list, p, q, b);
      assert Origin(p, q, a) < Origin(p, q, b) || Origin(p, q, b) < Origin(p, q, a);
    }
    forall i | 0 <= i < |list| ensures list[i].id in Ids(after) {
      var to := if i == p then q else if q <= i < p then i + 1 else i;
      PromotedAt(list, p, q, to);
      assert after[to].id == list[i].id;
    }
    forall m | 0 <= m < |after| ensures after[m].id in Ids(list) {
      PromotedAt(list, p, q, m);
    }
  }

  lemma PromotedEntry(list: seq<RankedDoc>, p: nat, q: nat, k: nat, i: nat)
    requires q <= p < |list| && i < |list| && Distinct(list)
    ensures list[i].id in Ids(Promoted(list, p, q))
    ensures First(Promoted(list, p, q), list[i].id) == list[i]
    ensures if i == p then Score(Promoted(list, p, q), k, list[i].id) >= Score(list, k, list[i].id)
            else Score(Promoted(list, p, q), k, list[i].id) <= Score(list, k, list[i].id)
  {
    var to := if i == p then q else if q <= i < p then i + 1 else i;
    PromotedIds(list, p, q);
    PromotedAt(list, p, q, to);
    MovedEntry(list, Promoted(list, p, q), k, i, to);
  }

  // A document's score follows its position.
  lemma MovedEntry(list: seq<RankedDoc>, after: seq<RankedDoc>, k: nat, i: nat, to: nat)
    requires Distinct(list) && Distinct(after) && i < |list| && to < |after| && after[to] == list[i]
    ensures list[i].id in Ids(after) && First(after, list[i].id) == list[i]
    ensures to <= i ==> Score(after, k, list[i].id) >= Score(list, k, list[i].id)
    ensures to >= i ==> Score(after, k, list[i].id) <= Score(list, k, list[i].id)
  {
    EntryOf(list, k, i);
    EntryOf(after, k, to);
    if to < i {
      SharesDecrease(k, to + 1, i + 1);
    } else {
      SharesDecrease(k, i + 1, to + 1);
    }
  }

  // The documents ahead of position i.
  function AheadOf(hits: seq<KnowledgeHit>, i: nat): set<string>
    requires i <= |hits|
  {
    set m | 0 <= m < i :: hits[m].id
  }

  lemma {:induction false} AheadOfCounts(hits: seq<KnowledgeHit>, i: nat)
    requires i <= |hits| && OnePerId(hits)
    ensures |AheadOf(hits, i)| == i
  {
    if i == 0 {
      assert AheadOf(hits, 0) == {};
    } else {
      AheadOfCounts(hits, i - 1);
      assert AheadOf(hits, i) == AheadOf(hits, i - 1) + {hits[i - 1].id};
    }
  }

  lemma EarlierIsAhead(hits: seq<KnowledgeHit>, i: nat, h: KnowledgeHit)
    requires Sorted(hits) && i < |hits| && h in hits && Before(h, hits[i])
    ensures h.id in AheadOf(hits, i)
  {
    var at :| 0 <= at < |hits| && hits[at] == h;
    BeforeIsStrictTotalOrder(h, hits[i], h);
    assert at < i;
  }

  // If one document gains score, no other does, and metadata stay, nobody new gets ahead of it.
  lemma GainNeverDemotes(
    v1: seq<RankedDoc>, t1: seq<RankedDoc>, v2: seq<RankedDoc>, t2: seq<RankedDoc>, k: nat,
    i: nat, j: nat)
    requires Union(v1, t1) == Union(v2, t2)
    requires i < |Fused(v1, t1, k)| && j < |Fused(v2, t2, k)|
    requires var id := Fused(v1, t1, k)[i].id;
             id == Fused(v2, t2, k)[j].id
             && forall x :: x in Union(v1, t1) ==>
                  var a, b := HitOf(v1, t1, k, x), HitOf(v2, t2, k, x);
                  && b.bundleIndex == a.bundleIndex
                  && (if x == id then b.score >= a.score else b.score <= a.score)
    ensures AheadOf(Fused(v2, t2, k), j) <= AheadOf(Fused(v1, t1, k), i) && j <= i
  {
    var before, after := Fused(v1, t1, k), Fused(v2, t2, k);
    FusedIsOnePerDocument(v1, t1, k);
    FusedIsOnePerDocument(v2, t2, k);
    var id := before[i].id;
    FusedHit(v1, t1, k, id);
    FusedHit(v2, t2, k, id);
    assert before[i] in before && after[j] in after;
    forall m | 0 <= m < j ensures after[m].id in AheadOf(before, i) {
      var x := after[m].id;
      assert after[m] in after && x != id;
      FusedHit(v1, t1, k, x);
      FusedHit(v2, t2, k, x);
      EarlierIsAhead(before, i, HitOf(v1, t1, k, x));
    }
    AheadOfCounts(before, i);
    AheadOfCounts(after, j);
    SubsetIsSmaller(AheadOf(after, j), AheadOf(before, i));
  }

  // Moving a document up in either retriever's list never worsens its fused position:
  // the documents ahead of it afterwards were ahead of it before.
  lemma PromotionNeverDemotes(
    vector: seq<RankedDoc>, text: seq<RankedDoc>, k: nat, inVector: bool, p: nat, q: nat, i: nat, j: nat)
    requires Distinct(vector) && Distinct(text)
    requires var list := if inVector then vector else text;
             q <= p < |list|
             && var before := Fused(vector, text, k);
                var after := if inVector then Fused(Promoted(vector, p, q), text, k)
                             else Fused(vector, Promoted(text, p, q), k);
                i < |before| && j < |after| && before[i].id == after[j].id == list[p].id
    ensures var before := Fused(vector, text, k);
            var after := if inVector then Fused(Promoted(vector, p, q), text, k)
                         else Fused(vector, Promoted(text, p, q), k);
            AheadOf(after, j) <= AheadOf(before, i) && j <= i
  {
    var list := if inVector then vector else text;
    forall x { PromotedDocument(list, p, q, k, x); }
    if inVector {
      GainNeverDemotes(vector, text, Promoted(vector, p, q), text, k, i, j);
    } else {
      GainNeverDemotes(vector, text, vector, Promoted(text, p, q), k, i, j);
    }
  }

  // What a promotion does to any one document of the list, and to those not in it.
  lemma PromotedDocument(list: seq<RankedDoc>, p: nat, q: nat, k: nat, x: string)
    requires q <= p < |list| && Distinct(list)
    ensures x in Ids(Promoted(list, p, q)) <==> x in Ids(list)
    ensures x in Ids(list) ==> First(Promoted(list, p, q), x) == First(list, x)
    ensures if x == list[p].id then Score(Promoted(list, p, q), k, x) >= Score(list, k, x)
            else Score(Promoted(list, p, q), k, x) <= Score(list, k, x)
  {
    PromotedIds(list, p, q);
    if x in Ids(list) {
      var m :| 0 <= m < |list| && list[m].id == x;
      PromotedEntry(list, p, q, k, m);
      EntryOf(list, k, m);
    } else {
      Absent(list, k, x);
      Absent(Promoted(list, p, q), k, x);
      assert list[p].id in Ids(list);
    }
  }

  // ---------- consensus ----------

  predicate FoundByBoth(h: KnowledgeHit) {
    h.vectorRank > 0 && h.textRank > 0
  }

  ghost predicate ConsensusFirst(hits: seq<KnowledgeHit>) {
    forall i, j :: 0 <= i < |hits| && 0 <= j < |hits| && FoundByBoth(hits[i]) && !FoundByBoth(hits[j]) ==> i < j
  }

  lemma TwoSharesBeatOne(k: nat, a: nat, b: nat, c: nat)
    requires 1 <= a <= k + 1 && 1 <= b <= k + 1 && 1 <= c
    ensures Share(k, a) + Share(k, b) > Share(k, c)
  {
    SharesDecrease(k, a, k + 1);
    SharesDecrease(k, b, k + 1);
    SharesDecrease(k, 1, c);
    var one, half := Share(k, 1), Share(k, k + 1);
    var x := (k + 1) as real;
    assert one * x == 1.0 && half * (2.0 * x - 1.0) == 1.0 by {
      assert (k + (k + 1)) as real == 2.0 * x - 1.0;
    }
    TwoHalves(x, one, half);
  }

  lemma TwoHalves(x: real, one: real, half: real)
    requires x > 0.0 && half > 0.0 && one * x == 1.0 && half * (2.0 * x - 1.0) == 1.0
    ensures half + half > one
  {
  }

  lemma ConsensusScoresMore(vector: seq<RankedDoc>, text: seq<RankedDoc>, k: nat, a: string, b: string)
    requires Distinct(vector) && Distinct(text) && |vector| <= k + 1 && |text| <= k + 1
    requires a in Ids(vector) && a in Ids(text) && b in Union(vector, text)
    requires !(b in Ids(vector) && b in Ids(text))
    ensures HitOf(vector, text, k, a).score > HitOf(vector, text, k, b).score
  {
    var av := RankFindsEntry(vector, k, a);
    var at := RankFindsEntry(text, k, a);
    if b in Ids(vector) {
      var bv := RankFindsEntry(vector, k, b);
      Absent(text, k, b);
      TwoSharesBeatOne(k, av + 1, at + 1, bv + 1);
    } else {
      var bt := RankFindsEntry(text, k, b);
      Absent(vector, k, b);
      TwoSharesBeatOne(k, av + 1, at + 1, bt + 1);
    }
  }

  lemma FoundByBothMeans(vector: seq<RankedDoc>, text: seq<RankedDoc>, k: nat, id: string)
    requires Distinct(vector) && Distinct(text) && id in Union(vector, text)
    ensures FoundByBoth(HitOf(vector, text, k, id)) <==> id in Ids(vector) && id in Ids(text)
  {
    Absent(vector, k, id);
    Absent(text, k, id);
    if id in Ids(vector) { var i := RankFindsEntry(vector, k, id); }
    if id in Ids(text) { var j := RankFindsEntry(text, k, id); }
  }

  lemma ConsensusWithinBound(vector: seq<RankedDoc>, text: seq<RankedDoc>, k: nat)
    requires Distinct(vector) && Distinct(text) && |vector| <= k + 1 && |text| <= k + 1
    ensures ConsensusFirst(Fused(vector, text, k))
  {
    var hits := Fused(vector, text, k);
    forall i, j | 0 <= i < |hits| && 0 <= j < |hits| && FoundByBoth(hits[i]) && !FoundByBoth(hits[j]) ensures i < j {
      var a, b := hits[i].id, hits[j].id;
      assert hits[i] in hits && hits[j] in hits;
      FusedHit(vector, text, k, a);
      FoundByBothMeans(vector, text, k, a);
      FoundByBothMeans(vector, text, k, b);
      ConsensusScoresMore(vector, text, k, a, b);
      BeforeIsStrictTotalOrder(hits[i], hits[j], hits[i]);
    }
  }

  function Letters(c: char, n: nat): string {
    seq(n, _ => c)
  }

  // k + 2 candidates, the last of which is the document both retrievers find.
  function WideList(k: nat, c: char): seq<RankedDoc> {
    seq(k + 2, i requires 0 <= i < k + 2 =>
      if i == k + 1 then RankedDoc("shared", "", 1, "") else RankedDoc(Letters(c, i + 1), "", 0, ""))
  }

  lemma WideListIsDistinct(k: nat, c: char)
    requires c != 's'
    ensures Distinct(WideList(k, c)) && "shared" in Ids(WideList(k, c))
  {
    var list := WideList(k, c);
    forall i, j | 0 <= i < j < |list| ensures list[i].id != list[j].id {
      assert |list[i].id| == i + 1;
      assert list[i].id[0] == c;
      assert "shared"[0] == 's';
    }
    assert list[k + 1].id == "shared";
  }

  lemma WideScores(k: nat)
    ensures var vector, text := WideList(k, 'a'), WideList(k, 'b');
            && Distinct(vector) && Distinct(text)
            && "shared" in Ids(vector) && "shared" in Ids(text)
            && "a" in Ids(vector) && "a" !in Ids(text)
            && HitOf(vector, text, k, "shared").bundleIndex == 1 && HitOf(vector, text, k, "a").bundleIndex == 0
            && HitOf(vector, text, k, "shared").score == HitOf(vector, text, k, "a").score
  {
    var vector, text := WideList(k, 'a'), WideList(k, 'b');
    WideListIsDistinct(k, 'a');
    WideListIsDistinct(k, 'b');
    EntryOf(vector, k, k + 1);
    EntryOf(text, k, k + 1);
    assert vector[0].id == "a";
    EntryOf(vector, k, 0);
    forall m | 0 <= m < |text| ensures text[m].id != "a" {
      assert text[m].id[0] == 'b' || text[m].id[0] == 's';
    }
    Absent(text, k, "a");
    var x := (k + 1) as real;
    assert (k + (k + 2)) as real == 2.0 * x;
    Halves(x);
  }

  // One candidate more per list, and a hit of one retriever can overtake a hit of both.
  lemma ConsensusBeyondBound(k: nat)
    ensures var vector, text := WideList(k, 'a'), WideList(k, 'b');
            && Distinct(vector) && Distinct(text) && |vector| == |text| == k + 2
            && !ConsensusFirst(Fused(vector, text, k))
  {
    var vector, text := WideList(k, 'a'), WideList(k, 'b');
    WideScores(k);
    var hits := Fused(vector, text, k);
    FusedHit(vector, text, k, "shared");
    FusedHit(vector, text, k, "a");
    FoundByBothMeans(vector, text, k, "shared");
    FoundByBothMeans(vector, text, k, "a");
    var i :| 0 <= i < |hits| && hits[i] == HitOf(vector, text, k, "shared");
    var j :| 0 <= j < |hits| && hits[j] == HitOf(vector, text, k, "a");
    assert Before(hits[j], hits[i]);
    BeforeIsStrictTotalOrder(hits[j], hits[i], hits[j]);
    assert !(i < j);
  }

  lemma Halves(x: real)
    requires x > 0.0
    ensures 1.0 / (2.0 * x) + 1.0 / (2.0 * x) == 1.0 / x
  {
  }

  // Retrievers that return at most n candidates always have the documents found by both
  // ranked before those found by one, if and only if n is at most k + 1.
  lemma ConsensusBoundIsExact(k: nat, n: nat)
    ensures (forall vector, text :: Distinct(vector) && Distinct(text) && |vector| <= n && |text| <= n ==>
               ConsensusFirst(Fused(vector, text, k)))
       <==> n <= k + 1
  {
    if n <= k + 1 {
      forall vector, text | Distinct(vector) && Distinct(text) && |vector| <= n && |text| <= n
        ensures ConsensusFirst(Fused(vector, text, k))
      {
        ConsensusWithinBound(vector, text, k);
      }
    } else {
      ConsensusBeyondBound(k);
    }
  }
}
