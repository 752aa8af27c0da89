/**
 Reciprocal Rank Fusion of the two ranked lists of a knowledge search.
 Scores are exact reals where the worker uses float64.
 */
module Fusion {
  import opened Text

  // One position of a retriever's ranked output.
  datatype RankedDoc = RankedDoc(id: string, sourceType: string, bundleIndex: int, title: string)

  // One fused hit; ranks are 1-based and 0 means absent from that list.
  datatype KnowledgeHit = KnowledgeHit(
    id: string, sourceType: string, bundleIndex: int, title: string,
    score: real, vectorRank: nat, textRank: nat)

  // ---------- what a fused hit is, one document at a time ----------

  function Share(k: nat, rank: nat): real
    requires rank >= 1
  {
    1.0 / ((k + rank) as real)
  }

  function Ids(list: seq<RankedDoc>): set<string> {
    set i | 0 <= i < |list| :: list[i].id
  }

  ghost predicate Distinct(list: seq<RankedDoc>) {
    forall i, j :: 0 <= i < j < |list| ==> list[i].id != list[j].id
  }

  // The sum of the shares of every position at which id occurs.
  function Score(list: seq<RankedDoc>, k: nat, id: string): real {
    if list == [] then 0.0
    else
      var last := |list| - 1;
      Score(list[..last], k, id) + if list[last].id == id then Share(k, |list|) else 0.0
  }

  // The last 1-based position at which id occurs, or 0.
  function Rank(list: seq<RankedDoc>, id: string): nat {
    if list == [] then 0
    else if list[|list| - 1].id == id then |list|
    else Rank(list[..|list| - 1], id)
  }

  // The first entry for id.
  function First(list: seq<RankedDoc>, id: string): (d: RankedDoc)
    requires id in Ids(list)
    ensures d.id == id && d in list
  {
    var last := |list| - 1;
    if id in Ids(list[..last]) then First(list[..last], id) else list[last]
  }

  function Union(vector: seq<RankedDoc>, text: seq<RankedDoc>): set<string> {
    Ids(vector) + Ids(text)
  }

  // The metadata of a document is that of its first occurrence, the vector list before the text list.
  function Meta(vector: seq<RankedDoc>, text: seq<RankedDoc>, id: string): RankedDoc
    requires id in Union(vector, text)
  {
    if id in Ids(vector) then First(vector, id) else First(text, id)
  }

  function HitOf(vector: seq<RankedDoc>, text: seq<RankedDoc>, k: nat, id: string): (h: KnowledgeHit)
    requires id in Union(vector, text)
    ensures h.id == id
  {
    var d := Meta(vector, text, id);
    KnowledgeHit(id, d.sourceType, d.bundleIndex, d.title,
                 Score(vector, k, id) + Score(text, k, id), Rank(vector, id), Rank(text, id))
  }

  function HitsOf(vector: seq<RankedDoc>, text: seq<RankedDoc>, k: nat, ids: set<string>): set<KnowledgeHit>
    requires ids <= Union(vector, text)
  {
    set id | id in ids :: HitOf(vector, text, k, id)
  }

  // ---------- one more entry at the end of a list ----------

  lemma IdsSnoc(list: seq<RankedDoc>, i: nat)
    requires i < |list|
    ensures Ids(list[..i + 1]) == Ids(list[..i]) + {list[i].id}
  {
  }

  // One more entry changes the tally of its own document only.
  lemma ListSnoc(list: seq<RankedDoc>, i: nat, k: nat, id: string)
    requires i < |list|
    ensures Score(list[..i + 1], k, id)
         == Score(list[..i], k, id) + if list[i].id == id then Share(k, i + 1) else 0.0
    ensures Rank(list[..i + 1], id) == if list[i].id == id then i + 1 else Rank(list[..i], id)
    ensures id in Ids(list[..i + 1]) <==> id in Ids(list[..i]) || list[i].id == id
    ensures id in Ids(list[..i]) ==> First(list[..i + 1], id) == First(list[..i], id)
    ensures id !in Ids(list[..i]) && list[i].id == id ==> First(list[..i + 1], id) == list[i]
  {
    assert list[..i + 1][..i] == list[..i];
    IdsSnoc(list, i);
  }

  lemma {:induction false} Absent(list: seq<RankedDoc>, k: nat, id: string)
    ensures id !in Ids(list) ==> Score(list, k, id) == 0.0 && Rank(list, id) == 0
  {
    if id !in Ids(list) && list != [] {
      var last := |list| - 1;
      assert list[last].id in Ids(list);
      assert list == list[..last + 1];
      IdsSnoc(list, last);
      Absent(list[..last], k, id);
    }
  }

  // ---------- the order of fused hits ----------

  // Higher score, then lower bundle index, then lower id.
  predicate Before(a: KnowledgeHit, b: KnowledgeHit) {
    if a.score != b.score then a.score > b.score
    else if a.bundleIndex != b.bundleIndex then a.bundleIndex < b.bundleIndex
    else Less(a.id, b.id)
  }

  lemma BeforeIsStrictTotalOrder(a: KnowledgeHit, b: KnowledgeHit, c: KnowledgeHit)
    ensures Before(a, b) ==> !Before(b, a)
    ensures Before(a, b) && Before(b, c) ==> Before(a, c)
    ensures a.id != b.id ==> Before(a, b) || Before(b, a)
  {
    if Less(a.id, b.id) {
      LessIsAsymmetric(a.id, b.id);
      if Less(b.id, c.id) {
        LessIsTransitive(a.id, b.id, c.id);
      }
    }
    LessIsTotal(a.id, b.id);
  }

  lemma NotBeforeIsTransitive(a: KnowledgeHit, b: KnowledgeHit, c: KnowledgeHit)
    requires !Before(b, a) && !Before(c, b)
    ensures !Before(c, a)
  {
    LessIsTotal(a.id, b.id);
    LessIsTotal(b.id, c.id);
    if a.id != b.id && b.id != c.id && Less(c.id, a.id) && Less(a.id, b.id) {
      LessIsTransitive(c.id, a.id, b.id);
    }
  }

  function Elems(hits: seq<KnowledgeHit>): set<KnowledgeHit> {
    set h | h in hits
  }

  ghost predicate Sorted(hits: seq<KnowledgeHit>) {
    forall i, j :: 0 <= i < j < |hits| ==> Before(hits[i], hits[j])
  }

  // The fused result: exactly one hit per document of the two lists, in order.
  ghost predicate IsFusion(vector: seq<RankedDoc>, text: seq<RankedDoc>, k: nat, hits: seq<KnowledgeHit>) {
    Sorted(hits) && Elems(hits) == HitsOf(vector, text, k, Union(vector, text))
  }

  // Two strictly sorted sequences of the same hits are equal.
  lemma {:induction false} SortedIsUnique(a: seq<KnowledgeHit>, b: seq<KnowledgeHit>)
    requires Sorted(a) && Sorted(b) && Elems(a) == Elems(b)
    ensures a == b
  {
    assert |a| > 0 ==> a[0] in Elems(a);
    assert |b| > 0 ==> b[0] in Elems(b);
    if a != [] && b != [] {
      BeforeIsStrictTotalOrder(a[0], b[0], a[0]);
      assert a[0] == b[0];
      forall h ensures h in a[1..] <==> h in b[1..] {
        BeforeIsStrictTotalOrder(a[0], h, a[0]);
        BeforeIsStrictTotalOrder(a[0], a[0], a[0]);
        assert h in a <==> h in Elems(a);
        assert h in b <==> h in Elems(b);
      }
      assert Elems(a[1..]) == Elems(b[1..]);
      SortedIsUnique(a[1..], b[1..]);
    }
  }

  function Insert(h: KnowledgeHit, hits: seq<KnowledgeHit>): (r: seq<KnowledgeHit>)
    ensures forall x :: x in r <==> x == h || x in hits
  {
    if hits == [] then [h]
    else if Before(h, hits[0]) then [h] + hits
    else
      var r := [hits[0]] + Insert(h, hits[1..]);
      assert hits == [hits[0]] + hits[1..];
      r
  }

  lemma {:induction false} InsertKeepsOrder(h: KnowledgeHit, hits: seq<KnowledgeHit>)
    requires Sorted(hits) && forall x :: x in hits ==> x.id != h.id
    ensures Sorted(Insert(h, hits))
  {
    if hits != [] {
      BeforeIsStrictTotalOrder(h, hits[0], h);
      if Before(h, hits[0]) {
        forall x | x in hits ensures Before(h, x) {
          BeforeIsStrictTotalOrder(h, hits[0], x);
        }
      } else {
        InsertKeepsOrder(h, hits[1..]);
        forall x | x in Insert(h, hits[1..]) ensures Before(hits[0], x) {
        }
      }
    }
  }

  // Every finite set of the documents can be put in order.
  lemma {:induction false} FusionExists(
    vector: seq<RankedDoc>, text: seq<RankedDoc>, k: nat, ids: set<string>)
    requires ids <= Union(vector, text)
    ensures exists hits :: Sorted(hits) && Elems(hits) == HitsOf(vector, text, k, ids)
  {
    if ids == {} {
      assert Sorted([]) && Elems([]) == {};
    } else {
      var id :| id in ids;
      FusionExists(vector, text, k, ids - {id});
      var rest: seq<KnowledgeHit> :| Sorted(rest) && Elems(rest) == HitsOf(vector, text, k, ids - {id});
      var h := HitOf(vector, text, k, id);
      forall x | x in rest ensures x.id != h.id {
        assert x in Elems(rest);
      }
      InsertKeepsOrder(h, rest);
      var hits := Insert(h, rest);
      forall x ensures x in Elems(hits) <==> x in HitsOf(vector, text, k, ids) {
        assert x in rest <==> x in Elems(rest);
      }
      assert Sorted(hits) && Elems(hits) == HitsOf(vector, text, k, ids);
    }
  }

  // The one fused result of two lists.
  ghost function Fused(vector: seq<RankedDoc>, text: seq<RankedDoc>, k: nat): (hits: seq<KnowledgeHit>)
    ensures IsFusion(vector, text, k, hits)
  {
    FusionExists(vector, text, k, Union(vector, text));
    var hits: seq<KnowledgeHit> :| Sorted(hits) && Elems(hits) == HitsOf(vector, text, k, Union(vector, text));
    hits
  }

  lemma FusionIsUnique(vector: seq<RankedDoc>, text: seq<RankedDoc>, k: nat, hits: seq<KnowledgeHit>)
    ensures IsFusion(vector, text, k, hits) <==> hits == Fused(vector, text, k)
  {
    if IsFusion(vector, text, k, hits) {
      SortedIsUnique(hits, Fused(vector, text, k));
    }
  }
}
