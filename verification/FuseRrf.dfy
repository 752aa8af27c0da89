/**
 The fusion algorithm itself: one mutable aggregate per id, two accumulation
 passes, a read-out of the map in no particular order, and a sort in place.
 */
module FuseRrf {
  import opened Fusion
  import opened FusedAnswer

  // What one aggregate holds after the entries of both lists seen so far.
  datatype Tally = Tally(meta: RankedDoc, score: real, vectorRank: nat, textRank: nat)

  ghost function TallyOf(vector: seq<RankedDoc>, text: seq<RankedDoc>, k: nat, id: string): Tally
    requires id in Union(vector, text)
  {
    Tally(Meta(vector, text, id), Score(vector, k, id) + Score(text, k, id), Rank(vector, id), Rank(text, id))
  }

  ghost function Read(t: Tally): KnowledgeHit {
    KnowledgeHit(t.meta.id, t.meta.sourceType, t.meta.bundleIndex, t.meta.title, t.score, t.vectorRank, t.textRank)
  }

  ghost function Tallies(vector: seq<RankedDoc>, text: seq<RankedDoc>, k: nat): map<string, Tally> {
    map id | id in Union(vector, text) :: TallyOf(vector, text, k, id)
  }

  class Aggregate {
    var meta: RankedDoc
    var score: real
    var vectorRank: nat
    var textRank: nat

    constructor (meta: RankedDoc)
      ensures Contents() == Tally(meta, 0.0, 0, 0)
    {
      this.meta, score, vectorRank, textRank := meta, 0.0, 0, 0;
    }

    ghost function Contents(): Tally
      reads this
    {
      Tally(meta, score, vectorRank, textRank)
    }

    // One more occurrence, at the given rank of one of the lists.
    method Record(isVector: bool, k: nat, rank: nat)
      requires rank >= 1
      modifies this
      ensures Contents() == Bump(old(Contents()), isVector, k, rank)
    {
      score := score + 1.0 / ((k + rank) as real);
      if isVector {
        vectorRank := rank;
      } else {
        textRank := rank;
      }
    }

    method Hit() returns (h: KnowledgeHit)
      ensures h == Read(Contents())
    {
      h := KnowledgeHit(meta.id, meta.sourceType, meta.bundleIndex, meta.title, score, vectorRank, textRank);
    }
  }

  ghost predicate Separate(byId: map<string, Aggregate>) {
    forall a, b :: a in byId && b in byId && a != b ==> byId[a] != byId[b]
  }

  ghost function View(byId: map<string, Aggregate>): map<string, Tally>
    reads byId.Values
  {
    map id | id in byId :: byId[id].Contents()
  }

  // The entries that the running pass has turned into aggregates.
  ghost function Seen(isVector: bool, vector: seq<RankedDoc>, list: seq<RankedDoc>, k: nat): map<string, Tally> {
    if isVector then Tallies(list, [], k) else Tallies(vector, list, k)
  }

  // What an aggregate becomes when its document is met at the given rank.
  function Bump(t: Tally, isVector: bool, k: nat, rank: nat): Tally
    requires rank >= 1
  {
    var scored := t.(score := t.score + Share(k, rank));
    if isVector then scored.(vectorRank := rank) else scored.(textRank := rank)
  }

  lemma VectorSnoc(list: seq<RankedDoc>, k: nat, i: nat, id: string)
    requires i < |list| && id in Ids(list[..i + 1])
    ensures id != list[i].id ==> id in Ids(list[..i])
    ensures TallyOf(list[..i + 1], [], k, id)
         == var prior := if id in Ids(list[..i]) then TallyOf(list[..i], [], k, id) else Tally(list[i], 0.0, 0, 0);
            if id == list[i].id then Bump(prior, true, k, i + 1) else prior
  {
    ListSnoc(list, i, k, id);
    Absent(list[..i], k, id);
    Absent([], k, id);
  }

  lemma TextSnoc(vector: seq<RankedDoc>, list: seq<RankedDoc>, k: nat, i: nat, id: string)
    requires i < |list| && id in Union(vector, list[..i + 1])
    ensures id != list[i].id ==> id in Union(vector, list[..i])
    ensures TallyOf(vector, list[..i + 1], k, id)
         == var prior := if id in Union(vector, list[..i]) then TallyOf(vector, list[..i], k, id)
                         else Tally(list[i], 0.0, 0, 0);
            if id == list[i].id then Bump(prior, false, k, i + 1) else prior
  {
    ListSnoc(list, i, k, id);
    Absent(list[..i], k, id);
    Absent(vector, k, id);
  }

  lemma SeenSnoc(isVector: bool, vector: seq<RankedDoc>, list: seq<RankedDoc>, k: nat, i: nat)
    requires i < |list|
    requires isVector ==> vector == []
    ensures var d, before := list[i], Seen(isVector, vector, list[..i], k);
            var prior := if d.id in before then before[d.id] else Tally(d, 0.0, 0, 0);
            Seen(isVector, vector, list[..i + 1], k) == before[d.id := Bump(prior, isVector, k, i + 1)]
  {
    var before, after := Seen(isVector, vector, list[..i], k), Seen(isVector, vector, list[..i + 1], k);
    SeenKeys(isVector, vector, list, k, i);
    forall id | id in after
      ensures after[id] == BumpedAt(isVector, list[i], k, i, before, id)
    {
      SeenSnocAt(isVector, vector, list, k, i, id);
    }
    UpdateAt(before, after, list[i].id);
  }

  lemma SeenKeys(isVector: bool, vector: seq<RankedDoc>, list: seq<RankedDoc>, k: nat, i: nat)
    requires i < |list|
    ensures Seen(isVector, vector, list[..i + 1], k).Keys == Seen(isVector, vector, list[..i], k).Keys + {list[i].id}
  {
    IdsSnoc(list, i);
    assert Tallies(list[..i], [], k).Keys == Ids(list[..i]);
    assert Tallies(list[..i + 1], [], k).Keys == Ids(list[..i + 1]);
  }

  lemma UpdateAt<T>(before: map<string, T>, after: map<string, T>, key: string)
    requires after.Keys == before.Keys + {key}
    requires forall id :: id in after && id != key ==> after[id] == before[id]
    ensures after == before[key := after[key]]
  {
  }

  ghost function BumpedAt(
    isVector: bool, d: RankedDoc, k: nat, i: nat, before: map<string, Tally>, id: string): Tally
  {
    var prior := if id in before then before[id] else Tally(d, 0.0, 0, 0);
    if id == d.id then Bump(prior, isVector, k, i + 1) else prior
  }

  lemma SeenSnocAt(isVector: bool, vector: seq<RankedDoc>, list: seq<RankedDoc>, k: nat, i: nat, id: string)
    requires i < |list| && (isVector ==> vector == [])
    requires id in Seen(isVector, vector, list[..i + 1], k)
    ensures id != list[i].id ==> id in Seen(isVector, vector, list[..i], k)
    ensures Seen(isVector, vector, list[..i + 1], k)[id]
         == BumpedAt(isVector, list[i], k, i, Seen(isVector, vector, list[..i], k), id)
  {
    if isVector {
      VectorSnoc(list, k, i, id);
    } else {
      TextSnoc(vector, list, k, i, id);
    }
  }

  // Looks an aggregate up by id, making an empty one when there is none.
  method FindOrMake(byId0: map<string, Aggregate>, d: RankedDoc) returns (byId: map<string, Aggregate>)
    requires Separate(byId0)
    ensures Separate(byId) && fresh(byId.Values - byId0.Values)
    ensures d.id in byId0 ==> byId == byId0
    ensures d.id !in byId0 ==>
              && byId.Keys == byId0.Keys + {d.id} && (forall id :: id in byId0 ==> byId[id] == byId0[id])
              && byId[d.id].Contents() == Tally(d, 0.0, 0, 0)
  {
    byId := byId0;
    if d.id !in byId {
      var first := new Aggregate(d);
      byId := byId[d.id := first];
    }
  }

  // One entry of a list updates the aggregate of its id.
  method Add(byId0: map<string, Aggregate>, d: RankedDoc, isVector: bool, k: nat, rank: nat)
    returns (byId: map<string, Aggregate>)
    requires Separate(byId0) && rank >= 1
    modifies byId0.Values
    ensures Separate(byId) && fresh(byId.Values - byId0.Values)
    ensures var before := old(View(byId0));
            var prior := if d.id in before then before[d.id] else Tally(d, 0.0, 0, 0);
            View(byId) == before[d.id := Bump(prior, isVector, k, rank)]
  {
    ghost var before := View(byId0);
    byId := FindOrMake(byId0, d);
    byId[d.id].Record(isVector, k, rank);
    forall id | id in byId && id != d.id
      ensures id in before && View(byId)[id] == before[id]
    {
      assert byId[id] != byId[d.id];
    }
    assert View(byId).Keys == byId.Keys == before.Keys + {d.id};
    UpdateAt(before, View(byId), d.id);
  }

  method Accumulate(
    byId0: map<string, Aggregate>, list: seq<RankedDoc>, isVector: bool, k: nat, ghost vector: seq<RankedDoc>)
    returns (byId: map<string, Aggregate>)
    requires isVector ==> vector == []
    requires Separate(byId0) && View(byId0) == Tallies(vector, [], k)
    modifies byId0.Values
    ensures Separate(byId) && fresh(byId.Values - byId0.Values)
    ensures View(byId) == Seen(isVector, vector, list, k)
  {
    byId := byId0;
    assert list[..0] == [];
    for i := 0 to |list|
      invariant Separate(byId) && fresh(byId.Values - byId0.Values)
      invariant View(byId) == Seen(isVector, vector, list[..i], k)
    {
      SeenSnoc(isVector, vector, list, k, i);
      byId := Add(byId, list[i], isVector, k, i + 1);
    }
    assert list[..|list|] == list;
  }

  method Swap(a: array<KnowledgeHit>, i: nat, j: nat)
    requires i < a.Length && j < a.Length
    modifies a
    ensures a[..] == old(a[..])[i := old(a[j])][j := old(a[i])]
    ensures multiset(a[..]) == old(multiset(a[..]))
  {
    a[i], a[j] := a[j], a[i];
  }

  // The guarantee of sort.Slice: no later hit comes before an earlier one.
  ghost predicate InOrder(hits: seq<KnowledgeHit>) {
    forall i, j :: 0 <= i < j < |hits| ==> !Before(hits[j], hits[i])
  }

  // The first n + 1 hits are in order, apart from hit m, which comes before everything after it.
  ghost predicate Sinking(hits: seq<KnowledgeHit>, n: nat, m: nat)
    requires m <= n < |hits|
  {
    && (forall i, j :: 0 <= i < j <= n && j != m ==> !Before(hits[j], hits[i]))
    && (forall j :: m < j <= n ==> Before(hits[m], hits[j]))
  }

  lemma SinkOneStep(hits: seq<KnowledgeHit>, n: nat, m: nat)
    requires 0 < m <= n < |hits| && Sinking(hits, n, m) && Before(hits[m], hits[m - 1])
    ensures Sinking(hits[m - 1 := hits[m]][m := hits[m - 1]], n, m - 1)
  {
    BeforeIsStrictTotalOrder(hits[m], hits[m - 1], hits[m]);
  }

  lemma SinkDone(hits: seq<KnowledgeHit>, n: nat, m: nat)
    requires m <= n < |hits| && Sinking(hits, n, m)
    requires m == 0 || !Before(hits[m], hits[m - 1])
    ensures InOrder(hits[..n + 1])
  {
    forall i | 0 <= i < m ensures !Before(hits[m], hits[i]) {
      if i < m - 1 {
        NotBeforeIsTransitive(hits[i], hits[m - 1], hits[m]);
      }
    }
  }

  method Sink(a: array<KnowledgeHit>, n: nat)
    requires n < a.Length && InOrder(a[..n])
    modifies a
    ensures InOrder(a[..n + 1]) && multiset(a[..]) == old(multiset(a[..]))
  {
    var m := n;
    assert forall i, j :: 0 <= i < j < n ==> a[..][i] == a[..n][i] && a[..][j] == a[..n][j];
    while m > 0 && Before(a[m], a[m - 1])
      invariant 0 <= m <= n && Sinking(a[..], n, m)
      invariant multiset(a[..]) == old(multiset(a[..]))
    {
      SinkOneStep(a[..], n, m);
      Swap(a, m - 1, m);
      m := m - 1;
    }
    SinkDone(a[..], n, m);
    assert a[..][..n + 1] == a[..n + 1];
  }

  method SortHits(a: array<KnowledgeHit>)
    modifies a
    ensures InOrder(a[..]) && multiset(a[..]) == old(multiset(a[..]))
  {
    for n := 0 to a.Length
      invariant InOrder(a[..n])
      invariant multiset(a[..]) == old(multiset(a[..]))
    {
      Sink(a, n);
    }
    assert a[..a.Length] == a[..];
  }

  // Whatever the read-out order and whatever correct sort is used, the result is the same.
  lemma FusionIsDeterministic(vector: seq<RankedDoc>, text: seq<RankedDoc>, k: nat, hits: seq<KnowledgeHit>)
    ensures InOrder(hits) && multiset(hits) == multiset(HitsOf(vector, text, k, Union(vector, text)))
       <==> hits == Fused(vector, text, k)
  {
    var all := HitsOf(vector, text, k, Union(vector, text));
    if InOrder(hits) && multiset(hits) == multiset(all) {
      assert forall h :: h in hits <==> h in multiset(hits);
      assert Elems(hits) == all;
      forall i, j | 0 <= i < j < |hits| ensures Before(hits[i], hits[j]) {
        OnceEach(hits, all, i, j);
        assert hits[i] in all && hits[j] in all;
        BeforeIsStrictTotalOrder(hits[i], hits[j], hits[i]);
      }
      FusionIsUnique(vector, text, k, hits);
    }
    if hits == Fused(vector, text, k) {
      forall i, j | 0 <= i < j < |hits| ensures !Before(hits[j], hits[i]) {
        BeforeIsStrictTotalOrder(hits[i], hits[j], hits[i]);
      }
      SortedHasNoRepeats(hits);
    }
  }

  lemma OnceEach(hits: seq<KnowledgeHit>, all: set<KnowledgeHit>, i: nat, j: nat)
    requires multiset(hits) == multiset(all) && i < j < |hits|
    ensures hits[i] != hits[j]
  {
    assert hits == hits[..j] + [hits[j]] + hits[j + 1..];
    assert hits[..j][i] == hits[i];
    assert multiset(hits)[hits[j]] <= 1;
  }

  lemma {:induction false} SortedHasNoRepeats(hits: seq<KnowledgeHit>)
    requires Sorted(hits)
    ensures multiset(hits) == multiset(Elems(hits))
  {
    if hits != [] {
      var h, rest := hits[0], hits[1..];
      assert hits == [h] + rest;
      BeforeIsStrictTotalOrder(h, h, h);
      SortedHasNoRepeats(rest);
      assert h !in rest;
      assert Elems(hits) == {h} + Elems(rest);
    }
  }

  // The range over the map, in no particular order.
  method ReadOut(byId: map<string, Aggregate>, ghost vector: seq<RankedDoc>, ghost text: seq<RankedDoc>, ghost k: nat)
    returns (slice: seq<KnowledgeHit>)
    requires View(byId) == Tallies(vector, text, k)
    ensures multiset(slice) == multiset(HitsOf(vector, text, k, Union(vector, text)))
  {
    slice := [];
    var ids := byId.Keys;
    assert View(byId).Keys == Union(vector, text);
    while ids != {}
      invariant ids <= byId.Keys
      invariant Pending(ids, slice, vector, text, k)
    {
      var id :| id in ids;
      var hit := byId[id].Hit();
      assert hit == Read(View(byId)[id]);
      ReadOne(ids, slice, vector, text, k, id);
      slice, ids := slice + [hit], ids - {id};
    }
    assert Union(vector, text) - ids == Union(vector, text);
  }

  // The slice holds the hits of all documents but the given ones, once each.
  ghost predicate Pending(
    ids: set<string>, slice: seq<KnowledgeHit>, vector: seq<RankedDoc>, text: seq<RankedDoc>, k: nat)
  {
    multiset(slice) == multiset(HitsOf(vector, text, k, Union(vector, text) - ids))
  }

  lemma ReadOne(
    ids: set<string>, slice: seq<KnowledgeHit>, vector: seq<RankedDoc>, text: seq<RankedDoc>, k: nat, id: string)
    requires Pending(ids, slice, vector, text, k) && id in ids && id in Union(vector, text)
    ensures Pending(ids - {id}, slice + [Read(Tallies(vector, text, k)[id])], vector, text, k)
  {
    assert Union(vector, text) - (ids - {id}) == Union(vector, text) - ids + {id};
    HitsGrow(vector, text, k, Union(vector, text) - ids, id);
    ReadIsHit(vector, text, k, id);
  }

  lemma HitsGrow(vector: seq<RankedDoc>, text: seq<RankedDoc>, k: nat, ids: set<string>, id: string)
    requires ids <= Union(vector, text) && id in Union(vector, text) && id !in ids
    ensures multiset(HitsOf(vector, text, k, ids + {id}))
         == multiset(HitsOf(vector, text, k, ids)) + multiset{HitOf(vector, text, k, id)}
  {
  }

  lemma ReadIsHit(vector: seq<RankedDoc>, text: seq<RankedDoc>, k: nat, id: string)
    requires id in Union(vector, text)
    ensures Read(Tallies(vector, text, k)[id]) == HitOf(vector, text, k, id)
  {
  }

  method FuseRRF(vector: seq<RankedDoc>, text: seq<RankedDoc>, rrfK: nat) returns (hits: seq<KnowledgeHit>)
    ensures hits == Fused(vector, text, rrfK) && IsAnswer(vector, text, rrfK, hits)
    ensures Distinct(vector) && Distinct(text) ==>
              forall h :: h in hits ==> h.score == Part(rrfK, h.vectorRank) + Part(rrfK, h.textRank)
  {
    var byId: map<string, Aggregate> := map[];
    assert View(byId) == Tallies([], [], rrfK);
    byId := Accumulate(byId, vector, true, rrfK, []);
    byId := Accumulate(byId, text, false, rrfK, vector);
    var slice := ReadOut(byId, vector, text, rrfK);
    var sorted := new KnowledgeHit[|slice|](i requires 0 <= i < |slice| => slice[i]);
    assert sorted[..] == slice;
    SortHits(sorted);
    hits := sorted[..];
    FusionIsDeterministic(vector, text, rrfK, hits);
    AnswerIsFusion(vector, text, rrfK, hits);
    if Distinct(vector) && Distinct(text) {
      ScoreFromRanks(vector, text, rrfK);
    }
  }
}
