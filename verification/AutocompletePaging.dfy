/** Paging through autocomplete results by following next_offset while has_more holds. */
module AutocompletePaging {
  import opened Wrappers
  import opened Text
  import opened AdminStore
  import opened ListPaging

  const MAX_AUTOCOMPLETE_PAGE_SIZE: int := 100

  datatype Hits = Hits(docs: seq<Document>, total: nat)

  datatype Response = Response(docs: seq<Document>, hasMore: bool, nextOffset: int)

  // The value an int32 holds after an addition whose exact result is n.
  function Wrap32(n: int): int {
    (n + 0x8000_0000) % 0x1_0000_0000 - 0x8000_0000
  }

  lemma Wrap32IsCongruent(n: int)
    ensures -0x8000_0000 <= Wrap32(n) < 0x8000_0000 && (n - Wrap32(n)) % 0x1_0000_0000 == 0
  {
  }

  function Clamped(pageSize: int): (n: nat)
    ensures 1 <= n <= MAX_AUTOCOMPLETE_PAGE_SIZE
  {
    if pageSize <= 0 || pageSize > MAX_AUTOCOMPLETE_PAGE_SIZE then MAX_AUTOCOMPLETE_PAGE_SIZE else pageSize
  }

  function Slice(results: seq<Document>, offset: nat, size: nat): seq<Document> {
    results[Min(offset, |results|)..Min(offset + size, |results|)]
  }

  // The documents from the offset on, or from the start for a negative one, as many as asked for between
  // 1 and 100, else 100, or what is left.
  predicate IsWindow(results: seq<Document>, requested: int, offset: int, docs: seq<Document>) {
    var from := if offset < 0 then 0 else offset;
    var size := if 1 <= requested <= 100 then requested else 100;
    if from >= |results| then docs == []
    else if from + size >= |results| then docs == results[from..]
    else docs == results[from..from + size]
  }

  lemma SliceIsWindow(results: seq<Document>, requested: int, offset: int)
    ensures IsWindow(results, requested, offset, Slice(results, if offset < 0 then 0 else offset, Clamped(requested)))
  {
  }

  // `results` is everything the query finds, in its sort order, with an exact total.
  method StoreAutocomplete(query: string, pageSize0: int, offset0: int, results: seq<Document>)
    returns (r: Result<Hits, string>)
    ensures r.Failure? <==> Blank(query)
    ensures (exists i :: 0 <= i < |query| && '!' <= query[i] <= '~') ==> r.Success?
    ensures r.Success? ==> r.value.total == |results| && IsWindow(results, pageSize0, offset0, r.value.docs)
    ensures r.Success? ==> r.value.docs == Slice(results, if offset0 < 0 then 0 else offset0, Clamped(pageSize0))
  {
    hide TrimSpace, Blank, IsWindow, Slice;
    TrimsToNothingExactlyWhenBlank(query);
    SliceIsWindow(results, pageSize0, offset0);
    if TrimSpace(query) == "" {
      return Failure("query is required");
    }
    var pageSize, offset := pageSize0, offset0;
    if pageSize <= 0 {
      pageSize := MAX_AUTOCOMPLETE_PAGE_SIZE;
    }
    if pageSize > MAX_AUTOCOMPLETE_PAGE_SIZE {
      pageSize := MAX_AUTOCOMPLETE_PAGE_SIZE;
    }
    if offset < 0 {
      offset := 0;
    }
    var parsed := Slice(results, offset, pageSize);
    var docs := [];
    for i := 0 to |parsed|
      invariant docs == parsed[..i]
    {
      docs := docs + [parsed[i]];
      assert parsed[..i + 1] == parsed[..i] + [parsed[i]];
    }
    assert parsed[..|parsed|] == parsed;
    return Success(Hits(docs, |results|));
  }

  // The reply of the service over a fixed result, for an int32 offset.
  function ReplyAt(results: seq<Document>, pageSize: int, offset: int): Response {
    var docs := Slice(results, if offset < 0 then 0 else offset, Clamped(pageSize));
    Response(docs, offset + |docs| < |results|, Wrap32(offset + |docs|))
  }

  // has_more compares the exact end of the page with the total; next_offset is that end in 32 bits.
  predicate Responds(results: seq<Document>, requested: int, offset: int, r: Response) {
    var end := offset + |r.docs|;
    && IsWindow(results, requested, offset, r.docs)
    && (r.hasMore <==> end < |results|)
    && -0x8000_0000 <= r.nextOffset < 0x8000_0000 && (end - r.nextOffset) % 0x1_0000_0000 == 0
  }

  lemma ReplyResponds(results: seq<Document>, requested: int, offset: int)
    ensures Responds(results, requested, offset, ReplyAt(results, requested, offset))
  {
    hide IsWindow, Slice, Wrap32;
    SliceIsWindow(results, requested, offset);
    Wrap32IsCongruent(offset + |ReplyAt(results, requested, offset).docs|);
  }

  method Autocomplete(query: string, requested: int, offset: int, results: seq<Document>)
    returns (r: Result<Response, string>)
    ensures r.Failure? <==> Blank(query)
    ensures (exists i :: 0 <= i < |query| && '!' <= query[i] <= '~') ==> r.Success?
    ensures r.Success? ==> r.value == ReplyAt(results, requested, offset)
    ensures r.Success? ==> Responds(results, requested, offset, r.value)
  {
    assert query == "" ==> Blank(query);
    hide TrimSpace, Blank, IsWindow, Slice, Wrap32, Responds;
    ReplyResponds(results, requested, offset);
    if query == "" {
      return Failure("query is required");
    }
    var pageSize := requested;
    if pageSize <= 0 {
      pageSize := MAX_AUTOCOMPLETE_PAGE_SIZE;
    }
    var result := StoreAutocomplete(query, pageSize, offset, results);
    if result.Failure? {
      return Failure(result.error);
    }
    var hits := [];
    for i := 0 to |result.value.docs|
      invariant hits == result.value.docs[..i]
    {
      hits := hits + [result.value.docs[i]];
      assert result.value.docs[..i + 1] == result.value.docs[..i] + [result.value.docs[i]];
    }
    assert result.value.docs[..|hits|] == result.value.docs;
    var nextOffset := Wrap32(offset + |hits|);
    var hasMore := offset + |hits| < result.value.total;
    return Success(Response(hits, hasMore, nextOffset));
  }

  // ---------- following next_offset ----------

  const INT32_LIMIT: int := 0x8000_0000

  // While there is more, the page is full and the next offset is just after it;
  // when there is no more, the page is the rest.
  lemma PageFacts(results: seq<Document>, pageSize: int, offset: nat)
    requires |results| < INT32_LIMIT && offset <= |results|
    ensures var r := ReplyAt(results, pageSize, offset);
            && (r.hasMore ==>
                  && |r.docs| == Clamped(pageSize)
                  && offset < r.nextOffset == offset + |r.docs| < |results|
                  && results[offset..] == r.docs + results[r.nextOffset..])
            && (!r.hasMore ==> r.docs == results[offset..])
  {
  }

  // The pages a client gets that asks again with next_offset as long as has_more holds.
  function Browse(results: seq<Document>, pageSize: int, offset: nat): seq<seq<Document>>
    requires |results| < INT32_LIMIT && offset <= |results|
    decreases |results| - offset
  {
    var r := ReplyAt(results, pageSize, offset);
    PageFacts(results, pageSize, offset);
    [r.docs] + if r.hasMore then Browse(results, pageSize, r.nextOffset) else []
  }

  lemma {:induction false} BrowseFrom(results: seq<Document>, pageSize: int, offset: nat)
    requires |results| < INT32_LIMIT && offset <= |results|
    ensures Concat(Browse(results, pageSize, offset)) == results[offset..]
    ensures forall i :: 0 <= i < |Browse(results, pageSize, offset)| - 1 ==>
              |Browse(results, pageSize, offset)[i]| == Clamped(pageSize)
    decreases |results| - offset
  {
    hide ReplyAt, Clamped;
    var r, pages := ReplyAt(results, pageSize, offset), Browse(results, pageSize, offset);
    PageFacts(results, pageSize, offset);
    assert pages[0] == r.docs;
    if r.hasMore {
      BrowseFrom(results, pageSize, r.nextOffset);
      assert pages[1..] == Browse(results, pageSize, r.nextOffset);
    } else {
      assert pages[1..] == [];
    }
  }

  // For any requested page size, browsing from the start shows every hit once, in order,
  // with only the last page allowed to be short.
  lemma BrowsingIsComplete(results: seq<Document>, pageSize: int)
    requires |results| < INT32_LIMIT
    ensures Concat(Browse(results, pageSize, 0)) == results
    ensures forall i :: 0 <= i < |Browse(results, pageSize, 0)| - 1 ==>
              |Browse(results, pageSize, 0)[i]| == Clamped(pageSize)
  {
    BrowseFrom(results, pageSize, 0);
    assert results[0..] == results;
  }
}
