/** Listing the entity ids of one document type, page by page, by following the cursor. */
module ListPaging {
  import opened Wrappers
  import opened Text
  import opened AdminStore

  const DEFAULT_LIST_PAGE_SIZE: nat := 500

  datatype Page = Page(ids: seq<string>, next: string)

  // ---------- one page ----------

  function Min(a: int, b: int): int { if a < b then a else b }

  // The hits at positions from, ..., from + size - 1 of the whole result.
  function Window(all: seq<string>, from: nat, size: nat): seq<string> {
    all[Min(from, |all|)..Min(from + size, |all|)]
  }

  function NonEmpty(ids: seq<string>): seq<string> {
    if ids == [] then []
    else NonEmpty(ids[..|ids| - 1]) + if ids[|ids| - 1] != "" then [ids[|ids| - 1]] else []
  }

  function CursorOffset(cursor: string): Option<int> {
    if cursor == "" then Some(0) else Atoi(cursor)
  }

  // The reply to one call over a fixed result: the server rejects a negative offset.
  function PageAt(all: seq<string>, cursor: string, pageSize: nat): Result<Page, string> {
    match CursorOffset(cursor)
    case None => Failure("invalid cursor")
    case Some(offset) =>
      if offset < 0 then Failure("list ids")
      else
        var ids := NonEmpty(Window(all, offset, pageSize));
        Success(Page(ids, if |ids| == pageSize then Itoa(Wrap64(offset + pageSize)) else ""))
  }

  // The non-empty ids of the window, as many as they are and in order, and the end of the window as
  // the next cursor if they fill the page.
  ghost predicate IsPage(all: seq<string>, offset: int, size: int, page: Page) {
    && 0 <= offset && 0 < size
    && var window := all[Min(offset, |all|)..Min(offset + size, |all|)];
    && multiset(page.ids) == multiset(window)["" := 0]
    && ("" !in window ==> page.ids == window)
    && (Ascending(window) ==> Ascending(page.ids))
    && page.next == if |page.ids| == size then Itoa(Wrap64(offset + size)) else ""
  }

  ghost predicate Ascending(ids: seq<string>) {
    forall i, j :: 0 <= i < j < |ids| ==> Less(ids[i], ids[j])
  }

  lemma {:induction false} NonEmptyIsBag(ids: seq<string>)
    ensures multiset(NonEmpty(ids)) == multiset(ids)["" := 0]
  {
    if ids != [] {
      var last := |ids| - 1;
      var init, id := ids[..last], ids[last];
      NonEmptyIsBag(init);
      assert ids == init + [id];
      assert multiset(ids) == multiset(init) + multiset{id};
      assert NonEmpty(ids) == if id != "" then NonEmpty(init) + [id] else NonEmpty(init);
    }
  }

  lemma AscendingSnoc(ids: seq<string>, id: string)
    requires Ascending(ids) && forall x :: x in ids ==> Less(x, id)
    ensures Ascending(ids + [id])
  {
    hide Less;
  }

  lemma AscendingPrefix(ids: seq<string>, n: nat)
    requires Ascending(ids) && n < |ids|
    ensures Ascending(ids[..n]) && forall x :: x in ids[..n] ==> Less(x, ids[n])
  {
    hide Less;
  }

  lemma {:induction false} NonEmptyAscends(ids: seq<string>)
    requires Ascending(ids)
    ensures Ascending(NonEmpty(ids)) && forall id :: id in NonEmpty(ids) ==> id in ids
  {
    if ids != [] {
      hide Less, Ascending;
      var last := |ids| - 1;
      AscendingPrefix(ids, last);
      NonEmptyAscends(ids[..last]);
      AscendingSnoc(NonEmpty(ids[..last]), ids[last]);
    }
  }

  lemma PageIsWindowOfIds(all: seq<string>, cursor: string, pageSize: nat)
    requires pageSize > 0
    ensures var p := PageAt(all, cursor, pageSize);
            && (p.Failure? <==> cursor != "" && (Atoi(cursor).None? || Atoi(cursor).value < 0))
            && (p.Success? ==> IsPage(all, if cursor == "" then 0 else Atoi(cursor).value, pageSize, p.value))
  {
    hide Atoi, Itoa, Wrap64, NonEmpty, Less, Ascending;
    var p := PageAt(all, cursor, pageSize);
    if p.Success? {
      var window := Window(all, CursorOffset(cursor).value, pageSize);
      NonEmptyIsBag(window);
      NonEmptyIsShorter(window);
      if Ascending(window) {
        NonEmptyAscends(window);
      }
    }
  }

  // `all` is what the query finds for the type, in ascending order of entity id.
  method ListEntityIds(documentType: string, cursor: string, requested: int, all: seq<string>)
    returns (r: Result<Page, string>)
    ensures r.Failure? <==>
              documentType == "" || (cursor != "" && (Atoi(cursor).None? || Atoi(cursor).value < 0))
    ensures r.Success? ==>
              IsPage(all, if cursor == "" then 0 else Atoi(cursor).value, if requested <= 0 then 500 else requested,
                     r.value)
    ensures documentType != "" ==>
              r == PageAt(all, cursor, if requested <= 0 then DEFAULT_LIST_PAGE_SIZE else requested)
  {
    hide Atoi, Itoa, Wrap64, IsPage;
    if documentType == "" {
      return Failure("document_type is required");
    }
    var pageSize := requested;
    if pageSize <= 0 {
      pageSize := DEFAULT_LIST_PAGE_SIZE;
    }
    PageIsWindowOfIds(all, cursor, pageSize);
    var offset := 0;
    if cursor != "" {
      var parsed := Atoi(cursor);
      if parsed.None? {
        return Failure("invalid cursor");
      }
      offset := parsed.value;
    }
    if offset < 0 {
      return Failure("list ids");
    }
    var hits := Window(all, offset, pageSize);
    var ids := [];
    for i := 0 to |hits|
      invariant ids == NonEmpty(hits[..i])
    {
      assert hits[..i + 1][..i] == hits[..i];
      if hits[i] != "" {
        ids := ids + [hits[i]];
      }
    }
    assert hits[..|hits|] == hits;
    var next := "";
    if |ids| == pageSize {
      next := Itoa(Wrap64(offset + pageSize));
    }
    return Success(Page(ids, next));
  }

  // ---------- following the cursor ----------

  lemma {:induction false} NonEmptyIsShorter(ids: seq<string>)
    ensures |NonEmpty(ids)| <= |ids|
    ensures |NonEmpty(ids)| == |ids| <==> "" !in ids
    ensures "" !in ids ==> NonEmpty(ids) == ids
  {
    if ids != [] {
      NonEmptyIsShorter(ids[..|ids| - 1]);
      assert ids == ids[..|ids| - 1] + [ids[|ids| - 1]];
    }
  }

  ghost predicate Fits(all: seq<string>, pageSize: nat) {
    pageSize > 0 && |all| + pageSize <= MAX_INT64
  }

  function Left(all: seq<string>, cursor: string): nat {
    match CursorOffset(cursor)
    case None => 0
    case Some(offset) => if 0 <= offset <= |all| then |all| - offset else 0
  }

  // A next cursor means a full page, and reads back as the offset just after it.
  lemma NextCursor(all: seq<string>, cursor: string, pageSize: nat)
    requires Fits(all, pageSize)
    ensures var p := PageAt(all, cursor, pageSize);
            p.Success? && p.value.next != "" ==>
              var offset := CursorOffset(cursor).value;
              0 <= offset && offset + pageSize <= |all|
              && CursorOffset(p.value.next) == Some(offset + pageSize)
  {
    hide Atoi, Itoa, Wrap64, NonEmpty;
    var p := PageAt(all, cursor, pageSize);
    if p.Success? && p.value.next != "" {
      var offset := CursorOffset(cursor).value;
      NonEmptyIsShorter(Window(all, offset, pageSize));
      Wrap64InRange(offset + pageSize);
      ItoaIsNotEmpty(offset + pageSize);
      AtoiReadsItoa(offset + pageSize);
    }
  }

  // The pages a client gets that follows the cursor until it is empty.
  function Follow(all: seq<string>, cursor: string, pageSize: nat): seq<seq<string>>
    requires Fits(all, pageSize)
    decreases Left(all, cursor)
  {
    NextCursor(all, cursor, pageSize);
    match PageAt(all, cursor, pageSize)
    case Failure(_) => []
    case Success(Page(ids, next)) => [ids] + if next == "" then [] else Follow(all, next, pageSize)
  }

  function Concat<T>(pages: seq<seq<T>>): seq<T> {
    if pages == [] then [] else pages[0] + Concat(pages[1..])
  }

  lemma WindowFacts(all: seq<string>, offset: nat, pageSize: nat)
    requires offset <= |all|
    ensures var window := Window(all, offset, pageSize);
            && |window| == Min(pageSize, |all| - offset)
            && ("" !in all ==> "" !in window)
            && all[offset..] == window + all[Min(offset + pageSize, |all|)..]
  {
  }

  // Without empty ids a page is the whole window, and there is a next cursor after a full one.
  lemma PageIsWindow(all: seq<string>, cursor: string, pageSize: nat, offset: nat)
    requires Fits(all, pageSize) && "" !in all
    requires CursorOffset(cursor) == Some(offset) && offset <= |all|
    ensures var p := PageAt(all, cursor, pageSize);
            && p.Success? && p.value.ids == Window(all, offset, pageSize)
            && (p.value.next == "" <==> |all| - offset < pageSize)
            && (p.value.next != "" ==> CursorOffset(p.value.next) == Some(offset + pageSize))
  {
    hide Atoi, Itoa, Wrap64, Window, NonEmpty, CursorOffset;
    WindowFacts(all, offset, pageSize);
    NonEmptyIsShorter(Window(all, offset, pageSize));
    NextCursor(all, cursor, pageSize);
    ItoaIsNotEmpty(Wrap64(offset + pageSize));
  }

  // Full pages, and one more that is short or empty.
  function PageCount(n: nat, p: nat): nat
    requires p > 0
  {
    n / p + 1
  }

  // From any offset within the result the pages give the rest, in full pages and one short one.
  lemma {:induction false} FollowFrom(all: seq<string>, cursor: string, pageSize: nat, offset: nat)
    requires Fits(all, pageSize) && "" !in all
    requires CursorOffset(cursor) == Some(offset) && offset <= |all|
    ensures Concat(Follow(all, cursor, pageSize)) == all[offset..]
    ensures |Follow(all, cursor, pageSize)| == PageCount(|all| - offset, pageSize)
    decreases |all| - offset
  {
    hide PageCount, PageAt, CursorOffset, Window, Follow, Concat;
    var window, left := Window(all, offset, pageSize), |all| - offset;
    FollowHead(all, cursor, pageSize, offset);
    WindowFacts(all, offset, pageSize);
    PagesSplit(left, pageSize);
    if left < pageSize {
      ConcatCons(window, []);
    } else {
      var next := PageAt(all, cursor, pageSize).value.next;
      ConcatCons(window, Follow(all, next, pageSize));
      FollowFrom(all, next, pageSize, offset + pageSize);
    }
  }

  // The first page is the window; the others follow from the offset after it.
  lemma FollowHead(all: seq<string>, cursor: string, pageSize: nat, offset: nat)
    requires Fits(all, pageSize) && "" !in all
    requires CursorOffset(cursor) == Some(offset) && offset <= |all|
    ensures var page, pages := PageAt(all, cursor, pageSize), Follow(all, cursor, pageSize);
            page.Success? &&
            if |all| - offset < pageSize then pages == [Window(all, offset, pageSize)] + []
            else
              && CursorOffset(page.value.next) == Some(offset + pageSize)
              && pages == [Window(all, offset, pageSize)] + Follow(all, page.value.next, pageSize)
  {
    hide PageAt, CursorOffset, Window;
    PageIsWindow(all, cursor, pageSize, offset);
  }

  lemma ConcatCons<T>(page: seq<T>, pages: seq<seq<T>>)
    ensures Concat([page] + pages) == page + Concat(pages)
    ensures Concat<T>([]) == []
  {
    assert ([page] + pages)[1..] == pages;
  }

  lemma PagesSplit(n: nat, p: nat)
    requires p > 0
    ensures PageCount(n, p) == if n < p then 1 else PageCount(n - p, p) + 1
  {
    if n < p {
      ShortPage(n, p);
    } else {
      OneMorePage(n, p);
    }
  }

  lemma OneMorePage(n: nat, p: nat)
    requires 0 < p <= n
    ensures n / p == (n - p) / p + 1
  {
    var q, r := (n - p) / p, (n - p) % p;
    assert n == (q + 1) * p + r;
    DivIsUnique(n, p, q + 1, r);
  }

  lemma ShortPage(n: nat, p: nat)
    requires n < p
    ensures n / p == 0
  {
  }

  lemma DivIsUnique(n: nat, p: nat, q: nat, r: nat)
    requires n == q * p + r && r < p
    ensures n / p == q
  {
    var d := n / p - q;
    assert n / p * p + n % p == n;
    assert d * p == r - n % p;
    assert d >= 1 ==> d * p >= p;
    assert d <= -1 ==> d * p <= 0 - p;
  }

  // An empty id can only be the first one, and it ends the paging after the first page.
  lemma EmptyIdStops(all: seq<string>, pageSize: nat)
    requires Fits(all, pageSize) && Ascending(all) && "" in all
    ensures Follow(all, "", pageSize) == [all[1..Min(pageSize, |all|)]]
    ensures NonEmpty(all) == all[1..]
  {
    hide Atoi, Itoa, Wrap64, Less;
    EmptyComesFirst(all);
    AllButFirst(all);
    var window := Window(all, 0, pageSize);
    AllButFirst(window);
    assert window[1..] == all[1..Min(pageSize, |all|)];
    NextCursor(all, "", pageSize);
  }

  lemma EmptyComesFirst(ids: seq<string>)
    requires Ascending(ids) && "" in ids
    ensures ids[0] == ""
  {
  }

  lemma {:induction false} AllButFirst(ids: seq<string>)
    requires ids != [] && ids[0] == "" && Ascending(ids)
    ensures NonEmpty(ids) == ids[1..]
  {
    var init := ids[..|ids| - 1];
    if |ids| == 1 {
      assert init == [] && ids[1..] == [];
    } else {
      AllButFirst(init);
      assert Less(ids[0], ids[|ids| - 1]);
      assert ids[1..] == init[1..] + [ids[|ids| - 1]];
    }
  }

  // Following the cursor returns every non-empty id once and in ascending order exactly when
  // there is no empty one, or a single page holds everything.
  lemma ListingCompleteExactlyWhenNoEmptyId(all: seq<string>, pageSize: nat)
    requires Fits(all, pageSize) && Ascending(all)
    ensures Concat(Follow(all, "", pageSize)) == NonEmpty(all) <==> "" !in all || |all| <= pageSize
    ensures "" !in all ==> |Follow(all, "", pageSize)| == |all| / pageSize + 1
  {
    if "" in all {
      EmptyIdStops(all, pageSize);
      var page := all[1..Min(pageSize, |all|)];
      assert [page][1..] == [];
      assert Concat([page]) == page + Concat([]) == page;
      if |all| <= pageSize {
        assert page == all[1..];
      } else {
        assert |page| < |all[1..]|;
      }
    } else {
      NonEmptyIsShorter(all);
      FollowFrom(all, "", pageSize, 0);
      assert all[0..] == all;
    }
  }

  // ---------- together with the store ----------

  // The result of the query for one type.
  ghost predicate IsListing(docs: map<string, Document>, documentType: string, all: seq<string>) {
    && Ascending(all)
    && forall id :: id in all <==>
         exists key :: key in docs && docs[key].documentType == documentType && docs[key].entityId == id
  }

  // After any sequence of upserts and deletes over separable types, none with an empty id,
  // the pages of a type are exactly the ids stored for it, each once, in ascending order.
  lemma PagesShowTheStore(
    ops: seq<Op>, types: set<string>, documentType: string, all: seq<string>, pageSize: nat)
    requires Separable(types) && OfTypes(ops, types)
    requires IsListing(Flat(map[], ops), documentType, all) && Fits(all, pageSize) && "" !in all
    ensures var ids := Concat(Follow(all, "", pageSize));
            && Ascending(ids)
            && forall id :: id in ids <==> (documentType, id) in Keyed(map[], ops)
  {
    ListingCompleteExactlyWhenNoEmptyId(all, pageSize);
    NonEmptyIsShorter(all);
    RunKeepsAgreement(ops, types);
    RunKeepsKeyedFiled(ops);
    var flat, keyed := Flat(map[], ops), Keyed(map[], ops);
    forall id ensures id in all <==> (documentType, id) in keyed {
      if id in all {
        var key :| key in flat && flat[key].documentType == documentType && flat[key].entityId == id;
        var k :| k in keyed && DocId(k.0, k.1) == key;
        assert keyed[k] == flat[key];
        assert k == (documentType, id);
      }
      if (documentType, id) in keyed {
        assert flat[DocId(documentType, id)] == keyed[(documentType, id)];
      }
    }
  }
}
