/** Counting the items of a bulk reply, for both the admin and the knowledge store. */
module BulkReply {
  import opened Delivery

  datatype BulkItemError = BulkItemError(entityId: string, errorMessage: string)

  datatype BulkResult = BulkResult(indexedCount: nat, failedCount: nat, errors: seq<BulkItemError>)

  const EMPTY := BulkResult(0, 0, [])

  // One verdict; the item's position indexes the documents that were sent.
  function Count(r: BulkResult, ids: seq<string>, i: nat, o: Outcome): BulkResult {
    if o.Granted() then r.(indexedCount := r.indexedCount + 1)
    else r.(failedCount := r.failedCount + 1,
            errors := r.errors + [BulkItemError(if i < |ids| then ids[i] else "", o.reason)])
  }

  // One verdict per item, in order.
  function CountAll(r: BulkResult, ids: seq<string>, outcomes: seq<Outcome>): BulkResult {
    if outcomes == [] then r
    else
      var last := |outcomes| - 1;
      Count(CountAll(r, ids, outcomes[..last]), ids, last, outcomes[last])
  }

  function Entries(items: seq<map<string, Outcome>>): nat {
    if items == [] then 0 else Entries(items[..|items| - 1]) + |items[|items| - 1]|
  }

  // The entries of one item, among some of its keys, with a status from 200 to 299.
  function GoodKeys(item: map<string, Outcome>, keys: set<string>): set<string> {
    set key | key in keys && key in item && 200 <= item[key].status <= 299
  }

  function GoodEntries(items: seq<map<string, Outcome>>): nat {
    if items == [] then 0
    else
      var last := items[|items| - 1];
      GoodEntries(items[..|items| - 1]) + |GoodKeys(last, last.Keys)|
  }

  // The usual shape of a reply: every item has one entry.
  ghost predicate IsReply(items: seq<map<string, Outcome>>, outcomes: seq<Outcome>) {
    |items| == |outcomes| && forall i :: 0 <= i < |items| ==> |items[i]| == 1 && items[i].Values == {outcomes[i]}
  }

  // So many entries are counted on top, so many of them as indexed and each of the others as a failure
  // with an error of its own.
  ghost predicate Adds(start: BulkResult, out: BulkResult, entries: int, good: int) {
    && out.indexedCount == start.indexedCount + good
    && out.failedCount == start.failedCount + entries - good
    && |out.errors| == |start.errors| + entries - good
    && start.errors <= out.errors
  }

  lemma AddsCompose(a: BulkResult, b: BulkResult, c: BulkResult, e1: int, g1: int, e2: int, g2: int)
    requires Adds(a, b, e1, g1) && Adds(b, c, e2, g2)
    ensures Adds(a, c, e1 + e2, g1 + g2)
  {
  }

  // Whatever the reply looks like, the entries with a status from 200 to 299 count as indexed and the
  // others as failures, and the number of failures is the number of errors listed.
  method CountReply(start: BulkResult, ids: seq<string>, items: seq<map<string, Outcome>>) returns (out: BulkResult)
    ensures Adds(start, out, Entries(items), GoodEntries(items))
    ensures forall outcomes :: IsReply(items, outcomes) ==> out == CountAll(start, ids, outcomes)
  {
    out := start;
    assert Adds(start, out, 0, 0);
    hide Adds, GoodKeys;
    for i := 0 to |items|
      invariant Adds(start, out, Entries(items[..i]), GoodEntries(items[..i]))
      invariant forall outcomes :: IsReply(items, outcomes) ==> out == CountAll(start, ids, outcomes[..i])
    {
      ghost var before := out;
      out := CountItem(out, ids, i, items[i]);
      assert items[..i + 1][..i] == items[..i];
      CountedOneMore(start, before, out, ids, items, i);
      AddsCompose(start, before, out, Entries(items[..i]), GoodEntries(items[..i]),
                  |items[i]|, |GoodKeys(items[i], items[i].Keys)|);
    }
    assert items[..|items|] == items;
    forall outcomes | IsReply(items, outcomes) ensures out == CountAll(start, ids, outcomes) {
      assert outcomes[..|items|] == outcomes;
    }
  }

  lemma CountedOneMore(
    start: BulkResult, before: BulkResult, out: BulkResult, ids: seq<string>, items: seq<map<string, Outcome>>, i: nat)
    requires i < |items|
    requires forall outcomes :: IsReply(items, outcomes) ==> before == CountAll(start, ids, outcomes[..i])
    requires |items[i]| == 1 ==> forall o :: items[i].Values == {o} ==> out == Count(before, ids, i, o)
    ensures forall outcomes :: IsReply(items, outcomes) ==> out == CountAll(start, ids, outcomes[..i + 1])
  {
    hide Count;
    forall outcomes | IsReply(items, outcomes) ensures out == CountAll(start, ids, outcomes[..i + 1]) {
      assert outcomes[..i + 1][..i] == outcomes[..i];
      assert items[i].Values == {outcomes[i]};
    }
  }

  // The entries of one item, in no particular order.
  method CountItem(start: BulkResult, ids: seq<string>, i: nat, item: map<string, Outcome>) returns (out: BulkResult)
    ensures Adds(start, out, |item|, |GoodKeys(item, item.Keys)|)
    ensures |item| == 1 ==> forall o :: item.Values == {o} ==> out == Count(start, ids, i, o)
  {
    hide GoodKeys;
    out := start;
    var keys := item.Keys;
    while keys != {}
      invariant keys <= item.Keys
      invariant Adds(start, out, |item.Keys| - |keys|, |GoodKeys(item, item.Keys)| - |GoodKeys(item, keys)|)
      invariant keys == item.Keys ==> out == start
      invariant |item| == 1 && keys != item.Keys ==>
                  forall o :: item.Values == {o} ==> out == Count(start, ids, i, o)
    {
      var key :| key in keys;
      var o := item[key];
      assert o in item.Values;
      OneKeyLess(item, keys, key);
      if o.status >= 200 && o.status < 300 {
        out := out.(indexedCount := out.indexedCount + 1);
      } else {
        var id := "";
        if i < |ids| {
          id := ids[i];
        }
        out := out.(failedCount := out.failedCount + 1, errors := out.errors + [BulkItemError(id, o.reason)]);
      }
      assert |item.Keys| == |item|;
      if |item| == 1 && keys != item.Keys {
        SingleKey(item.Keys, key, keys);
      }
      keys := keys - {key};
    }
    NoKeys(item);
  }

  lemma OneKeyLess(item: map<string, Outcome>, keys: set<string>, key: string)
    requires key in keys && keys <= item.Keys
    ensures |GoodKeys(item, keys)|
         == |GoodKeys(item, keys - {key})| + if 200 <= item[key].status < 300 then 1 else 0
  {
    assert GoodKeys(item, keys) == GoodKeys(item, keys - {key}) + if 200 <= item[key].status < 300 then {key} else {};
  }

  lemma NoKeys(item: map<string, Outcome>)
    ensures GoodKeys(item, {}) == {}
  {
  }

  lemma SingleKey(all: set<string>, key: string, keys: set<string>)
    requires |all| == 1 && key in keys && keys <= all
    ensures keys == all
  {
    assert |all - {key}| == 0;
    assert forall k :: k in all ==> k !in all - {key};
  }

  // ---------- what the counts mean ----------

  // The positions, in ascending order, of the verdicts with a status outside 200 to 299.
  function RefusedAt(outcomes: seq<Outcome>): (at: seq<nat>)
    ensures |at| <= |outcomes| && forall k :: 0 <= k < |at| ==> at[k] < |outcomes|
  {
    if outcomes == [] then []
    else
      var last := |outcomes| - 1;
      RefusedAt(outcomes[..last]) + if 200 <= outcomes[last].status < 300 then [] else [last]
  }

  lemma {:induction false} RefusedAtExactly(outcomes: seq<Outcome>)
    ensures forall j, k :: 0 <= j < k < |RefusedAt(outcomes)| ==> RefusedAt(outcomes)[j] < RefusedAt(outcomes)[k]
    ensures forall i :: 0 <= i < |outcomes| ==>
              (i in RefusedAt(outcomes) <==> outcomes[i].status < 200 || 300 <= outcomes[i].status)
  {
    if outcomes != [] {
      var last := |outcomes| - 1;
      var before, at := RefusedAt(outcomes[..last]), RefusedAt(outcomes);
      RefusedAtExactly(outcomes[..last]);
      assert at == before + if 200 <= outcomes[last].status < 300 then [] else [last];
      forall i | 0 <= i < last ensures i in at <==> outcomes[i].status < 200 || 300 <= outcomes[i].status {
        assert outcomes[..last][i] == outcomes[i];
      }
    }
  }

  // The errors of the others, each with the id and the reason at its own position.
  function Refusals(ids: seq<string>, outcomes: seq<Outcome>): seq<BulkItemError>
    requires |outcomes| <= |ids|
  {
    var at := RefusedAt(outcomes);
    seq(|at|, k requires 0 <= k < |at| => BulkItemError(ids[at[k]], outcomes[at[k]].reason))
  }

  lemma RefusalsLast(ids: seq<string>, outcomes: seq<Outcome>)
    requires 0 < |outcomes| <= |ids|
    ensures var last := |outcomes| - 1;
            Refusals(ids, outcomes) == Refusals(ids, outcomes[..last])
              + if 200 <= outcomes[last].status < 300 then [] else [BulkItemError(ids[last], outcomes[last].reason)]
  {
  }

  // So many verdicts counted on top, of which these are the errors.
  ghost predicate Counted(r: BulkResult, out: BulkResult, verdicts: nat, errors: seq<BulkItemError>) {
    && |errors| <= verdicts
    && out == BulkResult(r.indexedCount + verdicts - |errors|, r.failedCount + |errors|, r.errors + errors)
  }

  lemma CountedLast(
    r: BulkResult, before: BulkResult, ids: seq<string>, n: nat, o: Outcome, errors: seq<BulkItemError>)
    requires Counted(r, before, n, errors) && n < |ids|
    ensures var more := if 200 <= o.status < 300 then [] else [BulkItemError(ids[n], o.reason)];
            Counted(r, Count(before, ids, n, o), n + 1, errors + more)
  {
    var error := BulkItemError(ids[n], o.reason);
    assert r.errors + (errors + [error]) == r.errors + errors + [error];
    assert errors + [] == errors;
  }

  // The verdicts with a status from 200 to 299 are counted as indexed, and each of the others is listed, in order.
  lemma {:induction false} CountsByStatus(r: BulkResult, ids: seq<string>, outcomes: seq<Outcome>)
    requires |outcomes| <= |ids|
    ensures Counted(r, CountAll(r, ids, outcomes), |outcomes|, Refusals(ids, outcomes))
  {
    if outcomes == [] {
      assert r.errors + [] == r.errors;
    } else {
      hide Counted, Count, Refusals;
      var last := |outcomes| - 1;
      CountsByStatus(r, ids, outcomes[..last]);
      RefusalsLast(ids, outcomes);
      CountedLast(r, CountAll(r, ids, outcomes[..last]), ids, last, outcomes[last], Refusals(ids, outcomes[..last]));
    }
  }

  function ErrorIds(errors: seq<BulkItemError>): seq<string> {
    seq(|errors|, i requires 0 <= i < |errors| => errors[i].entityId)
  }

  function IdsWhere(ids: seq<string>, outcomes: seq<Outcome>, granted: bool): seq<string>
    requires |ids| == |outcomes|
  {
    if ids == [] then []
    else
      var last := |ids| - 1;
      IdsWhere(ids[..last], outcomes[..last], granted)
        + if outcomes[last].Granted() == granted then [ids[last]] else []
  }

  // The errors name the refused documents in order, the counts cover every document,
  // and each document is either indexed or refused.
  ghost predicate Accounts(r: BulkResult, out: BulkResult, ids: seq<string>, outcomes: seq<Outcome>)
    requires |ids| == |outcomes|
  {
    var granted, refused := IdsWhere(ids, outcomes, true), IdsWhere(ids, outcomes, false);
    && out.indexedCount == r.indexedCount + |granted|
    && out.failedCount == r.failedCount + |refused|
    && ErrorIds(out.errors) == ErrorIds(r.errors) + refused
    && multiset(granted) + multiset(refused) == multiset(ids)
  }

  // With one verdict per document, the counts account for all of them.
  lemma {:induction false} CountsAccountForAll(r: BulkResult, ids: seq<string>, outcomes: seq<Outcome>)
    requires |ids| == |outcomes|
    ensures Accounts(r, CountAll(r, ids, outcomes), ids, outcomes)
  {
    if ids != [] {
      var last := |ids| - 1;
      CountsAccountForAll(r, ids[..last], outcomes[..last]);
      CountsIgnoreLaterIds(r, ids, outcomes[..last]);
      OneMoreAccounted(r, CountAll(r, ids, outcomes[..last]), ids, outcomes);
    }
  }

  lemma OneMoreAccounted(r: BulkResult, before: BulkResult, ids: seq<string>, outcomes: seq<Outcome>)
    requires |ids| == |outcomes| && ids != []
    requires Accounts(r, before, ids[..|ids| - 1], outcomes[..|ids| - 1])
    ensures Accounts(r, Count(before, ids, |ids| - 1, outcomes[|ids| - 1]), ids, outcomes)
  {
    hide IdsWhere;
    var last := |ids| - 1;
    var after, id := Count(before, ids, last, outcomes[last]), ids[last];
    var refused := IdsWhere(ids[..last], outcomes[..last], false);
    IdsWhereLast(ids, outcomes, true);
    IdsWhereLast(ids, outcomes, false);
    if !outcomes[last].Granted() {
      assert ErrorIds(after.errors) == ErrorIds(before.errors) + [id];
      assert ErrorIds(r.errors) + refused + [id] == ErrorIds(r.errors) + (refused + [id]);
    }
    assert ids == ids[..last] + [id];
  }

  lemma IdsWhereLast(ids: seq<string>, outcomes: seq<Outcome>, granted: bool)
    requires |ids| == |outcomes| && ids != []
    ensures var last := |ids| - 1;
            IdsWhere(ids, outcomes, granted)
              == if outcomes[last].Granted() == granted
                 then IdsWhere(ids[..last], outcomes[..last], granted) + [ids[last]]
                 else IdsWhere(ids[..last], outcomes[..last], granted)
  {
  }

  lemma {:induction false} CountsIgnoreLaterIds(r: BulkResult, ids: seq<string>, outcomes: seq<Outcome>)
    requires |outcomes| <= |ids|
    ensures CountAll(r, ids, outcomes) == CountAll(r, ids[..|outcomes|], outcomes)
    decreases |outcomes|
  {
    if outcomes != [] {
      var last := |outcomes| - 1;
      CountsIgnoreLaterIds(r, ids, outcomes[..last]);
      CountsIgnoreLaterIds(r, ids[..|outcomes|], outcomes[..last]);
      assert ids[..|outcomes|][..last] == ids[..last];
    }
  }
}
