/**
 The admin search index: documents of several types kept in one flat index under
 the key `type:entity`, and when that amounts to a store keyed by both parts.
 */
module AdminStore {
  import opened Wrappers
  import opened Text
  import opened Delivery
  import opened BulkBody
  import opened BulkReply

  const ADMIN_INDEX := "manyfaces-admin-v2"

  datatype Document = Document(
    documentType: string, entityId: string, faceId: string, routingUserId: string, title: string,
    subtitle: string, searchText: string, searchTextEmail: string, approvalStatus: string, updatedAtUnix: int)

  function DocId(documentType: string, entityId: string): string {
    documentType + ":" + entityId
  }

  // ---------- enrichment ----------

  function ExtractEmail(value: string): string {
    var trimmed := TrimSpace(value);
    if '@' in trimmed then trimmed else ""
  }

  // An email is looked for in the title first, then in the search text.
  function Enriched(d: Document): Document {
    if d.searchTextEmail != "" then d
    else if ExtractEmail(d.title) != "" then d.(searchTextEmail := ExtractEmail(d.title))
    else if ExtractEmail(d.searchText) != "" then d.(searchTextEmail := ExtractEmail(d.searchText))
    else d
  }

  // Enrichment touches nothing but an empty email, fills it with the trimmed title if that has an
  // '@', else with the trimmed search text if that has one, and does nothing a second time.
  lemma EnrichmentOnlyFillsEmail(d: Document)
    ensures Enriched(d).(searchTextEmail := d.searchTextEmail) == d
    ensures Enriched(d).searchTextEmail ==
              if d.searchTextEmail != "" then d.searchTextEmail
              else if '@' in d.title then TrimSpace(d.title)
              else if '@' in d.searchText then TrimSpace(d.searchText)
              else ""
    ensures Enriched(Enriched(d)) == Enriched(d)
  {
    TrimSpaceKeeps(d.title, '@');
    TrimSpaceKeeps(d.searchText, '@');
  }

  // ---------- the flat index and the store keyed by both parts ----------

  datatype Op = Put(doc: Document) | Drop(documentType: string, entityId: string) {
    function Type(): string {
      match this
      case Put(d) => d.documentType
      case Drop(t, _) => t
    }
  }

  function FlatOp(flat: map<string, Document>, op: Op): map<string, Document> {
    match op
    case Put(d) => flat[DocId(d.documentType, d.entityId) := Enriched(d)]
    case Drop(t, e) => flat - {DocId(t, e)}
  }

  function KeyedOp(keyed: map<(string, string), Document>, op: Op): map<(string, string), Document> {
    match op
    case Put(d) => keyed[(d.documentType, d.entityId) := Enriched(d)]
    case Drop(t, e) => keyed - {(t, e)}
  }

  function Flat(flat: map<string, Document>, ops: seq<Op>): map<string, Document> {
    if ops == [] then flat else FlatOp(Flat(flat, ops[..|ops| - 1]), ops[|ops| - 1])
  }

  function Keyed(keyed: map<(string, string), Document>, ops: seq<Op>): map<(string, string), Document> {
    if ops == [] then keyed else KeyedOp(Keyed(keyed, ops[..|ops| - 1]), ops[|ops| - 1])
  }

  // Calls made one after the other add up to one run.
  lemma {:induction false} FlatComposes(flat: map<string, Document>, first: seq<Op>, second: seq<Op>)
    ensures Flat(flat, first + second) == Flat(Flat(flat, first), second)
  {
    if second == [] {
      assert first + second == first;
    } else {
      var init := second[..|second| - 1];
      assert (first + second)[..|first + second| - 1] == first + init;
      FlatComposes(flat, first, init);
    }
  }

  // The flat index holds exactly the keyed documents, each under its flat key.
  ghost predicate Agree(flat: map<string, Document>, keyed: map<(string, string), Document>) {
    && (forall k :: k in keyed ==> DocId(k.0, k.1) in flat && flat[DocId(k.0, k.1)] == keyed[k])
    && (forall id :: id in flat ==> exists k :: k in keyed && DocId(k.0, k.1) == id)
  }

  // ---------- keys ----------

  // One type followed by a colon begins the other.
  predicate Overlap(t: string, u: string) {
    t + ":" <= u || u + ":" <= t
  }

  lemma SameKeyOverlaps(t: string, e: string, u: string, f: string)
    requires DocId(t, e) == DocId(u, f) && |t| < |u|
    ensures t + ":" <= u
  {
    var id := DocId(t, e);
    assert id[..|t| + 1] == t + ":";
    assert DocId(u, f)[..|u|] == u;
    assert u[..|t| + 1] == id[..|u|][..|t| + 1];
  }

  lemma KeyOfSameType(t: string, e: string, f: string)
    requires DocId(t, e) == DocId(t, f)
    ensures e == f
  {
    assert e == DocId(t, e)[|t| + 1..] && f == DocId(t, f)[|t| + 1..];
  }

  lemma SameLengthSameType(t: string, e: string, u: string, f: string)
    requires DocId(t, e) == DocId(u, f) && |t| == |u|
    ensures t == u
  {
    assert t == DocId(t, e)[..|t|] && u == DocId(u, f)[..|u|];
  }

  // Overlapping types have a key in common.
  lemma OverlapGivesSameKey(t: string, u: string) returns (e: string)
    requires t + ":" <= u
    ensures DocId(t, e) == DocId(u, "x")
  {
    e := u[|t| + 1..] + ":x";
    assert u == t + ":" + u[|t| + 1..];
    assert DocId(u, "x") == t + ":" + (u[|t| + 1..] + ":x");
  }

  // Two documents of different types can share a flat key exactly when the types overlap;
  // documents of one type never do.
  lemma KeysCollideExactlyWhenTypesOverlap(t: string, u: string)
    ensures (exists e, f :: (t, e) != (u, f) && DocId(t, e) == DocId(u, f)) <==> t != u && Overlap(t, u)
  {
    if e, f :| (t, e) != (u, f) && DocId(t, e) == DocId(u, f) {
      if |t| < |u| {
        SameKeyOverlaps(t, e, u, f);
      } else if |u| < |t| {
        SameKeyOverlaps(u, f, t, e);
      } else {
        SameLengthSameType(t, e, u, f);
        KeyOfSameType(t, e, f);
      }
    }
    if t != u && Overlap(t, u) {
      if t + ":" <= u {
        var e := OverlapGivesSameKey(t, u);
        assert (t, e) != (u, "x");
      } else {
        var f := OverlapGivesSameKey(u, t);
        assert (t, "x") != (u, f);
      }
    }
  }

  // ---------- refinement ----------

  ghost predicate Separable(types: set<string>) {
    forall t, u :: t in types && u in types && t != u ==> !Overlap(t, u)
  }

  ghost predicate OfTypes(ops: seq<Op>, types: set<string>) {
    forall op :: op in ops ==> op.Type() in types
  }

  lemma KeysApart(types: set<string>, k: (string, string), l: (string, string))
    requires Separable(types) && k.0 in types && l.0 in types
    ensures DocId(k.0, k.1) == DocId(l.0, l.1) ==> k == l
  {
    if DocId(k.0, k.1) == DocId(l.0, l.1) && k != l {
      KeysCollideExactlyWhenTypesOverlap(k.0, l.0);
    }
  }

  lemma OpKeepsAgreement(
    flat: map<string, Document>, keyed: map<(string, string), Document>, op: Op, types: set<string>)
    requires Separable(types) && Agree(flat, keyed) && op.Type() in types
    requires forall k :: k in keyed ==> k.0 in types
    ensures Agree(FlatOp(flat, op), KeyedOp(keyed, op))
  {
    var key := if op.Put? then (op.doc.documentType, op.doc.entityId) else (op.documentType, op.entityId);
    forall k | k in keyed ensures DocId(k.0, k.1) == DocId(key.0, key.1) ==> k == key {
      KeysApart(types, k, key);
    }
    var f, m := FlatOp(flat, op), KeyedOp(keyed, op);
    forall id | id in f ensures exists k :: k in m && DocId(k.0, k.1) == id {
      if id == DocId(key.0, key.1) {
        assert key in m;
      } else {
        var k :| k in keyed && DocId(k.0, k.1) == id;
        assert k in m;
      }
    }
  }

  lemma {:induction false} RunKeepsAgreement(ops: seq<Op>, types: set<string>)
    requires Separable(types) && OfTypes(ops, types)
    ensures Agree(Flat(map[], ops), Keyed(map[], ops))
    ensures forall k :: k in Keyed(map[], ops) ==> k.0 in types
  {
    if ops != [] {
      var init, op := ops[..|ops| - 1], ops[|ops| - 1];
      assert op in ops && forall o :: o in init ==> o in ops;
      RunKeepsAgreement(init, types);
      OpKeepsAgreement(Flat(map[], init), Keyed(map[], init), op, types);
    }
  }

  function Plain(documentType: string, entityId: string): Document {
    Document(documentType, entityId, "", "", "", "", "", "", "", 0)
  }

  lemma OverlapBreaksAgreement(t: string, u: string) returns (ops: seq<Op>)
    requires t != u && t + ":" <= u
    ensures OfTypes(ops, {t, u}) && !Agree(Flat(map[], ops), Keyed(map[], ops))
  {
    var e := OverlapGivesSameKey(t, u);
    ops := [Put(Plain(t, e)), Put(Plain(u, "x"))];
    assert ops[..1] == [Put(Plain(t, e))] && ops[..1][..0] == [];
    var flat, keyed := Flat(map[], ops), Keyed(map[], ops);
    var one := Keyed(map[], ops[..1]);
    assert Keyed(map[], ops[..1][..0]) == map[] && ops[..1][0] == ops[0];
    assert one == KeyedOp(map[], ops[0]);
    assert (t, e) in one && one[(t, e)] == Enriched(Plain(t, e));
    assert keyed == KeyedOp(one, ops[1]) && flat == FlatOp(Flat(map[], ops[..1]), ops[1]);
    assert (t, e) in keyed && keyed[(t, e)].documentType == t;
    assert flat[DocId(u, "x")].documentType == u;
  }

  // For every sequence of upserts and deletes over these types the flat index agrees with the
  // keyed store, last write winning, exactly when no type overlaps another.
  lemma FlatRefinesKeyedExactlyWhenSeparable(types: set<string>)
    ensures (forall ops :: OfTypes(ops, types) ==> Agree(Flat(map[], ops), Keyed(map[], ops))) <==> Separable(types)
  {
    if Separable(types) {
      forall ops | OfTypes(ops, types) ensures Agree(Flat(map[], ops), Keyed(map[], ops)) {
        RunKeepsAgreement(ops, types);
      }
    } else {
      var t, u :| t in types && u in types && t != u && Overlap(t, u);
      if t + ":" <= u {
        var ops := OverlapBreaksAgreement(t, u);
        assert OfTypes(ops, types);
      } else {
        var ops := OverlapBreaksAgreement(u, t);
        assert OfTypes(ops, types);
      }
    }
  }

  // Types without a colon, such as the ones the backend uses, never overlap.
  lemma ColonFreeTypesAreSeparable(types: set<string>)
    requires forall t :: t in types ==> ':' !in t
    ensures Separable(types)
  {
    forall t, u | t in types && u in types ensures !(t + ":" <= u) {
      ColonAtOverlap(t, u);
    }
  }

  lemma ColonAtOverlap(t: string, u: string)
    ensures t + ":" <= u ==> ':' in u
  {
    if t + ":" <= u {
      assert (t + ":")[|t|] == ':';
      assert u[|t|] == ':';
    }
  }

  // Every keyed document carries its own key.
  lemma {:induction false} RunKeepsKeyedFiled(ops: seq<Op>)
    ensures forall k :: k in Keyed(map[], ops) ==>
              (Keyed(map[], ops)[k].documentType, Keyed(map[], ops)[k].entityId) == k
  {
    if ops != [] {
      RunKeepsKeyedFiled(ops[..|ops| - 1]);
    }
  }

  // ---------- the store's own calls ----------

  // The verdicts for n items; the cluster never leaves one out.
  function Padded(verdicts: seq<Outcome>, n: nat): seq<Outcome> {
    seq(n, i requires 0 <= i < n => if i < |verdicts| then verdicts[i] else NO_VERDICT)
  }

  // The documents of a bulk request that are granted, as single writes.
  function GrantedPuts(docs: seq<Document>, outcomes: seq<Outcome>): seq<Op>
    requires |docs| == |outcomes|
  {
    if docs == [] then []
    else
      var last := |docs| - 1;
      GrantedPuts(docs[..last], outcomes[..last]) + if outcomes[last].Granted() then [Put(docs[last])] else []
  }

  function EntityIds(docs: seq<Document>): seq<string> {
    seq(|docs|, i requires 0 <= i < |docs| => docs[i].entityId)
  }

  // What a bulk request reports: everything with a status from 200 to 299 as indexed, and the others in
  // order, each with its entity id and reason.
  ghost predicate Reports(out: BulkResult, docs: seq<Document>, outcomes: seq<Outcome>) {
    var at := RefusedAt(outcomes);
    && |outcomes| == |docs| && out.indexedCount + |at| == |docs|
    && out.failedCount == |out.errors| == |at|
    && forall k :: 0 <= k < |at| ==> out.errors[k] == BulkItemError(docs[at[k]].entityId, outcomes[at[k]].reason)
  }

  lemma CountsReport(docs: seq<Document>, outcomes: seq<Outcome>)
    requires |docs| == |outcomes|
    ensures Reports(CountAll(EMPTY, EntityIds(docs), outcomes), docs, outcomes)
  {
    hide RefusedAt;
    CountsByStatus(EMPTY, EntityIds(docs), outcomes);
  }

  function FlatKey(d: Document): string {
    d.documentType + ":" + d.entityId
  }

  ghost predicate GrantedAt(docs: seq<Document>, outcomes: seq<Outcome>, i: int, key: string) {
    0 <= i < |docs| == |outcomes| && 200 <= outcomes[i].status < 300 && FlatKey(docs[i]) == key
  }

  ghost predicate LastGrantedAt(docs: seq<Document>, outcomes: seq<Outcome>, i: int, key: string) {
    GrantedAt(docs, outcomes, i, key) && forall j :: i < j ==> !GrantedAt(docs, outcomes, j, key)
  }

  // What a bulk request leaves: under each key the last document with a status from 200 to 299, enriched,
  // and under the keys of none what was there before.
  ghost predicate HoldsGranted(
    before: map<string, Document>, after: map<string, Document>, docs: seq<Document>, outcomes: seq<Outcome>)
  {
    && (forall i, key :: LastGrantedAt(docs, outcomes, i, key) ==> key in after && after[key] == Enriched(docs[i]))
    && (forall key :: (forall i :: !GrantedAt(docs, outcomes, i, key)) ==>
          (key in after <==> key in before) && (key in before ==> after[key] == before[key]))
  }

  lemma {:induction false} GrantedPutsHold(flat: map<string, Document>, docs: seq<Document>, outcomes: seq<Outcome>)
    requires |docs| == |outcomes|
    ensures HoldsGranted(flat, Flat(flat, GrantedPuts(docs, outcomes)), docs, outcomes)
  {
    if docs != [] {
      var last := |docs| - 1;
      GrantedPutsHold(flat, docs[..last], outcomes[..last]);
      var puts := GrantedPuts(docs[..last], outcomes[..last]);
      if outcomes[last].Granted() {
        var more := puts + [Put(docs[last])];
        assert more[..|more| - 1] == puts;
        assert GrantedPuts(docs, outcomes) == more;
      } else {
        assert GrantedPuts(docs, outcomes) == puts;
      }
      HoldsOneMore(flat, Flat(flat, puts), docs, outcomes);
    }
  }

  lemma HoldsOneMore(
    before: map<string, Document>, after: map<string, Document>, docs: seq<Document>, outcomes: seq<Outcome>)
    requires |docs| == |outcomes| > 0
    requires var last := |docs| - 1; HoldsGranted(before, after, docs[..last], outcomes[..last])
    ensures var d, o := docs[|docs| - 1], outcomes[|docs| - 1];
            var next := if 200 <= o.status < 300 then after[FlatKey(d) := Enriched(d)] else after;
            HoldsGranted(before, next, docs, outcomes)
  {
    hide Enriched, FlatKey;
    var last := |docs| - 1;
    var d, o := docs[last], outcomes[last];
    var next := if 200 <= o.status < 300 then after[FlatKey(d) := Enriched(d)] else after;
    forall i, key | i != last
      ensures GrantedAt(docs, outcomes, i, key) <==> GrantedAt(docs[..last], outcomes[..last], i, key)
    {
    }
    forall i, key | LastGrantedAt(docs, outcomes, i, key) ensures key in next && next[key] == Enriched(docs[i]) {
      if i < last {
        assert !GrantedAt(docs, outcomes, last, key);
        assert LastGrantedAt(docs[..last], outcomes[..last], i, key);
      }
    }
    forall key | forall i :: !GrantedAt(docs, outcomes, i, key)
      ensures (key in next <==> key in before) && (key in before ==> next[key] == before[key])
    {
      assert !GrantedAt(docs, outcomes, last, key);
      assert forall i :: !GrantedAt(docs[..last], outcomes[..last], i, key);
    }
  }

  class AdminIndex {
    var present: bool
    var docs: map<string, Document>

    constructor ()
      ensures !present && docs == map[]
    {
      present, docs := false, map[];
    }

    method Exists(f: Fault) returns (reply: Option<int>)
      ensures reply == Deliver((), (), if present then 200 else 404, f).1
    {
      reply := Deliver((), (), if present then 200 else 404, f).1;
    }

    method Create(f: Fault) returns (reply: Option<int>)
      modifies this`present
      ensures (present, reply) == Deliver(old(present), true, if old(present) then 400 else 200, f)
    {
      var r := Deliver(present, true, if present then 400 else 200, f);
      present, reply := r.0, r.1;
    }

    method Index(id: string, payload: string, codec: Codec<Document>, f: Fault) returns (reply: Option<int>)
      modifies this
      ensures var doc := codec.readDoc(payload);
              var after := if doc.Some? then old(docs)[id := doc.value] else old(docs);
              && (docs, reply) == Deliver(old(docs), after, if doc.Some? then 201 else 400, f)
              && present == (old(present) || (doc.Some? && CarriedOut(f)))
    {
      var doc := codec.readDoc(payload);
      var after := if doc.Some? then docs[id := doc.value] else docs;
      var r := Deliver((docs, present), (after, present || doc.Some?), if doc.Some? then 201 else 400, f);
      docs, present, reply := r.0.0, r.0.1, r.1;
    }

    method Delete(id: string, f: Fault) returns (reply: Option<int>)
      modifies this`docs
      ensures (docs, reply) == Deliver(old(docs), old(docs) - {id}, if id in old(docs) then 200 else 404, f)
    {
      var r := Deliver(docs, docs - {id}, if id in docs then 200 else 404, f);
      docs, reply := r.0, r.1;
    }

    // Writes the granted items of a body that reads back, one reply item per action.
    method Bulk(codec: Codec<Document>, body: string, verdicts: seq<Outcome>, f: Fault)
      returns (reply: Option<int>, items: seq<map<string, Outcome>>)
      modifies this
      ensures old(present) ==> present
      ensures ReadBody(codec, body).None? ==> docs == old(docs) && (reply.Some? ==> IsError(reply.value))
      ensures ReadBody(codec, body).Some? ==>
                var read := ReadBody(codec, body).value;
                var outcomes := Padded(verdicts, |read|);
                && (docs, reply) == Deliver(old(docs), WriteItems(old(docs), read, outcomes), 200, f)
                && IsReply(items, outcomes)
                && present == (old(present) || (read != [] && CarriedOut(f)))
    {
      var read := ReadBody(codec, body);
      if read.None? {
        reply, items := Deliver((), (), 400, f).1, [];
        return;
      }
      var outcomes := Padded(verdicts, |read.value|);
      var after := WriteItems(docs, read.value, outcomes);
      var r := Deliver((docs, present), (after, present || read.value != []), 200, f);
      docs, present, reply := r.0.0, r.0.1, r.1;
      items := seq(|outcomes|, i requires 0 <= i < |outcomes| => map["index" := outcomes[i]]);
    }
  }

  // The index takes the items that are addressed to it by its own name.
  function WriteItems(docs: map<string, Document>, items: seq<Item<Document>>, outcomes: seq<Outcome>)
    : map<string, Document>
    requires |items| == |outcomes|
  {
    if items == [] then docs
    else
      var last := |items| - 1;
      var before := WriteItems(docs, items[..last], outcomes[..last]);
      if outcomes[last].Granted() && items[last].index == "manyfaces-admin-v2"
      then before[items[last].id := items[last].doc]
      else before
  }

  function EnrichedAll(docs: seq<Document>): seq<Document> {
    seq(|docs|, i requires 0 <= i < |docs| => Enriched(docs[i]))
  }

  function DocIds(docs: seq<Document>): seq<string> {
    seq(|docs|, i requires 0 <= i < |docs| => DocId(docs[i].documentType, docs[i].entityId))
  }

  // Writing the framed items is writing the granted documents one by one.
  lemma {:induction false} ItemsArePuts(flat: map<string, Document>, docs: seq<Document>, outcomes: seq<Outcome>)
    requires |docs| == |outcomes|
    ensures WriteItems(flat, Items(ADMIN_INDEX, DocIds(docs), EnrichedAll(docs)), outcomes)
         == Flat(flat, GrantedPuts(docs, outcomes))
  {
    if docs != [] {
      var last := |docs| - 1;
      ItemsArePuts(flat, docs[..last], outcomes[..last]);
      var items := Items(ADMIN_INDEX, DocIds(docs), EnrichedAll(docs));
      assert items[..last] == Items(ADMIN_INDEX, DocIds(docs[..last]), EnrichedAll(docs[..last]));
      var d := docs[last];
      assert items[last] == Item(ADMIN_INDEX, DocId(d.documentType, d.entityId), Enriched(d));
      var puts := GrantedPuts(docs[..last], outcomes[..last]);
      var more := puts + [Put(docs[last])];
      assert more[..|more| - 1] == puts;
      assert Flat(flat, more) == FlatOp(Flat(flat, puts), Put(docs[last]));
      if outcomes[last].Granted() {
        assert GrantedPuts(docs, outcomes) == more;
      } else {
        assert GrantedPuts(docs, outcomes) == puts;
      }
    }
  }

  // The create request goes out when the index is missing or the check was refused.
  predicate AsksToCreate(present: bool, head: Fault) {
    head.Refused? || (head.Healthy? && !present)
  }

  // The index is found, or the create request passes; every 400 on it does.
  predicate EnsurePasses(present: bool, head: Fault, create: Fault) {
    || (head.Healthy? && present)
    || (AsksToCreate(present, head) && (create.Healthy? || create == Refused(400)))
  }

  class Store {
    const es: AdminIndex

    constructor (es: AdminIndex)
      ensures this.es == es
    {
      this.es := es;
    }

    method EnsureIndex(head: Fault, create: Fault) returns (r: Result<(), string>)
      modifies es`present
      ensures r.Success? <==> EnsurePasses(old(es.present), head, create)
      ensures es.present == (old(es.present) || (AsksToCreate(old(es.present), head) && CarriedOut(create)))
    {
      var reply := es.Exists(head);
      if reply.None? {
        return Failure("transport");
      }
      if reply.value == 200 {
        return Success(());
      }
      reply := es.Create(create);
      if reply.None? {
        return Failure("transport");
      }
      if IsError(reply.value) && reply.value != 400 {
        return Failure("create index");
      }
      return Success(());
    }

    method Upsert(doc: Document, codec: Codec<Document>, head: Fault, create: Fault, f: Fault)
      returns (r: Result<(), string>)
      requires Faithful(codec)
      modifies es
      ensures var sent := EnsurePasses(old(es.present), head, create) && codec.doc(Enriched(doc)).Some?;
              && (r.Success? <==> sent && f.Healthy?)
              && es.docs == (if sent && CarriedOut(f) then Flat(old(es.docs), [Put(doc)]) else old(es.docs))
              && (sent && CarriedOut(f) ==>
                    es.docs == old(es.docs)[doc.documentType + ":" + doc.entityId := Enriched(doc)])
      ensures old(es.present) || r.Success? ==> es.present
    {
      hide Lines, Enriched;
      assert [Put(doc)][..0] == [];
      assert Flat(es.docs, [Put(doc)]) == FlatOp(Flat(es.docs, []), Put(doc));
      var ensured := EnsureIndex(head, create);
      if ensured.Failure? {
        return Failure(ensured.error);
      }
      var body := codec.doc(Enriched(doc));
      if body.None? {
        return Failure("marshal");
      }
      var reply := es.Index(DocId(doc.documentType, doc.entityId), body.value, codec, f);
      if reply.None? {
        return Failure("transport");
      }
      if IsError(reply.value) {
        return Failure("index document");
      }
      return Success(());
    }

    method BulkUpsert(
      docs: seq<Document>, codec: Codec<Document>, head: Fault, create: Fault, f: Fault, verdicts: seq<Outcome>)
      returns (r: Result<BulkResult, string>)
      requires Faithful(codec)
      modifies es
      ensures docs == [] ==> r == Success(EMPTY) && es.docs == old(es.docs)
      ensures docs != [] ==>
        var outcomes := Padded(verdicts, |docs|);
        var sent := EnsurePasses(old(es.present), head, create) && Encodable(codec, EnrichedAll(docs));
        && (r.Success? <==> sent && f.Healthy?)
        && (r.Success? ==> r.value == CountAll(EMPTY, EntityIds(docs), outcomes) && es.present)
        && (r.Success? ==> Reports(r.value, docs, outcomes))
        && (sent && CarriedOut(f) ==> HoldsGranted(old(es.docs), es.docs, docs, outcomes))
        && es.docs == (if sent && CarriedOut(f) then Flat(old(es.docs), GrantedPuts(docs, outcomes)) else old(es.docs))
      ensures old(es.present) ==> es.present
    {
      hide Lines, Enriched, ReadBody, Reports, HoldsGranted;
      if |docs| == 0 {
        return Success(EMPTY);
      }
      var ensured := EnsureIndex(head, create);
      if ensured.Failure? {
        return Failure(ensured.error);
      }
      var body := WriteBody(codec, ADMIN_INDEX, DocIds(docs), EnrichedAll(docs));
      if body.None? {
        return Failure("marshal");
      }
      var outcomes := Padded(verdicts, |docs|);
      ItemsArePuts(es.docs, docs, outcomes);
      CountsReport(docs, outcomes);
      GrantedPutsHold(es.docs, docs, outcomes);
      var reply, items := es.Bulk(codec, body.value, verdicts, f);
      if reply.None? {
        return Failure("transport");
      }
      if IsError(reply.value) {
        return Failure("bulk index");
      }
      var out := CountReply(EMPTY, EntityIds(docs), items);
      assert IsReply(items, outcomes);
      return Success(out);
    }

    // Deleting what is not there succeeds and changes nothing.
    method Delete(documentType: string, entityId: string, f: Fault) returns (r: Result<(), string>)
      modifies es
      ensures r.Success? <==> f.Healthy?
      ensures es.docs == if CarriedOut(f) then Flat(old(es.docs), [Drop(documentType, entityId)]) else old(es.docs)
      ensures CarriedOut(f) ==> es.docs == old(es.docs) - {documentType + ":" + entityId}
      ensures es.present == old(es.present)
    {
      var op := Drop(documentType, entityId);
      assert [op][..0] == [];
      assert Flat(es.docs, [op]) == FlatOp(Flat(es.docs, []), op);
      var reply := es.Delete(DocId(documentType, entityId), f);
      if reply.None? {
        return Failure("transport");
      }
      if reply.value == 404 {
        return Success(());
      }
      if IsError(reply.value) {
        return Failure("delete document");
      }
      return Success(());
    }
  }
}
