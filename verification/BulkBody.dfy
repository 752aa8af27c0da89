/**
 The body of a bulk request: one action line and one document line per item,
 each ended by a newline. The JSON encoder is a parameter with an inverse; it
 emits no raw newline (section 7 of RFC 8259) and may reject a document.
 */
module BulkBody {
  import opened Wrappers

  datatype Item<D> = Item(index: string, id: string, doc: D)

  datatype Codec<!D> = Codec(
    action: (string, string) -> string, readAction: string -> Option<(string, string)>,
    doc: D -> Option<string>, readDoc: string -> Option<D>)

  ghost predicate Faithful<D(!new)>(codec: Codec<D>) {
    && (forall index, id :: '\n' !in codec.action(index, id))
    && (forall index, id :: codec.readAction(codec.action(index, id)) == Some((index, id)))
    && (forall d :: codec.doc(d).Some? ==> '\n' !in codec.doc(d).value && codec.readDoc(codec.doc(d).value) == Some(d))
  }

  // ---------- reading a body ----------

  function LineEnd(s: string): (n: nat)
    ensures n <= |s| && '\n' !in s[..n] && (n < |s| ==> s[n] == '\n')
  {
    if s == "" || s[0] == '\n' then 0
    else
      var n := LineEnd(s[1..]);
      assert s[..n + 1] == [s[0]] + s[1..][..n];
      n + 1
  }

  // The lines of a text whose last line is ended too.
  function Lines(s: string): Option<seq<string>>
    decreases |s|
  {
    if s == "" then Some([])
    else
      var n := LineEnd(s);
      if n == |s| then None
      else match Lines(s[n + 1..])
        case None => None
        case Some(rest) => Some([s[..n]] + rest)
  }

  function ReadLines<D>(codec: Codec<D>, lines: seq<string>): Option<seq<Item<D>>> {
    if lines == [] then Some([])
    else if |lines| == 1 then None
    else
      var rest := ReadLines(codec, lines[2..]);
      match (codec.readAction(lines[0]), codec.readDoc(lines[1]), rest)
      case (Some((index, id)), Some(doc), Some(items)) => Some([Item(index, id, doc)] + items)
      case _ => None
  }

  function ReadBody<D>(codec: Codec<D>, body: string): Option<seq<Item<D>>> {
    var lines := Lines(body);
    if lines.None? then None else ReadLines(codec, lines.value)
  }

  // ---------- reading undoes writing ----------

  // The first line and the rest.
  lemma LinesCons(line: string, rest: string)
    requires '\n' !in line
    ensures Lines(line + "\n" + rest)
         == if Lines(rest).Some? then Some([line] + Lines(rest).value) else None
  {
    var s := line + "\n" + rest;
    assert s[..|line|] == line && s[|line| + 1..] == rest;
    FirstNewline(s, |line|);
  }

  lemma OneLine(line: string)
    requires '\n' !in line
    ensures Lines("") == Some([]) && Lines(line + "\n") == Some([line])
  {
    LinesCons(line, "");
    assert line + "\n" + "" == line + "\n";
    assert [line] + [] == [line];
  }

  lemma FirstLine(s: string) returns (n: nat)
    requires s != "" && Lines(s).Some?
    ensures n < |s| && s == s[..n] + "\n" + s[n + 1..]
    ensures '\n' !in s[..n] && Lines(s[n + 1..]).Some?
  {
    n := LineEnd(s);
  }

  lemma {:induction false} LinesSnoc(s: string, line: string)
    requires Lines(s).Some? && '\n' !in line
    ensures Lines(s + line + "\n") == Some(Lines(s).value + [line])
    decreases |s|
  {
    hide Lines;
    OneLine(line);
    if s == "" {
      assert s + line + "\n" == line + "\n";
      assert Lines(s).value + [line] == [line];
    } else {
      var n := FirstLine(s);
      LinesSnoc(s[n + 1..], line);
      LinesAround(s[..n], s[n + 1..], line);
    }
  }

  lemma LinesAround(first: string, rest: string, line: string)
    requires '\n' !in first && Lines(rest).Some?
    requires Lines(rest + line + "\n") == Some(Lines(rest).value + [line])
    ensures var s := first + "\n" + rest;
            Lines(s).Some? && Lines(s + line + "\n") == Some(Lines(s).value + [line])
  {
    hide Lines;
    var s, more := first + "\n" + rest, rest + line + "\n";
    LinesCons(first, rest);
    LinesCons(first, more);
    assert s + line + "\n" == first + "\n" + more;
    assert [first] + (Lines(rest).value + [line]) == [first] + Lines(rest).value + [line];
  }

  lemma FirstNewline(s: string, n: nat)
    requires n < |s| && s[n] == '\n' && '\n' !in s[..n]
    ensures LineEnd(s) == n
  {
  }

  lemma {:induction false} ReadLinesSnoc<D>(codec: Codec<D>, lines: seq<string>, action: string, doc: string)
    requires ReadLines(codec, lines).Some? && codec.readAction(action).Some? && codec.readDoc(doc).Some?
    ensures var (index, id) := codec.readAction(action).value;
            ReadLines(codec, lines + [action, doc])
              == Some(ReadLines(codec, lines).value + [Item(index, id, codec.readDoc(doc).value)])
    decreases |lines|
  {
    if lines == [] {
      assert lines + [action, doc] == [action, doc] && [action, doc][2..] == [];
      assert ReadLines(codec, [action, doc][2..]) == Some([]);
      var (index, id) := codec.readAction(action).value;
      var item := Item(index, id, codec.readDoc(doc).value);
      assert [item] + [] == [] + [item];
    } else {
      assert (lines + [action, doc])[2..] == lines[2..] + [action, doc];
      ReadLinesSnoc(codec, lines[2..], action, doc);
      var all := lines + [action, doc];
      assert all[0] == lines[0] && all[1] == lines[1];
      var head, rest := ReadLines(codec, lines).value[..1], ReadLines(codec, lines[2..]).value;
      var (index, id) := codec.readAction(action).value;
      var last := [Item(index, id, codec.readDoc(doc).value)];
      assert head + (rest + last) == head + rest + last;
    }
  }

  lemma BodySnoc<D(!new)>(codec: Codec<D>, body: string, index: string, id: string, doc: D)
    requires Faithful(codec) && ReadBody(codec, body).Some? && codec.doc(doc).Some?
    ensures ReadBody(codec, body + codec.action(index, id) + "\n" + codec.doc(doc).value + "\n")
         == Some(ReadBody(codec, body).value + [Item(index, id, doc)])
  {
    var action, payload := codec.action(index, id), codec.doc(doc).value;
    var lines := Lines(body).value;
    LinesSnoc(body, action);
    LinesSnoc(body + action + "\n", payload);
    assert lines + [action] + [payload] == lines + [action, payload];
    ReadLinesSnoc(codec, lines, action, payload);
  }

  // ---------- writing a body ----------

  function Items<D>(index: string, ids: seq<string>, docs: seq<D>): seq<Item<D>>
    requires |ids| == |docs|
  {
    seq(|docs|, i requires 0 <= i < |docs| => Item(index, ids[i], docs[i]))
  }

  ghost predicate Encodable<D>(codec: Codec<D>, docs: seq<D>) {
    forall d :: d in docs ==> codec.doc(d).Some?
  }

  lemma ItemsSnoc<D>(index: string, ids: seq<string>, docs: seq<D>, i: nat)
    requires |ids| == |docs| && i < |docs|
    ensures Items(index, ids[..i + 1], docs[..i + 1])
         == Items(index, ids[..i], docs[..i]) + [Item(index, ids[i], docs[i])]
  {
  }

  lemma EmptyBody<D>(codec: Codec<D>)
    ensures ReadBody(codec, "") == Some([])
  {
  }

  // Builds the buffer document by document; reading it back gives exactly the documents,
  // in order, each under an action for its own id and the one index.
  method WriteBody<D(!new)>(codec: Codec<D>, index: string, ids: seq<string>, docs: seq<D>)
    returns (body: Option<string>)
    requires Faithful(codec) && |ids| == |docs|
    ensures body.Some? <==> Encodable(codec, docs)
    ensures body.Some? ==> ReadBody(codec, body.value) == Some(Items(index, ids, docs))
  {
    hide ReadBody;
    var buf := "";
    EmptyBody(codec);
    assert Items(index, ids[..0], docs[..0]) == [];
    for i := 0 to |docs|
      invariant Encodable(codec, docs[..i])
      invariant ReadBody(codec, buf) == Some(Items(index, ids[..i], docs[..i]))
    {
      var meta := codec.action(index, ids[i]);
      var payload := codec.doc(docs[i]);
      if payload.None? {
        assert docs[i] in docs;
        return None;
      }
      BodySnoc(codec, buf, index, ids[i], docs[i]);
      ItemsSnoc(index, ids, docs, i);
      buf := buf + meta + "\n" + payload.value + "\n";
      assert docs[..i + 1] == docs[..i] + [docs[i]];
    }
    assert docs[..|docs|] == docs && ids[..|ids|] == ids;
    return Some(buf);
  }
}
