/**
 The Elasticsearch cluster as the worker sees it: indices with their documents,
 the targets of the knowledge alias, and the effect of each request.
 A request is one atomic change; what goes wrong with it is an input.
 */
module Cluster {
  import opened Wrappers
  import opened Text
  import opened Delivery

  const KNOWLEDGE_ALIAS := "operator-ai-knowledge"
  const INDEX_PREFIX := "operator-ai-knowledge-v"
  const MAPPING_VERSION: nat := 1

  datatype KnowledgeDoc = KnowledgeDoc(
    knowledgeId: string, sourceType: string, bundleIndex: int, title: string, description: string,
    synonyms: seq<string>, sampleQuestions: seq<string>, contentText: string, vector: seq<real>,
    embedModelVersion: string, updatedAtUnixMs: int)

  // ---------- names of the versioned indices ----------

  // The first eight hexadecimal digits of the model's hash.
  type ModelTag = s: string | |s| == 8 witness "00000000"

  datatype Config = Config(embedDim: int, embedModel: string, modelTag: ModelTag, expectedDocCount: int)

  function Settings(mappingVersion: nat, embedDim: int): string {
    Itoa(mappingVersion) + "-d" + Itoa(embedDim) + "-"
  }

  function NameFor(mappingVersion: nat, embedDim: int, tag: ModelTag): string {
    INDEX_PREFIX + (Settings(mappingVersion, embedDim) + tag)
  }

  function IndexName(cfg: Config): string {
    NameFor(MAPPING_VERSION, cfg.embedDim, cfg.modelTag)
  }

  predicate IsVersioned(name: string) {
    INDEX_PREFIX <= name
  }

  lemma {:induction false} DigitsUpToDash(a: string, b: string, x: string, y: string)
    requires AllDigits(a) && AllDigits(b) && a + "-" + x == b + "-" + y
    ensures a == b && x == y
  {
    var s, t := a + "-" + x, b + "-" + y;
    assert s[|a|] == '-' && t[|b|] == '-';
    assert forall i :: 0 <= i < |a| ==> s[i] == a[i] && '0' <= s[i] <= '9';
    assert forall i :: 0 <= i < |b| ==> t[i] == b[i] && '0' <= t[i] <= '9';
    assert |a| == |b|;
    assert a == s[..|a|] && b == t[..|b|];
    assert x == s[|a| + 1..] && y == t[|b| + 1..];
  }

  lemma SplitAt(a: string, b: string, x: string, y: string)
    requires a + x == b + y && (|a| == |b| || |x| == |y|)
    ensures a == b && x == y
  {
    assert a == (a + x)[..|a|] && b == (b + y)[..|b|];
    assert x == (a + x)[|a|..] && y == (b + y)[|b|..];
  }

  // The name of an index determines the mapping version, the dimension and the tag it was made for.
  lemma NameDeterminesSettings(m1: nat, d1: int, t1: ModelTag, m2: nat, d2: int, t2: ModelTag)
    requires NameFor(m1, d1, t1) == NameFor(m2, d2, t2)
    ensures m1 == m2 && d1 == d2 && t1 == t2
  {
    SplitAt(INDEX_PREFIX, INDEX_PREFIX, Settings(m1, d1) + t1, Settings(m2, d2) + t2);
    SplitAt(Settings(m1, d1), Settings(m2, d2), t1, t2);
    SettingsAreDistinct(m1, d1, m2, d2);
  }

  lemma SettingsAreDistinct(m1: nat, d1: int, m2: nat, d2: int)
    requires Settings(m1, d1) == Settings(m2, d2)
    ensures m1 == m2 && d1 == d2
  {
    PartsAreDistinct(Itoa(m1), Itoa(d1), Itoa(m2), Itoa(d2));
    ItoaIsInjective(m1, m2);
    ItoaIsInjective(d1, d2);
  }

  lemma PartsAreDistinct(a: string, x: string, b: string, y: string)
    requires AllDigits(a) && AllDigits(b) && a + "-d" + x + "-" == b + "-d" + y + "-"
    ensures a == b && x == y
  {
    assert a + "-d" + x + "-" == a + "-" + ("d" + x + "-") && b + "-d" + y + "-" == b + "-" + ("d" + y + "-");
    DigitsUpToDash(a, b, "d" + x + "-", "d" + y + "-");
    SplitAt("d" + x, "d" + y, "-", "-");
    SplitAt("d", "d", x, y);
  }

  lemma IndexNameIsVersioned(cfg: Config)
    ensures IsVersioned(IndexName(cfg)) && IndexName(cfg) != KNOWLEDGE_ALIAS
  {
  }

  // The name in full, and what a name needs to be one of the versioned ones.
  lemma IndexNameSpelledOut(cfg: Config, n: string)
    ensures IndexName(cfg) == "operator-ai-knowledge-v1-d" + Itoa(cfg.embedDim) + "-" + cfg.modelTag
    ensures IsVersioned(n) <==> |n| >= 23 && n[..23] == "operator-ai-knowledge-v"
  {
    assert Itoa(1) == "1";
  }

  // ---------- the cluster ----------

  type Index = map<string, KnowledgeDoc>

  datatype Cluster = Cluster(indices: map<string, Index>, targets: set<string>, autoCreate: bool)

  // What an index holds; a missing one holds nothing.
  function Contents(c: Cluster, name: string): Index {
    if name in c.indices then c.indices[name] else map[]
  }

  function HeadIndex(c: Cluster, name: string, f: Fault): Option<int> {
    Deliver(c, c, if name in c.indices then 200 else 404, f).1
  }

  // Creating an index that exists is answered with 400.
  function PutIndex(c: Cluster, name: string, f: Fault): (Cluster, Option<int>) {
    if name in c.indices then Deliver(c, c, 400, f)
    else Deliver(c, c.(indices := c.indices[name := map[]]), 200, f)
  }

  // Removes the alias from every versioned index and adds it to one, in a single
  // transaction that fails as a whole when that one is missing.
  function PostAliases(c: Cluster, name: string, f: Fault): (Cluster, Option<int>) {
    if name !in c.indices then Deliver(c, c, 404, f)
    else Deliver(c, c.(targets := (set t | t in c.targets && !IsVersioned(t)) + {name}), 200, f)
  }

  // The versioned indices; 404 when there is none.
  function CatIndices(c: Cluster, f: Fault): (Option<int>, set<string>) {
    var rows := set n | n in c.indices && IsVersioned(n);
    (Deliver(c, c, if rows == {} then 404 else 200, f).1, rows)
  }

  // Deletes all of the named indices, and the alias where they carry it, or none if one is missing.
  function DeleteIndices(c: Cluster, names: set<string>, f: Fault): (Cluster, Option<int>) {
    if names <= c.indices.Keys
    then Deliver(c, c.(indices := c.indices - names, targets := c.targets - names), 200, f)
    else Deliver(c, c, 404, f)
  }

  // A delete through the alias: it needs exactly one target.
  function DeleteThroughAlias(c: Cluster, id: string, f: Fault): (Cluster, Option<int>) {
    if c.targets == {} then Deliver(c, c, 404, f)
    else if t :| t in c.targets && c.targets == {t} then
      if t in c.indices && id in c.indices[t]
      then Deliver(c, c.(indices := c.indices[t := c.indices[t] - {id}]), 200, f)
      else Deliver(c, c, 404, f)
    else Deliver(c, c, 400, f)
  }

  // ---------- bulk writes ----------

  datatype Write = Write(index: string, id: string, doc: KnowledgeDoc)

  // Missing indices are created on the fly when the cluster is set up to do so.
  function WriteOne(c: Cluster, w: Write, verdict: Outcome): (Cluster, Outcome) {
    if w.index !in c.indices && !c.autoCreate then (c, INDEX_NOT_FOUND)
    else
      var docs := Contents(c, w.index);
      (c.(indices := c.indices[w.index := if verdict.Granted() then docs[w.id := w.doc] else docs]), verdict)
  }

  // The items of a bulk request, in order, each judged on its own.
  function WriteAll(c: Cluster, writes: seq<Write>, verdicts: seq<Outcome>): (r: (Cluster, seq<Outcome>))
    ensures |r.1| == |writes|
    decreases |writes|
  {
    if writes == [] then (c, [])
    else
      var (next, outcome) := WriteOne(c, writes[0], if verdicts == [] then NO_VERDICT else verdicts[0]);
      var (last, outcomes) := WriteAll(next, writes[1..], if verdicts == [] then [] else verdicts[1..]);
      (last, [outcome] + outcomes)
  }

  function PostBulk(c: Cluster, writes: seq<Write>, verdicts: seq<Outcome>, f: Fault): (Cluster, Option<int>) {
    Deliver(c, WriteAll(c, writes, verdicts).0, 200, f)
  }

  // ---------- what can be said about a cluster ----------

  // The alias resolves to at most one index, and that index exists and is a versioned one.
  ghost predicate Tidy(c: Cluster) {
    && (forall t :: t in c.targets ==> t in c.indices && IsVersioned(t))
    && (forall t, u :: t in c.targets && u in c.targets ==> t == u)
  }
}
