/** The grounding-source list of `analyzeMatchDeeply`: keep the chunks that
    carry a web citation, turn them into `{title, uri}` records, and collapse
    repeated URIs through a JavaScript `Map` keyed by URI. */
module GroundingSources {
  import opened Results
  import opened Domain
  import opened Seqs

  /** The `web` part of a grounding chunk; absent fields are None. */
  datatype Web = Web(uri: Option<string>, title: Option<string>)

  datatype Chunk = Chunk(web: Option<Web>)

  /** JavaScript truthiness of an optional string: present and non-empty. */
  predicate Truthy(s: Option<string>) {
    s.Some? && s.value != ""
  }

  /** The filter `c.web && c.web.uri && c.web.title`. */
  predicate Citable(c: Chunk) {
    c.web.Some? && Truthy(c.web.value.uri) && Truthy(c.web.value.title)
  }

  function ToSource(c: Chunk): Source
    requires Citable(c)
  {
    Source(c.web.value.title.value, c.web.value.uri.value)
  }

  /** The filter-then-map over the chunks, in chunk order. */
  function Citations(chunks: seq<Chunk>): (r: seq<Source>)
    ensures |r| <= |chunks|
    ensures forall s :: s in r ==> s.uri != "" && s.title != ""
    ensures forall c :: c in chunks && Citable(c) ==> ToSource(c) in r
    ensures forall s :: s in r ==> exists c :: c in chunks && Citable(c) && ToSource(c) == s
  {
    if chunks == [] then []
    else
      var rest := Citations(chunks[1..]);
      assert forall c :: c in chunks[1..] ==> c in chunks;
      if Citable(chunks[0]) then [ToSource(chunks[0])] + rest else rest
  }

  /** `cites` is the citable chunks of `kept`, each turned into a record, in order. */
  predicate MapsOnto(cites: seq<Source>, kept: seq<Chunk>) {
    |cites| == |kept| && forall i :: 0 <= i < |cites| ==> Citable(kept[i]) && cites[i] == ToSource(kept[i])
  }

  /** The step of CitationsInOrder for a citable head chunk. */
  lemma MapsOntoCons(c: Chunk, cites: seq<Source>, kept: seq<Chunk>)
    requires Citable(c) && MapsOnto(cites, kept)
    ensures MapsOnto([ToSource(c)] + cites, [c] + kept)
  {
    var r, f := [ToSource(c)] + cites, [c] + kept;
    forall i | 0 <= i < |r| ensures Citable(f[i]) && r[i] == ToSource(f[i]) {
      if i > 0 {
        assert r[i] == cites[i - 1] && f[i] == kept[i - 1];
      }
    }
  }

  /** The i-th citation is the i-th citable chunk, so order and repeats are
      those of the chunk list. */
  lemma {:induction false} CitationsInOrder(chunks: seq<Chunk>)
    ensures MapsOnto(Citations(chunks), Filter(chunks, Citable))
    decreases |chunks|
  {
    if chunks != [] {
      CitationsInOrder(chunks[1..]);
      var c := chunks[0];
      if Citable(c) {
        assert Filter(chunks, Citable) == [c] + Filter(chunks[1..], Citable);
        assert Citations(chunks) == [ToSource(c)] + Citations(chunks[1..]);
        MapsOntoCons(c, Citations(chunks[1..]), Filter(chunks[1..], Citable));
      } else {
        assert Filter(chunks, Citable) == Filter(chunks[1..], Citable);
        assert Citations(chunks) == Citations(chunks[1..]);
      }
    }
  }

  predicate HasUri(s: seq<Source>, u: string) {
    exists i :: 0 <= i < |s| && s[i].uri == u
  }

  ghost predicate DistinctUris(s: seq<Source>) {
    forall i, j :: 0 <= i < j < |s| ==> s[i].uri != s[j].uri
  }

  /** Where u first appears in s; |s| when it does not. */
  function FirstIndexOfUri(s: seq<Source>, u: string): (r: nat)
    ensures r <= |s|
    ensures r < |s| <==> HasUri(s, u)
    ensures r < |s| ==> s[r].uri == u
    ensures forall k :: 0 <= k < r ==> s[k].uri != u
  {
    if s == [] then 0
    else if s[0].uri == u then 0
    else
      var k := FirstIndexOfUri(s[1..], u);
      assert HasUri(s[1..], u) ==> HasUri(s, u) by {
        if HasUri(s[1..], u) {
          var i :| 0 <= i < |s[1..]| && s[1..][i].uri == u;
          assert s[i + 1].uri == u;
        }
      }
      assert HasUri(s, u) ==> HasUri(s[1..], u) by {
        if HasUri(s, u) {
          var i :| 0 <= i < |s| && s[i].uri == u;
          assert s[1..][i - 1].uri == u;
        }
      }
      k + 1
  }

  /** The position of the last record with URI u. */
  function LastIndexOfUri(s: seq<Source>, u: string): (k: nat)
    requires HasUri(s, u)
    ensures k < |s| && s[k].uri == u
    ensures forall m :: k < m < |s| ==> s[m].uri != u
  {
    var n := |s| - 1;
    if s[n].uri == u then n
    else
      assert HasUri(s[..n], u) by {
        var i :| 0 <= i < |s| && s[i].uri == u;
        assert i < n && s[..n][i].uri == u;
      }
      LastIndexOfUri(s[..n], u)
  }

  /** The record the `Map` ends up holding for u: the last one with that URI. */
  function LastWithUri(s: seq<Source>, u: string): (r: Source)
    requires HasUri(s, u)
    ensures r.uri == u && r in s
    ensures exists k :: 0 <= k < |s| && s[k] == r && forall m :: k < m < |s| ==> s[m].uri != u
  {
    var k := LastIndexOfUri(s, u);
    assert forall m :: k < m < |s| ==> s[m].uri != u;
    s[k]
  }

  /** The slot of the entry keyed by u in the Map's insertion-ordered entries. */
  function IndexOfUri(entries: seq<Source>, u: string): (r: Option<nat>)
    ensures r.Some? ==> r.value < |entries| && entries[r.value].uri == u
    ensures r.None? <==> !HasUri(entries, u)
  {
    var k := FirstIndexOfUri(entries, u);
    if k < |entries| then Some(k) else None
  }

  /** `map.set(item.uri, item)`: a known key keeps its slot and takes the new
      value; a new key is appended. */
  function MapSet(entries: seq<Source>, x: Source): seq<Source> {
    match IndexOfUri(entries, x.uri)
    case Some(i) => entries[i := x]
    case None => entries + [x]
  }

  /** `Array.from(new Map(sources.map(item => [item.uri, item])).values())`.
      One record per URI; the record is the LAST one with that URI, and the
      records are in the order in which each URI FIRST appears. */
  function UniqueByUri(sources: seq<Source>): (r: seq<Source>)
    ensures DistinctUris(r)
    ensures forall u :: HasUri(r, u) <==> HasUri(sources, u)
    ensures forall i :: 0 <= i < |r| ==> HasUri(sources, r[i].uri) && r[i] == LastWithUri(sources, r[i].uri)
    ensures forall i, j :: 0 <= i < j < |r| ==> FirstIndexOfUri(sources, r[i].uri) < FirstIndexOfUri(sources, r[j].uri)
    decreases |sources|
  {
    if sources == [] then []
    else
      var n := |sources| - 1;
      var acc := UniqueByUri(sources[..n]);
      var r := MapSet(acc, sources[n]);
      UniqueStep(sources[..n], sources[n], sources, acc, r);
      r
  }

  /** The summary of the entries seen so far that `UniqueByUri` promises. */
  ghost predicate Summarises(acc: seq<Source>, s: seq<Source>) {
    && DistinctUris(acc)
    && (forall u :: HasUri(acc, u) <==> HasUri(s, u))
    && (forall i :: 0 <= i < |acc| ==> HasUri(s, acc[i].uri) && acc[i] == LastWithUri(s, acc[i].uri))
    && (forall i, j :: 0 <= i < j < |acc| ==> FirstIndexOfUri(s, acc[i].uri) < FirstIndexOfUri(s, acc[j].uri))
  }

  /** One `map.set` keeps the summary up to date. */
  lemma UniqueStep(prev: seq<Source>, x: Source, s: seq<Source>, acc: seq<Source>, r: seq<Source>)
    requires |s| > 0 && prev == s[..|s| - 1] && x == s[|s| - 1]
    requires Summarises(acc, prev) && r == MapSet(acc, x)
    ensures Summarises(r, s)
  {
    Snoc(s);
    StepKeepsDistinct(acc, x, r);
    StepKeepsUris(prev, x, s, acc, r);
    StepKeepsLast(prev, x, s, acc, r);
    StepKeepsOrder(prev, x, s, acc, r);
  }

  /** A non-empty sequence is its front with its last element appended. */
  lemma Snoc<T>(s: seq<T>)
    requires |s| > 0
    ensures s[..|s| - 1] + [s[|s| - 1]] == s
  {
  }

  lemma HasUriAppend(prev: seq<Source>, x: Source, s: seq<Source>, u: string)
    requires s == prev + [x]
    ensures HasUri(s, u) <==> HasUri(prev, u) || x.uri == u
  {
    if HasUri(prev, u) {
      var i :| 0 <= i < |prev| && prev[i].uri == u;
      assert s[i].uri == u;
    }
    if x.uri == u {
      assert s[|prev|].uri == u;
    }
    if HasUri(s, u) {
      var i :| 0 <= i < |s| && s[i].uri == u;
      if i < |prev| { assert prev[i].uri == u; }
    }
  }

  lemma StepKeepsDistinct(acc: seq<Source>, x: Source, r: seq<Source>)
    requires DistinctUris(acc) && r == MapSet(acc, x)
    ensures DistinctUris(r)
  {
  }

  lemma StepKeepsUris(prev: seq<Source>, x: Source, s: seq<Source>, acc: seq<Source>, r: seq<Source>)
    requires s == prev + [x] && r == MapSet(acc, x)
    requires forall u :: HasUri(acc, u) <==> HasUri(prev, u)
    ensures forall u :: HasUri(r, u) <==> HasUri(s, u)
  {
    forall u ensures HasUri(r, u) <==> HasUri(s, u) {
      HasUriAppend(prev, x, s, u);
      HasUriAppend(acc, x, acc + [x], u);
      if HasUri(r, u) {
        var i :| 0 <= i < |r| && r[i].uri == u;
        if i < |acc| && r[i] == acc[i] { assert HasUri(acc, u); }
      }
      if HasUri(acc, u) {
        var i :| 0 <= i < |acc| && acc[i].uri == u;
        assert r[i].uri == u;
      }
      if u == x.uri && IndexOfUri(acc, x.uri).None? {
        assert r[|acc|].uri == u;
      }
    }
  }

  /** Appending x makes x the last record for its URI and leaves the other URIs alone. */
  lemma LastAppend(prev: seq<Source>, x: Source, s: seq<Source>, u: string)
    requires s == prev + [x]
    requires u == x.uri || HasUri(prev, u)
    ensures HasUri(s, u)
    ensures LastWithUri(s, u) == if u == x.uri then x else LastWithUri(prev, u)
  {
    HasUriAppend(prev, x, s, u);
    assert s[..|s| - 1] == prev;
  }

  lemma StepKeepsLast(prev: seq<Source>, x: Source, s: seq<Source>, acc: seq<Source>, r: seq<Source>)
    requires s == prev + [x] && r == MapSet(acc, x) && DistinctUris(acc)
    requires forall i :: 0 <= i < |acc| ==> HasUri(prev, acc[i].uri) && acc[i] == LastWithUri(prev, acc[i].uri)
    ensures forall i :: 0 <= i < |r| ==> HasUri(s, r[i].uri) && r[i] == LastWithUri(s, r[i].uri)
  {
    forall i | 0 <= i < |r|
      ensures HasUri(s, r[i].uri) && r[i] == LastWithUri(s, r[i].uri)
    {
      if r[i].uri == x.uri {
        assert r[i] == x;
        LastAppend(prev, x, s, x.uri);
      } else {
        assert r[i] == acc[i];
        LastAppend(prev, x, s, r[i].uri);
      }
    }
  }

  /** Appending keeps the first position of a URI already present. */
  lemma FirstIndexKept(prev: seq<Source>, x: Source, s: seq<Source>, u: string)
    requires s == prev + [x] && HasUri(prev, u)
    ensures FirstIndexOfUri(s, u) == FirstIndexOfUri(prev, u)
  {
    HasUriAppend(prev, x, s, u);
    var k := FirstIndexOfUri(prev, u);
    assert s[k].uri == u;
  }

  /** A URI first seen in the appended record is first found there. */
  lemma FirstIndexNew(prev: seq<Source>, x: Source, s: seq<Source>)
    requires s == prev + [x] && !HasUri(prev, x.uri)
    ensures FirstIndexOfUri(s, x.uri) == |prev|
  {
    HasUriAppend(prev, x, s, x.uri);
    assert s[|prev|].uri == x.uri;
  }

  /** A new URI goes last, after every URI already summarised. */
  lemma NewUriGoesLast(prev: seq<Source>, x: Source, s: seq<Source>, acc: seq<Source>)
    requires s == prev + [x] && !HasUri(prev, x.uri)
    requires forall i :: 0 <= i < |acc| ==> HasUri(prev, acc[i].uri)
    requires forall i, j :: 0 <= i < j < |acc| ==> FirstIndexOfUri(s, acc[i].uri) < FirstIndexOfUri(s, acc[j].uri)
    requires forall i :: 0 <= i < |acc| ==> FirstIndexOfUri(s, acc[i].uri) == FirstIndexOfUri(prev, acc[i].uri)
    ensures forall i, j :: 0 <= i < j < |acc + [x]| ==> FirstIndexOfUri(s, (acc + [x])[i].uri) < FirstIndexOfUri(s, (acc + [x])[j].uri)
  {
    FirstIndexNew(prev, x, s);
    var r := acc + [x];
    forall i, j | 0 <= i < j < |r| ensures FirstIndexOfUri(s, r[i].uri) < FirstIndexOfUri(s, r[j].uri) {
      assert r[i] == acc[i];
      if j < |acc| {
        assert r[j] == acc[j];
      } else {
        assert FirstIndexOfUri(prev, acc[i].uri) < |prev|;
      }
    }
  }

  lemma StepKeepsOrder(prev: seq<Source>, x: Source, s: seq<Source>, acc: seq<Source>, r: seq<Source>)
    requires s == prev + [x] && r == MapSet(acc, x)
    requires forall u :: HasUri(acc, u) <==> HasUri(prev, u)
    requires forall i :: 0 <= i < |acc| ==> HasUri(prev, acc[i].uri)
    requires forall i, j :: 0 <= i < j < |acc| ==> FirstIndexOfUri(prev, acc[i].uri) < FirstIndexOfUri(prev, acc[j].uri)
    ensures forall i, j :: 0 <= i < j < |r| ==> FirstIndexOfUri(s, r[i].uri) < FirstIndexOfUri(s, r[j].uri)
  {
    forall i | 0 <= i < |acc| ensures FirstIndexOfUri(s, acc[i].uri) == FirstIndexOfUri(prev, acc[i].uri) {
      FirstIndexKept(prev, x, s, acc[i].uri);
    }
    match IndexOfUri(acc, x.uri)
    case Some(k) =>
      assert forall i :: 0 <= i < |r| ==> r[i].uri == acc[i].uri;
    case None =>
      NewUriGoesLast(prev, x, s, acc);
  }

  /** Two citations of one URI with different titles: the later title is kept. */
  lemma RepeatedUriKeepsLastTitle()
    ensures UniqueByUri([Source("First", "https://a"), Source("Second", "https://a")])
         == [Source("Second", "https://a")]
  {
    var s := [Source("First", "https://a"), Source("Second", "https://a")];
    assert s[..1] == [Source("First", "https://a")];
    assert [Source("First", "https://a")][..0] == [];
  }
}
