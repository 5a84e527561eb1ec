/**
 The egress filter: every text of an outgoing request is scrubbed, and the values at configured keys and
 paths are replaced by a marker. Requests are rewritten as copies; findings are counted by name.
 */
module Egress {
  import opened Options
  import opened Json
  import Decimal

  const REDACTION := "[REDACTED]"
  const MARKER := Str(REDACTION)

  /** A compiled pattern: `subn` answers the text with its matches replaced, and how many there were. */
  datatype Pattern = Pattern(name: string, subn: string -> (string, nat))
  datatype Segment = Segment(key: string, wildcard: bool)
  type Path = seq<Segment>
  datatype Mode = Off | Redact | Block

  /** The filter's rules; `fold` is `str.casefold`, and `keys` are already folded. */
  datatype Filter = Filter(patterns: seq<Pattern>, keys: set<string>, paths: seq<Path>,
                           fold: string -> string, mode: Mode)

  type Findings = multiset<string>

  function Times(name: string, count: nat): Findings {
    multiset{}[name := count]
  }

  // ------------------------------------------------------------------ texts

  function ScrubBy(patterns: seq<Pattern>, text: string): string {
    if patterns == [] then text else ScrubBy(patterns[1..], patterns[0].subn(text).0)
  }

  function ScrubFindings(patterns: seq<Pattern>, text: string): Findings {
    if patterns == [] then multiset{}
    else
      var (replaced, hits) := patterns[0].subn(text);
      Times(patterns[0].name, hits) + ScrubFindings(patterns[1..], replaced)
  }

  function Scrub(f: Filter, text: string): string {
    ScrubBy(f.patterns, text)
  }

  /** The texts a scrub goes through: each pattern rewrites what the one before it left. */
  predicate Passes(patterns: seq<Pattern>, texts: seq<string>) {
    |texts| == |patterns| + 1 && forall k :: 0 <= k < |patterns| ==> texts[k + 1] == patterns[k].subn(texts[k]).0
  }

  /** The hits of the patterns of a name, each in the text it was given. */
  function HitsOf(patterns: seq<Pattern>, texts: seq<string>, name: string): nat
    requires |texts| == |patterns| + 1
  {
    if patterns == [] then 0
    else
      var n := |patterns| - 1;
      HitsOf(patterns[..n], texts[..n + 1], name)
      + (if patterns[n].name == name then patterns[n].subn(texts[n]).1 else 0)
  }

  lemma {:induction false} HitsOfFirst(patterns: seq<Pattern>, texts: seq<string>, name: string)
    requires patterns != [] && |texts| == |patterns| + 1
    ensures HitsOf(patterns, texts, name) ==
            (if patterns[0].name == name then patterns[0].subn(texts[0]).1 else 0)
            + HitsOf(patterns[1..], texts[1..], name)
  {
    var n := |patterns| - 1;
    if n > 0 {
      HitsOfFirst(patterns[..n], texts[..n + 1], name);
      assert patterns[..n][1..] == patterns[1..][..n - 1] && texts[..n + 1][1..] == texts[1..][..n];
    }
  }

  /** A scrub is the last of the texts its patterns pass on, and it finds their hits. */
  lemma {:induction false} ScrubPasses(patterns: seq<Pattern>, text: string) returns (texts: seq<string>)
    ensures Passes(patterns, texts) && texts[0] == text && texts[|patterns|] == ScrubBy(patterns, text)
    ensures forall name :: ScrubFindings(patterns, text)[name] == HitsOf(patterns, texts, name)
  {
    if patterns == [] {
      return [text];
    }
    var (replaced, hits) := patterns[0].subn(text);
    var rest := ScrubPasses(patterns[1..], replaced);
    texts := [text] + rest;
    forall k | 0 <= k < |patterns|
      ensures texts[k + 1] == patterns[k].subn(texts[k]).0
    {
      if k > 0 {
        assert patterns[k] == patterns[1..][k - 1];
      }
    }
    forall name
      ensures ScrubFindings(patterns, text)[name] == HitsOf(patterns, texts, name)
    {
      HitsOfFirst(patterns, texts, name);
      assert texts[1..] == rest;
    }
  }

  // ------------------------------------------------------------------ paths

  function Blanks(n: nat): seq<Json> {
    seq(n, _ => MARKER)
  }

  /** A value with one path, rooted at it, redacted. */
  function Blot(v: Json, p: Path): Json
    decreases |p|, 0
  {
    if p == [] || !v.Dict? || Get(v.entries, p[0].key).None? then v
    else
      var key, target := p[0].key, Get(v.entries, p[0].key).value;
      if |p| == 1 then
        if p[0].wildcard then
          if target.List? then Dict(Put(v.entries, key, List(Blanks(|target.items|)))) else v
        else Dict(Put(v.entries, key, MARKER))
      else if p[0].wildcard then
        if target.List? then Dict(Put(v.entries, key, List(BlotEach(target.items, p[1..])))) else v
      else Dict(Put(v.entries, key, Blot(target, p[1..])))
  }

  function BlotEach(items: seq<Json>, p: Path): (r: seq<Json>)
    ensures |r| == |items|
    decreases |p|, |items|
  {
    if items == [] then [] else [Blot(items[0], p)] + BlotEach(items[1..], p)
  }

  /** How many values a path redacts; a value that already is the marker counts. */
  function PathHits(v: Json, p: Path): nat
    decreases |p|, 0
  {
    if p == [] || !v.Dict? || Get(v.entries, p[0].key).None? then 0
    else
      var target := Get(v.entries, p[0].key).value;
      if |p| == 1 then
        if p[0].wildcard then if target.List? then |target.items| else 0 else 1
      else if p[0].wildcard then if target.List? then EachHits(target.items, p[1..]) else 0
      else PathHits(target, p[1..])
  }

  function EachHits(items: seq<Json>, p: Path): nat
    decreases |p|, |items|
  {
    if items == [] then 0 else PathHits(items[0], p) + EachHits(items[1..], p)
  }

  function PathName(index: nat): string {
    "logging.redact.path[" + Decimal.Print(index) + "]"
  }

  function BlotPaths(v: Json, paths: seq<Path>): Json {
    if paths == [] then v else Blot(BlotPaths(v, paths[..|paths| - 1]), paths[|paths| - 1])
  }

  function PathFindings(v: Json, paths: seq<Path>): Findings {
    if paths == [] then multiset{}
    else
      var n := |paths| - 1;
      PathFindings(v, paths[..n]) + Times(PathName(n), PathHits(BlotPaths(v, paths[..n]), paths[n]))
  }

  // ------------------------------------------------------------------ requests

  predicate KeyRedacted(f: Filter, key: string) {
    f.fold(key) in f.keys
  }

  function Map(f: Filter, v: Json): Json
    decreases v, 1, 0
  {
    match v
    case Str(s) => Str(Scrub(f, s))
    case Dict(es) => BlotPaths(Dict(MapEntries(f, v, |es|)), f.paths)
    case List(items) => List(MapItems(f, v, |items|))
    case _ => v
  }

  /** The first `n` entries, mapped in order; keys that scrub alike share one entry, the last value winning. */
  function MapEntries(f: Filter, v: Json, n: nat): Entries
    requires v.Dict? && n <= |v.entries|
    decreases v, 0, n
  {
    if n == 0 then []
    else
      var (key, item) := v.entries[n - 1];
      Put(MapEntries(f, v, n - 1), Scrub(f, key), if KeyRedacted(f, key) then MARKER else Map(f, item))
  }

  function MapItems(f: Filter, v: Json, n: nat): (r: seq<Json>)
    requires v.List? && n <= |v.items|
    ensures |r| == n
    decreases v, 0, n
  {
    if n == 0 then [] else MapItems(f, v, n - 1) + [Map(f, v.items[n - 1])]
  }

  function Found(f: Filter, v: Json): Findings
    decreases v, 1, 0
  {
    match v
    case Str(s) => ScrubFindings(f.patterns, s)
    case Dict(es) => EntriesFound(f, v, |es|) + PathFindings(Dict(MapEntries(f, v, |es|)), f.paths)
    case List(items) => ItemsFound(f, v, |items|)
    case _ => multiset{}
  }

  function EntriesFound(f: Filter, v: Json, n: nat): Findings
    requires v.Dict? && n <= |v.entries|
    decreases v, 0, n
  {
    if n == 0 then multiset{}
    else
      var (key, item) := v.entries[n - 1];
      EntriesFound(f, v, n - 1) + ScrubFindings(f.patterns, key)
      + (if KeyRedacted(f, key) then Times("logging.redact.key:" + key, 1) else Found(f, item))
  }

  function ItemsFound(f: Filter, v: Json, n: nat): Findings
    requires v.List? && n <= |v.items|
    decreases v, 0, n
  {
    if n == 0 then multiset{} else ItemsFound(f, v, n - 1) + Found(f, v.items[n - 1])
  }

  // ------------------------------------------------------------------ blotting

  /** `w` is `v` with some of its parts replaced by the marker. */
  predicate Blotted(v: Json, w: Json) {
    || w == MARKER || w == v
    || (v.List? && w.List? && |v.items| == |w.items| &&
        forall i :: 0 <= i < |v.items| ==> Blotted(v.items[i], w.items[i]))
    || (v.Dict? && w.Dict? && |v.entries| == |w.entries| &&
        forall i :: 0 <= i < |v.entries| ==>
          v.entries[i].0 == w.entries[i].0 && Blotted(v.entries[i].1, w.entries[i].1))
  }

  lemma {:induction false} BlottedGet(v: Json, w: Json, key: string)
    requires v.Dict? && w.Dict? && Blotted(v, w)
    ensures Get(v.entries, key).Some? <==> Get(w.entries, key).Some?
    ensures Get(v.entries, key).Some? ==> Blotted(Get(v.entries, key).value, Get(w.entries, key).value)
    decreases |v.entries|
  {
    if v.entries != [] && v != w && v.entries[0].0 != key {
      BlottedGet(Dict(v.entries[1..]), Dict(w.entries[1..]), key);
    }
  }

  lemma BlottedCons(e: (string, Json), es: Entries, rs: Entries)
    requires Blotted(Dict(es), Dict(rs))
    ensures Blotted(Dict([e] + es), Dict([e] + rs))
  {
  }

  /** Putting a blotted value back under its key blots the dictionary. */
  lemma {:induction false} BlottedPut(es: Entries, key: string, w: Json)
    requires Get(es, key).Some? && Blotted(Get(es, key).value, w)
    ensures Blotted(Dict(es), Dict(Put(es, key, w)))
  {
    assert es == [es[0]] + es[1..];
    if es[0].0 != key {
      BlottedPut(es[1..], key, w);
      BlottedCons(es[0], es[1..], Put(es[1..], key, w));
    }
  }

  lemma {:induction false} BlotIsBlotted(v: Json, p: Path)
    ensures Blotted(v, Blot(v, p))
    decreases |p|
  {
    if p != [] && v.Dict? && Get(v.entries, p[0].key).Some? {
      var key, target := p[0].key, Get(v.entries, p[0].key).value;
      if |p| == 1 {
        if !p[0].wildcard {
          BlottedPut(v.entries, key, MARKER);
        } else if target.List? {
          BlottedPut(v.entries, key, List(Blanks(|target.items|)));
        }
      } else if !p[0].wildcard {
        BlotIsBlotted(target, p[1..]);
        BlottedPut(v.entries, key, Blot(target, p[1..]));
      } else if target.List? {
        BlotEachAt(target.items, p[1..]);
        forall i | 0 <= i < |target.items| {
          BlotIsBlotted(target.items[i], p[1..]);
        }
        BlottedPut(v.entries, key, List(BlotEach(target.items, p[1..])));
      }
    }
  }

  lemma {:induction false} BlotEachAt(items: seq<Json>, p: Path)
    ensures forall i :: 0 <= i < |items| ==> BlotEach(items, p)[i] == Blot(items[i], p)
  {
    if items != [] {
      BlotEachAt(items[1..], p);
    }
  }

  /** A path that finds nothing left to redact still does when more has been blotted. */
  lemma {:induction false} BlottedStaysDone(v: Json, w: Json, p: Path)
    requires Blotted(v, w) && Blot(v, p) == v
    ensures Blot(w, p) == w
    decreases |p|
  {
    if p != [] && w.Dict? && Get(w.entries, p[0].key).Some? && v != w {
      var key := p[0].key;
      BlottedGet(v, w, key);
      var target, blotted := Get(v.entries, key).value, Get(w.entries, key).value;
      if |p| == 1 {
        if !p[0].wildcard {
          GetPut(v.entries, key, MARKER, key);
          PutGet(w.entries, key);
        } else if blotted.List? && target.List? {
          GetPut(v.entries, key, List(Blanks(|target.items|)), key);
          assert blotted.items == Blanks(|blotted.items|);
          PutGet(w.entries, key);
        }
      } else if !p[0].wildcard {
        GetPut(v.entries, key, Blot(target, p[1..]), key);
        BlottedStaysDone(target, blotted, p[1..]);
        PutGet(w.entries, key);
      } else if blotted.List? && target.List? {
        GetPut(v.entries, key, List(BlotEach(target.items, p[1..])), key);
        BlotEachAt(target.items, p[1..]);
        BlotEachAt(blotted.items, p[1..]);
        forall i | 0 <= i < |blotted.items|
          ensures BlotEach(blotted.items, p[1..])[i] == blotted.items[i]
        {
          BlottedStaysDone(target.items[i], blotted.items[i], p[1..]);
        }
        assert BlotEach(blotted.items, p[1..]) == blotted.items;
        PutGet(w.entries, key);
      }
    }
  }

  lemma {:induction false} BlotTwice(v: Json, p: Path)
    ensures Blot(Blot(v, p), p) == Blot(v, p)
    decreases |p|
  {
    if p != [] && v.Dict? && Get(v.entries, p[0].key).Some? {
      var key, target := p[0].key, Get(v.entries, p[0].key).value;
      if |p| == 1 {
        GetPut(v.entries, key, MARKER, key);
        PutTwice(v.entries, key, MARKER, MARKER);
        if p[0].wildcard && target.List? {
          var blank := List(Blanks(|target.items|));
          GetPut(v.entries, key, blank, key);
          PutTwice(v.entries, key, blank, blank);
        }
      } else if !p[0].wildcard {
        BlotTwice(target, p[1..]);
        GetPut(v.entries, key, Blot(target, p[1..]), key);
        PutTwice(v.entries, key, Blot(target, p[1..]), Blot(target, p[1..]));
      } else if target.List? {
        var each := BlotEach(target.items, p[1..]);
        BlotEachAt(target.items, p[1..]);
        BlotEachAt(each, p[1..]);
        forall i | 0 <= i < |each|
          ensures BlotEach(each, p[1..])[i] == each[i]
        {
          BlotTwice(target.items[i], p[1..]);
        }
        assert BlotEach(each, p[1..]) == each;
        GetPut(v.entries, key, List(each), key);
        PutTwice(v.entries, key, List(each), List(each));
      }
    }
  }

  /** After all paths, none of them has anything left to redact, however they overlap. */
  lemma {:induction false} BlotPathsDone(v: Json, paths: seq<Path>)
    ensures Blotted(v, BlotPaths(v, paths))
    ensures forall p :: p in paths ==> Blot(BlotPaths(v, paths), p) == BlotPaths(v, paths)
  {
    if paths != [] {
      var n := |paths| - 1;
      var before := BlotPaths(v, paths[..n]);
      BlotPathsDone(v, paths[..n]);
      BlotIsBlotted(before, paths[n]);
      BlottedTransitive(v, before, Blot(before, paths[n]));
      BlotTwice(before, paths[n]);
      forall p | p in paths[..n] {
        BlottedStaysDone(before, Blot(before, paths[n]), p);
      }
      assert paths == paths[..n] + [paths[n]];
    }
  }

  lemma {:induction false} BlottedTransitive(u: Json, v: Json, w: Json)
    requires Blotted(u, v) && Blotted(v, w)
    ensures Blotted(u, w)
    decreases u
  {
    if w != MARKER && v != w && u != v {
      if u.List? {
        forall i | 0 <= i < |u.items|
          ensures Blotted(u.items[i], w.items[i])
        {
          BlottedTransitive(u.items[i], v.items[i], w.items[i]);
        }
      } else {
        forall i | 0 <= i < |u.entries|
          ensures Blotted(u.entries[i].1, w.entries[i].1)
        {
          BlottedTransitive(u.entries[i].1, v.entries[i].1, w.entries[i].1);
        }
      }
    }
  }

  // ------------------------------------------------------------------ requests that need no more redaction

  ghost predicate ScrubIsIdempotent(f: Filter) {
    forall text :: Scrub(f, Scrub(f, text)) == Scrub(f, text)
  }

  /** No scrubbed key is one to redact unless the key was before, or a path redacts it under every dictionary. */
  ghost predicate KeysAreStable(f: Filter) {
    forall key :: KeyRedacted(f, Scrub(f, key)) ==> KeyRedacted(f, key) || [Segment(Scrub(f, key), false)] in f.paths
  }

  ghost predicate Clean(f: Filter, v: Json) {
    match v
    case Str(s) => Scrub(f, s) == s
    case List(items) => forall i :: 0 <= i < |items| ==> Clean(f, items[i])
    case Dict(es) =>
      && UniqueKeys(es)
      && (forall i :: 0 <= i < |es| ==>
            Scrub(f, es[i].0) == es[i].0 && (KeyRedacted(f, es[i].0) ==> es[i].1 == MARKER) && Clean(f, es[i].1))
      && (forall p :: p in f.paths ==> Blot(v, p) == v)
    case _ => true
  }

  /** A clean request is what the filter makes of it. */
  lemma {:induction false} CleanIsFixed(f: Filter, v: Json)
    requires Clean(f, v)
    ensures Map(f, v) == v
    decreases v, 1, 0
  {
    if v.Dict? {
      CleanEntries(f, v, |v.entries|);
      assert v.entries[..|v.entries|] == v.entries;
      NothingToBlot(v, f.paths);
    } else if v.List? {
      CleanItems(f, v, |v.items|);
    }
  }

  lemma {:induction false} CleanEntries(f: Filter, v: Json, n: nat)
    requires v.Dict? && Clean(f, v) && n <= |v.entries|
    ensures MapEntries(f, v, n) == v.entries[..n]
    decreases v, 0, n
  {
    if n > 0 {
      CleanEntries(f, v, n - 1);
      var (key, item) := v.entries[n - 1];
      if !KeyRedacted(f, key) {
        CleanIsFixed(f, item);
      }
      PutShape(v.entries[..n - 1], key, item);
    }
  }

  lemma {:induction false} CleanItems(f: Filter, v: Json, n: nat)
    requires v.List? && Clean(f, v) && n <= |v.items|
    ensures MapItems(f, v, n) == v.items[..n]
    decreases v, 0, n
  {
    if n > 0 {
      CleanItems(f, v, n - 1);
      CleanIsFixed(f, v.items[n - 1]);
    }
  }

  lemma {:induction false} NothingToBlot(v: Json, paths: seq<Path>)
    requires forall p :: p in paths ==> Blot(v, p) == v
    ensures BlotPaths(v, paths) == v
  {
    if paths != [] {
      NothingToBlot(v, paths[..|paths| - 1]);
    }
  }

  lemma {:induction false} BlottedIsClean(f: Filter, v: Json, w: Json)
    requires Scrub(f, REDACTION) == REDACTION && Clean(f, v) && Blotted(v, w)
    ensures Clean(f, w)
    decreases v
  {
    if w != v && w != MARKER {
      if v.List? {
        forall i | 0 <= i < |w.items| {
          BlottedIsClean(f, v.items[i], w.items[i]);
        }
      } else {
        forall i | 0 <= i < |w.entries| {
          BlottedIsClean(f, v.entries[i].1, w.entries[i].1);
        }
        forall p | p in f.paths {
          BlottedStaysDone(v, w, p);
        }
      }
    }
  }

  /** Each mapped entry comes from an entry of the request, under its scrubbed key. */
  lemma {:induction false} MappedEntries(f: Filter, v: Json, n: nat)
    requires v.Dict? && n <= |v.entries|
    ensures UniqueKeys(MapEntries(f, v, n))
    ensures forall i :: 0 <= i < |MapEntries(f, v, n)| ==>
              exists j :: 0 <= j < n && MapEntries(f, v, n)[i] ==
                (Scrub(f, v.entries[j].0),
                 if KeyRedacted(f, v.entries[j].0) then MARKER else Map(f, v.entries[j].1))
  {
    if n > 0 {
      MappedEntries(f, v, n - 1);
      var (key, item) := v.entries[n - 1];
      PutShape(MapEntries(f, v, n - 1), Scrub(f, key), if KeyRedacted(f, key) then MARKER else Map(f, item));
    }
  }

  lemma {:induction false} BlotPathsDict(v: Json, paths: seq<Path>)
    requires v.Dict?
    ensures BlotPaths(v, paths).Dict?
  {
    if paths != [] {
      BlotPathsDict(v, paths[..|paths| - 1]);
    }
  }

  /** A path of one plain segment leaves the marker at its key. */
  lemma {:induction false} KeyPathDone(v: Json, i: nat, key: string)
    requires v.Dict? && UniqueKeys(v.entries) && i < |v.entries| && v.entries[i].0 == key
    requires Blot(v, [Segment(key, false)]) == v
    ensures v.entries[i].1 == MARKER
  {
    GetPut(v.entries, key, MARKER, key);
  }

  lemma {:induction false} MapIsClean(f: Filter, v: Json)
    requires ScrubIsIdempotent(f) && Scrub(f, REDACTION) == REDACTION && KeysAreStable(f)
    ensures Clean(f, Map(f, v))
    decreases v
  {
    match v
    case Dict(es) =>
      var mapped := Dict(MapEntries(f, v, |es|));
      var r := Map(f, v);
      MappedEntries(f, v, |es|);
      BlotPathsDone(mapped, f.paths);
      BlotPathsDict(mapped, f.paths);
      forall i | 0 <= i < |r.entries|
        ensures Scrub(f, r.entries[i].0) == r.entries[i].0
        ensures KeyRedacted(f, r.entries[i].0) ==> r.entries[i].1 == MARKER
        ensures Clean(f, r.entries[i].1)
      {
        var j :| 0 <= j < |es| && mapped.entries[i] ==
          (Scrub(f, es[j].0), if KeyRedacted(f, es[j].0) then MARKER else Map(f, es[j].1));
        MapIsClean(f, es[j].1);
        BlottedIsClean(f, mapped.entries[i].1, r.entries[i].1);
        if KeyRedacted(f, r.entries[i].0) && !KeyRedacted(f, es[j].0) {
          KeyPathDone(r, i, r.entries[i].0);
        }
      }
    case List(items) =>
      MappedItems(f, v, |items|);
      forall i | 0 <= i < |items| {
        MapIsClean(f, items[i]);
      }
    case _ =>
  }

  lemma {:induction false} MappedItems(f: Filter, v: Json, n: nat)
    requires v.List? && n <= |v.items|
    ensures forall i :: 0 <= i < n ==> MapItems(f, v, n)[i] == Map(f, v.items[i])
  {
    if n > 0 {
      MappedItems(f, v, n - 1);
    }
  }

  /** Mapping a mapped request changes nothing, whatever paths overlap in it. */
  lemma {:induction false} MapIsIdempotent(f: Filter, v: Json)
    requires ScrubIsIdempotent(f) && Scrub(f, REDACTION) == REDACTION && KeysAreStable(f)
    ensures Map(f, Map(f, v)) == Map(f, v)
  {
    MapIsClean(f, v);
    CleanIsFixed(f, Map(f, v));
  }

  /** A key that only its scrubbed form makes one to redact: its value survives the first pass, not the second. */
  lemma {:induction false} UnstableKeyIsNotIdempotent(f: Filter, key: string)
    requires KeyRedacted(f, Scrub(f, key)) && !KeyRedacted(f, key) && [Segment(Scrub(f, key), false)] !in f.paths
    requires Scrub(f, Scrub(f, key)) == Scrub(f, key)
    ensures Map(f, Map(f, Dict([(key, Null)]))) != Map(f, Dict([(key, Null)]))
  {
    var v, k := Dict([(key, Null)]), Scrub(f, key);
    assert MapEntries(f, v, 1) == Put(MapEntries(f, v, 0), k, Null);
    OnlyScalar(k, Null, f.paths);
    var w := Dict([(k, Null)]);
    assert Map(f, v) == w;
    assert MapEntries(f, w, 1) == Put(MapEntries(f, w, 0), k, MARKER);
    BlotPathsDone(Dict([(k, MARKER)]), f.paths);
    BlotPathsDict(Dict([(k, MARKER)]), f.paths);
    assert Map(f, w).entries[0].1 == MARKER;
  }

  lemma {:induction false} OnlyScalar(key: string, v: Json, paths: seq<Path>)
    requires [Segment(key, false)] !in paths && !v.Dict? && !v.List?
    ensures BlotPaths(Dict([(key, v)]), paths) == Dict([(key, v)])
  {
    if paths != [] {
      var n := |paths| - 1;
      assert paths == paths[..n] + [paths[n]];
      OnlyScalar(key, v, paths[..n]);
      var p := paths[n];
      if p != [] && p[0].key == key {
        assert |p| == 1 && !p[0].wildcard ==> p == [Segment(key, false)];
        assert p == [p[0]] + p[1..];
        assert Blot(v, p[1..]) == v;
      }
    }
  }

  // ------------------------------------------------------------------ nothing found

  /** `re.subn`: a pattern that matches nowhere leaves the text alone. */
  ghost predicate HonestPatterns(patterns: seq<Pattern>) {
    forall p, text :: p in patterns && p.subn(text).1 == 0 ==> p.subn(text).0 == text
  }

  /** Every dictionary of the request has each key once, as Python's do. */
  predicate PlainData(v: Json) {
    match v
    case Dict(es) => UniqueKeys(es) && forall i :: 0 <= i < |es| ==> PlainData(es[i].1)
    case List(items) => forall i :: 0 <= i < |items| ==> PlainData(items[i])
    case _ => true
  }

  lemma NothingInSum(a: Findings, b: Findings)
    requires a + b == multiset{}
    ensures a == multiset{} && b == multiset{}
  {
    assert |a + b| == |a| + |b|;
  }

  lemma OnceIsSomething(name: string)
    ensures Times(name, 1) != multiset{}
  {
    assert Times(name, 1)[name] == 1;
  }

  lemma TimesNothing(name: string, count: nat)
    requires Times(name, count) == multiset{}
    ensures count == 0
  {
    assert Times(name, count)[name] == count;
  }

  lemma {:induction false} NothingScrubbed(patterns: seq<Pattern>, text: string)
    requires HonestPatterns(patterns)
    requires ScrubFindings(patterns, text) == multiset{}
    ensures ScrubBy(patterns, text) == text
  {
    if patterns != [] {
      var (replaced, hits) := patterns[0].subn(text);
      NothingInSum(Times(patterns[0].name, hits), ScrubFindings(patterns[1..], replaced));
      TimesNothing(patterns[0].name, hits);
      NothingScrubbed(patterns[1..], text);
    }
  }

  lemma {:induction false} NoHitsNoBlot(v: Json, p: Path)
    requires PathHits(v, p) == 0
    ensures Blot(v, p) == v
    decreases |p|, 0
  {
    if p != [] && v.Dict? && Get(v.entries, p[0].key).Some? {
      var target := Get(v.entries, p[0].key).value;
      PutGet(v.entries, p[0].key);
      if |p| > 1 {
        if !p[0].wildcard {
          NoHitsNoBlot(target, p[1..]);
        } else if target.List? {
          NoHitsNoBlots(target.items, p[1..]);
        }
      } else if p[0].wildcard && target.List? {
        assert Blanks(0) == target.items;
      }
    }
  }

  lemma {:induction false} NoHitsNoBlots(items: seq<Json>, p: Path)
    requires EachHits(items, p) == 0
    ensures BlotEach(items, p) == items
    decreases |p|, |items|
  {
    if items != [] {
      NoHitsNoBlot(items[0], p);
      NoHitsNoBlots(items[1..], p);
    }
  }

  lemma {:induction false} NothingBlotted(v: Json, paths: seq<Path>)
    requires PathFindings(v, paths) == multiset{}
    ensures BlotPaths(v, paths) == v
  {
    if paths != [] {
      var n := |paths| - 1;
      var hits := PathHits(BlotPaths(v, paths[..n]), paths[n]);
      NothingInSum(PathFindings(v, paths[..n]), Times(PathName(n), hits));
      TimesNothing(PathName(n), hits);
      NothingBlotted(v, paths[..n]);
      NoHitsNoBlot(v, paths[n]);
    }
  }

  /** If no finding is counted, the mapped request is the request. */
  lemma {:induction false} NoFindingNoChange(f: Filter, v: Json)
    requires HonestPatterns(f.patterns) && PlainData(v) && Found(f, v) == multiset{}
    ensures Map(f, v) == v
    decreases v, 1, 0
  {
    match v
    case Str(s) => NothingScrubbed(f.patterns, s);
    case Dict(es) =>
      NothingInSum(EntriesFound(f, v, |es|), PathFindings(Dict(MapEntries(f, v, |es|)), f.paths));
      NoFindingInEntries(f, v, |es|);
      assert es[..|es|] == es;
      NothingBlotted(v, f.paths);
    case List(items) =>
      NoFindingInItems(f, v, |items|);
    case _ =>
  }

  lemma {:induction false} NoFindingInEntries(f: Filter, v: Json, n: nat)
    requires HonestPatterns(f.patterns) && v.Dict? && PlainData(v)
    requires n <= |v.entries| && EntriesFound(f, v, n) == multiset{}
    ensures MapEntries(f, v, n) == v.entries[..n]
    decreases v, 0, n
  {
    if n > 0 {
      var (key, item) := v.entries[n - 1];
      NoFindingAtEntry(f, v, n);
      NoFindingInEntries(f, v, n - 1);
      NothingScrubbed(f.patterns, key);
      NoFindingNoChange(f, item);
      NewKeyGoesLast(v.entries, n);
    }
  }

  lemma NewKeyGoesLast(es: Entries, n: nat)
    requires UniqueKeys(es) && 0 < n <= |es|
    ensures Put(es[..n - 1], es[n - 1].0, es[n - 1].1) == es[..n]
  {
    PutShape(es[..n - 1], es[n - 1].0, es[n - 1].1);
    assert es[n - 1] == (es[n - 1].0, es[n - 1].1);
  }

  lemma NoFindingAtEntry(f: Filter, v: Json, n: nat)
    requires v.Dict? && 0 < n <= |v.entries| && EntriesFound(f, v, n) == multiset{}
    ensures var (key, item) := v.entries[n - 1];
            && EntriesFound(f, v, n - 1) == multiset{} && ScrubFindings(f.patterns, key) == multiset{}
            && !KeyRedacted(f, key) && Found(f, item) == multiset{}
  {
    var (key, item) := v.entries[n - 1];
    var name := "logging.redact.key:" + key;
    var here := if KeyRedacted(f, key) then Times(name, 1) else Found(f, item);
    NothingInSum(EntriesFound(f, v, n - 1) + ScrubFindings(f.patterns, key), here);
    NothingInSum(EntriesFound(f, v, n - 1), ScrubFindings(f.patterns, key));
    OnceIsSomething(name);
  }

  lemma {:induction false} NoFindingInItems(f: Filter, v: Json, n: nat)
    requires HonestPatterns(f.patterns) && v.List? && PlainData(v)
    requires n <= |v.items| && ItemsFound(f, v, n) == multiset{}
    ensures MapItems(f, v, n) == v.items[..n]
    decreases v, 0, n
  {
    if n > 0 {
      NothingInSum(ItemsFound(f, v, n - 1), Found(f, v.items[n - 1]));
      NoFindingInItems(f, v, n - 1);
      NoFindingNoChange(f, v.items[n - 1]);
    }
  }

  // ------------------------------------------------------------------ the filter at work

  /** The running counts, one entry of the multiset per finding. */
  class Counts {
    var found: Findings

    constructor ()
      ensures found == multiset{}
    {
      found := multiset{};
    }

    method Add(name: string, hits: nat)
      modifies this
      ensures found == old(found) + Times(name, hits)
    {
      found := found + Times(name, hits);
    }
  }

  method ScrubText(f: Filter, text: string, counts: Counts) returns (r: string)
    modifies counts
    ensures r == Scrub(f, text)
    ensures counts.found == old(counts.found) + ScrubFindings(f.patterns, text)
    ensures exists texts :: Passes(f.patterns, texts) && texts[0] == text && texts[|f.patterns|] == r
  {
    ghost var texts := ScrubPasses(f.patterns, text);
    r := text;
    var k := 0;
    while k < |f.patterns|
      invariant k <= |f.patterns|
      invariant ScrubBy(f.patterns[k..], r) == Scrub(f, text)
      invariant counts.found + ScrubFindings(f.patterns[k..], r) == old(counts.found) + ScrubFindings(f.patterns, text)
    {
      assert f.patterns[k..][1..] == f.patterns[k + 1..];
      var (replaced, hits) := f.patterns[k].subn(r);
      counts.Add(f.patterns[k].name, hits);
      r := replaced;
      k := k + 1;
    }
  }

  method RedactPaths(f: Filter, mapped: Json, counts: Counts) returns (r: Json)
    modifies counts
    ensures r == BlotPaths(mapped, f.paths)
    ensures counts.found == old(counts.found) + PathFindings(mapped, f.paths)
  {
    r := mapped;
    var k := 0;
    while k < |f.paths|
      invariant k <= |f.paths|
      invariant r == BlotPaths(mapped, f.paths[..k])
      invariant counts.found == old(counts.found) + PathFindings(mapped, f.paths[..k])
    {
      assert f.paths[..k + 1][..k] == f.paths[..k];
      counts.Add(PathName(k), PathHits(r, f.paths[k]));
      r := Blot(r, f.paths[k]);
      k := k + 1;
    }
    assert f.paths[..k] == f.paths;
  }

  lemma CountedInTurn(before: Findings, first: Findings, second: Findings)
    ensures before + first + second == before + (first + second)
  {
  }

  method MapRequest(f: Filter, v: Json, counts: Counts) returns (r: Json)
    modifies counts
    ensures r == Map(f, v)
    ensures counts.found == old(counts.found) + Found(f, v)
    decreases v, 1
  {
    match v
    case Str(s) =>
      var text := ScrubText(f, s, counts);
      r := Str(text);
    case Dict(es) =>
      var mapped := MapDict(f, v, counts);
      r := RedactPaths(f, Dict(mapped), counts);
      CountedInTurn(old(counts.found), EntriesFound(f, v, |es|), PathFindings(Dict(mapped), f.paths));
    case List(items) =>
      var mapped := MapList(f, v, counts);
      r := List(mapped);
    case _ =>
      r := v;
  }

  method MapDict(f: Filter, v: Json, counts: Counts) returns (mapped: Entries)
    requires v.Dict?
    modifies counts
    ensures mapped == MapEntries(f, v, |v.entries|)
    ensures counts.found == old(counts.found) + EntriesFound(f, v, |v.entries|)
    decreases v, 0, 1
  {
    mapped := [];
    var k := 0;
    while k < |v.entries|
      invariant k <= |v.entries|
      invariant mapped == MapEntries(f, v, k)
      invariant counts.found == old(counts.found) + EntriesFound(f, v, k)
    {
      mapped := MapEntry(f, v, k, mapped, counts);
      CountEntry(f, v, k, old(counts.found));
      k := k + 1;
    }
  }

  lemma CountEntry(f: Filter, v: Json, k: nat, before: Findings)
    requires v.Dict? && k < |v.entries|
    ensures var (key, item) := v.entries[k];
            before + EntriesFound(f, v, k + 1)
            == before + EntriesFound(f, v, k) + ScrubFindings(f.patterns, key)
               + (if KeyRedacted(f, key) then Times("logging.redact.key:" + key, 1) else Found(f, item))
  {
  }

  method MapEntry(f: Filter, v: Json, k: nat, mapped: Entries, counts: Counts) returns (r: Entries)
    requires v.Dict? && k < |v.entries|
    modifies counts
    ensures var (key, item) := v.entries[k];
            && r == Put(mapped, Scrub(f, key), if KeyRedacted(f, key) then MARKER else Map(f, item))
            && counts.found == old(counts.found) + ScrubFindings(f.patterns, key)
                               + (if KeyRedacted(f, key) then Times("logging.redact.key:" + key, 1) else Found(f, item))
    decreases v, 0, 0
  {
    var (key, item) := v.entries[k];
    var outgoing := ScrubText(f, key, counts);
    var value := MapUnderKey(f, key, item, counts);
    r := Put(mapped, outgoing, value);
  }

  method MapUnderKey(f: Filter, key: string, item: Json, counts: Counts) returns (r: Json)
    modifies counts
    ensures r == if KeyRedacted(f, key) then MARKER else Map(f, item)
    ensures counts.found == old(counts.found) +
            (if KeyRedacted(f, key) then Times("logging.redact.key:" + key, 1) else Found(f, item))
    decreases item, 2
  {
    if KeyRedacted(f, key) {
      counts.Add("logging.redact.key:" + key, 1);
      r := MARKER;
    } else {
      r := MapRequest(f, item, counts);
    }
  }

  method MapList(f: Filter, v: Json, counts: Counts) returns (mapped: seq<Json>)
    requires v.List?
    modifies counts
    ensures mapped == MapItems(f, v, |v.items|)
    ensures counts.found == old(counts.found) + ItemsFound(f, v, |v.items|)
    decreases v, 0
  {
    mapped := [];
    var k := 0;
    while k < |v.items|
      invariant k <= |v.items|
      invariant mapped == MapItems(f, v, k)
      invariant counts.found == old(counts.found) + ItemsFound(f, v, k)
    {
      var item := MapRequest(f, v.items[k], counts);
      mapped := mapped + [item];
      k := k + 1;
    }
  }
}
