/**
 When redaction is idempotent: the exact condition, for filters whose patterns may even rewrite the marker. A marker
 that a path left is scrubbed on the second pass and then left again by the same path, so only a marker that nothing
 restores counts.
 */
module EgressExact {
  import opened Options
  import opened Json
  import opened Egress

  /** A redacted key stays one to redact once scrubbed, or a path redacts it, or the scrub leaves the marker alone. */
  ghost predicate MarkersStay(f: Filter) {
    || Scrub(f, REDACTION) == REDACTION
    || (forall key :: KeyRedacted(f, key) ==>
          KeyRedacted(f, Scrub(f, key)) || [Segment(Scrub(f, key), false)] in f.paths)
  }

  ghost predicate Stable(f: Filter) {
    ScrubIsIdempotent(f) && KeysAreStable(f) && MarkersStay(f)
  }

  /** Mapping the request a second time changes nothing. */
  ghost predicate OnceIsEnough(f: Filter, v: Json) {
    Map(f, Map(f, v)) == Map(f, v)
  }

  // ------------------------------------------------------------------ the condition is necessary

  /** A marker that patterns rewrite, under a key that scrubbing takes out of redaction. */
  lemma RewrittenMarkerIsNotIdempotent(f: Filter, key: string)
    requires KeyRedacted(f, key) && !KeyRedacted(f, Scrub(f, key)) && [Segment(Scrub(f, key), false)] !in f.paths
    requires Scrub(f, Scrub(f, key)) == Scrub(f, key) && Scrub(f, REDACTION) != REDACTION
    ensures !OnceIsEnough(f, Dict([(key, Null)]))
  {
    var v, k, scrubbed := Dict([(key, Null)]), Scrub(f, key), Str(Scrub(f, REDACTION));
    assert MapEntries(f, v, 1) == Put(MapEntries(f, v, 0), k, MARKER);
    OnlyScalar(k, MARKER, f.paths);
    var w := Dict([(k, MARKER)]);
    assert Map(f, v) == w;
    assert MapEntries(f, w, 1) == Put(MapEntries(f, w, 0), k, scrubbed);
    OnlyScalar(k, scrubbed, f.paths);
    assert Map(f, w) == Dict([(k, scrubbed)]);
  }

  lemma UnstableFilterFails(f: Filter) returns (v: Json)
    requires !Stable(f)
    ensures !OnceIsEnough(f, v)
  {
    if !ScrubIsIdempotent(f) {
      var text :| Scrub(f, Scrub(f, text)) != Scrub(f, text);
      assert Map(f, Str(text)) == Str(Scrub(f, text));
      return Str(text);
    }
    if !KeysAreStable(f) {
      var key :| KeyRedacted(f, Scrub(f, key)) && !KeyRedacted(f, key) && [Segment(Scrub(f, key), false)] !in f.paths;
      UnstableKeyIsNotIdempotent(f, key);
      return Dict([(key, Null)]);
    }
    var key :| KeyRedacted(f, key) && !KeyRedacted(f, Scrub(f, key)) && [Segment(Scrub(f, key), false)] !in f.paths;
    RewrittenMarkerIsNotIdempotent(f, key);
    v := Dict([(key, Null)]);
  }

  // ------------------------------------------------------------------ markers that come back

  /** `m` is `y` but for texts where `y` has a marker that `x` has not. */
  predicate Remarks(x: Json, y: Json, m: Json)
    decreases y
  {
    || m == y
    || (y == MARKER && x != MARKER && m.Str?)
    || (x.List? && y.List? && m.List? && |x.items| == |y.items| == |m.items| &&
        forall i :: 0 <= i < |y.items| ==> Remarks(x.items[i], y.items[i], m.items[i]))
    || (x.Dict? && y.Dict? && m.Dict? && |x.entries| == |y.entries| == |m.entries| &&
        forall i :: 0 <= i < |y.entries| ==>
          && x.entries[i].0 == y.entries[i].0 == m.entries[i].0
          && Remarks(x.entries[i].1, y.entries[i].1, m.entries[i].1))
  }

  predicate RemarksEntries(xs: Entries, ys: Entries, ms: Entries) {
    && |xs| == |ys| == |ms|
    && forall i :: 0 <= i < |ys| ==> xs[i].0 == ys[i].0 == ms[i].0 && Remarks(xs[i].1, ys[i].1, ms[i].1)
  }

  /** Where nothing is marked but what was, nothing differs. */
  lemma {:induction false} RemarksNothing(y: Json, m: Json)
    requires Remarks(y, y, m)
    ensures m == y
    decreases y
  {
    if m != y {
      if y.List? {
        forall i | 0 <= i < |y.items|
          ensures m.items[i] == y.items[i]
        {
          RemarksNothing(y.items[i], m.items[i]);
        }
      } else {
        forall i | 0 <= i < |y.entries|
          ensures m.entries[i] == y.entries[i]
        {
          RemarksNothing(y.entries[i].1, m.entries[i].1);
        }
      }
    }
  }

  lemma {:induction false} RemarksGet(xs: Entries, ys: Entries, ms: Entries, key: string)
    requires RemarksEntries(xs, ys, ms)
    ensures Get(xs, key).Some? <==> Get(ys, key).Some?
    ensures Get(ms, key).Some? <==> Get(ys, key).Some?
    ensures Get(ys, key).Some? ==> Remarks(Get(xs, key).value, Get(ys, key).value, Get(ms, key).value)
    decreases |ys|
  {
    if ys != [] && ys[0].0 != key {
      RemarksGet(xs[1..], ys[1..], ms[1..], key);
    }
  }

  lemma {:induction false} RemarksPut(xs: Entries, ys: Entries, ms: Entries, key: string, a: Json, c: Json)
    requires RemarksEntries(xs, ys, ms) && Get(ys, key).Some? && Remarks(a, Get(ys, key).value, c)
    ensures RemarksEntries(Put(xs, key, a), ys, Put(ms, key, c))
    decreases |ys|
  {
    if ys[0].0 != key {
      RemarksPut(xs[1..], ys[1..], ms[1..], key, a, c);
      var px, pm := Put(xs, key, a), Put(ms, key, c);
      assert px[1..] == Put(xs[1..], key, a) && pm[1..] == Put(ms[1..], key, c);
      forall i | 0 < i < |ys|
        ensures px[i].0 == ys[i].0 == pm[i].0 && Remarks(px[i].1, ys[i].1, pm[i].1)
      {
        assert px[i] == px[1..][i - 1] && pm[i] == pm[1..][i - 1] && ys[i] == ys[1..][i - 1];
      }
    }
  }

  /** A path that has nothing left to do on `y` restores its markers in `m`, as it set them in `x`. */
  lemma {:induction false} RemarksBlot(x: Json, y: Json, m: Json, p: Path)
    requires Remarks(x, y, m) && Blot(y, p) == y
    ensures Remarks(Blot(x, p), y, Blot(m, p))
    decreases |p|, 1
  {
    if p != [] && m != y && y.Dict? && Get(y.entries, p[0].key).Some? {
      RemarksTarget(x, y, m, p);
    } else if p != [] && m != y && y.Dict? {
      RemarksGet(x.entries, y.entries, m.entries, p[0].key);
    }
  }

  /** The same, where all three are dictionaries with the path's first key. */
  lemma {:induction false} RemarksTarget(x: Json, y: Json, m: Json, p: Path)
    requires p != [] && x.Dict? && y.Dict? && m.Dict? && RemarksEntries(x.entries, y.entries, m.entries)
    requires Blot(y, p) == y && Get(y.entries, p[0].key).Some?
    ensures Remarks(Blot(x, p), y, Blot(m, p))
    decreases |p|, 0, 1
  {
    var key := p[0].key;
    RemarksGet(x.entries, y.entries, m.entries, key);
    var tx, ty, tm := Get(x.entries, key).value, Get(y.entries, key).value, Get(m.entries, key).value;
    DoneTarget(y.entries, p);
    RemarksValue(tx, ty, tm, p);
    RemarksPut(x.entries, y.entries, m.entries, key, TargetOf(tx, p), TargetOf(tm, p));
    BlotByTarget(x.entries, p);
    BlotByTarget(m.entries, p);
    assert Blot(x, p) == Dict(Put(x.entries, key, TargetOf(tx, p)));
    assert Blot(m, p) == Dict(Put(m.entries, key, TargetOf(tm, p)));
  }

  lemma {:induction false} RemarksValue(tx: Json, ty: Json, tm: Json, p: Path)
    requires p != [] && Remarks(tx, ty, tm) && TargetOf(ty, p) == ty
    ensures Remarks(TargetOf(tx, p), ty, TargetOf(tm, p))
    decreases |p|, 0, 0, 1
  {
    if p[0].wildcard {
      RemarksItems(tx, ty, tm, p);
    } else if |p| > 1 {
      RemarksBlot(tx, ty, tm, p[1..]);
    }
  }

  lemma {:induction false} DoneTarget(es: Entries, p: Path)
    requires p != [] && Get(es, p[0].key).Some? && Blot(Dict(es), p) == Dict(es)
    ensures TargetOf(Get(es, p[0].key).value, p) == Get(es, p[0].key).value
  {
    BlotByTarget(es, p);
    GetPut(es, p[0].key, TargetOf(Get(es, p[0].key).value, p), p[0].key);
  }

  /** What a path makes of the value under its first key. */
  function TargetOf(v: Json, p: Path): Json
    requires p != []
  {
    if p[0].wildcard then BlotItems(v, p) else if |p| == 1 then MARKER else Blot(v, p[1..])
  }

  lemma {:induction false} BlotByTarget(es: Entries, p: Path)
    requires p != [] && Get(es, p[0].key).Some?
    ensures Blot(Dict(es), p) == Dict(Put(es, p[0].key, TargetOf(Get(es, p[0].key).value, p)))
  {
    PutGet(es, p[0].key);
  }

  /** What a wildcard segment makes of the value under its key. */
  function BlotItems(v: Json, p: Path): Json
    requires p != []
  {
    if !v.List? then v else if |p| == 1 then List(Blanks(|v.items|)) else List(BlotEach(v.items, p[1..]))
  }

  lemma {:induction false} RemarksItems(tx: Json, ty: Json, tm: Json, p: Path)
    requires p != [] && p[0].wildcard && Remarks(tx, ty, tm) && BlotItems(ty, p) == ty
    ensures Remarks(BlotItems(tx, p), ty, BlotItems(tm, p))
    decreases |p|, 0, 0, 0
  {
    if ty.List? && tm != ty && |p| > 1 {
      BlotEachAt(tx.items, p[1..]);
      BlotEachAt(ty.items, p[1..]);
      BlotEachAt(tm.items, p[1..]);
      forall i | 0 <= i < |ty.items|
        ensures Remarks(Blot(tx.items[i], p[1..]), ty.items[i], Blot(tm.items[i], p[1..]))
      {
        assert Blot(ty.items[i], p[1..]) == BlotEach(ty.items, p[1..])[i] == ty.items[i];
        RemarksBlot(tx.items[i], ty.items[i], tm.items[i], p[1..]);
      }
    }
  }

  lemma {:induction false} RemarksPaths(x: Json, y: Json, m: Json, paths: seq<Path>)
    requires Remarks(x, y, m) && forall p :: p in paths ==> Blot(y, p) == y
    ensures Remarks(BlotPaths(x, paths), y, BlotPaths(m, paths))
  {
    if paths != [] {
      var n := |paths| - 1;
      RemarksPaths(x, y, m, paths[..n]);
      RemarksBlot(BlotPaths(x, paths[..n]), y, BlotPaths(m, paths[..n]), paths[n]);
    }
  }

  // ------------------------------------------------------------------ entries a path covers as a whole

  predicate Scalar(v: Json) {
    !v.Dict? && !v.List?
  }

  /** The same entries but for scalars that one of the paths replaces anyway. */
  predicate Alike(xs: Entries, ys: Entries, paths: seq<Path>) {
    && |xs| == |ys| && UniqueKeys(xs) && UniqueKeys(ys)
    && forall i :: 0 <= i < |xs| ==>
         && xs[i].0 == ys[i].0
         && (xs[i].1 == ys[i].1 ||
             (Scalar(xs[i].1) && Scalar(ys[i].1) && [Segment(xs[i].0, false)] in paths))
  }

  lemma {:induction false} AlikeGet(xs: Entries, ys: Entries, paths: seq<Path>, key: string)
    requires Alike(xs, ys, paths)
    ensures Get(xs, key).Some? <==> Get(ys, key).Some?
    ensures Get(xs, key).Some? ==>
              var a, b := Get(xs, key).value, Get(ys, key).value;
              a == b || (Scalar(a) && Scalar(b) && [Segment(key, false)] in paths)
    decreases |xs|
  {
    if xs != [] && xs[0].0 != key {
      AlikeGet(xs[1..], ys[1..], paths, key);
    }
  }

  lemma {:induction false} AlikePut(xs: Entries, ys: Entries, paths: seq<Path>, key: string, a: Json, b: Json)
    requires Alike(xs, ys, paths) && Get(xs, key).Some? && Get(ys, key).Some?
    requires a == b || (Scalar(a) && Scalar(b) && [Segment(key, false)] in paths)
    ensures Alike(Put(xs, key, a), Put(ys, key, b), paths)
  {
    PutShape(xs, key, a);
    PutShape(ys, key, b);
    GetAtKey(xs, key, a);
    GetAtKey(ys, key, b);
  }

  lemma {:induction false} GetAtKey(es: Entries, key: string, a: Json)
    requires UniqueKeys(es) && Get(es, key).Some?
    ensures forall i :: 0 <= i < |es| && es[i].0 == key ==> i < |Put(es, key, a)| && Put(es, key, a)[i] == (key, a)
    decreases |es|
  {
    if es[0].0 != key {
      GetAtKey(es[1..], key, a);
      var r := Put(es, key, a);
      assert r[1..] == Put(es[1..], key, a);
      forall i | 0 <= i < |es| && es[i].0 == key
        ensures i < |r| && r[i] == (key, a)
      {
        assert es[i] == es[1..][i - 1] && r[i] == r[1..][i - 1];
      }
    }
  }

  lemma {:induction false} AlikeBlot(xs: Entries, ys: Entries, paths: seq<Path>, p: Path)
    requires Alike(xs, ys, paths)
    ensures Blot(Dict(xs), p).Dict? && Blot(Dict(ys), p).Dict?
    ensures Alike(Blot(Dict(xs), p).entries, Blot(Dict(ys), p).entries, paths)
  {
    if p != [] {
      AlikeGet(xs, ys, paths, p[0].key);
      if Get(xs, p[0].key).Some? {
        var a, b := Get(xs, p[0].key).value, Get(ys, p[0].key).value;
        BlotByTarget(xs, p);
        BlotByTarget(ys, p);
        AlikePut(xs, ys, paths, p[0].key, TargetOf(a, p), TargetOf(b, p));
      }
    }
  }

  lemma {:induction false} AlikePaths(xs: Entries, ys: Entries, paths: seq<Path>, some: seq<Path>)
    requires Alike(xs, ys, paths)
    ensures BlotPaths(Dict(xs), some).Dict? && BlotPaths(Dict(ys), some).Dict?
    ensures Alike(BlotPaths(Dict(xs), some).entries, BlotPaths(Dict(ys), some).entries, paths)
  {
    if some != [] {
      var n := |some| - 1;
      AlikePaths(xs, ys, paths, some[..n]);
      AlikeBlot(BlotPaths(Dict(xs), some[..n]).entries, BlotPaths(Dict(ys), some[..n]).entries, paths, some[n]);
    }
  }

  /** After all paths the two are the same. */
  lemma {:induction false} AlikeBecomesEqual(xs: Entries, ys: Entries, paths: seq<Path>)
    requires Alike(xs, ys, paths)
    ensures BlotPaths(Dict(xs), paths) == BlotPaths(Dict(ys), paths)
  {
    AlikePaths(xs, ys, paths, paths);
    BlotPathsDone(Dict(xs), paths);
    BlotPathsDone(Dict(ys), paths);
    var a, b := BlotPaths(Dict(xs), paths), BlotPaths(Dict(ys), paths);
    forall i | 0 <= i < |a.entries|
      ensures a.entries[i] == b.entries[i]
    {
      var key := a.entries[i].0;
      if a.entries[i].1 != b.entries[i].1 {
        KeyPathDone(a, i, key);
        KeyPathDone(b, i, key);
      }
    }
    assert a.entries == b.entries;
  }

  // ------------------------------------------------------------------ the condition is sufficient

  /** Entries whose keys are scrubbed and differ are mapped in place. */
  lemma {:induction false} MappedInPlace(f: Filter, v: Json, n: nat)
    requires v.Dict? && UniqueKeys(v.entries) && n <= |v.entries|
    requires forall i :: 0 <= i < |v.entries| ==> Scrub(f, v.entries[i].0) == v.entries[i].0
    ensures |MapEntries(f, v, n)| == n
    ensures forall i :: 0 <= i < n ==>
              var (key, item) := v.entries[i];
              MapEntries(f, v, n)[i] == (key, if KeyRedacted(f, key) then MARKER else Map(f, item))
  {
    if n > 0 {
      MappedInPlace(f, v, n - 1);
      var (key, item) := v.entries[n - 1];
      var front := MapEntries(f, v, n - 1);
      PutShape(front, key, if KeyRedacted(f, key) then MARKER else Map(f, item));
    }
  }

  lemma {:induction false} BlottedEntries(v: Json, w: Json)
    requires v.Dict? && w.Dict? && Blotted(v, w)
    ensures |v.entries| == |w.entries|
    ensures forall i :: 0 <= i < |v.entries| ==>
              v.entries[i].0 == w.entries[i].0 && Blotted(v.entries[i].1, w.entries[i].1)
  {
  }

  /** An entry to compare with: a scalar other than the marker where the marker is a path's to restore. */
  function Unmarked(f: Filter, e: (string, Json)): (string, Json) {
    if e.1 == MARKER && !KeyRedacted(f, e.0) && [Segment(e.0, false)] in f.paths then (e.0, Null) else e
  }

  function UnmarkedAll(f: Filter, es: Entries): (r: Entries)
    ensures |r| == |es| && forall i :: 0 <= i < |es| ==> r[i] == Unmarked(f, es[i])
  {
    seq(|es|, i requires 0 <= i < |es| => Unmarked(f, es[i]))
  }

  /** However more of a mapped request is blotted, mapping it again loses only markers that were blotted since. */
  lemma {:induction false} MapRemarks(f: Filter, v: Json, y: Json)
    requires Stable(f) && Blotted(Map(f, v), y)
    ensures Remarks(Map(f, v), y, Map(f, y))
    decreases v, 1
  {
    match v
    case List(items) =>
      if y.List? {
        MappedItems(f, v, |items|);
        MappedItems(f, y, |y.items|);
        forall i | 0 <= i < |items|
          ensures Remarks(Map(f, v).items[i], y.items[i], Map(f, y).items[i])
        {
          MapRemarks(f, items[i], y.items[i]);
        }
      }
    case Dict(es) =>
      BlotPathsDict(Dict(MapEntries(f, v, |es|)), f.paths);
      if y.Dict? {
        MapRemarksDict(f, v, y);
      }
    case _ =>
  }

  lemma {:induction false} MapRemarksDict(f: Filter, v: Json, y: Json)
    requires Stable(f) && v.Dict? && y.Dict? && Blotted(Map(f, v), y)
    ensures Remarks(Map(f, v), y, Map(f, y))
    decreases v, 0, 1
  {
    var w, x := MapEntries(f, v, |v.entries|), Map(f, v);
    MappedShape(f, v, y);
    forall i | 0 <= i < |w|
      ensures Remarks(Unmarked(f, w[i]).1, y.entries[i].1, MapEntries(f, y, |y.entries|)[i].1)
    {
      MapRemarksEntry(f, v, y, i);
    }
    RemarksAfterPaths(f, w, y, MapEntries(f, y, |y.entries|));
  }

  lemma {:induction false} RemarksAfterPaths(f: Filter, w: Entries, y: Json, m: Entries)
    requires y.Dict? && |w| == |y.entries| == |m| && UniqueKeys(w)
    requires forall p :: p in f.paths ==> Blot(y, p) == y
    requires forall i :: 0 <= i < |w| ==>
               w[i].0 == y.entries[i].0 == m[i].0 && Remarks(Unmarked(f, w[i]).1, y.entries[i].1, m[i].1)
    ensures Remarks(BlotPaths(Dict(w), f.paths), y, BlotPaths(Dict(m), f.paths))
  {
    var u := UnmarkedAll(f, w);
    assert RemarksEntries(u, y.entries, m);
    RemarksPaths(Dict(u), y, Dict(m), f.paths);
    AlikeBecomesEqual(u, w, f.paths);
  }

  // The mapped entries, the mapped request and a blotted one have the same keys, and no path has more to do on them.
  lemma {:induction false} MappedShape(f: Filter, v: Json, y: Json)
    requires ScrubIsIdempotent(f) && v.Dict? && y.Dict? && Blotted(Map(f, v), y)
    ensures var w, x := MapEntries(f, v, |v.entries|), Map(f, v);
            && x.Dict? && |w| == |x.entries| == |y.entries| == |MapEntries(f, y, |y.entries|)|
            && UniqueKeys(w) && UniqueKeys(x.entries)
            && (forall p :: p in f.paths ==> Blot(x, p) == x && Blot(y, p) == y)
            && (forall i :: 0 <= i < |w| ==>
                  && w[i].0 == x.entries[i].0 == y.entries[i].0
                  && Blotted(w[i].1, y.entries[i].1) && Blotted(x.entries[i].1, y.entries[i].1)
                  && MapEntries(f, y, |y.entries|)[i]
                     == (w[i].0, if KeyRedacted(f, w[i].0) then MARKER else Map(f, y.entries[i].1)))
  {
    var w, x := MapEntries(f, v, |v.entries|), Map(f, v);
    MappedEntries(f, v, |v.entries|);
    BlotPathsDone(Dict(w), f.paths);
    BlotPathsDict(Dict(w), f.paths);
    BlottedTransitive(Dict(w), x, y);
    BlottedEntries(Dict(w), y);
    BlottedEntries(Dict(w), x);
    BlottedEntries(x, y);
    forall p | p in f.paths
      ensures Blot(y, p) == y
    {
      BlottedStaysDone(x, y, p);
    }
    assert forall i :: 0 <= i < |w| ==> y.entries[i].0 == w[i].0 && Scrub(f, w[i].0) == w[i].0;
    MappedInPlace(f, y, |y.entries|);
  }

  lemma {:induction false} MapRemarksEntry(f: Filter, v: Json, y: Json, i: nat)
    requires Stable(f) && v.Dict? && y.Dict? && Blotted(Map(f, v), y) && i < |MapEntries(f, v, |v.entries|)|
    ensures i < |y.entries| && i < |MapEntries(f, y, |y.entries|)|
    ensures Remarks(Unmarked(f, MapEntries(f, v, |v.entries|)[i]).1, y.entries[i].1,
                    MapEntries(f, y, |y.entries|)[i].1)
    decreases v, 0, 0
  {
    var n := |v.entries|;
    var w := MapEntries(f, v, n);
    MappedShape(f, v, y);
    MappedEntries(f, v, n);
    var j :| 0 <= j < n && w[i] ==
      (Scrub(f, v.entries[j].0), if KeyRedacted(f, v.entries[j].0) then MARKER else Map(f, v.entries[j].1));
    if !KeyRedacted(f, v.entries[j].0) {
      MapRemarks(f, v.entries[j].1, y.entries[i].1);
    }
    EntryRemarks(f, v.entries[j].0, w[i], Map(f, v), y, i);
  }

  /** One entry: `key` is the request's, `e` its mapped form, `x` the mapped request and `y` a blotted one. */
  lemma {:induction false} EntryRemarks(f: Filter, key: string, e: (string, Json), x: Json, y: Json, i: nat)
    requires Stable(f) && x.Dict? && y.Dict? && i < |x.entries| == |y.entries|
    requires e.0 == Scrub(f, key) == x.entries[i].0 == y.entries[i].0 && UniqueKeys(x.entries)
    requires Blotted(e.1, y.entries[i].1) && Blotted(x.entries[i].1, y.entries[i].1)
    requires forall p :: p in f.paths ==> Blot(x, p) == x
    requires KeyRedacted(f, key) ==> e.1 == MARKER
    requires !KeyRedacted(f, key) ==> Remarks(e.1, y.entries[i].1, Map(f, y.entries[i].1))
    ensures Remarks(Unmarked(f, e).1, y.entries[i].1,
                    if KeyRedacted(f, e.0) then MARKER else Map(f, y.entries[i].1))
  {
    if KeyRedacted(f, e.0) && !KeyRedacted(f, key) {
      KeyPathDone(x, i, e.0);
    }
  }

  /**
   Over all requests, and for every filter, redaction is idempotent exactly when the scrub is, no key becomes one to
   redact by being scrubbed, and no marker that the scrub rewrites is left with nothing to restore it.
   */
  lemma IdempotentExactlyWhenStable(f: Filter)
    ensures (forall v :: OnceIsEnough(f, v)) <==> Stable(f)
  {
    if Stable(f) {
      forall v
        ensures OnceIsEnough(f, v)
      {
        MapRemarks(f, v, Map(f, v));
        RemarksNothing(Map(f, v), Map(f, Map(f, v)));
      }
    } else {
      var v := UnstableFilterFails(f);
      assert !OnceIsEnough(f, v);
    }
  }

  // ------------------------------------------------------------------ a pattern inside the marker

  /** The text with every `D` replaced by the marker, which holds one itself. */
  function WithoutD(text: string): (r: string)
    ensures |r| >= |text|
    ensures 'D' in text ==> |r| > |text|
  {
    if text == "" then ""
    else if text[0] == 'D' then REDACTION + WithoutD(text[1..])
    else [text[0]] + WithoutD(text[1..])
  }

  /** A pattern that matches inside the marker: a text it has redacted is redacted again. */
  lemma MarkerMatchingPatternIsNotIdempotent(f: Filter)
    requires |f.patterns| == 1 && forall text :: f.patterns[0].subn(text).0 == WithoutD(text)
    ensures !OnceIsEnough(f, Str("D")) && !ScrubIsIdempotent(f)
  {
    ScrubsAlone(f, "D");
    ScrubsAlone(f, REDACTION);
    assert "D"[1..] == "" && REDACTION + "" == REDACTION;
    assert WithoutD("D") == REDACTION;
    assert REDACTION[3] == 'D';
  }

  lemma ScrubsAlone(f: Filter, text: string)
    requires |f.patterns| == 1
    ensures Scrub(f, text) == f.patterns[0].subn(text).0
  {
    var replaced := f.patterns[0].subn(text).0;
    assert f.patterns[1..] == [];
    assert ScrubBy(f.patterns[1..], replaced) == replaced;
  }
}
