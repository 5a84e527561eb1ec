/**
 What the egress filter redacts, place by place: under a configured key, where a configured path leads from any
 dictionary of the request, and every other text scrubbed.
 */
module EgressPlaces {
  import opened Options
  import opened Json
  import opened Egress

  type Place = seq<Turn>

  // ------------------------------------------------------------------ where a path leads

  /** What is left of a place past where the path leads; None when the place is not on or below it. */
  function Past(p: Path, place: Place): Option<Place> {
    if p == [] then Some(place)
    else if place == [] || place[0] != At(p[0].key) then None
    else if !p[0].wildcard then Past(p[1..], place[1..])
    else if |place| >= 2 && place[1].Nth? then Past(p[1..], place[2..])
    else None
  }

  /** The path leads to the place: key by key, through every item of a list where it says so. */
  predicate LeadsTo(p: Path, place: Place) {
    p != [] && Past(p, place) == Some([])
  }

  predicate LeadsAbove(p: Path, place: Place) {
    p != [] && Past(p, place).Some? && Past(p, place).value != []
  }

  /** A path leads above a place exactly when it leads to one of the places the place is below. */
  lemma {:induction false} AboveIsPrefix(p: Path, place: Place)
    ensures LeadsAbove(p, place) <==> exists n :: 0 < n < |place| && LeadsTo(p, place[..n])
  {
    PastPrefix(p, place);
    if LeadsAbove(p, place) {
      assert LeadsTo(p, place[..|place| - |Past(p, place).value|]);
    }
    if n :| 0 < n < |place| && LeadsTo(p, place[..n]) {
      PastLonger(p, place, n);
    }
  }

  lemma {:induction false} PastPrefix(p: Path, place: Place)
    ensures Past(p, place).Some? ==>
              var n := |place| - |Past(p, place).value|;
              n >= |p| && Past(p, place[..n]) == Some([])
  {
    if p != [] && Past(p, place).Some? {
      var k := if p[0].wildcard then 2 else 1;
      PastPrefix(p[1..], place[k..]);
      var n := |place| - |Past(p, place).value|;
      assert place[..n][k..] == place[k..][..n - k];
    } else if Past(p, place).Some? {
      assert place[..0] == [];
    }
  }

  lemma {:induction false} PastLonger(p: Path, place: Place, n: nat)
    requires n <= |place| && Past(p, place[..n]) == Some([])
    ensures Past(p, place) == Some(place[n..])
  {
    if p != [] {
      var k := if p[0].wildcard then 2 else 1;
      assert place[..n][k..] == place[k..][..n - k];
      PastLonger(p[1..], place[k..], n - k);
    } else {
      assert n == 0;
    }
  }

  // ------------------------------------------------------------------ what blotting leaves at a place

  /** The same scalar, two dictionaries, two lists of one length, or nothing. */
  predicate SameHead(x: Option<Json>, y: Option<Json>) {
    match x
    case None => y == None
    case Some(List(items)) => y.Some? && y.value.List? && |y.value.items| == |items|
    case Some(Dict(_)) => y.Some? && y.value.Dict?
    case Some(v) => y == Some(v)
  }

  /** What a path does at a place: nothing is left below it, the marker is at it, and all else stays what it was. */
  predicate DoneAt(p: Path, place: Place, was: Option<Json>, is_: Option<Json>) {
    if LeadsAbove(p, place) then is_ == None
    else if LeadsTo(p, place) then is_ == if was.Some? then Some(MARKER) else None
    else SameHead(was, is_)
  }

  lemma {:induction false} BlotAt(w: Json, p: Path, place: Place)
    ensures DoneAt(p, place, Find(w, place), Find(Blot(w, p), place))
    decreases |p|, 1
  {
    if p != [] && w.Dict? && Get(w.entries, p[0].key).Some? && place != [] && place[0].At? {
      var key, target := p[0].key, Get(w.entries, p[0].key).value;
      if !p[0].wildcard {
        var changed := if |p| == 1 then MARKER else Blot(target, p[1..]);
        GetPut(w.entries, key, changed, place[0].key);
        if place[0].key == key {
          PastNext(p, place, 1);
          if |p| > 1 {
            BlotAt(target, p[1..], place[1..]);
          }
        }
      } else if target.List? {
        BlotItemAt(w, p, target.items, place);
      }
    }
  }

  /** Past the first segment a place is as it is past the rest. */
  lemma {:induction false} PastNext(p: Path, place: Place, k: nat)
    requires p != [] && place != [] && place[0] == At(p[0].key)
    requires k == (if p[0].wildcard then 2 else 1) && k <= |place| && (k == 2 ==> place[1].Nth?)
    ensures Past(p, place) == Past(p[1..], place[k..])
    ensures |p| == 1 ==> Past(p, place) == Some(place[k..])
    ensures |p| > 1 ==> (LeadsTo(p, place) <==> LeadsTo(p[1..], place[k..]))
    ensures |p| > 1 ==> (LeadsAbove(p, place) <==> LeadsAbove(p[1..], place[k..]))
  {
    assert |p| == 1 ==> p[1..] == [];
  }

  lemma {:induction false} BlotItemAt(w: Json, p: Path, items: seq<Json>, place: Place)
    requires p != [] && p[0].wildcard && place != [] && place[0].At?
    requires w.Dict? && Get(w.entries, p[0].key) == Some(List(items))
    ensures DoneAt(p, place, Find(w, place), Find(Blot(w, p), place))
    decreases |p|, 0
  {
    var changed := if |p| == 1 then Blanks(|items|) else BlotEach(items, p[1..]);
    GetPut(w.entries, p[0].key, List(changed), place[0].key);
    if place[0] == At(p[0].key) {
      assert Find(w, place) == Find(List(items), place[1..]);
      assert Find(Blot(w, p), place) == Find(List(changed), place[1..]);
      if |place| > 1 && place[1].Nth? {
        ItemAt(items, place[1..]);
        ItemAt(changed, place[1..]);
        assert place[1..][1..] == place[2..];
        PastNext(p, place, 2);
        if place[1].index < |items| {
          BlotEachAt(items, p[1..]);
          if |p| > 1 {
            BlotAt(items[place[1].index], p[1..], place[2..]);
          } else {
            assert changed[place[1].index] == MARKER;
          }
        }
      } else if |place| > 1 {
        assert place[1..][0] == place[1];
      }
    }
  }

  lemma {:induction false} ItemAt(items: seq<Json>, place: Place)
    requires place != [] && place[0].Nth?
    ensures Find(List(items), place) ==
            if place[0].index < |items| then Find(items[place[0].index], place[1..]) else None
  {
  }

  // ------------------------------------------------------------------ all the paths

  predicate AnyAbove(paths: seq<Path>, place: Place) {
    exists p :: p in paths && LeadsAbove(p, place)
  }

  predicate AnyTo(paths: seq<Path>, place: Place) {
    exists p :: p in paths && LeadsTo(p, place)
  }

  /** What all paths together do at a place. */
  predicate AllDoneAt(paths: seq<Path>, place: Place, was: Option<Json>, is_: Option<Json>) {
    if AnyAbove(paths, place) then is_ == None
    else if AnyTo(paths, place) then is_ == if was.Some? then Some(MARKER) else None
    else SameHead(was, is_)
  }

  lemma {:induction false} BlotPathsAt(w: Json, paths: seq<Path>, place: Place)
    ensures AllDoneAt(paths, place, Find(w, place), Find(BlotPaths(w, paths), place))
  {
    if paths != [] {
      var n := |paths| - 1;
      BlotPathsAt(w, paths[..n], place);
      BlotAt(BlotPaths(w, paths[..n]), paths[n], place);
      OneMorePath(paths, place, Find(w, place), Find(BlotPaths(w, paths[..n]), place),
                  Find(BlotPaths(w, paths), place));
    }
  }

  lemma OneMorePath(paths: seq<Path>, place: Place, was: Option<Json>, mid: Option<Json>, is_: Option<Json>)
    requires paths != []
    requires AllDoneAt(paths[..|paths| - 1], place, was, mid) && DoneAt(paths[|paths| - 1], place, mid, is_)
    ensures AllDoneAt(paths, place, was, is_)
  {
    var front, last := paths[..|paths| - 1], paths[|paths| - 1];
    assert paths == front + [last];
    assert AnyAbove(paths, place) <==> AnyAbove(front, place) || LeadsAbove(last, place);
    assert AnyTo(paths, place) <==> AnyTo(front, place) || LeadsTo(last, place);
  }

  // ------------------------------------------------------------------ the whole request

  /** The entry a mapped dictionary has its value at `name` from: the last one whose key scrubs to it. */
  function Giver(f: Filter, es: Entries, name: string): Option<(string, Json)> {
    if es == [] then None
    else if Scrub(f, es[|es| - 1].0) == name then Some(es[|es| - 1])
    else Giver(f, es[..|es| - 1], name)
  }

  /** What the request has at a place of the mapped one. */
  function Origin(f: Filter, v: Json, place: Place): Option<Json>
    decreases |place|
  {
    if place == [] then Some(v)
    else match place[0]
         case At(name) =>
           if v.Dict? && Giver(f, v.entries, name).Some?
           then Origin(f, Giver(f, v.entries, name).value.1, place[1..]) else None
         case Nth(n) => if v.List? && n < |v.items| then Origin(f, v.items[n], place[1..]) else None
  }

  /** The place is under a configured key, in whatever case it is written. */
  predicate UnderKey(f: Filter, v: Json, place: Place) {
    && place != [] && place[|place| - 1].At?
    && var parent := Origin(f, v, place[..|place| - 1]);
       && parent.Some? && parent.value.Dict?
       && var giver := Giver(f, parent.value.entries, place[|place| - 1].key);
          giver.Some? && f.fold(giver.value.0) in f.keys
  }

  /** A configured path leads to the place, from the request or from anything in it. */
  predicate OnPath(f: Filter, place: Place) {
    exists m :: 0 <= m < |place| && AnyTo(f.paths, place[m..])
  }

  predicate Redacted(f: Filter, v: Json, place: Place) {
    UnderKey(f, v, place) || OnPath(f, place)
  }

  /** The place is below one that is redacted. */
  predicate BelowRedacted(f: Filter, v: Json, place: Place) {
    exists n :: 0 < n < |place| && Redacted(f, v, place[..n])
  }

  /** What is left of a part that is not redacted: a text scrubbed, a container as big, any other scalar as it was. */
  predicate KeptAs(f: Filter, was: Option<Json>, is_: Option<Json>) {
    match was
    case None => is_ == None
    case Some(Str(s)) => is_ == Some(Str(Scrub(f, s)))
    case Some(List(items)) => is_.Some? && is_.value.List? && |is_.value.items| == |items|
    case Some(Dict(_)) => is_.Some? && is_.value.Dict?
    case Some(v) => is_ == Some(v)
  }

  predicate MappedAt(f: Filter, v: Json, place: Place, is_: Option<Json>) {
    var was := Origin(f, v, place);
    if BelowRedacted(f, v, place) then is_ == None
    else if Redacted(f, v, place) then is_ == if was.Some? then Some(Str("[REDACTED]")) else None
    else KeptAs(f, was, is_)
  }

  // ------------------------------------------------------------------ from a part to what it is in

  lemma {:induction false} UnderKeyBelow(f: Filter, v: Json, child: Json, t: Turn, q: Place)
    requires q != [] && Origin(f, v, [t]) == Some(child)
    ensures UnderKey(f, v, [t] + q) <==> UnderKey(f, child, q)
  {
    var n := |q| - 1;
    assert ([t] + q)[..n + 1] == [t] + q[..n] && ([t] + q[..n])[1..] == q[..n];
    assert [t][1..] == [];
  }

  lemma OnPathBelow(f: Filter, t: Turn, q: Place)
    ensures OnPath(f, [t] + q) <==> AnyTo(f.paths, [t] + q) || OnPath(f, q)
  {
    var place := [t] + q;
    assert place[0..] == place;
    forall m | 0 <= m < |q|
      ensures place[m + 1..] == q[m..]
    {
    }
    if OnPath(f, place) {
      var m :| 0 <= m < |place| && AnyTo(f.paths, place[m..]);
      if m > 0 {
        assert place[m - 1 + 1..] == q[m - 1..];
        assert AnyTo(f.paths, q[m - 1..]);
      }
    }
    if OnPath(f, q) {
      var m :| 0 <= m < |q| && AnyTo(f.paths, q[m..]);
      assert AnyTo(f.paths, place[m + 1..]);
    }
  }

  lemma AnyAboveIsPrefix(paths: seq<Path>, place: Place)
    ensures AnyAbove(paths, place) <==> exists n :: 0 < n < |place| && AnyTo(paths, place[..n])
  {
    forall p | p in paths
      ensures LeadsAbove(p, place) <==> exists n :: 0 < n < |place| && LeadsTo(p, place[..n])
    {
      AboveIsPrefix(p, place);
    }
    if n :| 0 < n < |place| && AnyTo(paths, place[..n]) {
      var p :| p in paths && LeadsTo(p, place[..n]);
      assert LeadsAbove(p, place);
    }
  }

  lemma {:induction false} RedactedBelow(f: Filter, v: Json, child: Json, t: Turn, q: Place)
    requires Origin(f, v, [t]) == Some(child)
    ensures q != [] ==> (Redacted(f, v, [t] + q) <==> Redacted(f, child, q) || AnyTo(f.paths, [t] + q))
    ensures Redacted(f, v, [t]) <==> UnderKey(f, v, [t]) || AnyTo(f.paths, [t])
  {
    if q != [] {
      UnderKeyBelow(f, v, child, t, q);
    }
    OnPathBelow(f, t, q);
    OnPathBelow(f, t, []);
    assert [t] + [] == [t];
  }

  lemma {:induction false} BelowRedactedBelow(f: Filter, v: Json, child: Json, t: Turn, q: Place)
    requires Origin(f, v, [t]) == Some(child) && !UnderKey(f, v, [t])
    ensures BelowRedacted(f, v, [t] + q) <==> BelowRedacted(f, child, q) || AnyAbove(f.paths, [t] + q)
  {
    var place := [t] + q;
    AnyAboveIsPrefix(f.paths, place);
    forall n | 0 < n < |place|
      ensures place[..n] == [t] + q[..n - 1]
      ensures Redacted(f, v, place[..n]) <==>
              (n > 1 && Redacted(f, child, q[..n - 1])) || AnyTo(f.paths, place[..n])
    {
      assert place[..n] == [t] + q[..n - 1];
      RedactedBelow(f, v, child, t, q[..n - 1]);
      assert n == 1 ==> place[..n] == [t];
    }
    if n :| 0 < n < |q| && Redacted(f, child, q[..n]) {
      assert Redacted(f, v, place[..n + 1]);
    }
    if n :| 0 < n < |place| && AnyTo(f.paths, place[..n]) {
      assert Redacted(f, v, place[..n]);
    }
  }

  /** What a part became, once the paths of the dictionary it is in have been applied. */
  lemma {:induction false} MappedInside(f: Filter, v: Json, child: Json, t: Turn, q: Place,
                                        mid: Option<Json>, is_: Option<Json>)
    requires Origin(f, v, [t]) == Some(child) && !UnderKey(f, v, [t])
    requires MappedAt(f, child, q, mid) && AllDoneAt(f.paths, [t] + q, mid, is_)
    ensures MappedAt(f, v, [t] + q, is_)
  {
    var place := [t] + q;
    assert place[1..] == q && [t][1..] == [];
    assert Origin(f, v, place) == Origin(f, child, q);
    RedactedBelow(f, v, child, t, q);
    BelowRedactedBelow(f, v, child, t, q);
    assert q == [] ==> place == [t];
    assert q == [] ==> !Redacted(f, child, q) && !BelowRedacted(f, child, q);
  }

  /** Under a configured key the marker stays the marker, with nothing below it. */
  lemma MappedUnderKey(f: Filter, v: Json, t: Turn, q: Place, is_: Option<Json>)
    requires UnderKey(f, v, [t]) && AllDoneAt(f.paths, [t] + q, if q == [] then Some(MARKER) else None, is_)
    ensures MappedAt(f, v, [t] + q, is_)
  {
    var place := [t] + q;
    AnyAboveIsPrefix(f.paths, place);
    if q == [] {
      assert place == [t];
      assert [t][..0] == [] && [t][1..] == [];
    } else {
      assert place[..1] == [t];
      assert Redacted(f, v, place[..1]);
    }
  }

  lemma {:induction false} GiverNext(f: Filter, es: Entries, n: nat, name: string)
    requires 0 < n <= |es|
    ensures Giver(f, es[..n], name) ==
            if Scrub(f, es[n - 1].0) == name then Some(es[n - 1]) else Giver(f, es[..n - 1], name)
  {
    assert es[..n][..n - 1] == es[..n - 1];
  }

  /** The mapped entry of a name, before any path: the marker under a configured key, else its giver's value mapped. */
  lemma {:induction false} EntryOfGiver(f: Filter, v: Json, n: nat, name: string)
    requires v.Dict? && n <= |v.entries|
    ensures Get(MapEntries(f, v, n), name) ==
            match Giver(f, v.entries[..n], name)
            case None => None
            case Some(e) => Some(if f.fold(e.0) in f.keys then MARKER else Map(f, e.1))
  {
    if n > 0 {
      EntryOfGiver(f, v, n - 1, name);
      GiverNext(f, v.entries, n, name);
      var (key, item) := v.entries[n - 1];
      GetPut(MapEntries(f, v, n - 1), Scrub(f, key), if KeyRedacted(f, key) then MARKER else Map(f, item), name);
    }
  }

  lemma NothingOnItems(paths: seq<Path>, place: Place)
    requires place != [] && place[0].Nth?
    ensures !AnyTo(paths, place) && !AnyAbove(paths, place)
  {
  }

  lemma {:induction false} NothingThere(f: Filter, v: Json, place: Place)
    requires Origin(f, v, place) == None
    ensures MappedAt(f, v, place, None)
  {
  }

  lemma {:induction false} UnderKeyAtRoot(f: Filter, v: Json, name: string)
    requires v.Dict?
    ensures UnderKey(f, v, [At(name)]) <==>
              Giver(f, v.entries, name).Some? && f.fold(Giver(f, v.entries, name).value.0) in f.keys
  {
    assert [At(name)][..0] == [];
  }

  /** A mapped entry's value at a place below it, before any path. */
  lemma {:induction false} BelowEntry(f: Filter, v: Json, name: string, q: Place)
    requires v.Dict?
    ensures var w, giver := Dict(MapEntries(f, v, |v.entries|)), Giver(f, v.entries, name);
            Find(w, [At(name)] + q) ==
            if giver.None? then None
            else if f.fold(giver.value.0) in f.keys then (if q == [] then Some(MARKER) else None)
            else Find(Map(f, giver.value.1), q)
  {
    EntryOfGiver(f, v, |v.entries|, name);
    assert v.entries[..|v.entries|] == v.entries;
    assert ([At(name)] + q)[1..] == q;
  }

  lemma {:induction false} MapRedactsEntry(f: Filter, v: Json, name: string, q: Place)
    requires v.Dict?
    ensures MappedAt(f, v, [At(name)] + q, Find(Map(f, v), [At(name)] + q))
    decreases |q|, 1
  {
    var t := At(name);
    var w := Dict(MapEntries(f, v, |v.entries|));
    var giver := Giver(f, v.entries, name);
    BlotPathsAt(w, f.paths, [t] + q);
    UnderKeyAtRoot(f, v, name);
    BelowEntry(f, v, name, q);
    assert [t][1..] == [] && ([t] + q)[1..] == q;
    if giver.None? {
      NothingThere(f, v, [t] + q);
    } else if f.fold(giver.value.0) in f.keys {
      MappedUnderKey(f, v, t, q, Find(Map(f, v), [t] + q));
    } else {
      MapRedactsExactly(f, giver.value.1, q);
      MappedInside(f, v, giver.value.1, t, q, Find(w, [t] + q), Find(Map(f, v), [t] + q));
    }
  }

  /**
   What the filter redacts, at every place. Below a redacted place nothing is left; a redacted place holds the marker;
   every other text is scrubbed, and everything else is what it was. A place is redacted under a configured key, folded,
   and where a configured path leads from the request or from anything in it.
   */
  lemma {:induction false} MapRedactsExactly(f: Filter, v: Json, place: Place)
    ensures MappedAt(f, v, place, Find(Map(f, v), place))
    decreases |place|, 0
  {
    if place == [] {
      if v.Dict? {
        BlotPathsDict(Dict(MapEntries(f, v, |v.entries|)), f.paths);
      }
      return;
    }
    var t, q := place[0], place[1..];
    assert [t] + q == place && [t][1..] == [];
    if v.List? && t.Nth? && t.index < |v.items| {
      MapRedactsExactly(f, v.items[t.index], q);
      MappedItems(f, v, |v.items|);
      NothingOnItems(f.paths, place);
      MappedInside(f, v, v.items[t.index], t, q, Find(Map(f, v), place), Find(Map(f, v), place));
    } else if v.Dict? && t.At? {
      MapRedactsEntry(f, v, t.key, q);
    } else {
      if v.Dict? {
        BlotPathsDict(Dict(MapEntries(f, v, |v.entries|)), f.paths);
      }
      NothingThere(f, v, place);
    }
  }

  // ------------------------------------------------------------------ what is counted

  predicate NoneTwice(places: seq<Place>) {
    forall j, k :: 0 <= j < k < |places| ==> places[j] != places[k]
  }

  /** The places below one that was reached by `front`. */
  function Below(front: Place, places: seq<Place>): (r: seq<Place>)
    ensures |r| == |places|
    ensures NoneTwice(places) ==> NoneTwice(r)
    ensures forall place :: place in r <==>
              |place| >= |front| && place[..|front|] == front && place[|front|..] in places
  {
    var r := seq(|places|, k requires 0 <= k < |places| => front + places[k]);
    BelowHolds(front, places, r);
    r
  }

  lemma BelowHolds(front: Place, places: seq<Place>, r: seq<Place>)
    requires |r| == |places| && forall k :: 0 <= k < |r| ==> r[k] == front + places[k]
    ensures NoneTwice(places) ==> NoneTwice(r)
    ensures forall place :: place in r <==>
              |place| >= |front| && place[..|front|] == front && place[|front|..] in places
  {
    forall k | 0 <= k < |r|
      ensures r[k][..|front|] == front && r[k][|front|..] == places[k]
    {
    }
    forall place
      ensures place in r <==> |place| >= |front| && place[..|front|] == front && place[|front|..] in places
    {
      if |place| >= |front| && place[..|front|] == front && place[|front|..] in places {
        var k :| 0 <= k < |places| && places[k] == place[|front|..];
        assert place == front + places[k] == r[k];
      }
    }
  }

  /** A path leads to a place that is there. */
  predicate Reaches(w: Json, p: Path, place: Place) {
    LeadsTo(p, place) && Find(w, place).Some?
  }

  /** The place is in an item from `from` on, and what is left of a path past the list leads there. */
  predicate ReachesItem(items: seq<Json>, p: Path, place: Place, from: nat)
    requires p != []
  {
    && place != [] && place[0].Nth? && from <= place[0].index < |items|
    && (if |p| == 1 then |place| == 1 else Reaches(items[place[0].index], p[1..], place[1..]))
  }

  /** How often a wildcard path hits the items from `from` on. */
  function ItemHits(items: seq<Json>, p: Path, from: nat): nat
    requires p != [] && from <= |items|
  {
    if |p| == 1 then |items| - from else EachHits(items[from..], p[1..])
  }

  lemma {:induction false} ItemPlaces(items: seq<Json>, p: Path, from: nat) returns (places: seq<Place>)
    requires p != [] && from <= |items|
    ensures NoneTwice(places) && |places| == ItemHits(items, p, from)
    ensures forall place :: place in places <==> ReachesItem(items, p, place, from)
    decreases |p|, 0, |items| - from
  {
    if from == |items| {
      assert items[from..] == [];
      return [];
    }
    var here: seq<Place> := [[]];
    if |p| > 1 {
      here := HitsArePlaces(items[from], p[1..]);
    }
    assert items[from..][0] == items[from] && items[from..][1..] == items[from + 1..];
    var rest := ItemPlaces(items, p, from + 1);
    var t := Nth(from);
    places := Below([t], here) + rest;
    forall place
      ensures place in Below([t], here) <==> ReachesItem(items, p, place, from) && place[0] == t
    {
      if place != [] && place[0] == t {
        assert place[..1] == [t];
      }
    }
    forall j, k | 0 <= j < k < |places|
      ensures places[j] != places[k]
    {
      if j < |here| <= k {
        assert places[j] in Below([t], here) && places[k] in rest;
      }
    }
  }

  /** Through a wildcard a path leads to what it leads to below the items of the list. */
  lemma {:induction false} ItemReached(w: Json, p: Path, items: seq<Json>, place: Place)
    requires p != [] && p[0].wildcard && w.Dict? && Get(w.entries, p[0].key) == Some(List(items))
    ensures Reaches(w, p, place) <==> place != [] && place[0] == At(p[0].key) && ReachesItem(items, p, place[1..], 0)
  {
    if place != [] && place[0] == At(p[0].key) {
      assert Find(w, place) == Find(List(items), place[1..]);
      if |place| > 1 && place[1].Nth? {
        PastNext(p, place, 2);
        ItemAt(items, place[1..]);
        assert place[1..][0] == place[1] && place[1..][1..] == place[2..];
      } else if |place| > 1 {
        assert place[1..][0] == place[1];
      }
    }
  }

  /** A path's hits are the places it leads to, each once. */
  lemma {:induction false} HitsArePlaces(w: Json, p: Path) returns (places: seq<Place>)
    ensures NoneTwice(places) && |places| == PathHits(w, p)
    ensures forall place :: place in places <==> Reaches(w, p, place)
    decreases |p|, 1, 0
  {
    if p == [] || !w.Dict? || Get(w.entries, p[0].key).None? {
      return [];
    }
    var t, target := At(p[0].key), Get(w.entries, p[0].key).value;
    if p[0].wildcard && !target.List? {
      places := [];
      forall place
        ensures !Reaches(w, p, place)
      {
        if |place| > 1 && place[0] == t {
          assert place[1..][0] == place[1] && Find(w, place) == Find(target, place[1..]);
        }
      }
    } else if p[0].wildcard {
      var rest := ItemPlaces(target.items, p, 0);
      places := Below([t], rest);
      assert target.items[0..] == target.items;
      forall place
        ensures place in places <==> Reaches(w, p, place)
      {
        ItemReached(w, p, target.items, place);
        FrontOf(t, place);
      }
    } else {
      var rest: seq<Place> := [[]];
      if |p| > 1 {
        rest := HitsArePlaces(target, p[1..]);
      }
      places := Below([t], rest);
      forall place
        ensures place in places <==> Reaches(w, p, place)
      {
        FrontOf(t, place);
        if place != [] && place[0] == t {
          PastNext(p, place, 1);
          assert Find(w, place) == Find(target, place[1..]);
          if |p| == 1 {
            assert rest == [[]] && (place[1..] in rest <==> place[1..] == []);
          }
        }
      }
    }
  }

  lemma FrontOf(t: Turn, place: Place)
    ensures |place| >= 1 && place[..1] == [t] <==> place != [] && place[0] == t
  {
  }

  /** How many entries of a configured key are reached: not those below another one. */
  function KeyHits(f: Filter, v: Json, key: string): nat
    decreases v, 1, 0
  {
    match v
    case Dict(es) => KeyHitsIn(f, v, |es|, key)
    case List(items) => KeyHitsAmong(f, v, |items|, key)
    case _ => 0
  }

  function KeyHitsIn(f: Filter, v: Json, n: nat, key: string): nat
    requires v.Dict? && n <= |v.entries|
    decreases v, 0, n
  {
    if n == 0 then 0
    else
      var (k, item) := v.entries[n - 1];
      KeyHitsIn(f, v, n - 1, key) +
      (if f.fold(k) !in f.keys then KeyHits(f, item, key) else if k == key then 1 else 0)
  }

  function KeyHitsAmong(f: Filter, v: Json, n: nat, key: string): nat
    requires v.List? && n <= |v.items|
    decreases v, 0, n
  {
    if n == 0 then 0 else KeyHitsAmong(f, v, n - 1, key) + KeyHits(f, v.items[n - 1], key)
  }

  const KEY_FINDING := "logging.redact.key:"

  /** No pattern has the name a key's findings are counted under. */
  ghost predicate KeyNameFree(f: Filter, key: string) {
    forall p <- f.patterns :: p.name != KEY_FINDING + key
  }

  lemma {:induction false} NoScrubUnderKey(patterns: seq<Pattern>, text: string, name: string)
    requires forall p <- patterns :: p.name != name
    ensures ScrubFindings(patterns, text)[name] == 0
  {
    if patterns != [] {
      NoScrubUnderKey(patterns[1..], patterns[0].subn(text).0, name);
    }
  }

  lemma {:induction false} NoPathUnderKey(v: Json, paths: seq<Path>, key: string)
    ensures PathFindings(v, paths)[KEY_FINDING + key] == 0
  {
    if paths != [] {
      var n := |paths| - 1;
      NoPathUnderKey(v, paths[..n], key);
      assert PathName(n)[15] == 'p' && (KEY_FINDING + key)[15] == 'k';
    }
  }

  lemma OneKeyName(key: string, other: string)
    ensures KEY_FINDING + key == KEY_FINDING + other <==> key == other
  {
    assert (KEY_FINDING + key)[|KEY_FINDING|..] == key && (KEY_FINDING + other)[|KEY_FINDING|..] == other;
  }

  /** Under a configured key's own name exactly the entries of that key are counted that are reached. */
  lemma {:induction false} FoundCountsKeys(f: Filter, v: Json, key: string)
    requires KeyNameFree(f, key)
    ensures Found(f, v)[KEY_FINDING + key] == KeyHits(f, v, key)
    decreases v, 1, 0
  {
    match v
    case Str(s) => NoScrubUnderKey(f.patterns, s, KEY_FINDING + key);
    case Dict(es) =>
      EntriesCountKeys(f, v, |es|, key);
      NoPathUnderKey(Dict(MapEntries(f, v, |es|)), f.paths, key);
    case List(items) => ItemsCountKeys(f, v, |items|, key);
    case _ =>
  }

  lemma {:induction false} EntriesCountKeys(f: Filter, v: Json, n: nat, key: string)
    requires v.Dict? && n <= |v.entries| && KeyNameFree(f, key)
    ensures EntriesFound(f, v, n)[KEY_FINDING + key] == KeyHitsIn(f, v, n, key)
    decreases v, 0, n
  {
    if n > 0 {
      var (k, item) := v.entries[n - 1];
      EntriesCountKeys(f, v, n - 1, key);
      NoScrubUnderKey(f.patterns, k, KEY_FINDING + key);
      OneKeyName(k, key);
      if f.fold(k) !in f.keys {
        FoundCountsKeys(f, item, key);
      }
    }
  }

  lemma {:induction false} ItemsCountKeys(f: Filter, v: Json, n: nat, key: string)
    requires v.List? && n <= |v.items| && KeyNameFree(f, key)
    ensures ItemsFound(f, v, n)[KEY_FINDING + key] == KeyHitsAmong(f, v, n, key)
    decreases v, 0, n
  {
    if n > 0 {
      ItemsCountKeys(f, v, n - 1, key);
      FoundCountsKeys(f, v.items[n - 1], key);
    }
  }
}
