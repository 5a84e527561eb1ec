/**
 Carrying notes and spilled results into a fork. The parent's files are read through an abstract store, and
 writing into the fork may fail file by file; what is carried is checked against the journal's digest.
 */
module ForkCarry {
  import opened Options
  import opened ForkNotes

  /** The bytes found, in order, at the places a note or object may lie. */
  type Store = string -> seq<Bytes>

  /** The first candidate whose size and digest are the manifest's. */
  function FirstVerified(hash: Hash, candidates: seq<Bytes>, b: Binding): (r: Option<Bytes>)
    ensures r.Some? ==> r.value in candidates && Verifies(hash, r.value, b)
    ensures r.None? ==> forall raw :: raw in candidates ==> !Verifies(hash, raw, b)
  {
    if candidates == [] then None
    else if Verifies(hash, candidates[0], b) then Some(candidates[0])
    else FirstVerified(hash, candidates[1..], b)
  }

  /** The bytes to carry for a bound note: the journal's own, else a copy that verifies. */
  function Source(hash: Hash, row: Row, candidates: seq<Bytes>): (r: Option<Bytes>)
    requires row.Bound?
  {
    if row.raw.Some? then row.raw else FirstVerified(hash, candidates, row.binding)
  }

  datatype Fate = Inherited | Missing | NotBound

  /** Where one held note ends up. */
  function FateOf(hash: Hash, row: Row, candidates: seq<Bytes>, writable: bool): Fate {
    if row.Unbound? then NotBound
    else if Source(hash, row, candidates).Some? && writable then Inherited
    else Missing
  }

  predicate Distinct(names: seq<string>) {
    forall j, k :: 0 <= j < k < |names| ==> names[j] != names[k]
  }

  /** `xs` lists, once each and in the order of `order`, the names of a fate. */
  function Chosen(order: seq<string>, fate: string -> Fate, which: Fate): (xs: seq<string>)
    ensures forall x :: x in xs <==> x in order && fate(x) == which
    ensures Distinct(order) ==> Distinct(xs)
    ensures |xs| <= |order|
  {
    if order == [] then []
    else
      var n := |order| - 1;
      var front := Chosen(order[..n], fate, which);
      if fate(order[n]) == which then front + [order[n]] else front
  }

  /** The names of a fate stand in the order of the names. */
  lemma {:induction false} ChosenInOrder(a: seq<string>, b: seq<string>, fate: string -> Fate, which: Fate)
    ensures Chosen(a + b, fate, which) == Chosen(a, fate, which) + Chosen(b, fate, which)
  {
    if b == [] {
      assert a + b == a;
    } else {
      var front, last := b[..|b| - 1], b[|b| - 1];
      assert b == front + [last] && a + b == a + front + [last];
      ChosenInOrder(a, front, fate, which);
      ChosenNext(a + front, fate, last, which);
      ChosenNext(front, fate, last, which);
    }
  }

  predicate ExactlyOne(a: bool, b: bool, c: bool) {
    (a && !b && !c) || (!a && b && !c) || (!a && !b && c)
  }

  /** Every name has one fate: the three lists partition the names. */
  lemma {:induction false} FatesPartition(order: seq<string>, fate: string -> Fate)
    ensures |Chosen(order, fate, Inherited)| + |Chosen(order, fate, Missing)| + |Chosen(order, fate, NotBound)|
         == |order|
    ensures forall x :: x in order ==>
              ExactlyOne(x in Chosen(order, fate, Inherited), x in Chosen(order, fate, Missing),
                         x in Chosen(order, fate, NotBound))
  {
    if order != [] {
      FatesPartition(order[..|order| - 1], fate);
    }
  }

  function NoteFate(hash: Hash, held: map<string, Row>, files: Store, writable: string -> bool): string -> Fate {
    name => if name in held then FateOf(hash, held[name], files(name), writable(name)) else Missing
  }

  /** The names a manifest lists. */
  function Names(manifest: seq<(string, Binding)>): (names: seq<string>)
    ensures |names| == |manifest|
  {
    seq(|manifest|, k requires 0 <= k < |manifest| => manifest[k].0)
  }

  lemma NamesOfMore(manifest: seq<(string, Binding)>, name: string, b: Binding)
    ensures Names(manifest + [(name, b)]) == Names(manifest) + [name]
  {
  }

  /** The journal's own bytes for a note are bytes its digest was checked against. */
  ghost predicate RawVerifies(hash: Hash, row: Row) {
    row.Bound? && row.raw.Some? ==> Verifies(hash, row.raw.value, row.binding)
  }

  /** What a replayed journal holds carries only bytes that verify. */
  lemma {:induction false} ReplayedRowsVerify(hash: Hash, granted: seq<Payload>, events: seq<Event>, name: string)
    ensures LastTouch(hash, granted, events, name).Holds? ==>
              RawVerifies(hash, LastTouch(hash, granted, events, name).row)
  {
    if events != [] {
      ReplayedRowsVerify(hash, granted, events[..|events| - 1], name);
    }
  }

  /** Each file written is some listed name's, with the size and digest the manifest states for it. */
  ghost predicate WrittenAsListed(hash: Hash, written: map<string, Bytes>, manifest: seq<(string, Binding)>) {
    && (forall name :: name in written <==> name in Names(manifest))
    && (forall k :: 0 <= k < |manifest| ==>
          manifest[k].0 in written && Verifies(hash, written[manifest[k].0], manifest[k].1))
  }

  /** What a carry has done so far: the three lists, and the files written into the fork. */
  datatype Carried = Carried(inherited: seq<(string, Binding)>, missing: seq<string>, unbound: seq<string>,
                             written: map<string, Bytes>)

  function Size(c: Carried): nat {
    |c.inherited| + |c.missing| + |c.unbound|
  }

  /** The names in `done` are carried as their fates say. */
  ghost predicate CarriedAs(hash: Hash, fate: string -> Fate, done: seq<string>, c: Carried) {
    && Names(c.inherited) == Chosen(done, fate, Inherited)
    && c.missing == Chosen(done, fate, Missing)
    && c.unbound == Chosen(done, fate, NotBound)
    && WrittenAsListed(hash, c.written, c.inherited)
  }

  lemma {:induction false} ChosenNext(done: seq<string>, fate: string -> Fate, name: string, which: Fate)
    ensures Chosen(done + [name], fate, which) ==
            if fate(name) == which then Chosen(done, fate, which) + [name] else Chosen(done, fate, which)
  {
    assert (done + [name])[..|done|] == done;
  }

  method CarryNote(hash: Hash, name: string, row: Row, candidates: seq<Bytes>, writable: bool,
                   ghost fate: string -> Fate, ghost done: seq<string>, c: Carried) returns (r: Carried)
    requires CarriedAs(hash, fate, done, c) && name !in done
    requires RawVerifies(hash, row) && fate(name) == FateOf(hash, row, candidates, writable)
    ensures CarriedAs(hash, fate, done + [name], r)
    ensures r.inherited == c.inherited ||
            (row.Bound? && r.inherited == c.inherited + [(name, row.binding)])
    ensures Size(r) == Size(c) + 1
  {
    ChosenNext(done, fate, name, Inherited);
    ChosenNext(done, fate, name, Missing);
    ChosenNext(done, fate, name, NotBound);
    if row.Unbound? {
      return c.(unbound := c.unbound + [name]);
    }
    var verified := Source(hash, row, candidates);
    if verified.None? || !writable {
      return c.(missing := c.missing + [name]);
    }
    var written := WriteNote(hash, c.written, c.inherited, name, verified.value, row.binding);
    NamesOfMore(c.inherited, name, row.binding);
    r := c.(inherited := c.inherited + [(name, row.binding)], written := written);
  }

  /** The manifest binds held notes to the digests they are held under. */
  predicate BoundAsHeld(held: map<string, Row>, manifest: seq<(string, Binding)>) {
    forall k :: 0 <= k < |manifest| ==>
      manifest[k].0 in held && held[manifest[k].0].Bound? && held[manifest[k].0].binding == manifest[k].1
  }

  lemma OneMoreBound(held: map<string, Row>, manifest: seq<(string, Binding)>, name: string)
    requires BoundAsHeld(held, manifest) && name in held && held[name].Bound?
    ensures BoundAsHeld(held, manifest + [(name, held[name].binding)])
  {
  }

  /**
   `_carry_notes`: every held note ends in exactly one of the three lists, and every file written into the
   fork has the size and digest of the returned manifest. `order` is the sorted order of the held names.
   */
  method CarryNotes(hash: Hash, held: map<string, Row>, order: seq<string>, files: Store, writable: string -> bool)
    returns (c: Carried)
    requires Distinct(order) && (forall name :: name in order <==> name in held)
    requires forall name :: name in held ==> RawVerifies(hash, held[name])
    ensures CarriedAs(hash, NoteFate(hash, held, files, writable), order, c)
    ensures BoundAsHeld(held, c.inherited)
    ensures Size(c) == |order|
    ensures forall name <- held :: name in c.unbound <==> held[name].Unbound?
    ensures forall name <- held ::
              name in Names(c.inherited) <==>
                held[name].Bound? && writable(name) && Obtainable(hash, held[name], files(name))
    ensures forall name <- held :: name in c.missing <==>
              held[name].Bound? && !(writable(name) && Obtainable(hash, held[name], files(name)))
  {
    c := Carried([], [], [], map[]);
    ghost var fate := NoteFate(hash, held, files, writable);
    var k := 0;
    while k < |order|
      invariant k <= |order|
      invariant CarriedAs(hash, fate, order[..k], c)
      invariant BoundAsHeld(held, c.inherited) && Size(c) == k
    {
      var name := order[k];
      NextName(order, k);
      NoteFateAt(hash, held, files, writable, name);
      ghost var before := c.inherited;
      c := CarryNote(hash, name, held[name], files(name), writable(name), fate, order[..k], c);
      if c.inherited != before {
        OneMoreBound(held, before, name);
      }
      k := k + 1;
    }
    assert order[..k] == order;
  }

  /** The journal has the note's bytes, or some copy is of the size and digest the note is held under. */
  predicate Obtainable(hash: Hash, row: Row, candidates: seq<Bytes>)
    requires row.Bound?
  {
    row.raw.Some? || exists raw <- candidates :: |raw| == row.binding.size && hash(raw) == row.binding.sha
  }

  lemma NextName(order: seq<string>, k: nat)
    requires k < |order|
    ensures order[..k + 1] == order[..k] + [order[k]]
    ensures Distinct(order) ==> order[k] !in order[..k]
  {
  }

  lemma NoteFateAt(hash: Hash, held: map<string, Row>, files: Store, writable: string -> bool, name: string)
    requires name in held
    ensures NoteFate(hash, held, files, writable)(name) == FateOf(hash, held[name], files(name), writable(name))
  {
  }

  /** One more verified file. */
  function WriteNote(hash: Hash, written: map<string, Bytes>, ghost manifest: seq<(string, Binding)>,
                     name: string, raw: Bytes, ghost b: Binding): (r: map<string, Bytes>)
    requires WrittenAsListed(hash, written, manifest) && name !in Names(manifest) && Verifies(hash, raw, b)
    ensures WrittenAsListed(hash, r, manifest + [(name, b)])
  {
    ghost var more := manifest + [(name, b)];
    assert Names(more) == Names(manifest) + [name];
    assert forall k :: 0 <= k < |manifest| ==> Names(manifest)[k] == manifest[k].0;
    written[name := raw]
  }

  // ------------------------------------------------------------------ spilled results

  /** A `tool_spilled` event of the parent's journal. */
  datatype Spilled = Spilled(at: int, handle: string, sha: string, size: int)

  predicate ValidHandle(handle: string) {
    |handle| == 19 && handle[..3] == "tr_" &&
    forall k :: 3 <= k < 19 ==> '0' <= handle[k] <= '9' || 'a' <= handle[k] <= 'f'
  }

  predicate Mints(e: Spilled, until: int, handle: string) {
    e.at <= until && e.handle == handle && ValidHandle(handle) && ValidDigest(e.sha) && e.size >= 0
  }

  /** The journal minted `handle` up to the fork point, last as event `i`. */
  ghost predicate LastMint(events: seq<Spilled>, until: int, handle: string, i: nat) {
    i < |events| && Mints(events[i], until, handle)
    && forall j :: i < j < |events| ==> !Mints(events[j], until, handle)
  }

  /** What the journal last minted a handle as. */
  function MintedAs(events: seq<Spilled>, until: int, handle: string): Option<Binding> {
    if events == [] then None
    else
      var e := events[|events| - 1];
      if Mints(e, until, handle) then Some(Binding(e.sha, e.size))
      else MintedAs(events[..|events| - 1], until, handle)
  }

  lemma {:induction false} MintedByLast(events: seq<Spilled>, until: int, handle: string)
    ensures MintedAs(events, until, handle).Some? <==> exists i: nat :: LastMint(events, until, handle, i)
    ensures forall i: nat :: LastMint(events, until, handle, i) ==>
              MintedAs(events, until, handle) == Some(Binding(events[i].sha, events[i].size))
  {
    if events != [] {
      var n := |events| - 1;
      MintedByLast(events[..n], until, handle);
      if Mints(events[n], until, handle) {
        assert LastMint(events, until, handle, n);
      } else {
        forall i: nat
          ensures LastMint(events, until, handle, i) <==> LastMint(events[..n], until, handle, i)
        {
        }
      }
    }
  }

  /** `_spilled_in_journal`: a handle is granted exactly when the journal minted it, under its last valid event. */
  method SpilledInJournal(events: seq<Spilled>, until: int) returns (minted: map<string, Binding>)
    ensures forall handle :: handle in minted <==> MintedAs(events, until, handle).Some?
    ensures forall handle :: handle in minted ==> MintedAs(events, until, handle) == Some(minted[handle])
  {
    minted := map[];
    var k := 0;
    while k < |events|
      invariant k <= |events|
      invariant forall handle :: handle in minted <==> MintedAs(events[..k], until, handle).Some?
      invariant forall handle :: handle in minted ==> MintedAs(events[..k], until, handle) == Some(minted[handle])
    {
      var e := events[k];
      assert events[..k + 1][..k] == events[..k];
      if e.at <= until && ValidHandle(e.handle) && ValidDigest(e.sha) && e.size >= 0 {
        minted := minted[e.handle := Binding(e.sha, e.size)];
      }
      k := k + 1;
    }
    assert events[..k] == events;
  }

  function SpillFate(hash: Hash, minted: map<string, Binding>, files: Store,
                     body: string -> bool, manifest: string -> bool): string -> Fate {
    handle => if handle in minted && FirstVerified(hash, files(handle), minted[handle]).Some?
                 && body(handle) && manifest(handle)
              then Inherited else Missing
  }

  /** The quoted handles the parent minted; a handle only quoted grants nothing. */
  function Entitled(quoted: seq<string>, minted: map<string, Binding>): (r: seq<string>)
    ensures forall h :: h in r <==> h in quoted && h in minted
  {
    if quoted == [] then []
    else
      var n := |quoted| - 1;
      if quoted[n] in minted then Entitled(quoted[..n], minted) + [quoted[n]] else Entitled(quoted[..n], minted)
  }

  /** Every body written is a minted handle's, with the size and digest the journal minted it under. */
  ghost predicate VerifiedSpill(hash: Hash, minted: map<string, Binding>, written: map<string, Bytes>) {
    forall handle :: handle in written ==> handle in minted && Verifies(hash, written[handle], minted[handle])
  }

  /** The handles in `done` are carried as their fates say; each one inherited has its verified body in the fork. */
  ghost predicate SpillCarriedAs(hash: Hash, minted: map<string, Binding>, fate: string -> Fate, done: seq<string>,
                                 c: Carried) {
    && Names(c.inherited) == Chosen(done, fate, Inherited)
    && c.missing == Chosen(done, fate, Missing)
    && VerifiedSpill(hash, minted, c.written)
    && WrittenAsMinted(minted, c.written, c.inherited)
  }

  ghost predicate WrittenAsMinted(minted: map<string, Binding>, written: map<string, Bytes>,
                                  manifest: seq<(string, Binding)>) {
    forall k :: 0 <= k < |manifest| ==>
      manifest[k].0 in minted && minted[manifest[k].0] == manifest[k].1 && manifest[k].0 in written
  }

  /** One more verified body leaves all as verified as it was, its own handle among them. */
  lemma OneMoreBody(hash: Hash, minted: map<string, Binding>, written: map<string, Bytes>,
                    listed: seq<(string, Binding)>, handle: string, raw: Bytes)
    requires VerifiedSpill(hash, minted, written) && WrittenAsMinted(minted, written, listed)
    requires handle in minted && Verifies(hash, raw, minted[handle])
    ensures VerifiedSpill(hash, minted, written[handle := raw])
    ensures WrittenAsMinted(minted, written[handle := raw], listed)
    ensures WrittenAsMinted(minted, written[handle := raw], listed + [(handle, minted[handle])])
  {
  }

  method CarryObject(hash: Hash, minted: map<string, Binding>, handle: string, candidates: seq<Bytes>,
                     body: bool, manifest: bool, ghost fate: string -> Fate, ghost done: seq<string>, c: Carried)
    returns (r: Carried)
    requires SpillCarriedAs(hash, minted, fate, done, c) && handle in minted
    requires fate(handle) == if FirstVerified(hash, candidates, minted[handle]).Some? && body && manifest
                             then Inherited else Missing
    ensures SpillCarriedAs(hash, minted, fate, done + [handle], r)
    ensures |r.inherited| + |r.missing| == |c.inherited| + |c.missing| + 1
  {
    ChosenNext(done, fate, handle, Inherited);
    ChosenNext(done, fate, handle, Missing);
    var verified := FirstVerified(hash, candidates, minted[handle]);
    r := c;
    if verified.Some? && body {
      OneMoreBody(hash, minted, c.written, c.inherited, handle, verified.value);
      r := r.(written := r.written[handle := verified.value]);
      if manifest {
        NamesOfMore(c.inherited, handle, minted[handle]);
        return r.(inherited := r.inherited + [(handle, minted[handle])]);
      }
    }
    r := r.(missing := r.missing + [handle]);
  }

  /**
   `_carry_spill`: a handle that is quoted and minted is inherited when a copy verifies and both its files can
   be written, else it is missing. A body written without its manifest file still verifies.
   */
  method CarrySpill(hash: Hash, quoted: seq<string>, minted: map<string, Binding>, files: Store,
                    body: string -> bool, manifest: string -> bool) returns (c: Carried)
    ensures SpillCarriedAs(hash, minted, SpillFate(hash, minted, files, body, manifest), Entitled(quoted, minted), c)
    ensures |c.inherited| + |c.missing| == |Entitled(quoted, minted)|
    ensures forall h :: h in quoted && h in minted <==> h in Names(c.inherited) || h in c.missing
    ensures forall h :: !(h in Names(c.inherited) && h in c.missing)
    ensures forall h :: h in Names(c.inherited) <==>
              && h in quoted && h in minted && body(h) && manifest(h)
              && exists raw <- files(h) :: |raw| == minted[h].size && hash(raw) == minted[h].sha
  {
    var handles := Entitled(quoted, minted);
    ghost var fate := SpillFate(hash, minted, files, body, manifest);
    c := Carried([], [], [], map[]);
    var k := 0;
    while k < |handles|
      invariant k <= |handles|
      invariant SpillCarriedAs(hash, minted, fate, handles[..k], c) && |c.inherited| + |c.missing| == k
    {
      var h := handles[k];
      NextName(handles, k);
      assert h in handles;
      SpillFateAt(hash, minted, files, body, manifest, h);
      c := CarryObject(hash, minted, h, files(h), body(h), manifest(h), fate, handles[..k], c);
      k := k + 1;
    }
    assert handles[..k] == handles;
    SpillPartition(hash, minted, fate, handles, c);
  }

  /** Each entitled handle is in exactly one of the two lists, and the two together are as long as theirs. */
  lemma SpillPartition(hash: Hash, minted: map<string, Binding>, fate: string -> Fate,
                       done: seq<string>, c: Carried)
    requires SpillCarriedAs(hash, minted, fate, done, c)
    requires forall h :: h in done ==> fate(h) == Inherited || fate(h) == Missing
    ensures |c.inherited| + |c.missing| == |done|
    ensures forall h :: h in done <==> h in Names(c.inherited) || h in c.missing
    ensures forall h :: !(h in Names(c.inherited) && h in c.missing)
  {
    ChosenOfTwo(done, fate);
  }

  lemma {:induction false} ChosenOfTwo(done: seq<string>, fate: string -> Fate)
    requires forall h :: h in done ==> fate(h) == Inherited || fate(h) == Missing
    ensures |Chosen(done, fate, Inherited)| + |Chosen(done, fate, Missing)| == |done|
  {
    if done != [] {
      ChosenOfTwo(done[..|done| - 1], fate);
    }
  }

  lemma SpillFateAt(hash: Hash, minted: map<string, Binding>, files: Store,
                    body: string -> bool, manifest: string -> bool, handle: string)
    requires handle in minted
    ensures SpillFate(hash, minted, files, body, manifest)(handle) ==
            if FirstVerified(hash, files(handle), minted[handle]).Some? && body(handle) && manifest(handle)
            then Inherited else Missing
  {
  }
}
