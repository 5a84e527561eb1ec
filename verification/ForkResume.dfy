/**
 From carrying notes to resuming: what a fork's run is granted of the manifest that was carried into it, and when
 its journal then goes on as if the parent's had.
 */
module ForkResume {
  import opened Options
  import opened ForkNotes
  import opened ForkCarry

  /** A carried note as the fork's lineage records it: the digest, not the content. */
  function Grant(manifest: seq<(string, Binding)>): (grant: seq<Payload>)
    ensures |grant| == |manifest|
  {
    seq(|manifest|, k requires 0 <= k < |manifest| =>
      Payload(manifest[k].0, manifest[k].1.sha, manifest[k].1.size, None))
  }

  /** An entry of the grant that names a note, and whose copy in the fork is still what it states. */
  predicate Grantable(hash: Hash, p: Payload, copies: map<string, Bytes>) {
    && ValidName(p.name) && ValidDigest(p.sha) && p.size >= 0
    && p.name in copies && Verifies(hash, copies[p.name], Binding(p.sha, p.size))
  }

  /** The names of the grantable ones among the first `n` entries. */
  function GrantableNames(hash: Hash, grant: seq<Payload>, copies: map<string, Bytes>, n: nat): seq<string>
    requires n <= |grant|
  {
    if n == 0 then []
    else
      var front, last := GrantableNames(hash, grant, copies, n - 1), grant[n - 1];
      if Grantable(hash, last, copies) then front + [last.name] else front
  }

  function Held(names: seq<string>): set<string> {
    set name | name in names
  }

  /** The grantable entries are taken in order; only a full store ends this early, at a grantable entry. */
  ghost predicate TakenUpTo(hash: Hash, grant: seq<Payload>, copies: map<string, Bytes>, maxNotes: nat,
                            names: seq<string>, n: nat)
  {
    && n <= |grant| && names == GrantableNames(hash, grant, copies, n)
    && |Held(names)| <= maxNotes
    && (n < |grant| ==> Grantable(hash, grant[n], copies) && |Held(names)| == maxNotes)
  }

  /** `inherit`: verified entries are authorized in order until the store is full. */
  method InheritNotes(hash: Hash, grant: seq<Payload>, copies: map<string, Bytes>, maxNotes: nat)
    returns (names: seq<string>)
    ensures exists n :: TakenUpTo(hash, grant, copies, maxNotes, names, n)
    ensures AllGrantable(hash, grant, copies) ==> names == Taken(grant, maxNotes)
  {
    names := [];
    var authorized: set<string> := {};
    var k := 0;
    while k < |grant|
      invariant k <= |grant|
      invariant authorized == Held(names) && |authorized| <= maxNotes
      invariant names == GrantableNames(hash, grant, copies, k)
    {
      var p := grant[k];
      if Grantable(hash, p, copies) {
        if |authorized| >= maxNotes {
          break;
        }
        OneMoreHeld(names, p.name);
        authorized := authorized + {p.name};
        names := names + [p.name];
      }
      k := k + 1;
    }
    assert TakenUpTo(hash, grant, copies, maxNotes, names, k);
    if AllGrantable(hash, grant, copies) {
      AllGrantableTaken(hash, grant, copies, maxNotes, names, k);
    }
  }

  lemma OneMoreHeld(names: seq<string>, name: string)
    ensures Held(names + [name]) == Held(names) + {name}
    ensures |Held(names)| <= |Held(names) + {name}| <= |Held(names)| + 1
  {
    if name in Held(names) {
      assert Held(names) + {name} == Held(names);
    }
  }

  /** When every entry is grantable, the first ones are taken, as many as fit. */
  lemma AllGrantableTaken(hash: Hash, grant: seq<Payload>, copies: map<string, Bytes>,
                          maxNotes: nat, names: seq<string>, n: nat)
    requires AllGrantable(hash, grant, copies) && TakenUpTo(hash, grant, copies, maxNotes, names, n)
    ensures names == Taken(grant, maxNotes)
  {
    AllNamesOf(hash, grant, copies, n);
  }

  lemma {:induction false} AllNamesOf(hash: Hash, grant: seq<Payload>, copies: map<string, Bytes>, n: nat)
    requires AllGrantable(hash, grant, copies) && n <= |grant|
    ensures GrantableNames(hash, grant, copies, n) == Taken(grant, n)
    ensures |Held(Taken(grant, n))| == n
  {
    if n > 0 {
      AllNamesOf(hash, grant, copies, n - 1);
      assert Taken(grant, n) == Taken(grant, n - 1) + [grant[n - 1].name];
      OneMoreHeld(Taken(grant, n - 1), grant[n - 1].name);
      assert grant[n - 1].name !in Held(Taken(grant, n - 1));
    }
  }

  predicate AllGrantable(hash: Hash, grant: seq<Payload>, copies: map<string, Bytes>) {
    DistinctGrant(grant) && forall k :: 0 <= k < |grant| ==> Grantable(hash, grant[k], copies)
  }

  predicate DistinctGrant(grant: seq<Payload>) {
    forall i, j :: 0 <= i < j < |grant| ==> grant[i].name != grant[j].name
  }

  /** The names of the first `n` entries, or of all. */
  function Taken(grant: seq<Payload>, n: nat): (names: seq<string>)
    ensures |names| == if n < |grant| then n else |grant|
    ensures forall k :: 0 <= k < |names| ==> names[k] == grant[k].name
  {
    seq(if n < |grant| then n else |grant|, k requires 0 <= k < |grant| => grant[k].name)
  }

  /** `carried`: the journaled rows of the inherited names, with their content. */
  function Rows(grant: seq<Payload>, n: nat, copies: map<string, Bytes>): (rows: seq<Payload>)
    requires forall p :: p in grant ==> p.name in copies
    ensures |rows| == |Taken(grant, n)|
  {
    seq(|Taken(grant, n)|, k requires 0 <= k < |Taken(grant, n)| => grant[k].(content := Some(copies[grant[k].name])))
  }

  /** The journal of the fork's run, as it starts with what was carried. */
  function Resumed(start: int, manifest: seq<(string, Binding)>, copies: map<string, Bytes>, maxNotes: nat,
                   own: seq<Event>, until: int): Generation
    requires forall p :: p in Grant(manifest) ==> p.name in copies
  {
    var grant := Grant(manifest);
    Generation(start, grant, Taken(grant, maxNotes), Rows(grant, maxNotes, copies), own, until)
  }

  /** A held note has a proper name, and a proper digest when it has one. */
  lemma {:induction false} HeldIsProper(hash: Hash, granted: seq<Payload>, events: seq<Event>, name: string)
    requires LastTouch(hash, granted, events, name).Holds?
    ensures ValidName(name)
    ensures ProperRow(LastTouch(hash, granted, events, name).row)
  {
    var n := |events| - 1;
    var kind := events[n].kind;
    if TouchOf(hash, granted, kind, name).Untouched? {
      HeldIsProper(hash, granted, events[..n], name);
    } else if kind.NotesInherited? {
      RowIsProper(hash, kind.notes, name);
      RowIsProper(hash, granted, name);
    }
  }

  predicate ProperRow(row: Row) {
    row.Bound? ==> ValidDigest(row.binding.sha)
  }

  lemma {:induction false} RowIsProper(hash: Hash, notes: seq<Payload>, name: string)
    ensures RowFor(hash, notes, name).Some? ==> ProperRow(RowFor(hash, notes, name).value)
  {
    if notes != [] {
      RowIsProper(hash, notes[..|notes| - 1], name);
    }
  }

  /** Among rows of distinct names each name has its own. */
  lemma {:induction false} RowOfDistinct(hash: Hash, rows: seq<Payload>, k: nat)
    requires k < |rows| && DistinctGrant(rows) && NoteManifest(hash, rows[k]).Some?
    ensures RowFor(hash, rows, rows[k].name) == NoteManifest(hash, rows[k])
  {
    var n := |rows| - 1;
    if k < n {
      RowOfDistinct(hash, rows[..n], k);
    }
  }

  /**
   A hand-over: the parent's prefix and its grant, what replaying them returned as held, the sorted names, and what
   carrying them returned.
   */
  datatype Handover = Handover(hash: Hash, granted: seq<Payload>, prefix: seq<Event>, held: map<string, Row>,
                               order: seq<string>, fate: string -> Fate, carried: Carried)
  {
    /** What the parent's journal says last of a name. */
    function Parent(name: string): Touch {
      LastTouch(hash, granted, prefix, name)
    }
  }

  /** The replay and the carry did what they promise. */
  ghost predicate CarriedOver(h: Handover) {
    && HeldByReplay(h.hash, h.granted, h.prefix, h.held)
    && Distinct(h.order) && (forall name :: name in h.order <==> name in h.held)
    && CarriedAs(h.hash, h.fate, h.order, h.carried) && BoundAsHeld(h.held, h.carried.inherited)
  }

  /** Nothing was left behind, either. */
  ghost predicate AllCarried(h: Handover) {
    CarriedOver(h) && h.carried.missing == [] && h.carried.unbound == []
  }

  /** Then every held note is in the manifest once, verified in the fork, under a name and digest the run accepts. */
  lemma CarriedIsGrantable(h: Handover)
    requires AllCarried(h)
    ensures Names(h.carried.inherited) == h.order
    ensures AllGrantable(h.hash, Grant(h.carried.inherited), h.carried.written)
  {
    var manifest := h.carried.inherited;
    AllChosen(h.order, h.fate);
    assert Names(manifest) == h.order;
    forall k | 0 <= k < |manifest|
      ensures Grantable(h.hash, Grant(manifest)[k], h.carried.written)
    {
      assert Names(manifest)[k] == manifest[k].0 && manifest[k].0 in h.held;
      HeldIsProper(h.hash, h.granted, h.prefix, manifest[k].0);
    }
    forall i, j | 0 <= i < j < |manifest|
      ensures Grant(manifest)[i].name != Grant(manifest)[j].name
    {
      assert h.order[i] != h.order[j];
    }
  }

  /** If nothing is missing and nothing unbound, everything is inherited. */
  lemma {:induction false} AllChosen(order: seq<string>, fate: string -> Fate)
    requires |Chosen(order, fate, Missing)| == |Chosen(order, fate, NotBound)| == 0
    ensures Chosen(order, fate, Inherited) == order
  {
    if order != [] {
      AllChosen(order[..|order| - 1], fate);
    }
  }

  /** The fork's run is one that starts with what was carried. */
  ghost predicate ResumedFrom(h: Handover, maxNotes: nat, g: Generation) {
    && (forall p :: p in Grant(h.carried.inherited) ==> p.name in h.carried.written)
    && g == Resumed(g.start, h.carried.inherited, h.carried.written, maxNotes, g.own, g.until)
  }

  /** What a resumed fork holds of a name it inherited: the digest the manifest states. */
  lemma ResumedHolds(h: Handover, maxNotes: nat, g: Generation, k: nat)
    requires AllCarried(h) && ResumedFrom(h, maxNotes, g) && k < |g.names|
    ensures var (name, b) := h.carried.inherited[k];
            name == g.names[k] && InheritedRow(h.hash, g.notes, g.granted, name).Bound?
            && InheritedRow(h.hash, g.notes, g.granted, name).binding == b
  {
    CarriedIsGrantable(h);
    var grant := Grant(h.carried.inherited);
    assert Grantable(h.hash, grant[k], h.carried.written);
    assert g.notes[k] == grant[k].(content := Some(h.carried.written[grant[k].name]));
    RowOfDistinct(h.hash, g.notes, k);
  }

  /** A manifest that fits is granted as a whole. */
  lemma AllTaken(h: Handover, maxNotes: nat, g: Generation)
    requires AllCarried(h) && ResumedFrom(h, maxNotes, g) && |h.carried.inherited| <= maxNotes
    ensures g.names == h.order == Names(h.carried.inherited)
  {
    CarriedIsGrantable(h);
  }

  lemma InheritedAsHeld(h: Handover, maxNotes: nat, g: Generation, k: nat)
    requires AllCarried(h) && ResumedFrom(h, maxNotes, g) && |h.carried.inherited| <= maxNotes && k < |h.order|
    ensures SameNote(h.Parent(h.order[k]), Holds(InheritedRow(h.hash, g.notes, g.granted, h.order[k])))
  {
    AllTaken(h, maxNotes, g);
    var name := h.order[k];
    assert Names(h.carried.inherited)[k] == h.carried.inherited[k].0;
    ResumedHolds(h, maxNotes, g, k);
    assert name in h.held && h.Parent(name) == Holds(h.held[name]);
  }

  lemma HeldWasInherited(h: Handover, maxNotes: nat, g: Generation, name: string)
    requires AllCarried(h) && ResumedFrom(h, maxNotes, g) && |h.carried.inherited| <= maxNotes
    ensures name in g.names && ValidName(name) <==> h.Parent(name).Holds?
    ensures h.Parent(name).Holds? ==>
              SameNote(h.Parent(name), Holds(InheritedRow(h.hash, g.notes, g.granted, name)))
  {
    AllTaken(h, maxNotes, g);
    assert h.Parent(name).Holds? <==> name in h.held;
    if name in h.held {
      HeldIsProper(h.hash, h.granted, h.prefix, name);
      var k :| 0 <= k < |h.order| && h.order[k] == name;
      InheritedAsHeld(h, maxNotes, g, k);
    }
  }

  /** A manifest that does not fit loses the first note past the limit. */
  lemma OverflowLosesOne(h: Handover, maxNotes: nat, g: Generation)
    requires AllCarried(h) && ResumedFrom(h, maxNotes, g) && |h.carried.inherited| > maxNotes
    ensures var left := h.carried.inherited[maxNotes].0;
            h.Parent(left).Holds? && left !in g.names
  {
    var grant := Grant(h.carried.inherited);
    var left := grant[maxNotes].name;
    CarriedIsGrantable(h);
    assert Names(h.carried.inherited)[maxNotes] == left && left in h.order;
    assert forall j :: 0 <= j < |g.names| ==> g.names[j] == grant[j].name != left;
  }

  /** A note that was left behind is one the parent held and the fork is not granted. */
  lemma LeftBehindIsLost(h: Handover, maxNotes: nat, g: Generation, name: string)
    requires CarriedOver(h) && ResumedFrom(h, maxNotes, g)
    requires name in h.carried.missing || name in h.carried.unbound
    ensures h.Parent(name).Holds? && name !in g.names
  {
    var manifest := h.carried.inherited;
    assert name in h.order && h.fate(name) != Inherited;
    forall k | 0 <= k < |g.names|
      ensures g.names[k] != name
    {
      assert g.names[k] == Grant(manifest)[k].name == manifest[k].0 == Names(manifest)[k];
      assert Names(manifest)[k] in Chosen(h.order, h.fate, Inherited);
    }
  }

  /**
   After any carry, the fork's run is granted every note its parent held, each under the parent's digest, exactly when
   nothing was missing, nothing was unbound, and the manifest fits the number of notes the run may hold.
   */
  lemma CarryingGrantsAllExactlyWhenItFits(h: Handover, maxNotes: nat, g: Generation, parent: string -> Touch)
    requires CarriedOver(h) && ResumedFrom(h, maxNotes, g)
    requires forall name :: parent(name) == h.Parent(name)
    ensures CarriesAll(h.hash, parent, g) <==>
              h.carried.missing == [] && h.carried.unbound == [] && |h.carried.inherited| <= maxNotes
  {
    var lost := h.carried.missing + h.carried.unbound;
    if lost != [] {
      assert lost[0] in h.carried.missing || lost[0] in h.carried.unbound;
      LeftBehindIsLost(h, maxNotes, g, lost[0]);
      assert parent(lost[0]).Holds?;
    } else if |h.carried.inherited| <= maxNotes {
      forall name
        ensures name in g.names && ValidName(name) <==> parent(name).Holds?
        ensures parent(name).Holds? ==>
                  SameNote(parent(name), Holds(InheritedRow(h.hash, g.notes, g.granted, name)))
      {
        assert parent(name) == h.Parent(name);
        HeldWasInherited(h, maxNotes, g, name);
      }
    } else {
      OverflowLosesOne(h, maxNotes, g);
      assert parent(h.carried.inherited[maxNotes].0).Holds?;
    }
  }

  /**
   From end to end: replay the parent's journal, carry what it holds, resume, go on, replay the fork's journal. When
   nothing was left behind and all of it fits, the fork holds, name for name and digest for digest, what the parent's
   own prefix followed by the fork's events would have left.
   */
  lemma {:induction false} CarriedForkContinues(
      h: Handover, maxNotes: nat, g: Generation, forkHeld: map<string, Row>, name: string)
    requires AllCarried(h) && ResumedFrom(h, maxNotes, g) && |h.carried.inherited| <= maxNotes
    requires g.start <= g.until && OwnNotes(g.own)
    requires HeldByReplay(h.hash, Granted(Journal(g)), Prefix(Journal(g), g.until), forkHeld)
    ensures SameNote(if name in forkHeld then Holds(forkHeld[name]) else Untouched,
                     LastTouch(h.hash, h.granted, h.prefix + Prefix(g.own, g.until), name))
  {
    var parent := n => h.Parent(n);
    CarryingGrantsAllExactlyWhenItFits(h, maxNotes, g, parent);
    ForkContinuesParent(h.hash, h.granted, h.prefix, g, parent, name);
    JournalReplays(h.hash, g, forkHeld);
  }

  /** Fork `k` of a line took over from the one before it, or from the root, and nothing was lost. */
  ghost predicate TookOver(hash: Hash, root: seq<Event>, forks: seq<Generation>, k: nat, h: Handover, maxNotes: nat)
    requires k < |forks|
  {
    && AllCarried(h) && ResumedFrom(h, maxNotes, forks[k]) && |h.carried.inherited| <= maxNotes
    && OwnNotes(forks[k].own) && h.hash == hash
    && (k == 0 ==> h.granted == [] && h.prefix == root)
    && (k > 0 ==>
          && h.granted == forks[k - 1].granted
          && h.prefix == Header(forks[k - 1]) + Prefix(forks[k - 1].own, forks[k - 1].until))
  }

  /** So a whole line of such forks holds, at its end, what one run through all their events would hold. */
  lemma {:induction false} LineOfForksContinues(hash: Hash, root: seq<Event>, forks: seq<Generation>, hs: seq<Handover>,
                                                limits: seq<nat>, name: string)
    requires |hs| == |limits| == |forks|
    requires forall k :: 0 <= k < |forks| ==> TookOver(hash, root, forks, k, hs[k], limits[k])
    ensures CarriedThroughout(hash, root, forks)
    ensures SameNote(HeldByLast(hash, root, forks, name), LastTouch(hash, [], LineOf(root, forks), name))
  {
    forall k | 0 <= k < |forks|
      ensures OwnNotes(forks[k].own) && CarriesAll(hash, n => HeldByLast(hash, root, forks[..k], n), forks[k])
    {
      TookOverCarriesAll(hash, root, forks, k, hs[k], limits[k]);
    }
    GenerationsCompose(hash, root, forks, name);
  }

  lemma TookOverCarriesAll(
      hash: Hash, root: seq<Event>, forks: seq<Generation>, k: nat, h: Handover, maxNotes: nat)
    requires k < |forks| && TookOver(hash, root, forks, k, h, maxNotes)
    ensures OwnNotes(forks[k].own) && CarriesAll(hash, n => HeldByLast(hash, root, forks[..k], n), forks[k])
  {
    CarryingGrantsAllExactlyWhenItFits(h, maxNotes, forks[k], n => HeldByLast(hash, root, forks[..k], n));
  }
}
