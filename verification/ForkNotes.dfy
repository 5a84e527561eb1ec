/**
 The notes a fork inherits: replaying a parent's journal up to the fork point, and what a chain of forks,
 each resumed and forked again, ends up holding. Digests are an abstract function of the bytes.
 */
module ForkNotes {
  import opened Options

  type Bytes = seq<bv8>
  type Hash = Bytes -> string

  /** One note as an event carries it; a size that is no integer is below zero. */
  datatype Payload = Payload(name: string, sha: string, size: int, content: Option<Bytes>)
  datatype Kind =
    | NoteWritten(note: Payload) | NoteDeleted(name: string)
    | NotesInherited(names: seq<string>, notes: seq<Payload>)
    | RunStarted(granted: seq<Payload>) | OtherKind
  datatype Event = Event(at: int, kind: Kind)

  /** The digest that authorizes a copy of a note. */
  datatype Binding = Binding(sha: string, size: nat)

  /** A held note: known by name only, or bound to a digest, with its bytes when the journal has them. */
  datatype Row = Unbound | Bound(binding: Binding, raw: Option<Bytes>)

  predicate ValidName(name: string) {
    && 1 <= |name| <= 64
    && (forall k :: 0 <= k < |name| ==>
          'a' <= name[k] <= 'z' || '0' <= name[k] <= '9' || (k > 0 && (name[k] == '_' || name[k] == '-')))
  }

  predicate ValidDigest(sha: string) {
    |sha| == 64 && forall k :: 0 <= k < 64 ==> '0' <= sha[k] <= '9' || 'a' <= sha[k] <= 'f'
  }

  predicate Verifies(hash: Hash, raw: Bytes, b: Binding) {
    |raw| == b.size && hash(raw) == b.sha
  }

  function NoteManifest(hash: Hash, p: Payload): (r: Option<Row>)
    ensures r.Some? <==> ValidName(p.name) && ValidDigest(p.sha) && p.size >= 0
    ensures r.Some? <==>
              && p.name != "" && |p.name| <= 64 && p.name[0] != '_' && p.name[0] != '-'
              && (forall k :: 0 <= k < |p.name| ==>
                    || 'a' <= p.name[k] <= 'z' || '0' <= p.name[k] <= '9' || p.name[k] == '_' || p.name[k] == '-')
              && |p.sha| == 64 && (forall k :: 0 <= k < 64 ==> '0' <= p.sha[k] <= '9' || 'a' <= p.sha[k] <= 'f')
              && p.size >= 0
    ensures r.Some? ==> r.value.Bound? && r.value.binding == Binding(p.sha, p.size)
    ensures r.Some? ==> (r.value.raw.Some? <==> p.content.Some? && Verifies(hash, p.content.value, r.value.binding))
    ensures r.Some? && r.value.raw.Some? ==> r.value.raw == p.content
  {
    if ValidName(p.name) && ValidDigest(p.sha) && p.size >= 0 then
      var b := Binding(p.sha, p.size);
      Some(Bound(b, if p.content.Some? && Verifies(hash, p.content.value, b) then p.content else None))
    else None
  }

  /** The row a list of payloads has for a name: its last valid one. */
  function RowFor(hash: Hash, notes: seq<Payload>, name: string): (r: Option<Row>)
    ensures r.Some? ==> r.value.Bound?
    ensures r.Some? && r.value.raw.Some? ==> Verifies(hash, r.value.raw.value, r.value.binding)
  {
    if notes == [] then None
    else
      var last := notes[|notes| - 1];
      if last.name == name && NoteManifest(hash, last).Some? then NoteManifest(hash, last)
      else RowFor(hash, notes[..|notes| - 1], name)
  }

  predicate AnyRow(hash: Hash, notes: seq<Payload>) {
    exists k :: 0 <= k < |notes| && NoteManifest(hash, notes[k]).Some?
  }

  /** What the journal's first `run_started` records the run was granted. */
  function Granted(events: seq<Event>): seq<Payload> {
    if events == [] then []
    else if events[0].kind.RunStarted? then events[0].kind.granted else Granted(events[1..])
  }

  /** An inherited name is bound by its own row; when the event carries no rows at all, by the run's grant. */
  function InheritedRow(hash: Hash, notes: seq<Payload>, granted: seq<Payload>, name: string): Row {
    if RowFor(hash, notes, name).Some? then RowFor(hash, notes, name).value
    else if !AnyRow(hash, notes) && RowFor(hash, granted, name).Some? then RowFor(hash, granted, name).value
    else Unbound
  }

  /** What one event says of one name. */
  datatype Touch = Untouched | Deletes | Holds(row: Row)

  function TouchOf(hash: Hash, granted: seq<Payload>, kind: Kind, name: string): Touch {
    match kind
    case NoteWritten(p) =>
      if p.name == name && NoteManifest(hash, p).Some? then Holds(NoteManifest(hash, p).value) else Untouched
    case NoteDeleted(n) => if n == name && ValidName(name) then Deletes else Untouched
    case NotesInherited(names, notes) =>
      if name in names && ValidName(name) then Holds(InheritedRow(hash, notes, granted, name)) else Untouched
    case _ => Untouched
  }

  /** The events up to a fork point. */
  function Prefix(events: seq<Event>, until: int): seq<Event> {
    if events == [] then []
    else
      var front, last := Prefix(events[..|events| - 1], until), events[|events| - 1];
      if last.at > until then front else front + [last]
  }

  /** The last thing a list of events says of a name. */
  function LastTouch(hash: Hash, granted: seq<Payload>, events: seq<Event>, name: string): Touch {
    if events == [] then Untouched
    else
      var t := TouchOf(hash, granted, events[|events| - 1].kind, name);
      if t.Untouched? then LastTouch(hash, granted, events[..|events| - 1], name) else t
  }

  /** `i` is the last of the events to touch the name. */
  ghost predicate IsLastTouch(hash: Hash, granted: seq<Payload>, events: seq<Event>, name: string, i: nat) {
    && i < |events|
    && !TouchOf(hash, granted, events[i].kind, name).Untouched?
    && (forall j :: i < j < |events| ==> TouchOf(hash, granted, events[j].kind, name).Untouched?)
  }

  lemma {:induction false} LastTouchIs(hash: Hash, granted: seq<Payload>, events: seq<Event>, name: string, i: nat)
    requires IsLastTouch(hash, granted, events, name, i)
    ensures LastTouch(hash, granted, events, name) == TouchOf(hash, granted, events[i].kind, name)
  {
    if i < |events| - 1 {
      assert events[..|events| - 1][i] == events[i];
      LastTouchIs(hash, granted, events[..|events| - 1], name, i);
    }
  }

  lemma {:induction false} LastTouchExists(hash: Hash, granted: seq<Payload>, events: seq<Event>, name: string)
    returns (i: nat)
    requires !LastTouch(hash, granted, events, name).Untouched?
    ensures IsLastTouch(hash, granted, events, name, i)
  {
    var n := |events| - 1;
    if TouchOf(hash, granted, events[n].kind, name).Untouched? {
      i := LastTouchExists(hash, granted, events[..n], name);
      assert events[..n][i] == events[i];
    } else {
      i := n;
    }
  }

  /** Last write wins: a name is held under a row exactly when some event holds it there and no later one touches it. */
  lemma {:induction false} LastWriteWins(hash: Hash, granted: seq<Payload>, events: seq<Event>, name: string, row: Row)
    ensures LastTouch(hash, granted, events, name) == Holds(row) <==>
            exists i: nat :: IsLastTouch(hash, granted, events, name, i)
              && TouchOf(hash, granted, events[i].kind, name) == Holds(row)
  {
    if LastTouch(hash, granted, events, name) == Holds(row) {
      var i := LastTouchExists(hash, granted, events, name);
      LastTouchIs(hash, granted, events, name, i);
    }
    if i: nat :| IsLastTouch(hash, granted, events, name, i)
                 && TouchOf(hash, granted, events[i].kind, name) == Holds(row) {
      LastTouchIs(hash, granted, events, name, i);
    }
  }

  /** What the run holds at the fork point: a name exactly when the last event to touch it holds it. */
  ghost predicate HeldByReplay(hash: Hash, granted: seq<Payload>, events: seq<Event>, held: map<string, Row>) {
    && (forall name :: name in held <==> LastTouch(hash, granted, events, name).Holds?)
    && (forall name :: name in held ==> LastTouch(hash, granted, events, name) == Holds(held[name]))
  }

  // ------------------------------------------------------------------ the same, over the events themselves

  predicate ValidPayload(p: Payload) {
    ValidName(p.name) && ValidDigest(p.sha) && p.size >= 0
  }

  /** A valid write of the name, or a grant that names it. */
  predicate Gives(kind: Kind, name: string) {
    || (kind.NoteWritten? && kind.note.name == name && ValidPayload(kind.note))
    || (kind.NotesInherited? && name in kind.names && ValidName(name))
  }

  /** Event `i` gives the name by the fork point, and no later one up to there deletes it. */
  predicate Stands(events: seq<Event>, until: int, name: string, i: int) {
    && 0 <= i < |events| && events[i].at <= until && Gives(events[i].kind, name)
    && (forall j :: i < j < |events| && events[j].at <= until ==> events[j].kind != NoteDeleted(name))
  }

  /** And none of them gives it again. */
  predicate StandsLast(events: seq<Event>, until: int, name: string, i: int) {
    && Stands(events, until, name, i)
    && (forall j :: i < j < |events| && events[j].at <= until ==> !Gives(events[j].kind, name))
  }

  /** Payload `k` is the last valid one of the name. */
  predicate LastOf(payloads: seq<Payload>, name: string, k: int) {
    && 0 <= k < |payloads| && payloads[k].name == name && ValidPayload(payloads[k])
    && (forall j :: k < j < |payloads| && payloads[j].name == name ==> !ValidPayload(payloads[j]))
  }

  /** The row is for the payload's digest, and has its content exactly when that is what the digest says. */
  predicate BoundTo(hash: Hash, row: Row, p: Payload) {
    && row.Bound? && row.binding.sha == p.sha && row.binding.size == p.size
    && (row.raw.Some? <==> p.content.Some? && |p.content.value| == p.size && hash(p.content.value) == p.sha)
    && (row.raw.Some? ==> row.raw == p.content)
  }

  /**
   The digest an event gives a name: a write its own; a grant that of the name's last valid row in it, or, when the
   event has no valid row at all, of the name's last valid row in what the run was granted, or else none.
   */
  ghost predicate DigestOf(hash: Hash, kind: Kind, granted: seq<Payload>, name: string, row: Row) {
    && (kind.NoteWritten? ==> BoundTo(hash, row, kind.note))
    && (kind.NotesInherited? ==>
          && (forall k :: LastOf(kind.notes, name, k) ==> BoundTo(hash, row, kind.notes[k]))
          && ((forall p <- kind.notes :: !ValidPayload(p)) ==>
                forall k :: LastOf(granted, name, k) ==> BoundTo(hash, row, granted[k]))
          && (row.Bound? ==>
                || (exists k :: LastOf(kind.notes, name, k))
                || ((forall p <- kind.notes :: !ValidPayload(p)) && exists k :: LastOf(granted, name, k))))
  }

  /** What the run was granted: what its first `run_started` says, or nothing. */
  ghost predicate GrantedBy(events: seq<Event>, granted: seq<Payload>) {
    || (granted == [] && forall e <- events :: !e.kind.RunStarted?)
    || (exists i :: 0 <= i < |events| && events[i].kind == RunStarted(granted)
                    && forall j :: 0 <= j < i ==> !events[j].kind.RunStarted?)
  }

  lemma {:induction false} GrantedIsFirst(events: seq<Event>)
    ensures GrantedBy(events, Granted(events))
  {
    if events != [] && !events[0].kind.RunStarted? {
      GrantedIsFirst(events[1..]);
      if i :| 0 <= i < |events| - 1 && events[1..][i].kind == RunStarted(Granted(events))
              && forall j :: 0 <= j < i ==> !events[1..][j].kind.RunStarted? {
        assert events[i + 1].kind == RunStarted(Granted(events));
        forall j | 0 <= j < i + 1
          ensures !events[j].kind.RunStarted?
        {
          assert j == 0 || events[j] == events[1..][j - 1];
        }
      }
    }
  }

  lemma {:induction false} RowForIsLast(hash: Hash, payloads: seq<Payload>, name: string)
    ensures RowFor(hash, payloads, name).Some? <==> exists k :: LastOf(payloads, name, k)
    ensures forall k :: LastOf(payloads, name, k) ==>
              RowFor(hash, payloads, name).Some? && BoundTo(hash, RowFor(hash, payloads, name).value, payloads[k])
  {
    if payloads != [] {
      var n := |payloads| - 1;
      RowForIsLast(hash, payloads[..n], name);
      if payloads[n].name == name && ValidPayload(payloads[n]) {
        assert LastOf(payloads, name, n);
      } else {
        forall k
          ensures LastOf(payloads, name, k) <==> LastOf(payloads[..n], name, k)
        {
        }
      }
    }
  }

  lemma InheritedRowIsLast(hash: Hash, kind: Kind, granted: seq<Payload>, name: string)
    requires kind.NotesInherited?
    ensures DigestOf(hash, kind, granted, name, InheritedRow(hash, kind.notes, granted, name))
  {
    RowForIsLast(hash, kind.notes, name);
    RowForIsLast(hash, granted, name);
    AnyRowIsValid(hash, kind.notes);
    if RowFor(hash, kind.notes, name).Some? {
      var k :| LastOf(kind.notes, name, k);
      assert kind.notes[k] in kind.notes;
    }
  }

  lemma AnyRowIsValid(hash: Hash, payloads: seq<Payload>)
    ensures AnyRow(hash, payloads) <==> exists p <- payloads :: ValidPayload(p)
  {
    if AnyRow(hash, payloads) {
      var k :| 0 <= k < |payloads| && NoteManifest(hash, payloads[k]).Some?;
      assert payloads[k] in payloads && ValidPayload(payloads[k]);
    }
    if p :| p in payloads && ValidPayload(p) {
      var k :| 0 <= k < |payloads| && payloads[k] == p;
      assert NoteManifest(hash, payloads[k]).Some?;
    }
  }

  /** What an event makes of a name, for each kind. */
  lemma TouchIsByKind(hash: Hash, granted: seq<Payload>, kind: Kind, name: string)
    ensures TouchOf(hash, granted, kind, name).Holds? <==> Gives(kind, name)
    ensures TouchOf(hash, granted, kind, name).Deletes? <==> kind == NoteDeleted(name) && ValidName(name)
    ensures Gives(kind, name) ==> DigestOf(hash, kind, granted, name, TouchOf(hash, granted, kind, name).row)
  {
    if kind.NotesInherited? {
      InheritedRowIsLast(hash, kind, granted, name);
    }
  }

  lemma GivenDigests(hash: Hash, granted: seq<Payload>, kind: Kind)
    ensures kind.NotesInherited? ==>
              forall name :: DigestOf(hash, kind, granted, name, InheritedRow(hash, kind.notes, granted, name))
  {
    if kind.NotesInherited? {
      forall name
        ensures DigestOf(hash, kind, granted, name, InheritedRow(hash, kind.notes, granted, name))
      {
        InheritedRowIsLast(hash, kind, granted, name);
      }
    }
  }

  lemma {:induction false} LastTouchStands(hash: Hash, granted: seq<Payload>, events: seq<Event>, until: int,
                                           name: string)
    ensures var t := LastTouch(hash, granted, Prefix(events, until), name);
            && (t.Holds? ==> ValidName(name))
            && (t.Holds? <==> exists i :: Stands(events, until, name, i))
            && (forall i :: StandsLast(events, until, name, i) ==>
                  t.Holds? && DigestOf(hash, events[i].kind, granted, name, t.row))
  {
    if events != [] {
      var n := |events| - 1;
      var front, last := events[..n], events[n];
      LastTouchStands(hash, granted, front, until, name);
      TouchIsByKind(hash, granted, last.kind, name);
      LastTouchNext(hash, granted, events, until, name);
      StandsNext(events, until, name);
    }
  }

  lemma LastTouchNext(hash: Hash, granted: seq<Payload>, events: seq<Event>, until: int, name: string)
    requires events != []
    ensures var front, last := events[..|events| - 1], events[|events| - 1];
            var t := TouchOf(hash, granted, last.kind, name);
            LastTouch(hash, granted, Prefix(events, until), name) ==
            if last.at > until || t.Untouched? then LastTouch(hash, granted, Prefix(front, until), name) else t
  {
    var before, last := Prefix(events[..|events| - 1], until), events[|events| - 1];
    assert (before + [last])[..|before|] == before;
  }

  /** One event more: it stands itself, or takes what stood away, or leaves it. */
  lemma StandsNext(events: seq<Event>, until: int, name: string)
    requires events != []
    ensures var n := |events| - 1;
            var front, here := events[..n], events[n].at <= until;
            && (here && Gives(events[n].kind, name) ==> StandsLast(events, until, name, n))
            && (here && events[n].kind == NoteDeleted(name) ==> forall i :: !Stands(events, until, name, i))
            && (!here || (!Gives(events[n].kind, name) && events[n].kind != NoteDeleted(name)) ==>
                  forall i :: (Stands(events, until, name, i) <==> Stands(front, until, name, i))
                              && (StandsLast(events, until, name, i) <==> StandsLast(front, until, name, i)))
            && (here && Gives(events[n].kind, name) ==> forall i :: StandsLast(events, until, name, i) ==> i == n)
  {
  }

  /**
   `_notes_in_journal`: last write wins. A name is held exactly when some valid write of it or grant naming it by
   the fork point has no delete after it, and then with the digest of the last such write or grant.
   */
  method NotesInJournal(hash: Hash, events: seq<Event>, until: int) returns (held: map<string, Row>)
    ensures HeldByReplay(hash, Granted(events), Prefix(events, until), held)
    ensures forall name :: name in held <==> exists i :: Stands(events, until, name, i)
    ensures forall name, i :: StandsLast(events, until, name, i) ==>
              name in held && DigestOf(hash, events[i].kind, Granted(events), name, held[name])
    ensures GrantedBy(events, Granted(events))
  {
    ghost var granted := Granted(events);
    held := map[];
    var k := 0;
    while k < |events|
      invariant k <= |events|
      invariant HeldByReplay(hash, granted, Prefix(events[..k], until), held)
    {
      var e := events[k];
      assert events[..k + 1][..k] == events[..k];
      if e.at <= until {
        held := Replay(hash, events, Prefix(events[..k], until), e, held);
      }
      k := k + 1;
    }
    assert events[..k] == events;
    HeldStands(hash, events, until, held);
  }

  /** What the replay holds, in terms of the events. */
  lemma {:induction false} HeldStands(hash: Hash, events: seq<Event>, until: int, held: map<string, Row>)
    requires HeldByReplay(hash, Granted(events), Prefix(events, until), held)
    ensures forall name :: name in held <==> exists i :: Stands(events, until, name, i)
    ensures forall name, i :: StandsLast(events, until, name, i) ==>
              name in held && DigestOf(hash, events[i].kind, Granted(events), name, held[name])
    ensures GrantedBy(events, Granted(events))
  {
    GrantedIsFirst(events);
    forall name
      ensures name in held <==> exists i :: Stands(events, until, name, i)
      ensures forall i :: StandsLast(events, until, name, i) ==>
                name in held && DigestOf(hash, events[i].kind, Granted(events), name, held[name])
    {
      LastTouchStands(hash, Granted(events), events, until, name);
    }
  }

  /** One event of the replay. */
  method Replay(hash: Hash, events: seq<Event>, ghost before: seq<Event>, e: Event, was: map<string, Row>)
    returns (held: map<string, Row>)
    requires HeldByReplay(hash, Granted(events), before, was)
    ensures HeldByReplay(hash, Granted(events), before + [e], held)
    ensures forall name :: name in held <==>
              Gives(e.kind, name) || (name in was && !(e.kind == NoteDeleted(name) && ValidName(name)))
    ensures forall name <- held :: if Gives(e.kind, name) then DigestOf(hash, e.kind, Granted(events), name, held[name])
                                   else name in was && held[name] == was[name]
  {
    GivenDigests(hash, Granted(events), e.kind);
    held := was;
    match e.kind
    case NotesInherited(names, notes) =>
      held := Inherit(hash, Granted(events), names, notes, was);
    case NoteWritten(p) =>
      var row := NoteManifest(hash, p);
      if row.Some? {
        held := was[p.name := row.value];
      }
    case NoteDeleted(name) =>
      if ValidName(name) {
        held := was - {name};
      }
    case _ =>
    assert (before + [e])[..|before|] == before;
  }

  method Inherit(hash: Hash, granted: seq<Payload>, names: seq<string>, notes: seq<Payload>, was: map<string, Row>)
    returns (held: map<string, Row>)
    ensures forall name :: name in held <==> name in was || (name in names && ValidName(name))
    ensures forall name :: name in held ==>
              held[name] ==
              if name in names && ValidName(name) then InheritedRow(hash, notes, granted, name) else was[name]
  {
    held := was;
    var k := 0;
    while k < |names|
      invariant k <= |names|
      invariant forall name :: name in held <==> name in was || (name in names[..k] && ValidName(name))
      invariant forall name :: name in held ==>
                  held[name] == if name in names[..k] && ValidName(name)
                                then InheritedRow(hash, notes, granted, name) else was[name]
    {
      if ValidName(names[k]) {
        held := held[names[k] := InheritedRow(hash, notes, granted, names[k])];
      }
      k := k + 1;
    }
  }

  // ------------------------------------------------------------------ generations of forks

  /** Both hold the note under one digest, or neither holds it. */
  predicate SameNote(s: Touch, t: Touch) {
    if s.Holds? && t.Holds? then
      (s.row.Unbound? && t.row.Unbound?) || (s.row.Bound? && t.row.Bound? && s.row.binding == t.row.binding)
    else !s.Holds? && !t.Holds?
  }

  predicate OwnNotes(events: seq<Event>) {
    forall k :: 0 <= k < |events| ==> !events[k].kind.NotesInherited? && !events[k].kind.RunStarted?
  }

  /** A resumed fork: its start with the grant, what it inherited, its own events, and where it is forked from. */
  datatype Generation = Generation(start: int, granted: seq<Payload>, names: seq<string>, notes: seq<Payload>,
                                   own: seq<Event>, until: int)

  function Header(g: Generation): seq<Event> {
    [Event(g.start, RunStarted(g.granted)), Event(g.start, NotesInherited(g.names, g.notes))]
  }

  /** The journal the fork's run writes. */
  function Journal(g: Generation): seq<Event> {
    Header(g) + g.own
  }

  /** What generation `g` holds at the point it is forked from. */
  function HeldBy(hash: Hash, g: Generation, name: string): Touch {
    LastTouch(hash, g.granted, Header(g) + Prefix(g.own, g.until), name)
  }

  lemma {:induction false} PrefixConcat(a: seq<Event>, b: seq<Event>, until: int)
    ensures Prefix(a + b, until) == Prefix(a, until) + Prefix(b, until)
  {
    if b == [] {
      assert a + b == a;
    } else {
      assert (a + b)[..|a + b| - 1] == a + b[..|b| - 1];
      PrefixConcat(a, b[..|b| - 1], until);
    }
  }

  lemma {:induction false} PrefixOne(e: Event, until: int)
    requires e.at <= until
    ensures Prefix([e], until) == [e]
  {
    assert [e][..0] == [];
  }

  /** What the replay of the fork's journal returns is what the fork holds. */
  lemma JournalReplays(hash: Hash, g: Generation, held: map<string, Row>)
    requires g.start <= g.until
    requires HeldByReplay(hash, Granted(Journal(g)), Prefix(Journal(g), g.until), held)
    ensures forall name :: name in held <==> HeldBy(hash, g, name).Holds?
    ensures forall name :: name in held ==> HeldBy(hash, g, name) == Holds(held[name])
  {
    var h := Header(g);
    PrefixConcat(h, g.own, g.until);
    PrefixConcat([h[0]], [h[1]], g.until);
    assert [h[0]] + [h[1]] == h;
    PrefixOne(h[0], g.until);
    PrefixOne(h[1], g.until);
    assert Journal(g)[0] == h[0] && Granted(Journal(g)) == g.granted;
  }

  /** `g` was granted every note its parent held, each under the parent's digest. */
  ghost predicate CarriesAll(hash: Hash, parent: string -> Touch, g: Generation) {
    forall name ::
      && (name in g.names && ValidName(name) <==> parent(name).Holds?)
      && (parent(name).Holds? ==> SameNote(parent(name), Holds(InheritedRow(hash, g.notes, g.granted, name))))
  }

  /** Own events decide a name alone, or leave it as it was. */
  lemma {:induction false} OwnNotesDecide(hash: Hash, granted: seq<Payload>, before: seq<Event>, own: seq<Event>,
                                          name: string)
    requires OwnNotes(own)
    ensures LastTouch(hash, granted, own, name) == LastTouch(hash, [], own, name)
    ensures LastTouch(hash, granted, before + own, name) ==
            if LastTouch(hash, [], own, name).Untouched? then LastTouch(hash, granted, before, name)
            else LastTouch(hash, [], own, name)
  {
    if own == [] {
      assert before + own == before;
    } else {
      var n := |own| - 1;
      OwnNotesDecide(hash, granted, before, own[..n], name);
      assert (before + own)[..|before + own| - 1] == before + own[..n];
    }
  }

  lemma {:induction false} HeaderHolds(hash: Hash, g: Generation, name: string)
    ensures LastTouch(hash, g.granted, Header(g), name) ==
            if name in g.names && ValidName(name)
            then Holds(InheritedRow(hash, g.notes, g.granted, name))
            else Untouched
  {
    var h := Header(g);
    var first := [h[0]];
    assert h[..|h| - 1] == first && first[..|first| - 1] == [];
    assert LastTouch(hash, g.granted, [], name).Untouched?;
    assert TouchOf(hash, g.granted, h[0].kind, name).Untouched?;
    assert LastTouch(hash, g.granted, first, name).Untouched?;
  }

  lemma {:induction false} PrefixOwn(events: seq<Event>, until: int)
    requires OwnNotes(events)
    ensures OwnNotes(Prefix(events, until))
  {
    if events != [] {
      PrefixOwn(events[..|events| - 1], until);
    }
  }

  /**
   A fork that carried every held note goes on as if the parent had: what its journal replays to is what the
   parent's prefix followed by the fork's own events replays to.
   */
  lemma {:induction false} ForkContinuesParent(hash: Hash, granted: seq<Payload>, prefix: seq<Event>, g: Generation,
                                               parent: string -> Touch, name: string)
    requires forall n :: parent(n) == LastTouch(hash, granted, prefix, n)
    requires OwnNotes(g.own) && CarriesAll(hash, parent, g)
    ensures SameNote(HeldBy(hash, g, name), LastTouch(hash, granted, prefix + Prefix(g.own, g.until), name))
  {
    PrefixOwn(g.own, g.until);
    OwnNotesDecide(hash, g.granted, Header(g), Prefix(g.own, g.until), name);
    OwnNotesDecide(hash, granted, prefix, Prefix(g.own, g.until), name);
    HeaderHolds(hash, g, name);
    assert parent(name) == LastTouch(hash, granted, prefix, name);
    assert name in g.names && ValidName(name) <==> parent(name).Holds?;
  }

  /** The whole line's own events, each generation's up to where it was forked. */
  function LineOf(root: seq<Event>, forks: seq<Generation>): seq<Event> {
    if forks == [] then root
    else
      var g := forks[|forks| - 1];
      LineOf(root, forks[..|forks| - 1]) + Prefix(g.own, g.until)
  }

  /** What the last generation of a line holds, by its own journal alone. */
  function HeldByLast(hash: Hash, root: seq<Event>, forks: seq<Generation>, name: string): Touch {
    if forks == [] then LastTouch(hash, [], root, name) else HeldBy(hash, forks[|forks| - 1], name)
  }

  ghost predicate CarriedThroughout(hash: Hash, root: seq<Event>, forks: seq<Generation>) {
    forall k :: 0 <= k < |forks| ==>
      && OwnNotes(forks[k].own)
      && CarriesAll(hash, n => HeldByLast(hash, root, forks[..k], n), forks[k])
  }

  /** A fork of a fork of a fork holds what one run through all their events would hold. */
  lemma {:induction false} GenerationsCompose(hash: Hash, root: seq<Event>, forks: seq<Generation>, name: string)
    requires CarriedThroughout(hash, root, forks)
    ensures SameNote(HeldByLast(hash, root, forks, name), LastTouch(hash, [], LineOf(root, forks), name))
  {
    if forks != [] {
      var n := |forks| - 1;
      var g, front := forks[n], forks[..n];
      CarriedSoFar(hash, root, forks, name);
      GenerationsCompose(hash, root, front, name);
      PrefixOwn(g.own, g.until);
      OwnNotesDecide(hash, g.granted, Header(g), Prefix(g.own, g.until), name);
      OwnNotesDecide(hash, [], LineOf(root, front), Prefix(g.own, g.until), name);
      HeaderHolds(hash, g, name);
    }
  }

  /** The line up to its last fork, and what that fork was granted of one name. */
  lemma CarriedSoFar(hash: Hash, root: seq<Event>, forks: seq<Generation>, name: string)
    requires forks != [] && CarriedThroughout(hash, root, forks)
    ensures var n := |forks| - 1;
            var g, held := forks[n], HeldByLast(hash, root, forks[..n], name);
            && CarriedThroughout(hash, root, forks[..n]) && OwnNotes(g.own)
            && (name in g.names && ValidName(name) <==> held.Holds?)
            && (held.Holds? ==> SameNote(held, Holds(InheritedRow(hash, g.notes, g.granted, name))))
  {
    var n := |forks| - 1;
    var front := forks[..n];
    forall k | 0 <= k < n
      ensures OwnNotes(front[k].own) && CarriesAll(hash, m => HeldByLast(hash, root, front[..k], m), front[k])
    {
      assert front[..k] == forks[..k] && front[k] == forks[k];
    }
    var parent := m => HeldByLast(hash, root, front, m);
    assert CarriesAll(hash, parent, forks[n]);
    assert parent(name) == HeldByLast(hash, root, front, name);
  }
}
