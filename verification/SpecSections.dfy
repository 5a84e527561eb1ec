/** The list sections of a spec: adding a guardrail in place of what it supersedes, and removing entries by name. */
module SpecSections {
  import opened Options
  import opened Json
  import Decimal
  import opened SpecPath

  // ------------------------------------------------------------------ guardrails

  /** A guardrail entry: a mapping with a builtin name and its other fields, or something else left alone. */
  datatype Guardrail = Guardrail(builtin: Option<string>, fields: map<string, string>) | NotAMapping(value: Json)

  /** Whether adding `entry` supersedes `existing`: any entry of a singleton's name, or an exact duplicate. */
  predicate Supersedes(singletons: set<string>, entry: Guardrail, existing: Guardrail)
    requires entry.Guardrail? && entry.builtin.Some?
  {
    existing.Guardrail? && existing.builtin == entry.builtin && (entry.builtin.value in singletons || existing == entry)
  }

  function Others(singletons: set<string>, entry: Guardrail, es: seq<Guardrail>): (r: seq<Guardrail>)
    requires entry.Guardrail? && entry.builtin.Some?
  {
    if es == [] then []
    else if Supersedes(singletons, entry, es[0]) then Others(singletons, entry, es[1..])
    else [es[0]] + Others(singletons, entry, es[1..])
  }

  /** The position of the first superseded entry, or the length. */
  function FirstSuperseded(singletons: set<string>, entry: Guardrail, es: seq<Guardrail>): (i: nat)
    requires entry.Guardrail? && entry.builtin.Some?
    ensures i <= |es|
    ensures i < |es| ==> Supersedes(singletons, entry, es[i])
    ensures forall j :: 0 <= j < i ==> !Supersedes(singletons, entry, es[j])
  {
    if es == [] || Supersedes(singletons, entry, es[0]) then 0
    else 1 + FirstSuperseded(singletons, entry, es[1..])
  }

  /** The list with `entry` at the first superseded place, or at the end, and no other superseded entry. */
  function WithGuardrail(singletons: set<string>, entry: Guardrail, es: seq<Guardrail>): seq<Guardrail>
    requires entry.Guardrail? && entry.builtin.Some?
  {
    var i := FirstSuperseded(singletons, entry, es);
    es[..i] + [entry] + (if i < |es| then Others(singletons, entry, es[i + 1..]) else [])
  }

  /** `del entries[i]`. */
  function Dropped(es: seq<Guardrail>, i: nat): seq<Guardrail>
    requires i < |es|
  {
    es[..i] + es[i + 1..]
  }

  class Section {
    var entries: seq<Guardrail>

    constructor (entries: seq<Guardrail>)
      ensures this.entries == entries
    {
      this.entries := entries;
    }

    /** `_apply_guardrail`: superseded entries are collected by index, then deleted from the last to the second. */
    method ApplyGuardrail(singletons: set<string>, entry: Guardrail)
      requires entry.Guardrail? && entry.builtin.Some?
      modifies this
      ensures entries == WithGuardrail(singletons, entry, old(entries))
    {
      var superseded := SupersededIndexes(singletons, entry, entries);
      ghost var was := entries;
      FirstIsFirst(singletons, entry, was);
      if superseded == [] {
        entries := entries + [entry];
        assert was[..|was|] == was;
        return;
      }
      entries := entries[superseded[0] := entry];
      var k := |superseded|;
      while k > 1
        invariant 1 <= k <= |superseded|
        invariant entries == Collapsed(singletons, entry, was, superseded, k)
      {
        k := k - 1;
        DropOne(singletons, entry, was, superseded, k);
        entries := Dropped(entries, superseded[k]);
      }
      AllDropped(singletons, entry, was, superseded);
    }
  }

  /** The list when the superseded positions from `k` on are deleted and the first holds the new entry. */
  function Collapsed(singletons: set<string>, entry: Guardrail, was: seq<Guardrail>, superseded: seq<nat>, k: nat):
    seq<Guardrail>
    requires entry.Guardrail? && entry.builtin.Some?
    requires 1 <= k <= |superseded| && superseded == SupersededIndexes(singletons, entry, was)
  {
    var end := LastKept(superseded, k, |was|);
    was[..superseded[0]] + [entry] + was[superseded[0] + 1..end] + Others(singletons, entry, was[end..])
  }

  lemma {:induction false} OthersConcat(singletons: set<string>, entry: Guardrail, a: seq<Guardrail>, b: seq<Guardrail>)
    requires entry.Guardrail? && entry.builtin.Some?
    ensures Others(singletons, entry, a + b) == Others(singletons, entry, a) + Others(singletons, entry, b)
  {
    if a == [] {
      assert a + b == b;
    } else {
      assert (a + b)[1..] == a[1..] + b;
      OthersConcat(singletons, entry, a[1..], b);
    }
  }

  lemma {:induction false} NoneSuperseded(singletons: set<string>, entry: Guardrail, es: seq<Guardrail>)
    requires entry.Guardrail? && entry.builtin.Some?
    requires forall i :: 0 <= i < |es| ==> !Supersedes(singletons, entry, es[i])
    ensures Others(singletons, entry, es) == es
  {
    if es != [] {
      NoneSuperseded(singletons, entry, es[1..]);
    }
  }

  lemma AscendingGap(xs: seq<nat>, k: nat, j: nat)
    requires Ascending(xs) && k < |xs| && j < |xs|
    ensures xs[j] <= xs[k] || (k + 1 < |xs| && xs[j] >= xs[k + 1])
  {
  }

  /** Past one superseded position, everything up to the next is kept. */
  lemma {:induction false} OthersToNext(
      singletons: set<string>, entry: Guardrail, was: seq<Guardrail>, superseded: seq<nat>, k: nat)
    requires entry.Guardrail? && entry.builtin.Some?
    requires superseded == SupersededIndexes(singletons, entry, was) && k < |superseded|
    ensures superseded[k] < LastKept(superseded, k + 1, |was|) <= |was|
    ensures var here, end := superseded[k], LastKept(superseded, k + 1, |was|);
            && Others(singletons, entry, was[here + 1..]) == was[here + 1..end] + Others(singletons, entry, was[end..])
            && Others(singletons, entry, was[here..]) == Others(singletons, entry, was[here + 1..])
  {
    var here, end := superseded[k], LastKept(superseded, k + 1, |was|);
    forall i: nat | here < i < end
      ensures !Supersedes(singletons, entry, was[i])
    {
      if Supersedes(singletons, entry, was[i]) {
        var j := SupersededIsIndexed(singletons, entry, was, i);
        AscendingGap(superseded, k, j);
      }
    }
    assert was[here + 1..] == was[here + 1..end] + was[end..];
    OthersConcat(singletons, entry, was[here + 1..end], was[end..]);
    NoneSuperseded(singletons, entry, was[here + 1..end]);
    assert was[here..][1..] == was[here + 1..];
  }

  /** The collapsed list around the `k`-th superseded position, before and after that one is deleted. */
  lemma {:induction false} CollapsedAround(
      singletons: set<string>, entry: Guardrail, was: seq<Guardrail>, superseded: seq<nat>, k: nat)
    requires entry.Guardrail? && entry.builtin.Some?
    requires superseded == SupersededIndexes(singletons, entry, was) && 1 <= k < |superseded|
    ensures superseded[0] < superseded[k] < |was|
    ensures var left := was[..superseded[0]] + [entry] + was[superseded[0] + 1..superseded[k]];
            var right := Others(singletons, entry, was[superseded[k] + 1..]);
            && Collapsed(singletons, entry, was, superseded, k) == left + right
            && Collapsed(singletons, entry, was, superseded, k + 1) == left + [was[superseded[k]]] + right
            && |left| == superseded[k]
  {
    OthersToNext(singletons, entry, was, superseded, k);
    var first, here, end := superseded[0], superseded[k], LastKept(superseded, k + 1, |was|);
    SplitAt(was, first + 1, here, end);
    Regroup(was[..first] + [entry], was[first + 1..here], was[here], was[here + 1..end],
            Others(singletons, entry, was[end..]));
  }

  lemma SplitAt(es: seq<Guardrail>, lo: nat, mid: nat, hi: nat)
    requires lo <= mid < hi <= |es|
    ensures es[lo..hi] == es[lo..mid] + [es[mid]] + es[mid + 1..hi]
  {
  }

  lemma Regroup(a: seq<Guardrail>, b: seq<Guardrail>, e: Guardrail, c: seq<Guardrail>, d: seq<Guardrail>)
    ensures a + (b + [e] + c) + d == a + b + [e] + (c + d)
  {
  }

  lemma {:induction false} DropOne(
      singletons: set<string>, entry: Guardrail, was: seq<Guardrail>, superseded: seq<nat>, k: nat)
    requires entry.Guardrail? && entry.builtin.Some?
    requires superseded == SupersededIndexes(singletons, entry, was) && 1 <= k < |superseded|
    ensures superseded[k] < |Collapsed(singletons, entry, was, superseded, k + 1)|
    ensures Dropped(Collapsed(singletons, entry, was, superseded, k + 1), superseded[k])
         == Collapsed(singletons, entry, was, superseded, k)
  {
    CollapsedAround(singletons, entry, was, superseded, k);
    var left := was[..superseded[0]] + [entry] + was[superseded[0] + 1..superseded[k]];
    DropMiddle(left, was[superseded[k]], Others(singletons, entry, was[superseded[k] + 1..]));
  }

  lemma DropMiddle(left: seq<Guardrail>, e: Guardrail, right: seq<Guardrail>)
    ensures Dropped(left + [e] + right, |left|) == left + right
  {
  }

  lemma JoinLast(a: seq<Guardrail>, b: seq<Guardrail>, c: seq<Guardrail>)
    ensures a + b + c == a + (b + c)
  {
  }

  lemma {:induction false} AllDropped(
      singletons: set<string>, entry: Guardrail, was: seq<Guardrail>, superseded: seq<nat>)
    requires entry.Guardrail? && entry.builtin.Some?
    requires superseded == SupersededIndexes(singletons, entry, was) && superseded != []
    ensures Collapsed(singletons, entry, was, superseded, 1) == WithGuardrail(singletons, entry, was)
  {
    OthersToNext(singletons, entry, was, superseded, 0);
    FirstIsFirst(singletons, entry, was);
    var first, end := superseded[0], LastKept(superseded, 1, |was|);
    JoinLast(was[..first] + [entry], was[first + 1..end], Others(singletons, entry, was[end..]));
  }

  lemma {:induction false} FirstIsFirst(singletons: set<string>, entry: Guardrail, was: seq<Guardrail>)
    requires entry.Guardrail? && entry.builtin.Some?
    ensures var superseded := SupersededIndexes(singletons, entry, was);
            FirstSuperseded(singletons, entry, was) == if superseded == [] then |was| else superseded[0]
  {
    var i := FirstSuperseded(singletons, entry, was);
    if i < |was| {
      var j := SupersededIsIndexed(singletons, entry, was, i);
    }
  }

  /** The end of the part not yet collapsed when the indexes from `k` on are deleted. */
  function LastKept(superseded: seq<nat>, k: nat, n: nat): nat {
    if k < |superseded| then superseded[k] else n
  }

  predicate Ascending(xs: seq<nat>) {
    forall j, k :: 0 <= j < k < |xs| ==> xs[j] < xs[k]
  }

  /** All superseded positions, in order. */
  function SupersededIndexes(singletons: set<string>, entry: Guardrail, es: seq<Guardrail>): (r: seq<nat>)
    requires entry.Guardrail? && entry.builtin.Some?
    ensures Ascending(r)
    ensures forall k :: 0 <= k < |r| ==> r[k] < |es| && Supersedes(singletons, entry, es[r[k]])
  {
    if es == [] then []
    else
      var n := |es| - 1;
      var front := SupersededIndexes(singletons, entry, es[..n]);
      if Supersedes(singletons, entry, es[n]) then front + [n] else front
  }

  /** Where a superseded entry stands in the list of their positions. */
  lemma {:induction false} SupersededIsIndexed(singletons: set<string>, entry: Guardrail, es: seq<Guardrail>, i: nat)
    returns (k: nat)
    requires entry.Guardrail? && entry.builtin.Some? && i < |es| && Supersedes(singletons, entry, es[i])
    ensures k < |SupersededIndexes(singletons, entry, es)| && SupersededIndexes(singletons, entry, es)[k] == i
  {
    var n := |es| - 1;
    if i < n {
      k := SupersededIsIndexed(singletons, entry, es[..n], i);
    } else {
      k := |SupersededIndexes(singletons, entry, es[..n])|;
    }
  }

  // ------------------------------------------------------------------ what adding a guardrail leaves

  lemma {:induction false} OthersKeepNone(singletons: set<string>, entry: Guardrail, es: seq<Guardrail>)
    requires entry.Guardrail? && entry.builtin.Some?
    ensures forall e :: e in Others(singletons, entry, es) ==> e in es && !Supersedes(singletons, entry, e)
  {
    if es != [] {
      OthersKeepNone(singletons, entry, es[1..]);
    }
  }

  /** What follows the new entry: the other entries from there on. */
  function AfterIt(singletons: set<string>, entry: Guardrail, es: seq<Guardrail>): seq<Guardrail>
    requires entry.Guardrail? && entry.builtin.Some?
  {
    var i := FirstSuperseded(singletons, entry, es);
    if i < |es| then Others(singletons, entry, es[i + 1..]) else []
  }

  lemma {:induction false} NoneAfterIt(singletons: set<string>, entry: Guardrail, es: seq<Guardrail>)
    requires entry.Guardrail? && entry.builtin.Some?
    ensures forall j :: 0 <= j < |AfterIt(singletons, entry, es)| ==>
              !Supersedes(singletons, entry, AfterIt(singletons, entry, es)[j])
    ensures Others(singletons, entry, es) ==
            es[..FirstSuperseded(singletons, entry, es)] + AfterIt(singletons, entry, es)
  {
    var i := FirstSuperseded(singletons, entry, es);
    NoneSuperseded(singletons, entry, es[..i]);
    if i < |es| {
      OthersKeepNone(singletons, entry, es[i + 1..]);
      OthersFromFirst(singletons, entry, es, i);
    } else {
      assert es[..i] == es;
    }
  }

  /** With no superseded entry before a superseded one, the others are those before it and those after it. */
  lemma {:induction false} OthersFromFirst(singletons: set<string>, entry: Guardrail, es: seq<Guardrail>, i: nat)
    requires entry.Guardrail? && entry.builtin.Some? && i < |es| && Supersedes(singletons, entry, es[i])
    requires Others(singletons, entry, es[..i]) == es[..i]
    ensures Others(singletons, entry, es) == es[..i] + Others(singletons, entry, es[i + 1..])
  {
    assert es == es[..i] + es[i..] && es[i..][1..] == es[i + 1..];
    OthersConcat(singletons, entry, es[..i], es[i..]);
  }

  /** Around an entry that is superseded, with none before it and none after it. */
  lemma {:induction false} OthersAround(
      singletons: set<string>, entry: Guardrail, before: seq<Guardrail>, after: seq<Guardrail>)
    requires entry.Guardrail? && entry.builtin.Some?
    requires forall j :: 0 <= j < |before| ==> !Supersedes(singletons, entry, before[j])
    requires forall j :: 0 <= j < |after| ==> !Supersedes(singletons, entry, after[j])
    ensures Others(singletons, entry, before + [entry] + after) == before + after
    ensures forall j :: 0 <= j < |before + [entry] + after| ==>
              (Supersedes(singletons, entry, (before + [entry] + after)[j]) <==> j == |before|)
    ensures FirstSuperseded(singletons, entry, before + [entry] + after) == |before|
  {
    var r := before + [entry] + after;
    assert r == before + ([entry] + after);
    OthersConcat(singletons, entry, before, [entry] + after);
    assert ([entry] + after)[1..] == after;
    NoneSuperseded(singletons, entry, before);
    NoneSuperseded(singletons, entry, after);
    forall j | 0 <= j < |r|
      ensures Supersedes(singletons, entry, r[j]) <==> j == |before|
    {
      assert r[j] == if j < |before| then before[j] else if j == |before| then entry else after[j - |before| - 1];
    }
    assert r[|before|] == entry;
  }

  /**
   Exactly one superseded entry is left, the new one, where the first superseded one was or at the end; all
   other entries are there in their order.
   */
  lemma {:induction false} OneGuardrailLeft(singletons: set<string>, entry: Guardrail, es: seq<Guardrail>)
    requires entry.Guardrail? && entry.builtin.Some?
    ensures var r, i := WithGuardrail(singletons, entry, es), FirstSuperseded(singletons, entry, es);
            && i < |r| && r[i] == entry
            && (forall j :: 0 <= j < |r| ==> (Supersedes(singletons, entry, r[j]) <==> j == i))
            && Others(singletons, entry, r) == Others(singletons, entry, es)
  {
    NoneAfterIt(singletons, entry, es);
    OthersAround(singletons, entry, es[..FirstSuperseded(singletons, entry, es)], AfterIt(singletons, entry, es));
  }

  /** The entries but those with a property, in their order. */
  function Except(es: seq<Guardrail>, gone: Guardrail -> bool): seq<Guardrail> {
    if es == [] then []
    else Except(es[..|es| - 1], gone) + (if gone(es[|es| - 1]) then [] else [es[|es| - 1]])
  }

  /** Of the entries with the property one is left, the new one: where the first was, else at the end. */
  ghost predicate Replaced(es: seq<Guardrail>, r: seq<Guardrail>, entry: Guardrail, gone: Guardrail -> bool) {
    && Except(r, gone) == Except(es, gone)
    && exists i :: 0 <= i < |r| && r[i] == entry && i <= |es| && r[..i] == es[..i]
         && (if i < |es| then gone(es[i]) else forall e <- es :: !gone(e))
         && (forall j :: 0 <= j < |r| ==> (gone(r[j]) <==> j == i))
  }

  lemma {:induction false} ExceptFirst(es: seq<Guardrail>, gone: Guardrail -> bool)
    requires es != []
    ensures Except(es, gone) == (if gone(es[0]) then [] else [es[0]]) + Except(es[1..], gone)
  {
    if |es| > 1 {
      ExceptFirst(es[..|es| - 1], gone);
      assert es[..|es| - 1][1..] == es[1..][..|es| - 2];
    } else {
      assert es[..0] == [] && es[1..] == [];
    }
  }

  lemma {:induction false} OthersAreExcept(singletons: set<string>, entry: Guardrail, es: seq<Guardrail>,
                                           gone: Guardrail -> bool)
    requires entry.Guardrail? && entry.builtin.Some?
    requires forall e :: gone(e) <==> Supersedes(singletons, entry, e)
    ensures Others(singletons, entry, es) == Except(es, gone)
  {
    if es != [] {
      ExceptFirst(es, gone);
      OthersAreExcept(singletons, entry, es[1..], gone);
    }
  }

  lemma {:induction false} ReplacedWhere(singletons: set<string>, entry: Guardrail, es: seq<Guardrail>,
                                         gone: Guardrail -> bool)
    requires entry.Guardrail? && entry.builtin.Some?
    requires forall e :: gone(e) <==> Supersedes(singletons, entry, e)
    ensures Replaced(es, WithGuardrail(singletons, entry, es), entry, gone)
  {
    var r, i := WithGuardrail(singletons, entry, es), FirstSuperseded(singletons, entry, es);
    OneGuardrailLeft(singletons, entry, es);
    OthersAreExcept(singletons, entry, es, gone);
    OthersAreExcept(singletons, entry, r, gone);
    assert r[..i] == es[..i];
  }

  /** The mappings with a builtin name. */
  function Named(builtin: string): Guardrail -> bool {
    (e: Guardrail) => e.Guardrail? && e.builtin == Some(builtin)
  }

  function Same(entry: Guardrail): Guardrail -> bool {
    (e: Guardrail) => e == entry
  }

  /** Adding a singleton takes the place of every entry of its name, and leaves all others. */
  lemma {:induction false} SingletonIsReplaced(singletons: set<string>, entry: Guardrail, es: seq<Guardrail>)
    requires entry.Guardrail? && entry.builtin.Some? && entry.builtin.value in singletons
    ensures Replaced(es, WithGuardrail(singletons, entry, es), entry, Named(entry.builtin.value))
  {
    ReplacedWhere(singletons, entry, es, Named(entry.builtin.value));
  }

  /** Any other guardrail takes the place of its exact duplicates alone. */
  lemma {:induction false} DuplicatesAreCollapsed(singletons: set<string>, entry: Guardrail, es: seq<Guardrail>)
    requires entry.Guardrail? && entry.builtin.Some? && entry.builtin.value !in singletons
    ensures Replaced(es, WithGuardrail(singletons, entry, es), entry, Same(entry))
  {
    ReplacedWhere(singletons, entry, es, Same(entry));
  }

  /** Adding the same guardrail again changes nothing. */
  lemma AddingTwiceIsOnce(singletons: set<string>, entry: Guardrail, es: seq<Guardrail>)
    requires entry.Guardrail? && entry.builtin.Some?
    ensures WithGuardrail(singletons, entry, WithGuardrail(singletons, entry, es))
         == WithGuardrail(singletons, entry, es)
  {
    var i, after := FirstSuperseded(singletons, entry, es), AfterIt(singletons, entry, es);
    var r := es[..i] + [entry] + after;
    NoneAfterIt(singletons, entry, es);
    OthersAround(singletons, entry, es[..i], after);
    assert r[..i] == es[..i] && r[i + 1..] == after;
    NoneSuperseded(singletons, entry, after);
  }

  // ------------------------------------------------------------------ removing by name

  /** The list sections of a spec: each with its dotted root and its path, no two under one top-level key. */
  const SECTIONS: seq<(string, Parts)> :=
    [("tools", ["tools"]), ("guardrails", ["guardrails"]), ("verify.validators", ["verify", "validators"]),
     ("hooks", ["hooks"]), ("skills", ["skills"]), ("mcp_servers", ["mcp_servers"])]

  predicate FieldIs(es: Entries, field: string, target: string) {
    Get(es, field) == Some(Str(target))
  }

  /** `_ref_matches`: a plain name, or a mapping whose builtin, code or name is the target. */
  predicate RefMatches(item: Json, target: string) {
    match item
    case Str(s) => s == target
    case Dict(es) => FieldIs(es, "builtin", target) || FieldIs(es, "code", target) || FieldIs(es, "name", target)
    case _ => false
  }

  /** A text that is the target, or a mapping that names it as its builtin, its code or its name. */
  lemma RefMatchesExactly(item: Json, target: string)
    ensures RefMatches(item, target) <==>
              || item == Str(target)
              || (item.Dict? && exists field :: field in {"builtin", "code", "name"}
                                  && Get(item.entries, field) == Some(Str(target)))
  {
    if RefMatches(item, target) && item.Dict? {
      var field := if FieldIs(item.entries, "builtin", target) then "builtin"
                   else if FieldIs(item.entries, "code", target) then "code" else "name";
      assert field in {"builtin", "code", "name"} && Get(item.entries, field) == Some(Str(target));
    }
  }

  /** What is kept of one list and of another is what is kept of both; of one entry, all or nothing. */
  lemma {:induction false} KeptConcat(a: seq<Json>, b: seq<Json>, target: string)
    ensures Kept(a + b, target) == Kept(a, target) + Kept(b, target)
    ensures forall item :: Kept([item], target) == if RefMatches(item, target) then [] else [item]
  {
    forall item
      ensures Kept([item], target) == if RefMatches(item, target) then [] else [item]
    {
      assert [item][1..] == [];
    }
    if a == [] {
      assert a + b == b;
    } else {
      assert (a + b)[1..] == a[1..] + b;
      KeptConcat(a[1..], b, target);
    }
  }

  function Kept(items: seq<Json>, target: string): (r: seq<Json>)
    ensures |r| <= |items|
    ensures |r| == |items| <==> forall k :: 0 <= k < |items| ==> !RefMatches(items[k], target)
    ensures |r| == |items| ==> r == items
    ensures forall k :: 0 <= k < |r| ==> !RefMatches(r[k], target)
  {
    if items == [] then []
    else if RefMatches(items[0], target) then Kept(items[1..], target)
    else [items[0]] + Kept(items[1..], target)
  }

  /** Whether the section holds a list with an entry of that name. */
  predicate SectionMatches(raw: Json, parts: Parts, target: string) {
    var section := Lookup(raw, parts);
    section.Some? && section.value.List? &&
    exists k :: 0 <= k < |section.value.items| && RefMatches(section.value.items[k], target)
  }

  function MatchingRoots(raw: Json, target: string): (roots: set<string>) {
    set j | 0 <= j < |SECTIONS| && SectionMatches(raw, SECTIONS[j].1, target) :: SECTIONS[j].0
  }

  /** What removing the target leaves at a section's path. */
  function SectionAfter(raw: Json, parts: Parts, target: string): Option<Json> {
    var section := Lookup(raw, parts);
    if SectionMatches(raw, parts, target) then Some(List(Kept(section.value.items, target))) else section
  }

  /** A section that is a list keeps the entries that do not match; anything else there is left alone. */
  predicate LosesMatches(was: Option<Json>, is_: Option<Json>, target: string) {
    is_ == if was.Some? && was.value.List? then Some(List(Kept(was.value.items, target))) else was
  }

  lemma {:induction false} SectionLosesMatches(raw: Json, parts: Parts, target: string)
    ensures LosesMatches(Lookup(raw, parts), SectionAfter(raw, parts, target), target)
  {
  }

  /** The two paths have different segments at some place. */
  predicate Apart(p: Parts, q: Parts) {
    p != [] && q != [] && (p[0] != q[0] || Apart(p[1..], q[1..]))
  }

  /** No segment is a list index. */
  predicate OnlyNames(p: Parts) {
    forall k :: 0 <= k < |p| ==> !Decimal.AllDigits(p[k])
  }

  /** Every path that parts from each section's: what removing by name must leave alone. */
  predicate OutsideSections(q: Parts) {
    forall j :: 0 <= j < |SECTIONS| ==> Apart(SECTIONS[j].1, q)
  }

  lemma SectionsDiffer(i: nat, j: nat)
    requires i < j < |SECTIONS|
    ensures SECTIONS[i].0 != SECTIONS[j].0 && SECTIONS[i].1[0] != SECTIONS[j].1[0]
  {
    assert "tools"[0] == 't' && "guardrails"[0] == 'g' && "verify.validators"[0] == 'v' && "verify"[0] == 'v';
    assert "hooks"[0] == 'h' && "skills"[0] == 's' && "mcp_servers"[0] == 'm';
  }

  lemma SectionsAreNames(j: nat)
    requires j < |SECTIONS|
    ensures OnlyNames(SECTIONS[j].1)
  {
    assert "tools"[0] == 't' && "guardrails"[0] == 'g' && "verify"[0] == 'v' && "validators"[0] == 'v';
    assert "hooks"[0] == 'h' && "skills"[0] == 's' && "mcp_servers"[0] == 'm';
  }

  /** Along names that read something, paths that part resolve differently where they part. */
  lemma {:induction false} ApartDiverges(node: Json, p: Parts, q: Parts)
    requires OnlyNames(p) && Lookup(node, p).Some? && Apart(p, q)
    ensures Diverge(node, p, q)
    decreases |p|
  {
    if p[0] == q[0] {
      ApartDiverges(Child(node, p[0]).value, p[1..], q[1..]);
    }
  }

  /** One section's list replaced by the entries kept; every path that parts from its own reads as before. */
  lemma {:induction false} SetSection(raw: Json, parts: Parts, value: Json)
    requires raw.Dict? && parts != [] && OnlyNames(parts) && Lookup(raw, parts).Some?
    ensures SetPath(raw, parts, value).Ok? && SetPath(raw, parts, value).value.Dict?
    ensures Lookup(SetPath(raw, parts, value).value, parts) == Some(value)
    ensures forall q: Parts :: Apart(parts, q) ==> Lookup(SetPath(raw, parts, value).value, q) == Lookup(raw, q)
  {
    SetWhereItReads(raw, parts, value);
    SetKeepsContainer(raw, parts, value);
    GetAfterSet(raw, parts, value);
    forall q: Parts | Apart(parts, q)
      ensures Lookup(SetPath(raw, parts, value).value, q) == Lookup(raw, q)
    {
      ApartDiverges(raw, parts, q);
      SetElsewhere(raw, parts, value, q);
    }
  }

  ghost predicate RemovedUpTo(raw: Json, r: Json, target: string, k: nat)
    requires k <= |SECTIONS|
  {
    && r.Dict?
    && (forall j :: 0 <= j < |SECTIONS| ==>
          Lookup(r, SECTIONS[j].1)
          == if j < k then SectionAfter(raw, SECTIONS[j].1, target) else Lookup(raw, SECTIONS[j].1))
    && OutsideReads(raw, r)
  }

  /** Outside the sections everything reads as before. */
  ghost predicate OutsideReads(raw: Json, r: Json) {
    forall q: Parts :: OutsideSections(q) ==> Lookup(r, q) == Lookup(raw, q)
  }

  /**
   `_remove_from_lists`: every section loses its matching entries and nothing else changes. The sections that
   change are exactly the ones `matching_roots` names.
   */
  method RemoveFromLists(raw: Json, target: string) returns (r: Json, removed: bool)
    requires raw.Dict?
    ensures RemovedUpTo(raw, r, target, |SECTIONS|)
    ensures forall j :: 0 <= j < |SECTIONS| ==>
              LosesMatches(Lookup(raw, SECTIONS[j].1), Lookup(r, SECTIONS[j].1), target)
    ensures removed <==> MatchingRoots(raw, target) != {}
    ensures forall j :: 0 <= j < |SECTIONS| ==>
              (SECTIONS[j].0 in MatchingRoots(raw, target) <==> Lookup(r, SECTIONS[j].1) != Lookup(raw, SECTIONS[j].1))
    ensures MatchingRoots(r, target) == {}
  {
    r, removed := raw, false;
    var k := 0;
    while k < |SECTIONS|
      invariant k <= |SECTIONS| && RemovedUpTo(raw, r, target, k)
      invariant removed <==> exists j :: 0 <= j < k && SectionMatches(raw, SECTIONS[j].1, target)
    {
      var changed: bool;
      r, changed := RemoveFromSection(raw, r, target, k);
      removed := removed || changed;
      k := k + 1;
    }
    RootsAreChanged(raw, r, target);
    forall j | 0 <= j < |SECTIONS|
      ensures LosesMatches(Lookup(raw, SECTIONS[j].1), Lookup(r, SECTIONS[j].1), target)
    {
      SectionLosesMatches(raw, SECTIONS[j].1, target);
    }
  }

  method RemoveFromSection(ghost raw: Json, before: Json, target: string, k: nat) returns (r: Json, changed: bool)
    requires k < |SECTIONS| && RemovedUpTo(raw, before, target, k)
    ensures RemovedUpTo(raw, r, target, k + 1)
    ensures changed <==> SectionMatches(raw, SECTIONS[k].1, target)
  {
    r, changed := before, false;
    var section := Lookup(before, SECTIONS[k].1);
    if section.Some? && section.value.List? {
      var kept := Kept(section.value.items, target);
      if |kept| != |section.value.items| {
        RemoveOne(raw, before, target, k);
        r := SetPath(before, SECTIONS[k].1, List(kept)).value;
        changed := true;
      }
    }
  }

  lemma {:induction false} RemoveOne(raw: Json, r: Json, target: string, k: nat)
    requires k < |SECTIONS| && RemovedUpTo(raw, r, target, k) && SectionMatches(raw, SECTIONS[k].1, target)
    ensures var s := SetPath(r, SECTIONS[k].1, List(Kept(Lookup(r, SECTIONS[k].1).value.items, target)));
            s.Ok? && RemovedUpTo(raw, s.value, target, k + 1)
  {
    var parts := SECTIONS[k].1;
    var kept := List(Kept(Lookup(r, parts).value.items, target));
    SectionsAreNames(k);
    SetSection(r, parts, kept);
    var after := SetPath(r, parts, kept).value;
    forall j | 0 <= j < |SECTIONS| && j != k
      ensures Lookup(after, SECTIONS[j].1) == Lookup(r, SECTIONS[j].1)
    {
      SectionsDiffer(if j < k then j else k, if j < k then k else j);
    }
    assert Lookup(after, parts) == SectionAfter(raw, parts, target);
    OutsideAfter(raw, r, after, k);
  }

  lemma {:induction false} OutsideAfter(raw: Json, r: Json, after: Json, k: nat)
    requires k < |SECTIONS| && OutsideReads(raw, r)
    requires forall q: Parts :: Apart(SECTIONS[k].1, q) ==> Lookup(after, q) == Lookup(r, q)
    ensures OutsideReads(raw, after)
  {
    forall q: Parts | OutsideSections(q)
      ensures Lookup(after, q) == Lookup(raw, q)
    {
      assert Apart(SECTIONS[k].1, q);
    }
  }

  lemma {:induction false} RootsAreChanged(raw: Json, r: Json, target: string)
    requires RemovedUpTo(raw, r, target, |SECTIONS|)
    ensures forall j :: 0 <= j < |SECTIONS| ==>
              (SECTIONS[j].0 in MatchingRoots(raw, target) <==> SectionMatches(raw, SECTIONS[j].1, target))
    ensures forall j :: 0 <= j < |SECTIONS| ==>
              (SectionMatches(raw, SECTIONS[j].1, target) <==> Lookup(r, SECTIONS[j].1) != Lookup(raw, SECTIONS[j].1))
    ensures MatchingRoots(raw, target) == {} <==>
            forall j :: 0 <= j < |SECTIONS| ==> !SectionMatches(raw, SECTIONS[j].1, target)
    ensures MatchingRoots(r, target) == {}
  {
    forall j | 0 <= j < |SECTIONS|
      ensures SECTIONS[j].0 in MatchingRoots(raw, target) <==> SectionMatches(raw, SECTIONS[j].1, target)
    {
      if SECTIONS[j].0 in MatchingRoots(raw, target) {
        var i :| 0 <= i < |SECTIONS| && SectionMatches(raw, SECTIONS[i].1, target) && SECTIONS[i].0 == SECTIONS[j].0;
        if i != j {
          SectionsDiffer(if i < j then i else j, if i < j then j else i);
        }
      }
    }
    forall j | 0 <= j < |SECTIONS|
      ensures !SectionMatches(r, SECTIONS[j].1, target)
      ensures SectionMatches(raw, SECTIONS[j].1, target) <==> Lookup(r, SECTIONS[j].1) != Lookup(raw, SECTIONS[j].1)
    {
      var section := Lookup(raw, SECTIONS[j].1);
      if SectionMatches(raw, SECTIONS[j].1, target) {
        assert |Kept(section.value.items, target)| != |section.value.items|;
      }
    }
  }
}
