/**
 Playbooks: the named modes of a run and the gates between them. What a hook answers is an argument of the
 switch that asks it; a hook that raises gives no answer.
 */
module Playbooks {
  import opened Options

  const SWITCH_TOOL := "switch_playbook"

  /** A declared mode; `tools` is None when it keeps whatever is active. */
  datatype Playbook = Playbook(name: string, entry: bool, tools: Option<set<string>>, onEnter: bool, onExit: bool)

  datatype Answer = NoAnswer | Answer(block: bool, context: Option<string>)

  /** A switch attempt: the mode asked for, and what the gates answer if they are asked. */
  datatype Attempt = Attempt(name: string, exit: Answer, enter: Answer)

  datatype Refusal = NoPlaybooks | UnknownPlaybook | AlreadyThere | ExitRefused | EntryRefused
  datatype Outcome = Switched(forced: bool, notes: seq<string>) | Refused(why: Refusal)

  /** The declared modes and the registered tools, fixed for a run, and how often an exit may be refused. */
  datatype Rules = Rules(playbooks: seq<Playbook>, tools: set<string>, maxBlocked: int)

  /** What changes during a run. */
  datatype Mode = Mode(current: Option<string>, blocked: nat, active: set<string>)

  predicate DistinctNames(rules: Rules) {
    forall i, j :: 0 <= i < j < |rules.playbooks| ==> rules.playbooks[i].name != rules.playbooks[j].name
  }

  function Find(playbooks: seq<Playbook>, name: string): (r: Option<Playbook>)
    ensures r.Some? ==> r.value in playbooks && r.value.name == name
    ensures r.None? ==> forall p :: p in playbooks ==> p.name != name
  {
    if playbooks == [] then None
    else if playbooks[0].name == name then Some(playbooks[0])
    else Find(playbooks[1..], name)
  }

  predicate Blocks(a: Answer) {
    a.Answer? && a.block
  }

  /** The entry gate lets the attempt in, or there is none. */
  predicate Admits(rules: Rules, a: Attempt) {
    var target := Find(rules.playbooks, a.name);
    target.Some? && !(target.value.onEnter && Blocks(a.enter))
  }

  /** The exit gate of the current mode answers the attempt with a block. */
  predicate ExitBlocks(rules: Rules, m: Mode, a: Attempt) {
    m.current.Some? && Find(rules.playbooks, m.current.value).Some?
    && Find(rules.playbooks, m.current.value).value.onExit && Blocks(a.exit)
  }

  /** The active tools of a mode: its own subset and the switch tool, among the registered ones. */
  function Narrowed(rules: Rules, p: Playbook, active: set<string>): set<string> {
    if p.tools.None? then active else rules.tools * (p.tools.value + {SWITCH_TOOL})
  }

  /** The mode after an attempt. */
  function After(rules: Rules, m: Mode, a: Attempt): Mode {
    var target := Find(rules.playbooks, a.name);
    if target.None? || m.current == Some(a.name) then m
    else
      var blocked := if ExitBlocks(rules, m, a) then m.blocked + 1 else m.blocked;
      if ExitBlocks(rules, m, a) && blocked < rules.maxBlocked then m.(blocked := blocked)
      else if !Admits(rules, a) then m.(blocked := blocked)
      else Mode(Some(a.name), 0, Narrowed(rules, target.value, m.active))
  }

  /** Mode `i` is the first one declared as the entry, or it is the first mode and none is declared so. */
  ghost predicate IsEntry(playbooks: seq<Playbook>, i: int) {
    && 0 <= i < |playbooks|
    && (forall j :: 0 <= j < i ==> !playbooks[j].entry)
    && (playbooks[i].entry || (i == 0 && forall p :: p in playbooks ==> !p.entry))
  }

  /** Playbooks have one entry, and it is one declared so when any is. */
  lemma EntryIsOne(playbooks: seq<Playbook>)
    requires playbooks != []
    ensures exists i :: IsEntry(playbooks, i) && forall j :: IsEntry(playbooks, j) ==> j == i
    ensures forall i :: IsEntry(playbooks, i) ==> playbooks[i].entry || forall p :: p in playbooks ==> !p.entry
  {
    if p :| p in playbooks && p.entry {
      var i := 0;
      while !playbooks[i].entry
        invariant 0 <= i < |playbooks| && forall j :: 0 <= j < i ==> !playbooks[j].entry
        decreases |playbooks| - i
      {
        i := i + 1;
      }
      assert IsEntry(playbooks, i);
    } else {
      assert IsEntry(playbooks, 0);
    }
  }

  class ToolRegistry {
    const tools: set<string>
    var active: set<string>

    constructor (tools: set<string>, active: set<string>)
      ensures this.tools == tools && this.active == active
    {
      this.tools, this.active := tools, active;
    }

    /** Replaces the active set outright; only registered names count. */
    method SetActive(names: set<string>)
      modifies this
      ensures active == names * tools
    {
      active := set n | n in names && n in tools;
    }
  }

  class PlaybookManager {
    const rules: Rules
    const registry: ToolRegistry
    var current: Option<string>
    var blocked: nat

    ghost predicate Valid()
      reads this
    {
      DistinctNames(rules) && registry.tools == rules.tools &&
      (current.Some? ==> Find(rules.playbooks, current.value).Some?)
    }

    function State(): Mode
      reads this, registry
    {
      Mode(current, blocked, registry.active)
    }

    constructor (rules: Rules, registry: ToolRegistry)
      requires DistinctNames(rules) && registry.tools == rules.tools
      ensures Valid() && this.rules == rules && this.registry == registry
      ensures current == None && blocked == 0
    {
      this.rules, this.registry := rules, registry;
      current, blocked := None, 0;
    }

    /** `apply_tools`: narrows the registry to the current mode's subset. */
    method ApplyTools()
      requires Valid()
      modifies registry
      ensures registry.active == if current.None? then old(registry.active)
                else Narrowed(rules, Find(rules.playbooks, current.value).value, old(registry.active))
      ensures current.Some? ==>
                var p := Find(rules.playbooks, current.value).value;
                if p.tools.None? then registry.active == old(registry.active)
                else forall t :: t in registry.active <==>
                       t in rules.tools && (t in p.tools.value || t == "switch_playbook")
    {
      if current.Some? {
        var p := Find(rules.playbooks, current.value).value;
        if p.tools.Some? {
          var keep := p.tools.value + {SWITCH_TOOL};
          registry.SetActive(set n | n in rules.tools && n in keep);
        }
      }
    }

    predicate HasExitHook(mode: Option<string>)
      requires mode.Some? ==> Find(rules.playbooks, mode.value).Some?
    {
      mode.Some? && Find(rules.playbooks, mode.value).value.onExit
    }

    /** The mode's exit hook answers the attempt with a block. */
    predicate LeavingBlocks(mode: Option<string>, a: Attempt)
      requires mode.Some? ==> Find(rules.playbooks, mode.value).Some?
    {
      HasExitHook(mode) && a.exit.Answer? && a.exit.block
    }

    /** `switch`: the exit gate of the mode being left, unless it has refused too often, then the entry gate. */
    method Switch(a: Attempt) returns (r: Outcome)
      requires Valid()
      modifies this, registry
      ensures Valid() && State() == After(rules, old(State()), a)
      ensures r.Switched? <==> current == Some(a.name) && old(current) != Some(a.name)
      ensures r.Refused? ==> current == old(current) && registry.active == old(registry.active)
      ensures r == Refused(UnknownPlaybook) <==> forall p :: p in rules.playbooks ==> p.name != a.name
      ensures r == Refused(AlreadyThere) <==> old(current) == Some(a.name) && Find(rules.playbooks, a.name).Some?
      ensures r == Refused(ExitRefused) <==>
                && Find(rules.playbooks, a.name).Some? && old(current) != Some(a.name)
                && LeavingBlocks(old(current), a) && old(blocked) + 1 < rules.maxBlocked
      ensures r == Refused(EntryRefused) <==>
                && Find(rules.playbooks, a.name).Some? && old(current) != Some(a.name)
                && !(LeavingBlocks(old(current), a) && old(blocked) + 1 < rules.maxBlocked)
                && Find(rules.playbooks, a.name).value.onEnter && a.enter.Answer? && a.enter.block
      ensures r.Refused? && r.why in {ExitRefused, EntryRefused} ==>
                blocked == old(blocked) + (if LeavingBlocks(old(current), a) then 1 else 0)
      ensures r.Switched? && Find(rules.playbooks, a.name).value.onEnter && a.enter.Answer? && a.enter.context.Some? ==>
                r.notes != [] && r.notes[|r.notes| - 1] == a.enter.context.value
      ensures r.Switched? && HasExitHook(old(current)) && a.exit.Answer? && a.exit.context.Some? ==>
                r.notes != [] && r.notes[0] == a.exit.context.value
      ensures r.Switched? ==>
                && blocked == 0 && (r.forced <==> LeavingBlocks(old(current), a))
                && r.notes == Said(HasExitHook(old(current)), a.exit)
                              + Said(Find(rules.playbooks, a.name).value.onEnter, a.enter)
      ensures r.Switched? ==>
                var p := Find(rules.playbooks, a.name).value;
                if p.tools.None? then registry.active == old(registry.active)
                else forall t :: t in registry.active <==>
                       t in rules.tools && (t in p.tools.value || t == "switch_playbook")
    {
      var target := Find(rules.playbooks, a.name);
      if target.None? {
        return Refused(UnknownPlaybook);
      }
      if current == Some(a.name) {
        return Refused(AlreadyThere);
      }
      var notes := [];
      var forced := false;
      if current.Some? {
        var previous := Find(rules.playbooks, current.value).value;
        if previous.onExit && a.exit.Answer? {
          if a.exit.block {
            blocked := blocked + 1;
            if blocked < rules.maxBlocked {
              return Refused(ExitRefused);
            }
            forced := true;
          }
          if a.exit.context.Some? {
            notes := notes + [a.exit.context.value];
          }
        }
      }
      if target.value.onEnter && a.enter.Answer? {
        if a.enter.block {
          return Refused(EntryRefused);
        }
        if a.enter.context.Some? {
          notes := notes + [a.enter.context.value];
        }
      }
      blocked := 0;
      current := Some(a.name);
      ApplyTools();
      r := Switched(forced, notes);
    }

    /** `entry_name`: the declared entry, else the first mode. */
    method EntryName() returns (r: Option<string>)
      ensures r.None? <==> rules.playbooks == []
      ensures r.Some? && (exists p :: p in rules.playbooks && p.entry) ==>
                exists i :: 0 <= i < |rules.playbooks| && rules.playbooks[i].entry && rules.playbooks[i].name == r.value
                            && forall j :: 0 <= j < i ==> !rules.playbooks[j].entry
      ensures r.Some? && (forall p :: p in rules.playbooks ==> !p.entry) ==> r.value == rules.playbooks[0].name
      ensures r.Some? ==> exists i :: IsEntry(rules.playbooks, i) && rules.playbooks[i].name == r.value
    {
      var i := 0;
      while i < |rules.playbooks|
        invariant i <= |rules.playbooks| && forall j :: 0 <= j < i ==> !rules.playbooks[j].entry
      {
        if rules.playbooks[i].entry {
          return Some(rules.playbooks[i].name);
        }
        i := i + 1;
      }
      r := if rules.playbooks == [] then None else Some(rules.playbooks[0].name);
    }

    /**
     `enter_initial`: no gate can keep a run from starting in its entry mode. What the entry hook says is noted, and
     that it wanted to block the start.
     */
    method EnterInitial(enter: Answer) returns (r: Outcome, objected: bool)
      requires Valid() && current == None
      modifies this, registry
      ensures Valid() && blocked == old(blocked)
      ensures if rules.playbooks == [] then r == Refused(NoPlaybooks) && current == None && !objected
              else exists i :: IsEntry(rules.playbooks, i) && current == Some(rules.playbooks[i].name)
                               && r == Switched(false, Said(rules.playbooks[i].onEnter, enter))
                               && (objected <==> rules.playbooks[i].onEnter && Blocks(enter))
                               && registry.active == Narrowed(rules, rules.playbooks[i], old(registry.active))
    {
      var name := EntryName();
      if name.None? {
        return Refused(NoPlaybooks), false;
      }
      ghost var i :| IsEntry(rules.playbooks, i) && rules.playbooks[i].name == name.value;
      var target := Find(rules.playbooks, name.value).value;
      FoundByName(rules, i);
      var notes := [];
      objected := false;
      if target.onEnter && enter.Answer? {
        if enter.context.Some? {
          notes := notes + [enter.context.value];
        }
        objected := enter.block;
      }
      current := name;
      ApplyTools();
      r := Switched(false, notes);
    }
  }

  /** What a hook that is asked adds to the notes. */
  function Said(asked: bool, a: Answer): seq<string> {
    if asked && a.Answer? && a.context.Some? then [a.context.value] else []
  }

  lemma FoundByName(rules: Rules, i: nat)
    requires DistinctNames(rules) && i < |rules.playbooks|
    ensures Find(rules.playbooks, rules.playbooks[i].name) == Some(rules.playbooks[i])
  {
    var found := Find(rules.playbooks, rules.playbooks[i].name).value;
    var j :| 0 <= j < |rules.playbooks| && rules.playbooks[j] == found;
    assert j == i;
  }

  // ------------------------------------------------------------------ no mode is a trap

  function AfterAll(rules: Rules, m: Mode, attempts: seq<Attempt>): Mode
    decreases |attempts|
  {
    if attempts == [] then m else AfterAll(rules, After(rules, m, attempts[0]), attempts[1..])
  }

  /** How many of the attempts ask for another known mode whose entry gate admits. */
  function Chances(rules: Rules, current: Option<string>, attempts: seq<Attempt>): (n: nat)
    ensures n <= |attempts|
  {
    if attempts == [] then 0
    else
      (if current != Some(attempts[0].name) && Admits(rules, attempts[0]) then 1 else 0)
      + Chances(rules, current, attempts[1..])
  }

  /** The attempts never leave the mode: after each of them the run is still in it. */
  predicate Stays(rules: Rules, m: Mode, attempts: seq<Attempt>)
    decreases |attempts|
  {
    attempts == [] ||
    (After(rules, m, attempts[0]).current == m.current && Stays(rules, After(rules, m, attempts[0]), attempts[1..]))
  }

  /** A run that stays has used up one refusal of the exit gate on every chance it had. */
  lemma {:induction false} StayingUsesRefusals(rules: Rules, m: Mode, attempts: seq<Attempt>)
    requires Stays(rules, m, attempts)
    ensures Chances(rules, m.current, attempts) > 0 ==>
              m.blocked + Chances(rules, m.current, attempts) < rules.maxBlocked
    ensures AfterAll(rules, m, attempts).blocked >= m.blocked + Chances(rules, m.current, attempts)
    decreases |attempts|
  {
    if attempts != [] {
      StayingUsesRefusals(rules, After(rules, m, attempts[0]), attempts[1..]);
    }
  }

  /**
   No mode traps a run: whatever its exit gate answers, and whatever else is tried in between, it is left by
   the `maxBlocked`-th attempt at another known mode that admits, by the first one when that limit is below 1.
   */
  lemma {:induction false} NoModeIsATrap(rules: Rules, m: Mode, attempts: seq<Attempt>)
    requires Chances(rules, m.current, attempts) >= 1
    requires m.blocked + Chances(rules, m.current, attempts) >= rules.maxBlocked
    ensures !Stays(rules, m, attempts)
  {
    if Stays(rules, m, attempts) {
      StayingUsesRefusals(rules, m, attempts);
    }
  }

  /** The limit is sharp: a gate that always blocks does hold a run for one attempt less. */
  lemma {:induction false} GateHoldsUntilLimit(rules: Rules, m: Mode, a: Attempt, n: nat)
    requires m.blocked + n < rules.maxBlocked
    requires ExitBlocks(rules, m, a) && m.current != Some(a.name) && Admits(rules, a)
    ensures Stays(rules, m, seq(n, _ => a))
    decreases n
  {
    if n > 0 {
      var attempts := seq(n, _ => a);
      assert attempts[1..] == seq(n - 1, _ => a);
      GateHoldsUntilLimit(rules, After(rules, m, a), a, n - 1);
    }
  }

  // ------------------------------------------------------------------ what counts towards the limit

  lemma {:induction false} AfterOneMore(rules: Rules, m: Mode, attempts: seq<Attempt>, a: Attempt)
    ensures AfterAll(rules, m, attempts + [a]) == After(rules, AfterAll(rules, m, attempts), a)
    decreases |attempts|
  {
    if attempts == [] {
      assert [a][1..] == [];
    } else {
      assert (attempts + [a])[1..] == attempts[1..] + [a];
      AfterOneMore(rules, After(rules, m, attempts[0]), attempts[1..], a);
    }
  }

  /** The attempt asks for another known mode, and the gate of the one to leave answers with a block. */
  predicate ExitBlocked(rules: Rules, m: Mode, a: Attempt) {
    m.current != Some(a.name) && Find(rules.playbooks, a.name).Some? && ExitBlocks(rules, m, a)
  }

  /** How often an exit gate blocked since the last switch that succeeded, whatever came in between. */
  function BlocksSinceSwitch(rules: Rules, m: Mode, attempts: seq<Attempt>): nat {
    if attempts == [] then 0
    else
      var front, last := attempts[..|attempts| - 1], attempts[|attempts| - 1];
      var n := AfterAll(rules, m, front);
      if After(rules, n, last).current != n.current then 0
      else BlocksSinceSwitch(rules, m, front) + (if ExitBlocked(rules, n, last) then 1 else 0)
  }

  lemma {:induction false} BlockedCountsAll(rules: Rules, m: Mode, attempts: seq<Attempt>)
    requires m.blocked == 0
    ensures AfterAll(rules, m, attempts).blocked == BlocksSinceSwitch(rules, m, attempts)
  {
    if attempts != [] {
      var front, last := attempts[..|attempts| - 1], attempts[|attempts| - 1];
      BlockedCountsAll(rules, m, front);
      assert front + [last] == attempts;
      AfterOneMore(rules, m, front, last);
    }
  }

  /**
   A switch that its exit gate blocks goes through all the same exactly when the blocks since the last successful
   switch, this one among them, reach the limit. They need not be consecutive.
   */
  lemma {:induction false} ForcedExactlyAtLimit(rules: Rules, m: Mode, attempts: seq<Attempt>, a: Attempt)
    requires m.blocked == 0
    requires ExitBlocked(rules, AfterAll(rules, m, attempts), a) && Admits(rules, a)
    ensures AfterAll(rules, m, attempts + [a]).current == Some(a.name) <==>
              BlocksSinceSwitch(rules, m, attempts) + 1 >= rules.maxBlocked
  {
    BlockedCountsAll(rules, m, attempts);
    AfterOneMore(rules, m, attempts, a);
  }

  /** A block, an attempt that only its entry gate refuses, and a block: under a limit of two the last one is forced. */
  lemma {:induction false} RefusalsNeedNotBeConsecutive(
      rules: Rules, m: Mode, block: Attempt, other: Attempt, again: Attempt)
    requires m.blocked == 0 && rules.maxBlocked == 2
    requires ExitBlocked(rules, m, block) && ExitBlocked(rules, m, again) && Admits(rules, again)
    requires m.current != Some(other.name) && !ExitBlocks(rules, m, other) && !Admits(rules, other)
    ensures AfterAll(rules, m, [block, other]).current == m.current
    ensures AfterAll(rules, m, [block, other, again]).current == Some(again.name)
  {
    var held := m.(blocked := 1);
    assert After(rules, m, block) == held && After(rules, held, other) == held;
    assert [] + [block] == [block] && [block] + [other] == [block, other];
    AfterOneMore(rules, m, [], block);
    AfterOneMore(rules, m, [block], other);
    assert [block, other] + [again] == [block, other, again];
    AfterOneMore(rules, m, [block, other], again);
  }

  /** Every mode with its own tools leaves a registered switch tool active, and activates nothing unregistered. */
  lemma {:induction false} SwitchToolSurvives(rules: Rules, m: Mode, attempts: seq<Attempt>)
    requires m.active <= rules.tools
    requires SWITCH_TOOL in rules.tools ==> SWITCH_TOOL in m.active
    ensures AfterAll(rules, m, attempts).active <= rules.tools
    ensures SWITCH_TOOL in rules.tools ==> SWITCH_TOOL in AfterAll(rules, m, attempts).active
    decreases |attempts|
  {
    if attempts != [] {
      SwitchToolSurvives(rules, After(rules, m, attempts[0]), attempts[1..]);
    }
  }
}
