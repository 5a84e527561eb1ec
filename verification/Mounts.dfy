/**
 The bubblewrap command line: which mounts its arguments ask for, and what a confined command then sees. A
 later mount covers an earlier one, so what is at a path is decided by the last mount over it.
 */
module Mounts {
  import opened Options

  /** An absolute path, as its segments from the root. */
  type Path = seq<string>

  predicate Covers(dst: Path, p: Path) {
    dst <= p
  }

  datatype Mount =
    | RoBind(src: Path, dst: Path)
    | Bind(src: Path, dst: Path)
    | Tmpfs(dst: Path)
    | Dev(dst: Path)
    | Proc(dst: Path)

  /** The options bubblewrap is given: `--ro-bind`, `--tmpfs`, `--chdir` and so on, `End` being the bare `--`. */
  datatype Flag =
    | Bwrap | RoBindFlag | BindFlag | TmpfsFlag | DevFlag | ProcFlag
    | Chdir | UnsharePid | UnshareUts | UnshareIpc | DieWithParent | NewSession | UnshareNet | End

  /** One argument of the command line. */
  datatype Arg = Opt(flag: Flag) | Loc(path: Path) | Word(word: string)

  const ROOT: Path := []
  const DEV: Path := ["dev"]
  const PROC: Path := ["proc"]
  const TMP: Path := ["tmp"]
  const DEVNULL: Path := ["dev", "null"]

  /** What every confined run mounts first. */
  const SYSTEM: seq<Mount> := [RoBind(ROOT, ROOT), Dev(DEV), Proc(PROC), Tmpfs(TMP)]

  datatype Policy = Policy(writable: bool, network: bool)
  datatype Mask = Mask(path: Path, isDir: bool)

  // ------------------------------------------------------------------ reading a command line

  /** The mounts a command line asks for, in order, up to `--`. */
  function MountsOf(argv: seq<Arg>): seq<Mount> {
    if argv == [] || argv[0] == Opt(End) then []
    else if argv[0] == Opt(RoBindFlag) && |argv| >= 3 && argv[1].Loc? && argv[2].Loc? then
      [RoBind(argv[1].path, argv[2].path)] + MountsOf(argv[3..])
    else if argv[0] == Opt(BindFlag) && |argv| >= 3 && argv[1].Loc? && argv[2].Loc? then
      [Bind(argv[1].path, argv[2].path)] + MountsOf(argv[3..])
    else if argv[0] == Opt(TmpfsFlag) && |argv| >= 2 && argv[1].Loc? then [Tmpfs(argv[1].path)] + MountsOf(argv[2..])
    else if argv[0] == Opt(DevFlag) && |argv| >= 2 && argv[1].Loc? then [Dev(argv[1].path)] + MountsOf(argv[2..])
    else if argv[0] == Opt(ProcFlag) && |argv| >= 2 && argv[1].Loc? then [Proc(argv[1].path)] + MountsOf(argv[2..])
    else MountsOf(argv[1..])
  }

  /** The command run inside: what follows `--`. */
  function CommandOf(argv: seq<Arg>): seq<Arg> {
    if argv == [] then [] else if argv[0] == Opt(End) then argv[1..] else CommandOf(argv[1..])
  }

  /** Where the command starts: the first `--chdir` before `--`. */
  function WorkDirOf(argv: seq<Arg>): Option<Path> {
    if argv == [] || argv[0] == Opt(End) then None
    else if argv[0] == Opt(Chdir) && |argv| >= 2 && argv[1].Loc? then Some(argv[1].path)
    else WorkDirOf(argv[1..])
  }

  /** What is set up for the command other than its mounts: the switches before `--`. */
  function SwitchesOf(argv: seq<Arg>): set<Flag> {
    if argv == [] || argv[0] == Opt(End) then {}
    else (if argv[0].Opt? && IsSwitch(argv[0].flag) then {argv[0].flag} else {}) + SwitchesOf(argv[1..])
  }

  predicate IsSwitch(flag: Flag) {
    flag in {UnsharePid, UnshareUts, UnshareIpc, DieWithParent, NewSession, UnshareNet}
  }

  function Render(m: Mount): seq<Arg> {
    match m
    case RoBind(s, d) => [Opt(RoBindFlag), Loc(s), Loc(d)]
    case Bind(s, d) => [Opt(BindFlag), Loc(s), Loc(d)]
    case Tmpfs(d) => [Opt(TmpfsFlag), Loc(d)]
    case Dev(d) => [Opt(DevFlag), Loc(d)]
    case Proc(d) => [Opt(ProcFlag), Loc(d)]
  }

  function RenderAll(ms: seq<Mount>): seq<Arg> {
    if ms == [] then [] else RenderAll(ms[..|ms| - 1]) + Render(ms[|ms| - 1])
  }

  lemma {:induction false} ReadOne(m: Mount, rest: seq<Arg>)
    ensures MountsOf(Render(m) + rest) == [m] + MountsOf(rest)
    ensures CommandOf(Render(m) + rest) == CommandOf(rest)
  {
    var a := Render(m) + rest;
    assert a[|Render(m)|..] == rest;
    SkipArgs(a, |Render(m)|);
  }

  /** Arguments before `--` are not the command. */
  lemma {:induction false} SkipArgs(a: seq<Arg>, n: nat)
    requires n <= |a| && forall k :: 0 <= k < n ==> a[k] != Opt(End)
    ensures CommandOf(a) == CommandOf(a[n..])
  {
    if n > 0 {
      SkipArgs(a[1..], n - 1);
      assert a[1..][n - 1..] == a[n..];
    } else {
      assert a[0..] == a;
    }
  }

  lemma Regroup(front: seq<Mount>, m: Mount, more: seq<Mount>)
    ensures front + ([m] + more) == (front + [m]) + more
  {
  }

  lemma {:induction false} RenderLast(front: seq<Mount>, m: Mount, rest: seq<Arg>)
    ensures RenderAll(front + [m]) + rest == RenderAll(front) + (Render(m) + rest)
  {
    assert (front + [m])[..|front|] == front;
  }

  /** Rendered mounts read back as themselves. */
  lemma {:induction false} ReadAll(ms: seq<Mount>, rest: seq<Arg>)
    ensures MountsOf(RenderAll(ms) + rest) == ms + MountsOf(rest)
    ensures CommandOf(RenderAll(ms) + rest) == CommandOf(rest)
  {
    if ms == [] {
      assert RenderAll(ms) + rest == rest;
    } else {
      var front, m := ms[..|ms| - 1], ms[|ms| - 1];
      assert front + [m] == ms;
      RenderLast(front, m, rest);
      ReadAll(front, Render(m) + rest);
      ReadOne(m, rest);
      Regroup(front, m, MountsOf(rest));
    }
  }

  // ------------------------------------------------------------------ what is mounted

  function MaskMount(m: Mask): Mount {
    if m.isDir then Tmpfs(m.path) else RoBind(DEVNULL, m.path)
  }

  /** The system and, over it, an empty home. */
  function Base(home: Option<Path>): seq<Mount> {
    SYSTEM + (if home.Some? then [Tmpfs(home.value)] else [])
  }

  /** The mounts of a confined run, in the order they are applied. */
  function Planned(cwd: Path, policy: Policy, home: Option<Path>, scratch: Path, masks: seq<Mask>): seq<Mount> {
    Base(home)
    + [Bind(scratch, scratch), if policy.writable then Bind(cwd, cwd) else RoBind(cwd, cwd)]
    + MaskMounts(masks)
  }

  function MaskMounts(masks: seq<Mask>): (ms: seq<Mount>)
    ensures |ms| == |masks|
  {
    seq(|masks|, k requires 0 <= k < |masks| => MaskMount(masks[k]))
  }

  /** Masks that exist and neither are the working directory nor hold it. */
  function KeptMasks(masks: seq<Mask>, onDisk: Path -> bool, cwd: Path): (r: seq<Mask>)
    ensures forall m :: m in r <==> m in masks && onDisk(m.path) && !Covers(m.path, cwd)
  {
    if masks == [] then []
    else
      var m := masks[|masks| - 1];
      var front := KeptMasks(masks[..|masks| - 1], onDisk, cwd);
      if onDisk(m.path) && !Covers(m.path, cwd) then front + [m] else front
  }

  /** The command line so far, when it asks for `ms`. */
  function Wrapped(ms: seq<Mount>): seq<Arg> {
    [Opt(Bwrap)] + RenderAll(ms)
  }

  method AddMasks(wrapped: seq<Arg>, masks: seq<Mask>, ghost base: seq<Mount>) returns (r: seq<Arg>)
    requires wrapped == Wrapped(base)
    ensures r == Wrapped(base + MaskMounts(masks))
  {
    r := wrapped;
    assert base + MaskMounts(masks[..0]) == base;
    var k := 0;
    while k < |masks|
      invariant k <= |masks|
      invariant r == Wrapped(base + MaskMounts(masks[..k]))
    {
      MaskNext(base, masks, k);
      WrapNext(base + MaskMounts(masks[..k]), MaskMount(masks[k]));
      if masks[k].isDir {
        r := r + [Opt(TmpfsFlag), Loc(masks[k].path)];
      } else {
        r := r + [Opt(RoBindFlag), Loc(DEVNULL), Loc(masks[k].path)];
      }
      k := k + 1;
    }
    assert masks[..k] == masks;
  }

  lemma MaskNext(base: seq<Mount>, masks: seq<Mask>, k: nat)
    requires k < |masks|
    ensures base + MaskMounts(masks[..k + 1]) == base + MaskMounts(masks[..k]) + [MaskMount(masks[k])]
  {
    assert MaskMounts(masks[..k + 1]) == MaskMounts(masks[..k]) + [MaskMount(masks[k])];
  }

  method AddBase(home: Option<Path>) returns (wrapped: seq<Arg>)
    ensures wrapped == Wrapped(Base(home))
  {
    wrapped := [Opt(Bwrap), Opt(RoBindFlag), Loc(ROOT), Loc(ROOT), Opt(DevFlag), Loc(DEV), Opt(ProcFlag), Loc(PROC),
                Opt(TmpfsFlag), Loc(TMP)];
    FirstMounts();
    assert home.None? ==> Base(home) == SYSTEM;
    if home.Some? {
      wrapped := wrapped + [Opt(TmpfsFlag), Loc(home.value)];
      WrapNext(SYSTEM, Tmpfs(home.value));
    }
  }

  method AddMounts(cwd: Path, policy: Policy, home: Option<Path>, scratch: Path, masks: seq<Mask>)
    returns (wrapped: seq<Arg>)
    ensures wrapped == Wrapped(Planned(cwd, policy, home, scratch, masks))
  {
    wrapped := AddBase(home);
    ghost var first := Base(home);
    wrapped := wrapped + [Opt(BindFlag), Loc(scratch), Loc(scratch)];
    WrapNext(first, Bind(scratch, scratch));
    ghost var own := if policy.writable then Bind(cwd, cwd) else RoBind(cwd, cwd);
    wrapped := wrapped + [Opt(if policy.writable then BindFlag else RoBindFlag), Loc(cwd), Loc(cwd)];
    WrapNext(first + [Bind(scratch, scratch)], own);
    assert first + [Bind(scratch, scratch)] + [own] == first + [Bind(scratch, scratch), own];
    wrapped := AddMasks(wrapped, masks, first + [Bind(scratch, scratch), own]);
  }

  method BwrapArgv(argv: seq<string>, cwd: Path, policy: Policy, home: Option<Path>, scratch: Path, masks: seq<Mask>)
    returns (r: seq<Arg>)
    ensures MountsOf(r) == Planned(cwd, policy, home, scratch, masks)
    ensures CommandOf(r) == seq(|argv|, k requires 0 <= k < |argv| => Word(argv[k]))
    ensures Opt(UnshareNet) in r <==> !policy.network
    ensures WorkDirOf(r) == Some(cwd)
    ensures SwitchesOf(r) == {UnsharePid, UnshareUts, UnshareIpc, DieWithParent, NewSession} +
                             (if policy.network then {} else {UnshareNet})
  {
    var wrapped := AddMounts(cwd, policy, home, scratch, masks);
    var rest := [Opt(Chdir), Loc(cwd), Opt(UnsharePid), Opt(UnshareUts), Opt(UnshareIpc),
                 Opt(DieWithParent), Opt(NewSession)];
    if !policy.network {
      rest := rest + [Opt(UnshareNet)];
    }
    var command := seq(|argv|, j requires 0 <= j < |argv| => Word(argv[j]));
    r := wrapped + rest + [Opt(End)] + command;
    ReadCommandLine(Planned(cwd, policy, home, scratch, masks), rest, command, r);
    ReadOptions(Planned(cwd, policy, home, scratch, masks), rest, command, r);
    ReadSwitches(cwd, policy.network, rest);
  }

  /** Mounts neither move the command nor switch anything, and what follows `--` does nothing here. */
  lemma {:induction false} ReadOptions(ms: seq<Mount>, rest: seq<Arg>, command: seq<Arg>, r: seq<Arg>)
    requires r == Wrapped(ms) + rest + [Opt(End)] + command
    requires Opt(End) !in rest
    ensures WorkDirOf(r) == WorkDirOf(rest) && SwitchesOf(r) == SwitchesOf(rest)
  {
    PlainMounts(ms);
    var tail := [Opt(End)] + command;
    assert r == Wrapped(ms) + (rest + tail);
    SkipPlain(Wrapped(ms), rest + tail);
    UpToEnd(rest, tail);
  }

  lemma {:induction false} UpToEnd(rest: seq<Arg>, tail: seq<Arg>)
    requires Opt(End) !in rest && tail != [] && tail[0] == Opt(End)
    ensures WorkDirOf(rest + tail) == WorkDirOf(rest) && SwitchesOf(rest + tail) == SwitchesOf(rest)
  {
    if rest != [] {
      assert (rest + tail)[1..] == rest[1..] + tail;
      assert rest[0] in rest && forall a :: a in rest[1..] ==> a in rest;
      UpToEnd(rest[1..], tail);
    } else {
      assert rest + tail == tail;
    }
  }

  predicate Plain(a: Arg) {
    a.Loc? || (a.Opt? && a.flag != End && a.flag != Chdir && !IsSwitch(a.flag))
  }

  lemma {:induction false} SkipPlain(args: seq<Arg>, rest: seq<Arg>)
    requires forall k :: 0 <= k < |args| ==> Plain(args[k])
    ensures WorkDirOf(args + rest) == WorkDirOf(rest) && SwitchesOf(args + rest) == SwitchesOf(rest)
  {
    if args == [] {
      assert args + rest == rest;
    } else {
      assert (args + rest)[1..] == args[1..] + rest;
      SkipPlain(args[1..], rest);
    }
  }

  lemma {:induction false} PlainMounts(ms: seq<Mount>)
    ensures forall k :: 0 <= k < |Wrapped(ms)| ==> Plain(Wrapped(ms)[k])
  {
    if ms != [] {
      PlainMounts(ms[..|ms| - 1]);
      assert Wrapped(ms) == Wrapped(ms[..|ms| - 1]) + Render(ms[|ms| - 1]);
    }
  }

  lemma {:induction false} OneSwitch(flag: Flag, tail: seq<Arg>)
    requires IsSwitch(flag)
    ensures SwitchesOf([Opt(flag)] + tail) == {flag} + SwitchesOf(tail)
  {
    assert ([Opt(flag)] + tail)[1..] == tail;
  }

  lemma {:induction false} ReadSwitches(cwd: Path, network: bool, rest: seq<Arg>)
    requires rest == [Opt(Chdir), Loc(cwd), Opt(UnsharePid), Opt(UnshareUts), Opt(UnshareIpc), Opt(DieWithParent),
                      Opt(NewSession)] + (if network then [] else [Opt(UnshareNet)])
    ensures WorkDirOf(rest) == Some(cwd)
    ensures SwitchesOf(rest) == {UnsharePid, UnshareUts, UnshareIpc, DieWithParent, NewSession} +
                                (if network then {} else {UnshareNet})
  {
    var net: seq<Arg> := if network then [] else [Opt(UnshareNet)];
    OneSwitch(UnshareNet, []);
    assert [Opt(UnshareNet)] + [] == [Opt(UnshareNet)];
    var session := [Opt(NewSession)] + net;
    var die := [Opt(DieWithParent)] + session;
    var ipc := [Opt(UnshareIpc)] + die;
    var uts := [Opt(UnshareUts)] + ipc;
    OneSwitch(NewSession, net);
    OneSwitch(DieWithParent, session);
    OneSwitch(UnshareIpc, die);
    OneSwitch(UnshareUts, ipc);
    OneSwitch(UnsharePid, uts);
    assert rest[1..][1..] == [Opt(UnsharePid)] + uts;
    assert SwitchesOf(rest) == SwitchesOf(rest[1..][1..]);
  }

  lemma {:induction false} ReadCommandLine(ms: seq<Mount>, rest: seq<Arg>, command: seq<Arg>, r: seq<Arg>)
    requires r == Wrapped(ms) + rest + [Opt(End)] + command
    requires forall k :: 0 <= k < |rest| ==> MountsNothing(rest[k])
    requires Opt(UnshareNet) !in command
    ensures MountsOf(r) == ms && CommandOf(r) == command
    ensures Opt(UnshareNet) in r <==> Opt(UnshareNet) in rest
  {
    assert r == Wrapped(ms) + (rest + ([Opt(End)] + command));
    ReadWrapped(ms, rest, command);
    NoNetOption(ms);
  }

  lemma {:induction false} ReadWrapped(ms: seq<Mount>, options: seq<Arg>, command: seq<Arg>)
    requires forall k :: 0 <= k < |options| ==> MountsNothing(options[k])
    ensures MountsOf(Wrapped(ms) + (options + ([Opt(End)] + command))) == ms
    ensures CommandOf(Wrapped(ms) + (options + ([Opt(End)] + command))) == command
  {
    var rest := options + ([Opt(End)] + command);
    OptionsMountNothing(options, command);
    ReadAll(ms, rest);
    SkipProgram(RenderAll(ms), rest);
    assert ms + [] == ms;
  }

  lemma {:induction false} SkipProgram(args: seq<Arg>, rest: seq<Arg>)
    ensures MountsOf([Opt(Bwrap)] + args + rest) == MountsOf(args + rest)
    ensures CommandOf([Opt(Bwrap)] + args + rest) == CommandOf(args + rest)
  {
    var all := [Opt(Bwrap)] + args + rest;
    assert all[1..] == args + rest;
  }

  lemma {:induction false} RenderNext(ms: seq<Mount>, m: Mount)
    ensures RenderAll(ms + [m]) == RenderAll(ms) + Render(m)
  {
    assert (ms + [m])[..|ms|] == ms;
  }

  lemma WrapNext(ms: seq<Mount>, m: Mount)
    ensures Wrapped(ms + [m]) == Wrapped(ms) + Render(m)
  {
    RenderNext(ms, m);
  }

  lemma FirstMounts()
    ensures RenderAll(SYSTEM) ==
            [Opt(RoBindFlag), Loc(ROOT), Loc(ROOT), Opt(DevFlag), Loc(DEV),
             Opt(ProcFlag), Loc(PROC), Opt(TmpfsFlag), Loc(TMP)]
  {
    var a, b, c, d := RoBind(ROOT, ROOT), Dev(DEV), Proc(PROC), Tmpfs(TMP);
    assert [] + [a] == [a] && [a] + [b] == [a, b] && [a, b] + [c] == [a, b, c] && [a, b, c] + [d] == SYSTEM;
    RenderNext([], a);
    RenderNext([a], b);
    RenderNext([a, b], c);
    RenderNext([a, b, c], d);
  }

  lemma {:induction false} NoNetOption(ms: seq<Mount>)
    ensures Opt(UnshareNet) !in RenderAll(ms)
  {
    if ms != [] {
      NoNetOption(ms[..|ms| - 1]);
    }
  }

  predicate MountsNothing(a: Arg) {
    a.Loc? || (a.Opt? && a.flag !in {End, RoBindFlag, BindFlag, TmpfsFlag, DevFlag, ProcFlag})
  }

  lemma {:induction false} OptionsMountNothing(options: seq<Arg>, command: seq<Arg>)
    requires forall k :: 0 <= k < |options| ==> MountsNothing(options[k])
    ensures MountsOf(options + ([Opt(End)] + command)) == []
    ensures CommandOf(options + ([Opt(End)] + command)) == command
  {
    var all := options + ([Opt(End)] + command);
    if options == [] {
      assert all == [Opt(End)] + command;
    } else {
      assert all[1..] == options[1..] + ([Opt(End)] + command);
      OptionsMountNothing(options[1..], command);
    }
  }

  // ------------------------------------------------------------------ what the command sees

  /** The mount that decides what is at a path: the last one over it. */
  function Effective(ms: seq<Mount>, p: Path): (m: Option<Mount>)
    ensures m.Some? ==> m.value in ms && Covers(m.value.dst, p)
    ensures m.None? ==> forall x :: x in ms ==> !Covers(x.dst, p)
  {
    if ms == [] then None
    else if Covers(ms[|ms| - 1].dst, p) then Some(ms[|ms| - 1])
    else Effective(ms[..|ms| - 1], p)
  }

  lemma {:induction false} EffectiveConcat(a: seq<Mount>, b: seq<Mount>, p: Path)
    ensures Effective(a + b, p) == if Effective(b, p).Some? then Effective(b, p) else Effective(a, p)
  {
    if b == [] {
      assert a + b == a;
    } else {
      assert (a + b)[..|a + b| - 1] == a + b[..|b| - 1];
      EffectiveConcat(a, b[..|b| - 1], p);
    }
  }

  predicate Masked(masks: seq<Mask>, p: Path) {
    exists m :: m in masks && Covers(m.path, p)
  }

  lemma {:induction false} MaskedIsEffective(masks: seq<Mask>, p: Path)
    ensures Effective(MaskMounts(masks), p).Some? <==> Masked(masks, p)
    ensures Masked(masks, p) ==>
              exists m :: m in masks && Covers(m.path, p) && Effective(MaskMounts(masks), p) == Some(MaskMount(m))
  {
    var ms := MaskMounts(masks);
    var e := Effective(ms, p);
    if Masked(masks, p) {
      var m :| m in masks && Covers(m.path, p);
      var k :| 0 <= k < |masks| && masks[k] == m;
      assert ms[k] in ms && Covers(ms[k].dst, p);
    }
    if e.Some? {
      var k :| 0 <= k < |ms| && ms[k] == e.value;
      assert masks[k] in masks && Covers(masks[k].path, p) && MaskMount(masks[k]) == e.value;
    }
  }

  /** What lies at a path no mask covers: the innermost rule that applies, from the working directory outwards. */
  function Unmasked(cwd: Path, policy: Policy, home: Option<Path>, scratch: Path, p: Path): Mount {
    if Covers(cwd, p) then if policy.writable then Bind(cwd, cwd) else RoBind(cwd, cwd)
    else if Covers(scratch, p) then Bind(scratch, scratch)
    else if home.Some? && Covers(home.value, p) then Tmpfs(home.value)
    else if Covers(TMP, p) then Tmpfs(TMP)
    else if Covers(PROC, p) then Proc(PROC)
    else if Covers(DEV, p) then Dev(DEV)
    else RoBind(ROOT, ROOT)
  }

  lemma {:induction false} UnmaskedView(cwd: Path, policy: Policy, home: Option<Path>, scratch: Path, p: Path)
    ensures Effective(Planned(cwd, policy, home, scratch, []), p) == Some(Unmasked(cwd, policy, home, scratch, p))
  {
    var own := if policy.writable then Bind(cwd, cwd) else RoBind(cwd, cwd);
    var system := SYSTEM;
    var hidden := if home.Some? then [Tmpfs(home.value)] else [];
    assert Planned(cwd, policy, home, scratch, []) == system + hidden + [Bind(scratch, scratch), own];
    EffectiveConcat(system + hidden, [Bind(scratch, scratch), own], p);
    EffectiveConcat(system, hidden, p);
    Two(Bind(scratch, scratch), own, p);
    Two(Proc(PROC), Tmpfs(TMP), p);
    Two(RoBind(ROOT, ROOT), Dev(DEV), p);
    EffectiveConcat([RoBind(ROOT, ROOT), Dev(DEV)], [Proc(PROC), Tmpfs(TMP)], p);
    assert [RoBind(ROOT, ROOT), Dev(DEV)] + [Proc(PROC), Tmpfs(TMP)] == system;
  }

  lemma {:induction false} Two(a: Mount, b: Mount, p: Path)
    ensures Effective([a, b], p) == if Covers(b.dst, p) then Some(b) else if Covers(a.dst, p) then Some(a) else None
  {
    assert [a, b][..1] == [a];
  }

  /**
   The confined view, for every mask list: a path under a kept mask shows a mask and nothing of the host;
   any other path shows what the rules above say.
   */
  lemma {:induction false} View(cwd: Path, policy: Policy, home: Option<Path>, scratch: Path, masks: seq<Mask>, p: Path)
    ensures var e := Effective(Planned(cwd, policy, home, scratch, masks), p);
            && (Masked(masks, p) ==>
                  exists m :: m in masks && Covers(m.path, p)
                    && e == Some(if m.isDir then Tmpfs(m.path) else RoBind(["dev", "null"], m.path)))
            && (!Masked(masks, p) ==> e == Some(Unmasked(cwd, policy, home, scratch, p)))
  {
    assert Planned(cwd, policy, home, scratch, masks) ==
           Planned(cwd, policy, home, scratch, []) + MaskMounts(masks);
    EffectiveConcat(Planned(cwd, policy, home, scratch, []), MaskMounts(masks), p);
    MaskedIsEffective(masks, p);
    UnmaskedView(cwd, policy, home, scratch, p);
  }

  /** Writes at `p` reach the host. */
  predicate HostWritable(ms: seq<Mount>, p: Path) {
    Effective(ms, p).Some? && Effective(ms, p).value.Bind?
  }

  /** The host is writable exactly under a writable working directory, or under the scratch directory outside it. */
  lemma WritableExactly(cwd: Path, policy: Policy, home: Option<Path>, scratch: Path, masks: seq<Mask>, p: Path)
    ensures HostWritable(Planned(cwd, policy, home, scratch, masks), p) <==>
            !Masked(masks, p) && (if Covers(cwd, p) then policy.writable else Covers(scratch, p))
  {
    View(cwd, policy, home, scratch, masks, p);
  }

  /** The filtered masks never hide the working directory itself. */
  lemma {:induction false} WorkingDirectoryIsVisible(cwd: Path, policy: Policy, home: Option<Path>, scratch: Path,
                                                     masks: seq<Mask>, onDisk: Path -> bool)
    ensures Effective(Planned(cwd, policy, home, scratch, KeptMasks(masks, onDisk, cwd)), cwd) ==
            Some(if policy.writable then Bind(cwd, cwd) else RoBind(cwd, cwd))
  {
    View(cwd, policy, home, scratch, KeptMasks(masks, onDisk, cwd), cwd);
  }
}
