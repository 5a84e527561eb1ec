/**
 The line diff of the workbench: a longest-common-subsequence table filled bottom-up, a greedy walk over it,
 and a rendering that folds unchanged lines away from the edit.
 */
module LineDiff {

  type Line = string

  // ------------------------------------------------------------------ common subsequences

  /** `s` is what is left of `t` after deleting some of its lines. */
  predicate IsSubsequence(s: seq<Line>, t: seq<Line>) {
    if s == [] then true
    else if t == [] then false
    else if s[0] == t[0] && IsSubsequence(s[1..], t[1..]) then true
    else IsSubsequence(s, t[1..])
  }

  /** The value of the table at `i`, `j` for the suffixes `a[i..]` and `b[j..]`. */
  function Lcs(a: seq<Line>, b: seq<Line>): nat {
    if a == [] || b == [] then 0
    else if a[0] == b[0] then Lcs(a[1..], b[1..]) + 1
    else Max(Lcs(a[1..], b), Lcs(a, b[1..]))
  }

  function Max(x: nat, y: nat): nat {
    if x >= y then x else y
  }

  lemma {:induction false} SubsequenceOfTail(s: seq<Line>, t: seq<Line>)
    requires s != [] && IsSubsequence(s, t)
    ensures IsSubsequence(s[1..], t) && t != [] && IsSubsequence(s[1..], t[1..])
  {
    if s[0] == t[0] && IsSubsequence(s[1..], t[1..]) {
      SubsequenceExtend(s[1..], t);
    } else {
      SubsequenceOfTail(s, t[1..]);
      SubsequenceExtend(s[1..], t);
    }
  }

  lemma {:induction false} SubsequenceExtend(s: seq<Line>, t: seq<Line>)
    requires t != [] && IsSubsequence(s, t[1..])
    ensures IsSubsequence(s, t)
  {
    if s != [] && s[0] == t[0] && t[1..] != [] {
      SubsequenceOfTail(s, t[1..]);
      assert t[1..][1..] == t[2..];
    }
  }

  /** No common subsequence is longer than the table says. */
  lemma {:induction false} LcsIsUpperBound(c: seq<Line>, a: seq<Line>, b: seq<Line>)
    requires IsSubsequence(c, a) && IsSubsequence(c, b)
    ensures |c| <= Lcs(a, b)
    decreases |a| + |b|
  {
    if c != [] {
      if a[0] == b[0] {
        SubsequenceOfTail(c, a);
        SubsequenceOfTail(c, b);
        LcsIsUpperBound(c[1..], a[1..], b[1..]);
      } else if c[0] != a[0] {
        LcsIsUpperBound(c, a[1..], b);
      } else {
        LcsIsUpperBound(c, a, b[1..]);
      }
    }
  }

  // ------------------------------------------------------------------ edit scripts

  datatype Kind = Same | Del | Ins
  datatype Op = Op(kind: Kind, line: Line)

  /** The text a script starts from: everything it does not insert. */
  function Before(ops: seq<Op>): seq<Line> {
    if ops == [] then []
    else if ops[0].kind == Ins then Before(ops[1..]) else [ops[0].line] + Before(ops[1..])
  }

  /** The text a script ends with: everything it does not delete. */
  function After(ops: seq<Op>): seq<Line> {
    if ops == [] then []
    else if ops[0].kind == Del then After(ops[1..]) else [ops[0].line] + After(ops[1..])
  }

  function Kept(ops: seq<Op>): seq<Line> {
    if ops == [] then []
    else if ops[0].kind == Same then [ops[0].line] + Kept(ops[1..]) else Kept(ops[1..])
  }

  /** The changed lines of a script. */
  function Cost(ops: seq<Op>): nat {
    if ops == [] then 0 else (if ops[0].kind == Same then 0 else 1) + Cost(ops[1..])
  }

  predicate IsScript(ops: seq<Op>, a: seq<Line>, b: seq<Line>) {
    Before(ops) == a && After(ops) == b
  }

  /** The walk: a match is taken, else a deletion unless inserting keeps strictly more. */
  function Script(a: seq<Line>, b: seq<Line>): seq<Op>
    decreases |a| + |b|
  {
    if a == [] && b == [] then []
    else if a == [] then [Op(Ins, b[0])] + Script(a, b[1..])
    else if b == [] then [Op(Del, a[0])] + Script(a[1..], b)
    else if a[0] == b[0] then [Op(Same, a[0])] + Script(a[1..], b[1..])
    else if Lcs(a[1..], b) >= Lcs(a, b[1..]) then [Op(Del, a[0])] + Script(a[1..], b)
    else [Op(Ins, b[0])] + Script(a, b[1..])
  }

  /** The kept lines of any script are a common subsequence, and its cost is what they leave over. */
  lemma {:induction false} KeptIsCommon(ops: seq<Op>)
    ensures IsSubsequence(Kept(ops), Before(ops)) && IsSubsequence(Kept(ops), After(ops))
    ensures Cost(ops) + 2 * |Kept(ops)| == |Before(ops)| + |After(ops)|
  {
    if ops != [] {
      KeptIsCommon(ops[1..]);
      var k, o, n := Kept(ops[1..]), Before(ops[1..]), After(ops[1..]);
      var x := ops[0].line;
      assert ([x] + o)[1..] == o && ([x] + n)[1..] == n && ([x] + k)[1..] == k;
      match ops[0].kind
      case Same =>
      case Del => SubsequenceExtend(k, [x] + o);
      case Ins => SubsequenceExtend(k, [x] + n);
    }
  }

  lemma {:induction false} ScriptIsCorrect(a: seq<Line>, b: seq<Line>)
    ensures IsScript(Script(a, b), a, b)
    ensures |Kept(Script(a, b))| == Lcs(a, b)
    decreases |a| + |b|
  {
    var ops := Script(a, b);
    if a == [] && b == [] {
    } else if a == [] {
      ScriptIsCorrect(a, b[1..]);
      assert ops[1..] == Script(a, b[1..]);
    } else if b == [] {
      ScriptIsCorrect(a[1..], b);
      assert ops[1..] == Script(a[1..], b);
    } else if a[0] == b[0] {
      ScriptIsCorrect(a[1..], b[1..]);
      assert ops[1..] == Script(a[1..], b[1..]);
    } else if Lcs(a[1..], b) >= Lcs(a, b[1..]) {
      ScriptIsCorrect(a[1..], b);
      assert ops[1..] == Script(a[1..], b);
    } else {
      ScriptIsCorrect(a, b[1..]);
      assert ops[1..] == Script(a, b[1..]);
    }
  }

  /** Some common subsequence is as long as the table says: the one the walk keeps. */
  lemma {:induction false} LcsIsReached(a: seq<Line>, b: seq<Line>)
    ensures var c := Kept(Script(a, b));
            IsSubsequence(c, a) && IsSubsequence(c, b) && |c| == Lcs(a, b)
  {
    ScriptIsCorrect(a, b);
    KeptIsCommon(Script(a, b));
  }

  /** No script from `a` to `b` changes fewer lines than the walk's. */
  lemma {:induction false} ScriptIsMinimal(a: seq<Line>, b: seq<Line>, other: seq<Op>)
    requires IsScript(other, a, b)
    ensures IsScript(Script(a, b), a, b)
    ensures Cost(Script(a, b)) <= Cost(other)
  {
    ScriptIsCorrect(a, b);
    KeptIsCommon(Script(a, b));
    KeptIsCommon(other);
    LcsIsUpperBound(Kept(other), a, b);
  }

  /** Leaving out a line of either text leaves no longer common subsequence. */
  lemma {:induction false} LcsOfTail(a: seq<Line>, b: seq<Line>)
    ensures b != [] ==> Lcs(a, b[1..]) <= Lcs(a, b)
    ensures a != [] ==> Lcs(a[1..], b) <= Lcs(a, b)
  {
    if b != [] {
      LcsIsReached(a, b[1..]);
      SubsequenceExtend(Kept(Script(a, b[1..])), b);
      LcsIsUpperBound(Kept(Script(a, b[1..])), a, b);
    }
    if a != [] {
      LcsIsReached(a[1..], b);
      SubsequenceExtend(Kept(Script(a[1..], b)), a);
      LcsIsUpperBound(Kept(Script(a[1..], b)), a, b);
    }
  }

  /** Where deleting and inserting are as good, the script deletes first: no insertion is followed by a deletion. */
  predicate DeletesFirst(ops: seq<Op>) {
    forall k :: 0 <= k < |ops| - 1 ==> !(ops[k].kind == Ins && ops[k + 1].kind == Del)
  }

  lemma {:induction false} ScriptDeletesFirst(a: seq<Line>, b: seq<Line>)
    ensures DeletesFirst(Script(a, b))
    decreases |a| + |b|
  {
    var ops := Script(a, b);
    if ops != [] {
      var rest := ops[1..];
      if ops[0].kind == Ins {
        ScriptDeletesFirst(a, b[1..]);
        assert rest == Script(a, b[1..]);
        NoDeletionNext(a, b);
      } else if ops[0].kind == Del {
        ScriptDeletesFirst(a[1..], b);
        assert rest == Script(a[1..], b);
      } else {
        ScriptDeletesFirst(a[1..], b[1..]);
        assert rest == Script(a[1..], b[1..]);
      }
      forall k | 0 <= k < |ops| - 1
        ensures !(ops[k].kind == Ins && ops[k + 1].kind == Del)
      {
        if k > 0 {
          assert ops[k] == rest[k - 1] && ops[k + 1] == rest[k];
        }
      }
    }
  }

  lemma {:induction false} NoDeletionNext(a: seq<Line>, b: seq<Line>)
    requires Script(a, b) != [] && Script(a, b)[0].kind == Ins
    ensures Script(a, b[1..]) != [] ==> Script(a, b[1..])[0].kind != Del
  {
    if a != [] {
      LcsOfTail(a[1..], b);
      if |b| > 1 {
        LcsOfTail(a, b[1..]);
      }
    }
  }

  // ------------------------------------------------------------------ the table and the walk

  method FillTable(a: seq<Line>, b: seq<Line>) returns (lcs: array2<nat>)
    ensures fresh(lcs) && lcs.Length0 == |a| + 1 && lcs.Length1 == |b| + 1
    ensures forall i, j :: 0 <= i <= |a| && 0 <= j <= |b| ==> lcs[i, j] == Lcs(a[i..], b[j..])
  {
    lcs := new nat[|a| + 1, |b| + 1]((_, _) => 0);
    var i := |a|;
    while i > 0
      invariant 0 <= i <= |a|
      invariant forall x, y :: i <= x <= |a| && 0 <= y <= |b| ==> lcs[x, y] == Lcs(a[x..], b[y..])
      invariant forall x, y :: 0 <= x < i && 0 <= y <= |b| ==> lcs[x, y] == 0
    {
      i := i - 1;
      FillRow(a, b, lcs, i);
    }
  }

  method FillRow(a: seq<Line>, b: seq<Line>, lcs: array2<nat>, i: nat)
    requires lcs.Length0 == |a| + 1 && lcs.Length1 == |b| + 1 && i < |a|
    requires forall y :: 0 <= y <= |b| ==> lcs[i + 1, y] == Lcs(a[i + 1..], b[y..])
    requires lcs[i, |b|] == 0
    modifies lcs
    ensures forall y :: 0 <= y <= |b| ==> lcs[i, y] == Lcs(a[i..], b[y..])
    ensures forall x, y :: 0 <= x <= |a| && x != i && 0 <= y <= |b| ==> lcs[x, y] == old(lcs[x, y])
  {
    var j := |b|;
    while j > 0
      invariant 0 <= j <= |b|
      invariant forall y :: j <= y <= |b| ==> lcs[i, y] == Lcs(a[i..], b[y..])
      invariant forall x, y :: 0 <= x <= |a| && x != i && 0 <= y <= |b| ==> lcs[x, y] == old(lcs[x, y])
    {
      j := j - 1;
      CellStep(a, b, i, j, lcs[i + 1, j + 1], lcs[i + 1, j], lcs[i, j + 1]);
      lcs[i, j] := if a[i] == b[j] then lcs[i + 1, j + 1] + 1 else Max(lcs[i + 1, j], lcs[i, j + 1]);
    }
  }

  lemma CellStep(a: seq<Line>, b: seq<Line>, i: nat, j: nat, both: nat, below: nat, right: nat)
    requires i < |a| && j < |b| && both == Lcs(a[i + 1..], b[j + 1..])
    requires below == Lcs(a[i + 1..], b[j..]) && right == Lcs(a[i..], b[j + 1..])
    ensures Lcs(a[i..], b[j..]) == if a[i] == b[j] then both + 1 else Max(below, right)
  {
    LcsStep(a, b, i, j);
  }

  lemma LcsStep(a: seq<Line>, b: seq<Line>, i: nat, j: nat)
    requires i < |a| && j < |b|
    ensures Lcs(a[i..], b[j..]) ==
            if a[i] == b[j] then Lcs(a[i + 1..], b[j + 1..]) + 1
            else Max(Lcs(a[i + 1..], b[j..]), Lcs(a[i..], b[j + 1..]))
  {
    assert a[i..][1..] == a[i + 1..] && b[j..][1..] == b[j + 1..];
  }

  /** The line the walk takes at `i`, `j`, and where it stands after it. */
  lemma {:induction false} WalkStep(a: seq<Line>, b: seq<Line>, i: nat, j: nat, done: seq<Op>, op: Op, i2: nat, j2: nat)
    requires i <= i2 <= |a| && j <= j2 <= |b|
    requires done + Script(a[i..], b[j..]) == Script(a, b)
    requires Script(a[i..], b[j..]) == [op] + Script(a[i2..], b[j2..])
    ensures done + [op] + Script(a[i2..], b[j2..]) == Script(a, b)
  {
    assert done + ([op] + Script(a[i2..], b[j2..])) == done + [op] + Script(a[i2..], b[j2..]);
  }

  lemma ScriptAt(a: seq<Line>, b: seq<Line>, i: nat, j: nat)
    requires i < |a| && j < |b|
    ensures Script(a[i..], b[j..]) ==
            if a[i] == b[j] then [Op(Same, a[i])] + Script(a[i + 1..], b[j + 1..])
            else if Lcs(a[i + 1..], b[j..]) >= Lcs(a[i..], b[j + 1..]) then [Op(Del, a[i])] + Script(a[i + 1..], b[j..])
            else [Op(Ins, b[j])] + Script(a[i..], b[j + 1..])
  {
    assert a[i..][1..] == a[i + 1..] && b[j..][1..] == b[j + 1..];
  }

  /** The script, by the table: `i` and `j` advance over the lines that `ops` already covers. */
  method Walk(a: seq<Line>, b: seq<Line>) returns (ops: seq<Op>)
    ensures ops == Script(a, b)
  {
    var lcs := FillTable(a, b);
    var i, j := 0, 0;
    ops := [];
    while i < |a| && j < |b|
      invariant 0 <= i <= |a| && 0 <= j <= |b|
      invariant ops + Script(a[i..], b[j..]) == Script(a, b)
      invariant forall x, y :: 0 <= x <= |a| && 0 <= y <= |b| ==> lcs[x, y] == Lcs(a[x..], b[y..])
      decreases |a| - i + |b| - j
    {
      ScriptAt(a, b, i, j);
      if a[i] == b[j] {
        WalkStep(a, b, i, j, ops, Op(Same, a[i]), i + 1, j + 1);
        ops := ops + [Op(Same, a[i])];
        i, j := i + 1, j + 1;
      } else if lcs[i + 1, j] >= lcs[i, j + 1] {
        WalkStep(a, b, i, j, ops, Op(Del, a[i]), i + 1, j);
        ops := ops + [Op(Del, a[i])];
        i := i + 1;
      } else {
        WalkStep(a, b, i, j, ops, Op(Ins, b[j]), i, j + 1);
        ops := ops + [Op(Ins, b[j])];
        j := j + 1;
      }
    }
    ops := DeleteRest(a, b, i, j, ops);
    ops := InsertRest(a, b, |a|, j, ops);
  }

  /** With one side used up the script is one operation for the next line of the other, and the rest. */
  lemma ScriptRest(a: seq<Line>, b: seq<Line>, i: nat, j: nat)
    requires i <= |a| && j <= |b|
    ensures i < |a| && j == |b| ==> Script(a[i..], b[j..]) == [Op(Del, a[i])] + Script(a[i + 1..], b[j..])
    ensures i == |a| && j < |b| ==> Script(a[i..], b[j..]) == [Op(Ins, b[j])] + Script(a[i..], b[j + 1..])
  {
    if i < |a| && j == |b| {
      assert a[i..][1..] == a[i + 1..] && b[j..] == [];
    } else if i == |a| && j < |b| {
      assert b[j..][1..] == b[j + 1..] && a[i..] == [];
    }
  }

  method DeleteRest(a: seq<Line>, b: seq<Line>, start: nat, j: nat, done: seq<Op>) returns (ops: seq<Op>)
    requires start <= |a| && j <= |b| && (start < |a| ==> j == |b|)
    requires done + Script(a[start..], b[j..]) == Script(a, b)
    ensures ops + Script(a[|a|..], b[j..]) == Script(a, b)
  {
    var i := start;
    ops := done;
    while i < |a|
      invariant start <= i <= |a|
      invariant ops + Script(a[i..], b[j..]) == Script(a, b)
    {
      ScriptRest(a, b, i, j);
      WalkStep(a, b, i, j, ops, Op(Del, a[i]), i + 1, j);
      ops := ops + [Op(Del, a[i])];
      i := i + 1;
    }
  }

  method InsertRest(a: seq<Line>, b: seq<Line>, i: nat, start: nat, done: seq<Op>) returns (ops: seq<Op>)
    requires i == |a| && start <= |b|
    requires done + Script(a[i..], b[start..]) == Script(a, b)
    ensures ops == Script(a, b)
  {
    var j := start;
    ops := done;
    while j < |b|
      invariant start <= j <= |b|
      invariant ops + Script(a[i..], b[j..]) == Script(a, b)
    {
      ScriptRest(a, b, i, j);
      WalkStep(a, b, i, j, ops, Op(Ins, b[j]), i, j + 1);
      ops := ops + [Op(Ins, b[j])];
      j := j + 1;
    }
  }

  // ------------------------------------------------------------------ folding

  const MARK: string := "@@ \U{2026}"

  function Render(op: Op): string {
    [match op.kind case Same => ' ' case Del => '-' case Ins => '+'] + op.line
  }

  /** Whether a line is changed, or within `context` lines of a changed one. */
  predicate Shown(ops: seq<Op>, context: nat, i: nat) {
    exists k :: 0 <= k < |ops| && i - context <= k <= i + context && ops[k].kind != Same
  }

  /** The first shown line at or after `i`. */
  function RunEnd(ops: seq<Op>, context: nat, i: nat): (j: nat)
    requires i <= |ops|
    ensures i <= j <= |ops|
    ensures forall k :: i <= k < j ==> !Shown(ops, context, k)
    ensures j < |ops| ==> Shown(ops, context, j)
    decreases |ops| - i
  {
    if i == |ops| || Shown(ops, context, i) then i else RunEnd(ops, context, i + 1)
  }

  /** The folded script from line `i` on: shown lines as they are, one mark for each maximal run of hidden ones. */
  function Folded(ops: seq<Op>, context: nat, i: nat): seq<string>
    requires i <= |ops|
    decreases |ops| - i
  {
    if i == |ops| then []
    else if Shown(ops, context, i) then [Render(ops[i])] + Folded(ops, context, i + 1)
    else [MARK] + Folded(ops, context, RunEnd(ops, context, i + 1))
  }

  predicate InHiddenRun(ops: seq<Op>, context: nat, i: nat) {
    i > 0 && !Shown(ops, context, i - 1)
  }

  /** What is left to add at line `i`, when the mark of a hidden run is already there. */
  function FoldedRest(ops: seq<Op>, context: nat, i: nat): seq<string>
    requires i <= |ops|
  {
    Folded(ops, context, if InHiddenRun(ops, context, i) then RunEnd(ops, context, i) else i)
  }

  // ------------------------------------------------------------------ what folding leaves, line by line

  /** A changed line is at most `context` lines away, before or after. */
  ghost predicate NearChange(ops: seq<Op>, context: nat, i: int) {
    exists k :: 0 <= k < |ops| && ops[k].kind != Same && (if k < i then i - k else k - i) <= context
  }

  /** A line of the script as it is shown. */
  predicate ShownAs(op: Op, line: string) {
    match op.kind
    case Same => line == " " + op.line
    case Del => line == "-" + op.line
    case Ins => line == "+" + op.line
  }

  /**
   Entry `e` of the output stands for the script from `at[e]` up to `at[e + 1]`: one line near a change, as it is, or
   a mark for a run of lines that are not, which ends at a line near a change or at the end.
   */
  ghost predicate Stands(ops: seq<Op>, context: nat, at: seq<nat>, out: seq<string>, e: nat)
    requires e < |out| && |at| == |out| + 1
  {
    && at[e] < at[e + 1] <= |ops|
    && (if NearChange(ops, context, at[e]) then at[e + 1] == at[e] + 1 && ShownAs(ops[at[e]], out[e])
        else && out[e] == "@@ \U{2026}"
             && (forall k :: at[e] <= k < at[e + 1] ==> !NearChange(ops, context, k))
             && (at[e + 1] < |ops| ==> NearChange(ops, context, at[e + 1])))
  }

  /** The output is the script from line `start` on, every maximal run of lines far from a change folded to one mark. */
  ghost predicate Folds(ops: seq<Op>, context: nat, start: nat, at: seq<nat>, out: seq<string>) {
    && |at| == |out| + 1 && at[0] == start && at[|out|] == |ops|
    && (forall e :: 0 <= e < |out| ==> Stands(ops, context, at, out, e))
  }

  lemma {:induction false} FoldedFolds(ops: seq<Op>, context: nat, start: nat) returns (at: seq<nat>)
    requires start <= |ops|
    ensures Folds(ops, context, start, at, Folded(ops, context, start))
    decreases |ops| - start
  {
    if start == |ops| {
      return [start];
    }
    var out := Folded(ops, context, start);
    assert Shown(ops, context, start) <==> NearChange(ops, context, start);
    var next := if Shown(ops, context, start) then start + 1 else RunEnd(ops, context, start + 1);
    var rest := FoldedFolds(ops, context, next);
    at := [start] + rest;
    forall k | start <= k <= next && k < |ops|
      ensures Shown(ops, context, k) <==> NearChange(ops, context, k)
    {
    }
    forall e | 0 <= e < |out|
      ensures Stands(ops, context, at, out, e)
    {
      if e > 0 {
        assert Stands(ops, context, rest, out[1..], e - 1);
      }
    }
  }

  lemma {:induction false} FoldedIsFolding(ops: seq<Op>, context: nat)
    ensures exists at :: Folds(ops, context, 0, at, Folded(ops, context, 0))
  {
    var at := FoldedFolds(ops, context, 0);
  }

  /** A line stands in the output unfolded, at its own place in the order, exactly when it is near a change. */
  lemma {:induction false} UnfoldedExactlyNearChange(ops: seq<Op>, context: nat, at: seq<nat>, out: seq<string>, i: nat)
    requires Folds(ops, context, 0, at, out) && i < |ops|
    ensures NearChange(ops, context, i) <==> exists e :: 0 <= e < |out| && at[e] == i && ShownAs(ops[i], out[e])
    ensures forall d, e :: 0 <= d < e <= |out| ==> at[d] < at[e]
  {
    PlacesAscend(ops, context, at, out);
    var e := PlaceOf(ops, context, at, out, i, |out|);
    assert Stands(ops, context, at, out, e);
    if d :| 0 <= d < |out| && at[d] == i && ShownAs(ops[i], out[d]) {
      assert Stands(ops, context, at, out, d);
      assert "@@ \U{2026}"[0] == '@';
    }
  }

  lemma {:induction false} PlacesAscend(ops: seq<Op>, context: nat, at: seq<nat>, out: seq<string>)
    requires Folds(ops, context, 0, at, out)
    ensures forall d, e :: 0 <= d < e <= |out| ==> at[d] < at[e]
  {
    forall e | 0 <= e < |out|
      ensures at[e] < at[e + 1]
    {
      assert Stands(ops, context, at, out, e);
    }
    Ascending(at);
  }

  lemma {:induction false} Ascending(at: seq<nat>)
    requires forall e :: 0 <= e < |at| - 1 ==> at[e] < at[e + 1]
    ensures forall d, e :: 0 <= d < e < |at| ==> at[d] < at[e]
  {
    if |at| > 1 {
      var n := |at| - 1;
      Ascending(at[..n]);
      forall d | 0 <= d < n
        ensures at[d] < at[n]
      {
        assert at[n - 1] == at[..n][n - 1] && at[d] == at[..n][d] && at[n - 1] < at[n - 1 + 1];
      }
    }
  }

  /** The entry that stands for line `i`. */
  lemma {:induction false} PlaceOf(ops: seq<Op>, context: nat, at: seq<nat>, out: seq<string>, i: nat, n: nat)
    returns (e: nat)
    requires Folds(ops, context, 0, at, out) && n <= |out| && i < at[n]
    ensures e < n && at[e] <= i < at[e + 1]
  {
    assert n > 0;
    if at[n - 1] <= i {
      e := n - 1;
    } else {
      e := PlaceOf(ops, context, at, out, i, n - 1);
    }
  }

  method Fold(ops: seq<Op>, context: nat) returns (out: seq<string>)
    ensures out == Folded(ops, context, 0)
    ensures exists at :: Folds(ops, context, 0, at, out)
  {
    out := [];
    ghost var whole := Folded(ops, context, 0);
    var i := 0;
    while i < |ops|
      invariant i <= |ops|
      invariant (out != [] && out[|out| - 1] == MARK) <==> InHiddenRun(ops, context, i)
      invariant out + FoldedRest(ops, context, i) == whole
    {
      ghost var before := out;
      if !Shown(ops, context, i) {
        if out == [] || out[|out| - 1] != MARK {
          out := out + [MARK];
        }
      } else {
        assert Render(ops[i])[0] != MARK[0];
        out := out + [Render(ops[i])];
      }
      FoldOnce(ops, context, i, before, out);
      i := i + 1;
    }
    FoldedIsFolding(ops, context);
  }

  /** What one line adds: itself when it is shown, a mark when it opens a hidden run. */
  lemma FoldOnce(ops: seq<Op>, context: nat, i: nat, before: seq<string>, out: seq<string>)
    requires i < |ops|
    requires out == before + if Shown(ops, context, i) then [Render(ops[i])]
                             else if InHiddenRun(ops, context, i) then []
                             else [MARK]
    ensures InHiddenRun(ops, context, i + 1) <==> !Shown(ops, context, i)
    ensures out + FoldedRest(ops, context, i + 1) == before + FoldedRest(ops, context, i)
  {
  }

  predicate IsChange(line: string) {
    line != [] && (line[0] == '-' || line[0] == '+')
  }

  /** The `-` and `+` lines of a rendered diff. */
  function Changes(out: seq<string>): seq<string> {
    if out == [] then []
    else if IsChange(out[0]) then [out[0]] + Changes(out[1..]) else Changes(out[1..])
  }

  function ChangedFrom(ops: seq<Op>, i: nat): seq<string>
    requires i <= |ops|
    decreases |ops| - i
  {
    if i == |ops| then []
    else if ops[i].kind != Same then [Render(ops[i])] + ChangedFrom(ops, i + 1) else ChangedFrom(ops, i + 1)
  }

  lemma {:induction false} HiddenRunHasNoChange(ops: seq<Op>, context: nat, i: nat, j: nat)
    requires i <= j <= |ops| && forall k :: i <= k < j ==> !Shown(ops, context, k)
    ensures ChangedFrom(ops, i) == ChangedFrom(ops, j)
    decreases j - i
  {
    if i < j {
      assert !Shown(ops, context, i);
      HiddenRunHasNoChange(ops, context, i + 1, j);
    }
  }

  /** Folding hides no changed line and invents none. */
  lemma {:induction false} FoldKeepsChanges(ops: seq<Op>, context: nat, i: nat)
    requires i <= |ops|
    ensures Changes(Folded(ops, context, i)) == ChangedFrom(ops, i)
    decreases |ops| - i
  {
    if i < |ops| {
      var out := Folded(ops, context, i);
      if Shown(ops, context, i) {
        FoldKeepsChanges(ops, context, i + 1);
        assert out[1..] == Folded(ops, context, i + 1);
      } else {
        var j := RunEnd(ops, context, i + 1);
        FoldKeepsChanges(ops, context, j);
        HiddenRunHasNoChange(ops, context, i, j);
        assert out[1..] == Folded(ops, context, j);
      }
    }
  }

  /** A text compared with itself folds to a single mark; two different texts never do. */
  lemma {:induction false} FoldOfEqualTexts(a: seq<Line>, b: seq<Line>, context: nat)
    requires a != []
    ensures Folded(Script(a, b), context, 0) == [MARK] <==> a == b
  {
    var ops := Script(a, b);
    ScriptIsCorrect(a, b);
    FoldKeepsChanges(ops, context, 0);
    if a == b {
      SelfScript(a);
      assert RunEnd(ops, context, 1) == |ops|;
    } else if Folded(ops, context, 0) == [MARK] {
      assert Changes([MARK]) == Changes([MARK][1..]);
      assert ChangedFrom(ops, 0) == [];
      NoChangeIsSame(ops, 0);
      assert ops[0..] == ops;
      AllSame(ops);
    }
  }

  lemma {:induction false} SelfScript(a: seq<Line>)
    ensures |Script(a, a)| == |a| && forall k :: 0 <= k < |a| ==> Script(a, a)[k].kind == Same
  {
    if a != [] {
      SelfScript(a[1..]);
    }
  }

  lemma {:induction false} NoChangeIsSame(ops: seq<Op>, i: nat)
    requires i <= |ops| && ChangedFrom(ops, i) == []
    ensures forall k :: i <= k < |ops| ==> ops[k].kind == Same
    decreases |ops| - i
  {
    if i < |ops| {
      NoChangeIsSame(ops, i + 1);
    }
  }

  lemma {:induction false} AllSame(ops: seq<Op>)
    requires forall k :: 0 <= k < |ops| ==> ops[k].kind == Same
    ensures Before(ops) == After(ops)
  {
    if ops != [] {
      AllSame(ops[1..]);
    }
  }

  // ------------------------------------------------------------------ texts

  /** `text.split('\n')`: never empty, no line holding a newline. */
  function Split(text: string): (lines: seq<Line>)
    ensures lines != []
    ensures forall k :: 0 <= k < |lines| ==> '\n' !in lines[k]
  {
    if text == [] then [""]
    else
      var rest := Split(text[1..]);
      if text[0] == '\n' then [""] + rest else [[text[0]] + rest[0]] + rest[1..]
  }

  function Join(lines: seq<Line>): string {
    if lines == [] then ""
    else if |lines| == 1 then lines[0]
    else lines[0] + "\n" + Join(lines[1..])
  }

  lemma {:induction false} JoinSplit(text: string)
    ensures Join(Split(text)) == text
  {
    if text != [] {
      var lines, rest := Split(text), Split(text[1..]);
      JoinSplit(text[1..]);
      if text[0] == '\n' {
        assert lines[1..] == rest;
        assert Join(lines) == [text[0]] + Join(rest);
      } else {
        assert lines[1..] == rest[1..];
        assert Join(lines) == [text[0]] + Join(rest);
      }
    }
  }

  /** Splitting what was joined gives the lines back. */
  lemma {:induction false} SplitJoin(lines: seq<Line>)
    requires lines != [] && forall k :: 0 <= k < |lines| ==> '\n' !in lines[k]
    ensures Split(Join(lines)) == lines
    decreases |lines|, |lines[0]|
  {
    var text := Join(lines);
    if lines[0] == [] {
      if |lines| > 1 {
        SplitJoin(lines[1..]);
        assert text == "\n" + Join(lines[1..]) && text[1..] == Join(lines[1..]);
        assert [""] + lines[1..] == lines;
      }
    } else {
      var tail := [lines[0][1..]] + lines[1..];
      assert tail[1..] == lines[1..];
      SplitJoin(tail);
      assert text[1..] == Join(tail) && text[0] == lines[0][0];
      assert Split(text[1..]) == tail;
      assert [text[0]] + tail[0] == lines[0] && [lines[0]] + tail[1..] == lines;
    }
  }

  ghost predicate IsMinimalScript(ops: seq<Op>, a: seq<Line>, b: seq<Line>) {
    IsScript(ops, a, b) && forall other :: IsScript(other, a, b) ==> Cost(ops) <= Cost(other)
  }

  /** The lines are some minimal script from one text to the other, its deletions first, folded away from the edit. */
  ghost predicate IsFoldedDiff(a: seq<Line>, b: seq<Line>, context: nat, out: seq<string>) {
    exists ops, at :: IsMinimalScript(ops, a, b) && DeletesFirst(ops) && Folds(ops, context, 0, at, out)
  }

  lemma {:induction false} FoldedScriptIsDiff(a: seq<Line>, b: seq<Line>, context: nat)
    ensures IsFoldedDiff(a, b, context, Folded(Script(a, b), context, 0))
  {
    var at := FoldedFolds(Script(a, b), context, 0);
    ScriptIsCorrect(a, b);
    forall other | IsScript(other, a, b)
      ensures Cost(Script(a, b)) <= Cost(other)
    {
      ScriptIsMinimal(a, b, other);
    }
    assert IsMinimalScript(Script(a, b), a, b);
    ScriptDeletesFirst(a, b);
  }

  method Diff(before: string, after: string, context: nat) returns (out: string)
    ensures out == Join(Folded(Script(Split(before), Split(after)), context, 0))
    ensures Changes(Split(out)) == ChangedFrom(Script(Split(before), Split(after)), 0)
    ensures out == MARK <==> before == after
    ensures IsFoldedDiff(Split(before), Split(after), context, Split(out))
  {
    var a, b := Split(before), Split(after);
    var ops := Walk(a, b);
    var folded := Fold(ops, context);
    out := Join(folded);
    RenderedLines(a, b, context);
    SplitJoin(folded);
    FoldKeepsChanges(ops, context, 0);
    FoldOfEqualTexts(a, b, context);
    JoinSplit(before);
    JoinSplit(after);
    SplitJoin([MARK]);
    FoldedScriptIsDiff(a, b, context);
  }

  /** The folded diff of two texts is not empty, and each of its entries is one line. */
  lemma {:induction false} RenderedLines(a: seq<Line>, b: seq<Line>, context: nat)
    requires a != [] && b != []
    requires forall k :: 0 <= k < |a| ==> '\n' !in a[k]
    requires forall k :: 0 <= k < |b| ==> '\n' !in b[k]
    ensures var out := Folded(Script(a, b), context, 0);
            out != [] && forall k :: 0 <= k < |out| ==> '\n' !in out[k]
  {
    ScriptLines(a, b);
    FoldedLines(Script(a, b), context, 0);
  }

  lemma {:induction false} ScriptLines(a: seq<Line>, b: seq<Line>)
    requires forall k :: 0 <= k < |a| ==> '\n' !in a[k]
    requires forall k :: 0 <= k < |b| ==> '\n' !in b[k]
    ensures forall k :: 0 <= k < |Script(a, b)| ==> '\n' !in Script(a, b)[k].line
    decreases |a| + |b|
  {
    if a != [] {
      ScriptLines(a[1..], b);
    }
    if b != [] {
      ScriptLines(a, b[1..]);
    }
    if a != [] && b != [] {
      ScriptLines(a[1..], b[1..]);
    }
  }

  lemma {:induction false} FoldedLines(ops: seq<Op>, context: nat, i: nat)
    requires i <= |ops| && forall k :: 0 <= k < |ops| ==> '\n' !in ops[k].line
    ensures forall k :: 0 <= k < |Folded(ops, context, i)| ==> '\n' !in Folded(ops, context, i)[k]
    decreases |ops| - i
  {
    if i < |ops| {
      if Shown(ops, context, i) {
        FoldedLines(ops, context, i + 1);
      } else {
        FoldedLines(ops, context, RunEnd(ops, context, i + 1));
        assert '\n' !in MARK;
      }
    }
  }
}
