/** Where forks live, and where a fork starts. Paths are resolved, as sequences of segments from the root. */
module ForkPaths {
  import opened Options

  type Path = seq<string>

  /** `p` is `<candidate>/.hiveloom/forks/<name>`. */
  predicate ForkShaped(p: Path) {
    |p| >= 3 && p[|p| - 2] == "forks" && p[|p| - 3] == ".hiveloom"
  }

  function Candidate(p: Path): Path
    requires ForkShaped(p)
  {
    p[..|p| - 3]
  }

  /** Whether `p` lies in the forks of a directory that holds a harness. */
  predicate IsFork(p: Path, harnesses: set<Path>) {
    ForkShaped(p) && Candidate(p) in harnesses
  }

  /** The original harness: fork nesting unwound as far as it goes. */
  function Root(p: Path, harnesses: set<Path>): (r: Path)
    ensures !IsFork(r, harnesses) && r <= p
    decreases |p|
  {
    if IsFork(p, harnesses) then Root(Candidate(p), harnesses) else p
  }

  method HarnessRoot(directory: Path, harnesses: set<Path>) returns (current: Path)
    ensures current == Root(directory, harnesses)
  {
    current := directory;
    while true
      invariant Root(current, harnesses) == Root(directory, harnesses)
      decreases |current|
    {
      if |current| >= 3 && current[|current| - 2] == "forks" && current[|current| - 3] == ".hiveloom" {
        var candidate := current[..|current| - 3];
        if candidate in harnesses {
          current := candidate;
          continue;
        }
      }
      return;
    }
  }

  function ForksDir(directory: Path, harnesses: set<Path>): Path {
    Root(directory, harnesses) + [".hiveloom", "forks"]
  }

  predicate IsSlugChar(c: char) {
    'a' <= c <= 'z' || 'A' <= c <= 'Z' || '0' <= c <= '9' || c == '.' || c == '_' || c == '-'
  }

  predicate ValidForkName(name: string) {
    1 <= |name| <= 64 && forall k :: 0 <= k < |name| ==> IsSlugChar(name[k])
  }

  /** The directory of a fork name, or None for a name that is no slug. */
  function ForkTarget(directory: Path, name: string, harnesses: set<Path>): (r: Option<Path>)
    ensures r.Some? <==> name != "" && |name| <= 64
                         && forall k :: 0 <= k < |name| ==>
                              || 'A' <= name[k] <= 'Z'
                              || 'a' <= name[k] <= 'z'
                              || '0' <= name[k] <= '9'
                              || name[k] == '.' || name[k] == '_' || name[k] == '-'
    ensures r.Some? ==> r.value == Root(directory, harnesses) + [".hiveloom", "forks", name]
  {
    if ValidForkName(name) then Some(ForksDir(directory, harnesses) + [name]) else None
  }

  /** `None` for a directory that is its own root. */
  function OwningHarness(directory: Path, harnesses: set<Path>): Option<Path> {
    var root := Root(directory, harnesses);
    if root == directory then None else Some(root)
  }

  lemma {:induction false} RootIsFixed(p: Path, harnesses: set<Path>)
    ensures Root(Root(p, harnesses), harnesses) == Root(p, harnesses)
  {
  }

  lemma TargetShape(root: Path, name: string)
    ensures ForkShaped(root + [".hiveloom", "forks"] + [name])
    ensures Candidate(root + [".hiveloom", "forks"] + [name]) == root
  {
  }

  /** The root is reached through harness directories only: each step up from a fork lands in one. */
  lemma {:induction false} RootIsSelfOrHarness(p: Path, harnesses: set<Path>)
    ensures Root(p, harnesses) == p || Root(p, harnesses) in harnesses
  {
    if IsFork(p, harnesses) {
      RootIsSelfOrHarness(Candidate(p), harnesses);
    }
  }

  /**
   Forks of every generation are siblings: forking a fork puts it beside that fork, under the harness the line
   started from. That is so exactly when that root holds a harness; without one the fork would nest.
   */
  lemma {:induction false} ForksAreSiblings(directory: Path, first: string, second: string, harnesses: set<Path>)
    requires ValidForkName(first) && ValidForkName(second)
    ensures var fork := ForkTarget(directory, first, harnesses).value;
            && (Root(directory, harnesses) in harnesses <==> Root(fork, harnesses) == Root(directory, harnesses))
            && (Root(directory, harnesses) in harnesses <==>
                  ForkTarget(fork, second, harnesses) == ForkTarget(directory, second, harnesses))
            && (Root(directory, harnesses) in harnesses <==> OwningHarness(fork, harnesses).Some?)
  {
    var root := Root(directory, harnesses);
    var fork := root + [".hiveloom", "forks"] + [first];
    assert ForkTarget(directory, first, harnesses) == Some(fork);
    TargetShape(root, first);
    RootIsFixed(directory, harnesses);
    assert |fork| == |root| + 3;
    if root in harnesses {
      assert Root(fork, harnesses) == Root(root, harnesses);
    } else {
      assert Root(fork, harnesses) == fork;
      var nested, flat := fork + [".hiveloom", "forks"] + [second], root + [".hiveloom", "forks"] + [second];
      assert |nested| != |flat|;
    }
  }

  /** A whole line of forks, each made in the one before it. */
  function LastOfLine(directory: Path, names: seq<string>, harnesses: set<Path>): Path
    requires forall k :: 0 <= k < |names| ==> ValidForkName(names[k])
  {
    if names == [] then directory
    else
      ForkTarget(LastOfLine(directory, names[..|names| - 1], harnesses), names[|names| - 1], harnesses).value
  }

  /** However long the line, its last fork is a direct child of the first harness's forks directory. */
  lemma {:induction false} LineStaysFlat(directory: Path, names: seq<string>, harnesses: set<Path>)
    requires names != [] && forall k :: 0 <= k < |names| ==> ValidForkName(names[k])
    requires Root(directory, harnesses) in harnesses
    ensures LastOfLine(directory, names, harnesses) == ForksDir(directory, harnesses) + [names[|names| - 1]]
    ensures Root(LastOfLine(directory, names, harnesses), harnesses) == Root(directory, harnesses)
  {
    var n := |names| - 1;
    if n > 0 {
      LineStaysFlat(directory, names[..n], harnesses);
    }
    TargetShape(Root(directory, harnesses), names[n]);
    RootIsFixed(directory, harnesses);
  }

  // ------------------------------------------------------------------ fork points

  /** The sequence numbers of the model calls a fork may start from, in journal order. */
  type Points = seq<int>

  predicate Increasing(points: Points) {
    forall j, k :: 0 <= j < k < |points| ==> points[j] < points[k]
  }

  /** The last point in journal order that lies before `at`. */
  ghost predicate LastBefore(points: Points, at: int, j: nat) {
    j < |points| && points[j] < at && forall i :: j < i < |points| ==> points[i] >= at
  }

  /**
   The point asked for, else the last one before it; None when there is none, or no point at all. In a
   journal, whose numbers increase, that is the greatest point not after the one asked for.
   */
  method ResolveForkPoint(points: Points, at: Option<int>) returns (r: Option<int>)
    ensures at.None? ==> r == if points == [] then None else Some(points[|points| - 1])
    ensures at.Some? && at.value in points ==> r == at
    ensures at.Some? && at.value !in points && r.Some? ==>
              exists j :: 0 <= j < |points| && points[j] == r.value < at.value
                          && forall k :: j < k < |points| ==> points[k] > at.value
    ensures at.Some? && r.None? ==> forall p :: p in points ==> p > at.value
    ensures at.Some? && r.Some? && Increasing(points) ==>
              r.value <= at.value && forall p :: p in points && p <= at.value ==> p <= r.value
  {
    if points == [] {
      return None;
    }
    if at.None? {
      return Some(points[|points| - 1]);
    }
    if at.value in points {
      return at;
    }
    r := None;
    ghost var last: nat := 0;
    var k := 0;
    while k < |points|
      invariant k <= |points|
      invariant r.Some? ==> last < k && points[last] == r.value && r.value < at.value
      invariant forall j :: 0 <= j < k && points[j] < at.value ==> r.Some? && j <= last
    {
      if points[k] < at.value {
        r, last := Some(points[k]), k;
      }
      k := k + 1;
    }
    assert r.Some? ==> LastBefore(points, at.value, last);
  }
}
