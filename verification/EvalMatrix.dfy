/**
 The matrix of cells an eval starts with, and the counts its manifest reports. Digests are abstract functions.
 */
module EvalMatrix {
  import opened Options
  import opened EvalCells
  import opened EvalMachine

  /** A case: its id, and everything its content digest covers. */
  datatype Case = Case(id: string, content: string)

  /** The key digest of a case id and the content digest of a case; the cell digest of a case key and repetition. */
  datatype Digests = Digests(idKey: string -> string, caseDigest: Case -> string, cellId: (string, nat) -> string)
  {
    function Key(c: Case): string {
      idKey(c.id)
    }
  }

  /** A cell's fixed part. */
  datatype Place = Place(key: string, digest: string, repetition: nat, cellId: string)

  // ------------------------------------------------------------------ cases in the order of their keys

  /** Python's order of strings. */
  predicate AtMost(a: string, b: string) {
    a == "" || (b != "" && (a[0] < b[0] || (a[0] == b[0] && AtMost(a[1..], b[1..]))))
  }

  /** The strings agree on their first `k` characters, and there the first ends or has the lesser one. */
  ghost predicate FirstDiffer(a: string, b: string, k: nat) {
    k <= |a| && k <= |b| && a[..k] == b[..k] && (k == |a| || (k < |b| && a[k] < b[k]))
  }

  ghost predicate NotAfter(a: string, b: string) {
    exists k :: FirstDiffer(a, b, k)
  }

  lemma {:induction false} AtMostDiffers(a: string, b: string) returns (k: nat)
    requires AtMost(a, b)
    ensures FirstDiffer(a, b, k)
  {
    k := 0;
    if a != "" && a[0] == b[0] {
      var n := AtMostDiffers(a[1..], b[1..]);
      k := n + 1;
      assert a[..k] == [a[0]] + a[1..][..n] && b[..k] == [b[0]] + b[1..][..n];
    }
  }

  lemma {:induction false} AtMostTotal(a: string, b: string)
    ensures AtMost(a, b) || AtMost(b, a)
  {
    if a != "" && b != "" && a[0] == b[0] {
      AtMostTotal(a[1..], b[1..]);
    }
  }

  lemma {:induction false} AtMostTransitive(a: string, b: string, c: string)
    requires AtMost(a, b) && AtMost(b, c)
    ensures AtMost(a, c)
  {
    if a != "" && a[0] == b[0] == c[0] {
      AtMostTransitive(a[1..], b[1..], c[1..]);
    }
  }

  /** The case goes behind those whose keys are at most its own. */
  function Insert(d: Digests, c: Case, cases: seq<Case>): seq<Case> {
    if cases != [] && AtMost(d.Key(cases[0]), d.Key(c)) then [cases[0]] + Insert(d, c, cases[1..]) else [c] + cases
  }

  /** `sorted(cases, key=_case_key)`, which keeps cases with one key in their order. */
  function ByKey(d: Digests, cases: seq<Case>): seq<Case> {
    if cases == [] then [] else Insert(d, cases[|cases| - 1], ByKey(d, cases[..|cases| - 1]))
  }

  lemma {:induction false} InsertPermutes(d: Digests, c: Case, cases: seq<Case>)
    ensures multiset(Insert(d, c, cases)) == multiset(cases) + multiset{c}
  {
    if cases != [] && AtMost(d.Key(cases[0]), d.Key(c)) {
      InsertPermutes(d, c, cases[1..]);
      assert cases == [cases[0]] + cases[1..];
    }
  }

  lemma {:induction false} ByKeyPermutes(d: Digests, cases: seq<Case>)
    ensures multiset(ByKey(d, cases)) == multiset(cases)
  {
    if cases != [] {
      var n := |cases| - 1;
      assert cases == cases[..n] + [cases[n]];
      ByKeyPermutes(d, cases[..n]);
      InsertPermutes(d, cases[n], ByKey(d, cases[..n]));
    }
  }

  predicate Ascending(d: Digests, cases: seq<Case>) {
    forall i, j :: 0 <= i < j < |cases| ==> AtMost(d.Key(cases[i]), d.Key(cases[j]))
  }

  lemma {:induction false} InsertAscending(d: Digests, c: Case, cases: seq<Case>)
    requires Ascending(d, cases)
    ensures Ascending(d, Insert(d, c, cases))
  {
    if cases != [] {
      var r := Insert(d, c, cases);
      AtMostTotal(d.Key(cases[0]), d.Key(c));
      if AtMost(d.Key(cases[0]), d.Key(c)) {
        InsertAscending(d, c, cases[1..]);
        InsertBounded(d, d.Key(cases[0]), c, cases[1..]);
        assert r[1..] == Insert(d, c, cases[1..]);
      } else {
        forall j | 0 < j < |r|
          ensures AtMost(d.Key(c), d.Key(r[j]))
        {
          if j > 1 {
            AtMostTransitive(d.Key(c), d.Key(cases[0]), d.Key(cases[j - 1]));
          }
        }
      }
    }
  }

  lemma {:induction false} InsertBounded(d: Digests, low: string, c: Case, cases: seq<Case>)
    requires AtMost(low, d.Key(c)) && forall k :: 0 <= k < |cases| ==> AtMost(low, d.Key(cases[k]))
    ensures forall k :: 0 <= k < |Insert(d, c, cases)| ==> AtMost(low, d.Key(Insert(d, c, cases)[k]))
  {
    var r := Insert(d, c, cases);
    InsertPermutes(d, c, cases);
    forall k | 0 <= k < |r|
      ensures AtMost(low, d.Key(r[k]))
    {
      assert r[k] in multiset(r);
      assert r[k] in multiset(cases) || r[k] == c;
    }
  }

  /** The cells come in the order of the case keys. */
  lemma {:induction false} ByKeyAscends(d: Digests, cases: seq<Case>)
    ensures Ascending(d, ByKey(d, cases))
    ensures var sorted := ByKey(d, cases);
            forall i, j :: 0 <= i < j < |sorted| ==> NotAfter(d.idKey(sorted[i].id), d.idKey(sorted[j].id))
  {
    ByKeyAscending(d, cases);
    var sorted := ByKey(d, cases);
    forall i, j | 0 <= i < j < |sorted|
      ensures NotAfter(d.idKey(sorted[i].id), d.idKey(sorted[j].id))
    {
      var k := AtMostDiffers(d.Key(sorted[i]), d.Key(sorted[j]));
    }
  }

  lemma {:induction false} ByKeyAscending(d: Digests, cases: seq<Case>)
    ensures Ascending(d, ByKey(d, cases))
  {
    if cases != [] {
      ByKeyAscending(d, cases[..|cases| - 1]);
      InsertAscending(d, cases[|cases| - 1], ByKey(d, cases[..|cases| - 1]));
    }
  }

  // ------------------------------------------------------------------ the matrix

  function Keys(d: Digests, cases: seq<Case>): multiset<string> {
    if cases == [] then multiset{}
    else Keys(d, cases[..|cases| - 1]) + multiset{d.Key(cases[|cases| - 1])}
  }

  /** No two cases have one key. */
  ghost predicate KeysDistinct(d: Digests, cases: seq<Case>) {
    forall key :: Keys(d, cases)[key] <= 1
  }

  lemma {:induction false} KeysConcat(d: Digests, a: seq<Case>, b: seq<Case>)
    ensures Keys(d, a + b) == Keys(d, a) + Keys(d, b)
  {
    if b == [] {
      assert a + b == a;
    } else {
      assert (a + b)[..|a + b| - 1] == a + b[..|b| - 1];
      KeysConcat(d, a, b[..|b| - 1]);
    }
  }

  lemma {:induction false} KeysCons(d: Digests, c: Case, cases: seq<Case>)
    ensures Keys(d, [c] + cases) == multiset{d.Key(c)} + Keys(d, cases)
  {
    KeysConcat(d, [c], cases);
    assert [c][..0] == [];
  }

  lemma {:induction false} InsertBehind(d: Digests, c: Case, cases: seq<Case>, more: seq<Case>)
    requires cases != [] && Keys(d, more) == multiset{d.Key(c)} + Keys(d, cases[1..])
    ensures Keys(d, [cases[0]] + more) == multiset{d.Key(c)} + Keys(d, cases)
  {
    var first, rest := cases[0], cases[1..];
    KeysCons(d, first, more);
    KeysCons(d, first, rest);
    assert [first] + rest == cases;
    Swap(d.Key(first), d.Key(c), Keys(d, rest), Keys(d, more), Keys(d, cases), Keys(d, [first] + more));
  }

  lemma {:induction false} InsertKeys(d: Digests, c: Case, cases: seq<Case>)
    ensures Keys(d, Insert(d, c, cases)) == multiset{d.Key(c)} + Keys(d, cases)
  {
    if cases != [] && AtMost(d.Key(cases[0]), d.Key(c)) {
      InsertKeys(d, c, cases[1..]);
      InsertBehind(d, c, cases, Insert(d, c, cases[1..]));
    } else {
      KeysCons(d, c, cases);
    }
  }

  lemma Swap(a: string, b: string, rest: multiset<string>, more: multiset<string>, all: multiset<string>,
             longer: multiset<string>)
    requires more == multiset{b} + rest && all == multiset{a} + rest && longer == multiset{a} + more
    ensures longer == multiset{b} + all
  {
  }

  /** Sorting neither makes nor hides two cases with one key. */
  lemma {:induction false} ByKeyKeys(d: Digests, cases: seq<Case>)
    ensures Keys(d, ByKey(d, cases)) == Keys(d, cases)
  {
    if cases != [] {
      ByKeyKeys(d, cases[..|cases| - 1]);
      InsertKeys(d, cases[|cases| - 1], ByKey(d, cases[..|cases| - 1]));
    }
  }

  function PlaceOf(d: Digests, c: Case, repetition: nat): Place {
    Place(d.Key(c), d.caseDigest(c), repetition, d.cellId(d.Key(c), repetition))
  }

  /** The first `n` repetitions of a case. */
  function Repeated(d: Digests, c: Case, n: nat): (r: seq<Place>)
    ensures |r| == n && forall k :: 0 <= k < n ==> r[k] == PlaceOf(d, c, k)
  {
    if n == 0 then [] else Repeated(d, c, n - 1) + [PlaceOf(d, c, n - 1)]
  }

  function Matrix(d: Digests, cases: seq<Case>, repetitions: nat): seq<Place> {
    if cases == [] then []
    else Matrix(d, cases[..|cases| - 1], repetitions) + Repeated(d, cases[|cases| - 1], repetitions)
  }

  /** `_build_cells`: None stands for the error of two cases with one key. */
  method BuildCells(d: Digests, cases: seq<Case>, repetitions: nat) returns (r: Option<seq<Place>>)
    ensures r == if KeysDistinct(d, cases) then Some(Matrix(d, ByKey(d, cases), repetitions)) else None
  {
    ByKeyKeys(d, cases);
    r := BuildSorted(d, ByKey(d, cases), repetitions);
  }

  /** The loop over the sorted cases. */
  method BuildSorted(d: Digests, sorted: seq<Case>, repetitions: nat) returns (r: Option<seq<Place>>)
    ensures r == if KeysDistinct(d, sorted) then Some(Matrix(d, sorted, repetitions)) else None
  {
    var cells: seq<Place> := [];
    var seen: set<string> := {};
    for i := 0 to |sorted|
      invariant cells == Matrix(d, sorted[..i], repetitions) && KeysDistinct(d, sorted[..i])
      invariant forall key :: key in seen <==> key in Keys(d, sorted[..i])
    {
      var key := d.Key(sorted[i]);
      NextKey(d, sorted, i);
      if key in seen {
        return None;
      }
      seen := seen + {key};
      cells := Repeat(d, sorted[i], key, repetitions, cells);
    }
    assert sorted[..|sorted|] == sorted;
    r := Some(cells);
  }

  /** A key seen before makes the keys collide; a new one does not. */
  lemma {:induction false} NextKey(d: Digests, cases: seq<Case>, i: nat)
    requires i < |cases| && KeysDistinct(d, cases[..i])
    ensures d.Key(cases[i]) in Keys(d, cases[..i]) ==> !KeysDistinct(d, cases)
    ensures d.Key(cases[i]) !in Keys(d, cases[..i]) ==> KeysDistinct(d, cases[..i + 1])
    ensures Keys(d, cases[..i + 1]) == Keys(d, cases[..i]) + multiset{d.Key(cases[i])}
    ensures cases[..i + 1][..i] == cases[..i]
  {
    assert cases[..i + 1][..i] == cases[..i];
    assert cases[..i + 1] + cases[i + 1..] == cases;
    KeysConcat(d, cases[..i + 1], cases[i + 1..]);
    if d.Key(cases[i]) in Keys(d, cases[..i]) {
      assert Keys(d, cases)[d.Key(cases[i])] > 1;
    }
  }

  /** The inner loop: one cell for each repetition. */
  method Repeat(d: Digests, c: Case, key: string, repetitions: nat, before: seq<Place>) returns (cells: seq<Place>)
    requires key == d.Key(c)
    ensures cells == before + Repeated(d, c, repetitions)
  {
    cells := before;
    for repetition := 0 to repetitions
      invariant cells == before + Repeated(d, c, repetition)
    {
      cells := cells + [Place(key, d.caseDigest(c), repetition, d.cellId(key, repetition))];
    }
  }

  /** Every case and repetition has one cell, in the order of the cases and then of the repetitions. */
  lemma {:induction false} EachPairOnce(d: Digests, cases: seq<Case>, repetitions: nat, i: nat, repetition: nat)
    requires i < |cases| && repetition < repetitions
    ensures |Matrix(d, cases, repetitions)| == |cases| * repetitions
    ensures i * repetitions + repetition < |cases| * repetitions
    ensures var p := Matrix(d, cases, repetitions)[i * repetitions + repetition];
            && p.key == d.idKey(cases[i].id) && p.digest == d.caseDigest(cases[i])
            && p.repetition == repetition && p.cellId == d.cellId(d.idKey(cases[i].id), repetition)
  {
    MatrixSize(d, cases, repetitions);
    var n := |cases| - 1;
    MatrixSize(d, cases[..n], repetitions);
    MoreRows(i + 1, |cases|, repetitions);
    if i < n {
      EachPairOnce(d, cases[..n], repetitions, i, repetition);
    }
  }

  lemma MoreRows(i: nat, n: nat, repetitions: nat)
    requires i <= n
    ensures i * repetitions <= n * repetitions
    ensures i > 0 ==> i * repetitions == (i - 1) * repetitions + repetitions
  {
  }

  lemma {:induction false} MatrixSize(d: Digests, cases: seq<Case>, repetitions: nat)
    ensures |Matrix(d, cases, repetitions)| == |cases| * repetitions
  {
    if cases != [] {
      MatrixSize(d, cases[..|cases| - 1], repetitions);
      MoreRows(|cases|, |cases|, repetitions);
    }
  }

  /** The bare run id of a cell: the eval run's id and twelve characters of the cell's. */
  function BaseOf(run: string, p: Place): string
    requires |p.cellId| == 20
  {
    run + "_" + p.cellId[..12]
  }

  function ConfigOf(retries: nat, root: string, run: string, places: seq<Place>): Config
    requires forall p :: p in places ==> |p.cellId| == 20
  {
    Config(retries, root, seq(|places|, i requires 0 <= i < |places| => BaseOf(run, places[i])))
  }

  // The run ids of a matrix are told apart, so that the machine's theorems apply, exactly when its shortened ids are.
  lemma ValidExactlyWhenShortIdsDiffer(retries: nat, root: string, run: string, places: seq<Place>)
    requires forall p :: p in places ==> |p.cellId| == 20
    ensures ValidConfig(ConfigOf(retries, root, run, places)) <==>
            forall i, j :: 0 <= i < j < |places| ==> places[i].cellId[..12] != places[j].cellId[..12]
  {
    var bases := ConfigOf(retries, root, run, places).bases;
    forall i, j | 0 <= i < |places| && 0 <= j < |places|
      ensures |bases[i]| == |bases[j]|
      ensures bases[i] == bases[j] <==> places[i].cellId[..12] == places[j].cellId[..12]
    {
      assert bases[i][|run| + 1..] == places[i].cellId[..12] && bases[j][|run| + 1..] == places[j].cellId[..12];
    }
  }

  // ------------------------------------------------------------------ the counts of a manifest

  datatype Summary = Summary(total: nat, pending: nat, running: nat, ran: nat, completed: nat, infrastructureError: nat)

  function Count(cells: seq<Cell>, status: CellStatus): (n: nat)
    ensures n <= |cells|
  {
    if cells == [] then 0
    else Count(cells[..|cells| - 1], status) + (if cells[|cells| - 1].status == status then 1 else 0)
  }

  /** The places of the cells of a status. */
  function Of(cells: seq<Cell>, status: CellStatus): set<nat> {
    set i: nat | i < |cells| && cells[i].status == status
  }

  /** Every cell is counted under its own status, once. */
  lemma {:induction false} CountIsByStatus(cells: seq<Cell>, status: CellStatus)
    ensures Count(cells, status) == |set i: nat | i < |cells| && cells[i].status == status|
  {
    assert Of(cells, status) == set i: nat | i < |cells| && cells[i].status == status;
    CountIsSize(cells, status);
  }

  lemma {:induction false} CountIsSize(cells: seq<Cell>, status: CellStatus)
    ensures Count(cells, status) == |Of(cells, status)|
  {
    if cells != [] {
      var n := |cells| - 1;
      CountIsSize(cells[..n], status);
      if cells[n].status == status {
        assert Of(cells, status) == Of(cells[..n], status) + {n};
      } else {
        assert Of(cells, status) == Of(cells[..n], status);
      }
    }
  }

  /** `EvalManifest.summary`. */
  method Summarize(cells: seq<Cell>) returns (r: Summary)
    ensures r == Summary(|cells|, Count(cells, Pending), Count(cells, Running), Count(cells, Ran),
                         Count(cells, Completed), Count(cells, InfrastructureError))
    ensures r.pending + r.running + r.ran + r.completed + r.infrastructureError == r.total
    ensures r.completed == r.total <==> AllCompleted(cells)
  {
    r := Summary(|cells|, 0, 0, 0, 0, 0);
    for i := 0 to |cells|
      invariant r == Summary(|cells|, Count(cells[..i], Pending), Count(cells[..i], Running), Count(cells[..i], Ran),
                             Count(cells[..i], Completed), Count(cells[..i], InfrastructureError))
      invariant r.pending + r.running + r.ran + r.completed + r.infrastructureError == i
    {
      assert cells[..i + 1][..i] == cells[..i];
      match cells[i].status {
        case Pending => r := r.(pending := r.pending + 1);
        case Running => r := r.(running := r.running + 1);
        case Ran => r := r.(ran := r.ran + 1);
        case Completed => r := r.(completed := r.completed + 1);
        case InfrastructureError => r := r.(infrastructureError := r.infrastructureError + 1);
      }
    }
    assert cells[..|cells|] == cells;
    AllCounted(cells);
  }

  lemma {:induction false} AllCounted(cells: seq<Cell>)
    ensures Count(cells, Completed) == |cells| <==> AllCompleted(cells)
  {
    if cells != [] {
      AllCounted(cells[..|cells| - 1]);
    }
  }
}
