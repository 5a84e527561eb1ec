/**
 Paired comparison of two evals, and the metric aggregates of one. Arithmetic is over `real`. Python's `sorted` is an
 argument: any function that lists a finite set without repetition.
 */
module EvalReports {
  import opened Options

  type CellKey = (string, int)

  datatype MetricKey = MetricKey(name: string, source: string, scope: string, unit: string, direction: string)

  /** An indexed cell; an empty run status stands for a cell that has none. */
  datatype Cell = Cell(caseKey: string, repetition: int, status: string, runStatus: string,
                       durationMs: real, costUsd: real, costSource: string)
  {
    function Key(): CellKey {
      (caseKey, repetition)
    }
  }

  datatype Metric = Metric(caseKey: string, repetition: int, key: MetricKey, value: real)
  {
    function Cell(): CellKey {
      (caseKey, repetition)
    }
  }

  datatype Snapshot = Snapshot(cells: seq<Cell>, metrics: seq<Metric>)

  ghost predicate Lists<K(!new)>(keys: seq<K>, all: set<K>) {
    (forall k :: k in keys <==> k in all) && forall i, j :: 0 <= i < j < |keys| ==> keys[i] != keys[j]
  }

  ghost predicate Sorts<K(!new)>(order: set<K> -> seq<K>) {
    forall all :: Lists(order(all), all)
  }

  // ------------------------------------------------------------------ means and paired means

  function Sum(values: seq<real>): real {
    if values == [] then 0.0 else Sum(values[..|values| - 1]) + values[|values| - 1]
  }

  /** `_mean`: None for no values. */
  function Mean(values: seq<real>): Option<real> {
    if values == [] then None else Some(Sum(values) / |values| as real)
  }

  /** The mean times the count is the sum, and sums of two lists add up. */
  lemma {:induction false} MeanIsSumOverCount(a: seq<real>, b: seq<real>)
    ensures Mean(a).Some? <==> a != []
    ensures a != [] ==> Mean(a).value * |a| as real == Sum(a)
    ensures Sum(a + b) == Sum(a) + Sum(b) && forall x :: Sum([x]) == x
  {
    if a != [] {
      Quotient(Sum(a), |a| as real);
    }
    SumConcat(a, b);
    forall x
      ensures Sum([x]) == x
    {
      assert [x][..0] == [];
    }
  }

  lemma Quotient(x: real, n: real)
    requires n > 0.0
    ensures x / n * n == x
  {
  }

  lemma {:induction false} SumConcat(a: seq<real>, b: seq<real>)
    ensures Sum(a + b) == Sum(a) + Sum(b)
  {
    if b == [] {
      assert a + b == a;
    } else {
      assert (a + b)[..|a + b| - 1] == a + b[..|b| - 1];
      SumConcat(a, b[..|b| - 1]);
    }
  }

  /** The five numbers of a paired comparison. */
  datatype Delta = Delta(
    samples: nat,
    missing: int,
    baseline: Option<real>,
    candidate: Option<real>,
    change: Option<real>)

  /** Of pairs (baseline, candidate) sampled from a population: the two means and the mean of the differences. */
  function Paired(values: seq<(real, real)>, population: nat): Delta {
    Delta(|values|, population - |values|, Mean(Firsts(values)), Mean(Seconds(values)), Mean(Changes(values)))
  }

  function Firsts(values: seq<(real, real)>): seq<real> {
    seq(|values|, i requires 0 <= i < |values| => values[i].0)
  }

  function Seconds(values: seq<(real, real)>): seq<real> {
    seq(|values|, i requires 0 <= i < |values| => values[i].1)
  }

  function Changes(values: seq<(real, real)>): seq<real> {
    seq(|values|, i requires 0 <= i < |values| => values[i].1 - values[i].0)
  }

  function Swapped<A>(values: seq<(A, A)>): (r: seq<(A, A)>) {
    seq(|values|, i requires 0 <= i < |values| => (values[i].1, values[i].0))
  }

  function Negated(x: Option<real>): Option<real> {
    if x.None? then None else Some(-x.value)
  }

  /** The same comparison with the two evals exchanged. */
  function Mirror(d: Delta): Delta {
    Delta(d.samples, d.missing, d.candidate, d.baseline, Negated(d.change))
  }

  lemma {:induction false} SumOfDifferences(a: seq<real>, b: seq<real>, c: seq<real>)
    requires |a| == |b| == |c| && forall i :: 0 <= i < |a| ==> c[i] == a[i] - b[i]
    ensures Sum(c) == Sum(a) - Sum(b)
  {
    if a != [] {
      var n := |a| - 1;
      SumOfDifferences(a[..n], b[..n], c[..n]);
    }
  }

  lemma DivideDifference(x: real, y: real, n: real)
    requires n > 0.0
    ensures (x - y) / n == x / n - y / n
  {
  }

  /** The mean of the differences is the difference of the means, over the very same samples. */
  lemma ChangeIsDifferenceOfMeans(values: seq<(real, real)>, population: nat)
    requires values != []
    ensures var d := Paired(values, population);
            && d.baseline.Some? && d.candidate.Some?
            && d.change == Some(d.candidate.value - d.baseline.value)
  {
    SumOfDifferences(Seconds(values), Firsts(values), Changes(values));
    DivideDifference(Sum(Seconds(values)), Sum(Firsts(values)), |values| as real);
  }

  lemma SwapMirrorsPaired(values: seq<(real, real)>, population: nat)
    ensures Paired(Swapped(values), population) == Mirror(Paired(values, population))
  {
    var swapped := Swapped(values);
    var d, m := Paired(values, population), Paired(swapped, population);
    assert Firsts(swapped) == Seconds(values) && Seconds(swapped) == Firsts(values);
    assert m.samples == d.samples && m.baseline == d.candidate && m.candidate == d.baseline;
    if values == [] {
      assert Changes(swapped) == Changes(values) == [];
    } else {
      ChangeIsDifferenceOfMeans(values, population);
      ChangeIsDifferenceOfMeans(swapped, population);
    }
  }

  // ------------------------------------------------------------------ cells and their pairing

  /** `_cell_map`: the last cell of a key counts. */
  function CellMap(cells: seq<Cell>): map<CellKey, Cell> {
    if cells == [] then map[]
    else CellMap(cells[..|cells| - 1])[cells[|cells| - 1].Key() := cells[|cells| - 1]]
  }

  /** Cell `i` is the last one with the key. */
  ghost predicate LastOf(cells: seq<Cell>, key: CellKey, i: int) {
    0 <= i < |cells| && cells[i].Key() == key && forall j :: i < j < |cells| ==> cells[j].Key() != key
  }

  lemma {:induction false} CellMapHoldsTheLast(cells: seq<Cell>, key: CellKey)
    ensures key in CellMap(cells) <==> exists i :: LastOf(cells, key, i)
    ensures forall i :: LastOf(cells, key, i) ==> CellMap(cells)[key] == cells[i]
  {
    if cells != [] {
      var n := |cells| - 1;
      CellMapHoldsTheLast(cells[..n], key);
      if cells[n].Key() == key {
        assert LastOf(cells, key, n);
      } else {
        forall i
          ensures LastOf(cells, key, i) <==> LastOf(cells[..n], key, i)
        {
        }
      }
    }
  }

  function MatchedKeys(b: map<CellKey, Cell>, c: map<CellKey, Cell>): set<CellKey> {
    b.Keys * c.Keys
  }

  /** Matched and one-sided cells partition each eval's cells. */
  lemma PairingPartitions(b: map<CellKey, Cell>, c: map<CellKey, Cell>, order: set<CellKey> -> seq<CellKey>)
    requires Sorts(order)
    ensures MatchedKeys(b, c) !! b.Keys - c.Keys !! c.Keys - b.Keys
    ensures |order(MatchedKeys(b, c))| + |order(b.Keys - c.Keys)| == |b|
    ensures |order(MatchedKeys(b, c))| + |order(c.Keys - b.Keys)| == |c|
  {
    var matched, left, right := MatchedKeys(b, c), b.Keys - c.Keys, c.Keys - b.Keys;
    assert matched + left == b.Keys && matched + right == c.Keys;
    ListedOnce(order(matched), matched);
    ListedOnce(order(left), left);
    ListedOnce(order(right), right);
    assert |b| == |b.Keys| && |c| == |c.Keys|;
  }

  lemma {:induction false} ListedOnce<K(!new)>(keys: seq<K>, all: set<K>)
    requires Lists(keys, all)
    ensures |keys| == |all|
    decreases |keys|
  {
    if keys == [] {
      assert all == {};
    } else {
      var n := |keys| - 1;
      assert keys[n] in keys;
      forall k
        ensures k in keys[..n] <==> k in all - {keys[n]}
      {
        if k in all && k != keys[n] {
          var i :| 0 <= i < |keys| && keys[i] == k;
          assert keys[..n][i] == k;
        }
      }
      ListedOnce(keys[..n], all - {keys[n]});
    }
  }

  /** The cells of each matched key, baseline first. */
  function PairsOf(b: map<CellKey, Cell>, c: map<CellKey, Cell>, keys: seq<CellKey>): seq<(Cell, Cell)>
    requires forall k :: k in keys ==> k in b && k in c
  {
    seq(|keys|, i requires 0 <= i < |keys| => (b[keys[i]], c[keys[i]]))
  }

  // ------------------------------------------------------------------ success and latency

  /** 1 for a completed success, 0 for another completed run, absent otherwise. */
  function Success(cell: Cell): Option<real> {
    if cell.status == "completed" && cell.runStatus != "" then Some(if cell.runStatus == "success" then 1.0 else 0.0)
    else None
  }

  function Duration(cell: Cell): Option<real> {
    if cell.runStatus != "" then Some(cell.durationMs) else None
  }

  function BothPresent(pairs: seq<(Cell, Cell)>, field: Cell -> Option<real>): (r: seq<(real, real)>)
    ensures |r| <= |pairs|
  {
    if pairs == [] then []
    else
      var (b, c) := pairs[|pairs| - 1];
      BothPresent(pairs[..|pairs| - 1], field)
      + (if field(b).Some? && field(c).Some? then [(field(b).value, field(c).value)] else [])
  }

  /** `_paired_delta` of a field. */
  function PairedDelta(pairs: seq<(Cell, Cell)>, field: Cell -> Option<real>): (d: Delta)
    ensures d.samples + d.missing == |pairs| && d.missing >= 0
  {
    Paired(BothPresent(pairs, field), |pairs|)
  }

  lemma {:induction false} SwapMirrorsDelta(pairs: seq<(Cell, Cell)>, field: Cell -> Option<real>)
    ensures BothPresent(Swapped(pairs), field) == Swapped(BothPresent(pairs, field))
    ensures PairedDelta(Swapped(pairs), field) == Mirror(PairedDelta(pairs, field))
  {
    if pairs != [] {
      var n := |pairs| - 1;
      SwapMirrorsDelta(pairs[..n], field);
      assert Swapped(pairs)[..n] == Swapped(pairs[..n]);
    }
    SwapMirrorsPaired(BothPresent(pairs, field), |pairs|);
  }

  predicate Succeeded(cell: Cell) {
    cell.status == "completed" && cell.runStatus == "success"
  }

  /** The eval completed the cell, and its run did not succeed. */
  predicate Failed(cell: Cell) {
    cell.status == "completed" && cell.runStatus != "" && cell.runStatus != "success"
  }

  /** The pairs the candidate alone won and the pairs it alone lost. */
  function Wins(pairs: seq<(Cell, Cell)>): int {
    if pairs == [] then 0
    else
      var (b, c) := pairs[|pairs| - 1];
      Wins(pairs[..|pairs| - 1])
      + (if Failed(b) && Succeeded(c) then 1 else if Succeeded(b) && Failed(c) then -1 else 0)
  }

  /** The pairs with a property, in their order. */
  function Where(pairs: seq<(Cell, Cell)>, p: (Cell, Cell) -> bool): seq<(Cell, Cell)> {
    if pairs == [] then []
    else
      var last := pairs[|pairs| - 1];
      Where(pairs[..|pairs| - 1], p) + (if p(last.0, last.1) then [last] else [])
  }

  function Both(p: Cell -> bool): (Cell, Cell) -> bool {
    (b, c) => p(b) && p(c)
  }

  function Valued(pairs: seq<(Cell, Cell)>, value: Cell -> real): (r: seq<(real, real)>)
    ensures |r| == |pairs|
  {
    seq(|pairs|, i requires 0 <= i < |pairs| => (value(pairs[i].0), value(pairs[i].1)))
  }

  /** What is sampled is what the pairs both of which have the field say of it. */
  lemma {:induction false} SamplesWhereBoth(pairs: seq<(Cell, Cell)>, field: Cell -> Option<real>, has: Cell -> bool,
                                            value: Cell -> real)
    requires forall cell :: field(cell) == if has(cell) then Some(value(cell)) else None
    ensures BothPresent(pairs, field) == Valued(Where(pairs, Both(has)), value)
  {
    if pairs != [] {
      SamplesWhereBoth(pairs[..|pairs| - 1], field, has, value);
    }
  }

  /** The latencies compared are the durations of the pairs of which both ran. */
  lemma {:induction false} LatencyOfRuns(pairs: seq<(Cell, Cell)>)
    ensures BothPresent(pairs, Duration) ==
            Valued(Where(pairs, Both((cell: Cell) => cell.runStatus != "")), (cell: Cell) => cell.durationMs)
  {
    SamplesWhereBoth(pairs, Duration, (cell: Cell) => cell.runStatus != "", (cell: Cell) => cell.durationMs);
  }

  /** The outcomes compared are 1 and 0 for success and failure, of the pairs both of which completed with a run. */
  lemma {:induction false} SuccessOfFinished(pairs: seq<(Cell, Cell)>)
    ensures BothPresent(pairs, Success) ==
            Valued(Where(pairs, Both((cell: Cell) => cell.status == "completed" && cell.runStatus != "")),
                   (cell: Cell) => if cell.runStatus == "success" then 1.0 else 0.0)
  {
    SamplesWhereBoth(pairs, Success, (cell: Cell) => cell.status == "completed" && cell.runStatus != "",
                     (cell: Cell) => if cell.runStatus == "success" then 1.0 else 0.0);
  }

  lemma ChangesOfOneMore(values: seq<(real, real)>, pair: (real, real))
    ensures Sum(Changes(values + [pair])) == Sum(Changes(values)) + (pair.1 - pair.0)
  {
    var changes := Changes(values + [pair]);
    assert changes[..|values|] == Changes(values);
    assert changes[|values|] == pair.1 - pair.0;
  }

  lemma SuccessOfLast(pairs: seq<(Cell, Cell)>)
    requires pairs != []
    ensures var front := pairs[..|pairs| - 1];
            Sum(Changes(BothPresent(pairs, Success)))
            == Sum(Changes(BothPresent(front, Success))) + (Wins(pairs) - Wins(front)) as real
  {
    var (b, c) := pairs[|pairs| - 1];
    var before := BothPresent(pairs[..|pairs| - 1], Success);
    if Success(b).Some? && Success(c).Some? {
      ChangesOfOneMore(before, (Success(b).value, Success(c).value));
    } else {
      assert BothPresent(pairs, Success) == before;
    }
  }

  lemma {:induction false} SuccessSums(pairs: seq<(Cell, Cell)>)
    ensures Sum(Changes(BothPresent(pairs, Success))) == Wins(pairs) as real
  {
    if pairs == [] {
      assert Changes(BothPresent(pairs, Success)) == [];
    } else {
      SuccessSums(pairs[..|pairs| - 1]);
      SuccessOfLast(pairs);
    }
  }

  /** The change in success is the pairs won less the pairs lost, over the pairs both of which finished. */
  lemma {:induction false} SuccessChangeCountsWins(pairs: seq<(Cell, Cell)>)
    ensures var d := PairedDelta(pairs, Success);
            d.change == if d.samples == 0 then None else Some(Wins(pairs) as real / d.samples as real)
  {
    SuccessSums(pairs);
  }

  // ------------------------------------------------------------------ cost

  const SOURCES := ["billed", "estimated", "mixed"]

  predicate Comparable(pair: (Cell, Cell), source: string) {
    pair.0.runStatus != "" && pair.1.runStatus != "" && pair.0.costSource == source && pair.1.costSource == source
  }

  function CostPairs(pairs: seq<(Cell, Cell)>, source: string): (r: seq<(real, real)>)
    ensures |r| <= |pairs|
  {
    if pairs == [] then []
    else
      CostPairs(pairs[..|pairs| - 1], source)
      + (if Comparable(pairs[|pairs| - 1], source)
         then [(pairs[|pairs| - 1].0.costUsd, pairs[|pairs| - 1].1.costUsd)] else [])
  }

  /** The costs in a group are those of the pairs both of which ran at a cost from its source. */
  lemma {:induction false} CostsOfSource(pairs: seq<(Cell, Cell)>, source: string)
    ensures CostPairs(pairs, source) ==
            Valued(Where(pairs, Both((cell: Cell) => cell.runStatus != "" && cell.costSource == source)),
                   (cell: Cell) => cell.costUsd)
  {
    if pairs != [] {
      CostsOfSource(pairs[..|pairs| - 1], source);
    }
  }

  datatype CostGroup = CostGroup(source: string, delta: Delta)
  datatype CostDelta = CostDelta(bySource: seq<CostGroup>, comparable: nat, incomparable: int)

  /** The groups of the first sources; the third is left out when nothing falls in it. */
  function Groups(pairs: seq<(Cell, Cell)>, sources: seq<string>): seq<CostGroup> {
    if sources == [] then []
    else
      var source := sources[|sources| - 1];
      var values := CostPairs(pairs, source);
      Groups(pairs, sources[..|sources| - 1])
      + (if values != [] || source in {"billed", "estimated"} then [CostGroup(source, Paired(values, |pairs|))] else [])
  }

  function CostOf(pairs: seq<(Cell, Cell)>): CostDelta {
    CostDelta(Groups(pairs, SOURCES), ComparableCount(pairs), |pairs| - ComparableCount(pairs))
  }

  /** How many of the pairs both ran and name the same source, one of the three. */
  function ComparableCount(pairs: seq<(Cell, Cell)>): (n: nat)
    ensures n <= |pairs|
  {
    if pairs == [] then 0
    else
      var last := pairs[|pairs| - 1];
      ComparableCount(pairs[..|pairs| - 1])
      + (if Comparable(last, last.0.costSource) && last.0.costSource in SOURCES then 1 else 0)
  }

  /** Disjoint buckets: a pair counts in the group of its own source and in no other, and with no source in none. */
  lemma {:induction false} BucketsAreDisjoint(pairs: seq<(Cell, Cell)>)
    ensures |CostPairs(pairs, "billed")| + |CostPairs(pairs, "estimated")| + |CostPairs(pairs, "mixed")|
            == ComparableCount(pairs)
  {
    if pairs != [] {
      BucketsAreDisjoint(pairs[..|pairs| - 1]);
      assert SOURCES[0] == "billed" && SOURCES[1] == "estimated" && SOURCES[2] == "mixed";
      assert |"billed"| == 6 && |"estimated"| == 9 && |"mixed"| == 5;
    }
  }

  function MirrorGroups(groups: seq<CostGroup>): seq<CostGroup> {
    seq(|groups|, i requires 0 <= i < |groups| => CostGroup(groups[i].source, Mirror(groups[i].delta)))
  }

  function MirrorCost(r: CostDelta): CostDelta {
    CostDelta(MirrorGroups(r.bySource), r.comparable, r.incomparable)
  }

  lemma {:induction false} SwapMirrorsCostPairs(pairs: seq<(Cell, Cell)>, source: string)
    ensures CostPairs(Swapped(pairs), source) == Swapped(CostPairs(pairs, source))
  {
    if pairs != [] {
      var n := |pairs| - 1;
      SwapMirrorsCostPairs(pairs[..n], source);
      assert Swapped(pairs)[..n] == Swapped(pairs[..n]);
    }
  }

  lemma {:induction false} SwapMirrorsGroups(pairs: seq<(Cell, Cell)>, sources: seq<string>)
    ensures Groups(Swapped(pairs), sources) == MirrorGroups(Groups(pairs, sources))
  {
    if sources != [] {
      var source := sources[|sources| - 1];
      SwapMirrorsGroups(pairs, sources[..|sources| - 1]);
      SwapMirrorsCostPairs(pairs, source);
      SwapMirrorsPaired(CostPairs(pairs, source), |pairs|);
    }
  }

  lemma {:induction false} SwapKeepsComparable(pairs: seq<(Cell, Cell)>)
    ensures ComparableCount(Swapped(pairs)) == ComparableCount(pairs)
  {
    if pairs != [] {
      var n := |pairs| - 1;
      SwapKeepsComparable(pairs[..n]);
      assert Swapped(pairs)[..n] == Swapped(pairs[..n]);
    }
  }

  /** Billed and estimated costs have a group each, empty or not; mixed ones only when some pair has them. */
  lemma {:induction false} GroupsShown(pairs: seq<(Cell, Cell)>)
    ensures Groups(pairs, SOURCES) ==
            [CostGroup("billed", Paired(CostPairs(pairs, "billed"), |pairs|)),
             CostGroup("estimated", Paired(CostPairs(pairs, "estimated"), |pairs|))]
            + (if CostPairs(pairs, "mixed") == [] then []
               else [CostGroup("mixed", Paired(CostPairs(pairs, "mixed"), |pairs|))])
  {
    assert |"billed"| == 6 && |"estimated"| == 9 && |"mixed"| == 5;
    assert SOURCES[..2] == ["billed", "estimated"] && SOURCES[..2][..1] == ["billed"] && SOURCES[..2][..1][..0] == [];
    assert Groups(pairs, SOURCES[..2][..1]) == [CostGroup("billed", Paired(CostPairs(pairs, "billed"), |pairs|))];
    assert Groups(pairs, SOURCES[..2]) ==
           Groups(pairs, SOURCES[..2][..1]) + [CostGroup("estimated", Paired(CostPairs(pairs, "estimated"), |pairs|))];
  }

  /** `_paired_cost`: the comparable and the other pairs add up to all pairs. */
  method PairedCost(pairs: seq<(Cell, Cell)>) returns (r: CostDelta)
    ensures r == CostOf(pairs)
    ensures r.comparable + r.incomparable == |pairs| && r.incomparable >= 0
    ensures r.comparable ==
            |CostPairs(pairs, "billed")| + |CostPairs(pairs, "estimated")| + |CostPairs(pairs, "mixed")|
  {
    var groups := [];
    var comparable := 0;
    for i := 0 to |SOURCES|
      invariant groups == Groups(pairs, SOURCES[..i])
      invariant comparable == Counted(pairs, i)
    {
      var source := SOURCES[i];
      var values := CostPairs(pairs, source);
      comparable := comparable + |values|;
      if values != [] || source in {"billed", "estimated"} {
        groups := groups + [CostGroup(source, Paired(values, |pairs|))];
      }
      assert SOURCES[..i + 1][..i] == SOURCES[..i];
    }
    BucketsAreDisjoint(pairs);
    assert SOURCES[..|SOURCES|] == SOURCES;
    assert Counted(pairs, 1) == |CostPairs(pairs, "billed")|;
    assert Counted(pairs, 2) == Counted(pairs, 1) + |CostPairs(pairs, "estimated")|;
    r := CostDelta(groups, comparable, |pairs| - comparable);
  }

  function Counted(pairs: seq<(Cell, Cell)>, n: nat): nat
    requires n <= |SOURCES|
  {
    if n == 0 then 0 else Counted(pairs, n - 1) + |CostPairs(pairs, SOURCES[n - 1])|
  }

  // ------------------------------------------------------------------ metrics

  /** The values of a metric in a cell, in the order they were recorded. */
  function ValuesAt(metrics: seq<Metric>, cell: CellKey, key: MetricKey): seq<real> {
    if metrics == [] then []
    else
      var last := metrics[|metrics| - 1];
      var here := if last.Cell() == cell && last.key == key then [last.value] else [];
      ValuesAt(metrics[..|metrics| - 1], cell, key) + here
  }

  type Table<T> = map<CellKey, map<MetricKey, T>>

  function At<T>(table: Table<T>, cell: CellKey, key: MetricKey): Option<T> {
    if cell in table && key in table[cell] then Some(table[cell][key]) else None
  }

  function Row<T>(table: Table<T>, cell: CellKey): map<MetricKey, T> {
    if cell in table then table[cell] else map[]
  }

  /** The table holds, for each cell and metric, the values recorded so far, and has no entry where there are none. */
  ghost predicate Tabulates(table: Table<seq<real>>, metrics: seq<Metric>) {
    forall cell, key ::
      At(table, cell, key) == if ValuesAt(metrics, cell, key) == [] then None else Some(ValuesAt(metrics, cell, key))
  }

  /** `_metric_cell_map`: for each cell and metric the mean of its values, and nothing where there are none. */
  method MetricCellMap(metrics: seq<Metric>) returns (means: Table<real>)
    ensures forall cell, key :: At(means, cell, key) == Mean(ValuesAt(metrics, cell, key))
  {
    var values: Table<seq<real>> := map[];
    for i := 0 to |metrics|
      invariant Tabulates(values, metrics[..i])
    {
      var m := metrics[i];
      var row := Row(values, m.Cell());
      var group := if m.key in row then row[m.key] else [];
      ghost var before := values;
      values := values[m.Cell() := row[m.key := group + [m.value]]];
      assert metrics[..i + 1][..i] == metrics[..i];
      forall cell, key
        ensures var v := ValuesAt(metrics[..i + 1], cell, key);
                At(values, cell, key) == if v == [] then None else Some(v)
      {
        var w := ValuesAt(metrics[..i], cell, key);
        assert At(before, cell, key) == if w == [] then None else Some(w);
        assert ValuesAt(metrics[..i + 1], cell, key) == w + if m.Cell() == cell && m.key == key then [m.value] else [];
        if m.Cell() == cell && m.key == key {
          assert group == w;
          assert At(values, cell, key) == Some(w + [m.value]);
        } else {
          assert At(values, cell, key) == At(before, cell, key);
          assert w + [] == w;
        }
      }
    }
    assert metrics[..|metrics|] == metrics;
    forall cell, key | cell in values && key in values[cell]
      ensures values[cell][key] != []
    {
      assert At(values, cell, key).Some?;
    }
    means := map cell | cell in values :: map key | key in values[cell] :: Mean(values[cell][key]).value;
  }

  /** The means of a metric in the cells that have it on both sides, cell by cell. */
  function MetricPairs(keys: seq<CellKey>, b: seq<Metric>, c: seq<Metric>, key: MetricKey): (r: seq<(real, real)>)
    ensures |r| <= |keys|
  {
    if keys == [] then []
    else
      var cell := keys[|keys| - 1];
      var left, right := Mean(ValuesAt(b, cell, key)), Mean(ValuesAt(c, cell, key));
      var here := if left.Some? && right.Some? then [(left.value, right.value)] else [];
      MetricPairs(keys[..|keys| - 1], b, c, key) + here
  }

  /** The metrics recorded for one of the cells, on either side. */
  function PresentKeys(keys: seq<CellKey>, b: seq<Metric>, c: seq<Metric>): set<MetricKey> {
    set m | m in b + c && m.Cell() in keys :: m.key
  }

  lemma {:induction false} ValuesAreRecorded(metrics: seq<Metric>, cell: CellKey, key: MetricKey)
    ensures ValuesAt(metrics, cell, key) != [] <==> exists m :: m in metrics && m.Cell() == cell && m.key == key
  {
    if metrics != [] {
      ValuesAreRecorded(metrics[..|metrics| - 1], cell, key);
    }
  }

  type Collected = map<MetricKey, seq<(real, real)>>

  function CollectedAt(values: Collected, key: MetricKey): seq<(real, real)> {
    if key in values then values[key] else []
  }

  /** What a matched cell adds for a metric. */
  function CellPair(left: map<MetricKey, real>, right: map<MetricKey, real>, key: MetricKey): seq<(real, real)> {
    if key in left && key in right then [(left[key], right[key])] else []
  }

  method CollectKey(left: map<MetricKey, real>, right: map<MetricKey, real>, values: Collected, key: MetricKey)
    returns (values': Collected)
    ensures CollectedAt(values', key) == CollectedAt(values, key) + CellPair(left, right, key)
    ensures forall other :: other != key ==> CollectedAt(values', other) == CollectedAt(values, other)
  {
    values' := values;
    if key in left && key in right {
      values' := values[key := CollectedAt(values, key) + [(left[key], right[key])]];
    }
  }

  /** One matched cell: each metric of either side is counted, and its pair of means kept if both sides have it. */
  method CollectCell(
      left: map<MetricKey, real>, right: map<MetricKey, real>, values: Collected, presence: map<MetricKey, nat>)
    returns (values': Collected, presence': map<MetricKey, nat>)
    ensures forall key :: key in presence' <==> key in presence || key in left || key in right
    ensures forall key :: CollectedAt(values', key) == CollectedAt(values, key) + CellPair(left, right, key)
  {
    values', presence' := values, presence;
    var all := left.Keys + right.Keys;
    var todo := all;
    while todo != {}
      invariant todo <= all
      invariant forall key :: key in presence' <==> key in presence || (key in all && key !in todo)
      invariant forall key :: key in todo ==> CollectedAt(values', key) == CollectedAt(values, key)
      invariant forall key :: key !in todo ==>
                  CollectedAt(values', key) == CollectedAt(values, key) + CellPair(left, right, key)
      decreases |todo|
    {
      var key :| key in todo;
      presence' := presence'[key := (if key in presence' then presence'[key] else 0) + 1];
      values' := CollectKey(left, right, values', key);
      todo := todo - {key};
    }
  }

  /** The loop of `compare_evals` over the matched cells. */
  method CollectMetrics(keys: seq<CellKey>, b: seq<Metric>, c: seq<Metric>)
    returns (values: Collected, presence: map<MetricKey, nat>)
    ensures forall key :: CollectedAt(values, key) == MetricPairs(keys, b, c, key)
    ensures forall key :: key in presence <==> key in PresentKeys(keys, b, c)
  {
    var left := MetricCellMap(b);
    var right := MetricCellMap(c);
    values, presence := map[], map[];
    for i := 0 to |keys|
      invariant forall key :: CollectedAt(values, key) == MetricPairs(keys[..i], b, c, key)
      invariant forall key :: key in presence <==> key in PresentKeys(keys[..i], b, c)
    {
      values, presence := CollectCell(Row(left, keys[i]), Row(right, keys[i]), values, presence);
      forall key
        ensures MetricPairs(keys[..i + 1], b, c, key)
                == MetricPairs(keys[..i], b, c, key) + CellPair(Row(left, keys[i]), Row(right, keys[i]), key)
        ensures key in PresentKeys(keys[..i + 1], b, c) <==>
                key in PresentKeys(keys[..i], b, c) || key in Row(left, keys[i]) || key in Row(right, keys[i])
      {
        OneMoreCell(keys, i, b, c, left, right, key);
      }
    }
    assert keys[..|keys|] == keys;
  }

  lemma {:induction false} OneMoreCell(keys: seq<CellKey>, i: nat, b: seq<Metric>, c: seq<Metric>,
                                       left: Table<real>, right: Table<real>, key: MetricKey)
    requires i < |keys|
    requires At(left, keys[i], key) == Mean(ValuesAt(b, keys[i], key))
    requires At(right, keys[i], key) == Mean(ValuesAt(c, keys[i], key))
    ensures MetricPairs(keys[..i + 1], b, c, key)
            == MetricPairs(keys[..i], b, c, key) + CellPair(Row(left, keys[i]), Row(right, keys[i]), key)
    ensures key in PresentKeys(keys[..i + 1], b, c) <==>
            key in PresentKeys(keys[..i], b, c) || key in Row(left, keys[i]) || key in Row(right, keys[i])
  {
    assert keys[..i + 1] == keys[..i] + [keys[i]];
    assert (keys[..i] + [keys[i]])[..i] == keys[..i];
    PresentWithOneMore(keys[..i], keys[i], b, c, key);
  }

  lemma {:induction false} PresentWithOneMore(
      keys: seq<CellKey>, cell: CellKey, b: seq<Metric>, c: seq<Metric>, key: MetricKey)
    ensures key in PresentKeys(keys + [cell], b, c) <==>
            key in PresentKeys(keys, b, c) || ValuesAt(b, cell, key) != [] || ValuesAt(c, cell, key) != []
  {
    ValuesAreRecorded(b, cell, key);
    ValuesAreRecorded(c, cell, key);
  }

  /** One more cell adds its two means, the baseline's first, when both sides have the metric. */
  lemma {:induction false} MetricPairsNext(keys: seq<CellKey>, cell: CellKey, b: seq<Metric>, c: seq<Metric>,
                                           key: MetricKey)
    ensures var left, right := ValuesAt(b, cell, key), ValuesAt(c, cell, key);
            var means := if left == [] || right == [] then []
                         else [(Sum(left) / |left| as real, Sum(right) / |right| as real)];
            MetricPairs(keys + [cell], b, c, key) == MetricPairs(keys, b, c, key) + means
  {
    assert (keys + [cell])[..|keys|] == keys;
  }

  /** One more row adds its value to its own cell and metric, and nothing to any other. */
  lemma {:induction false} ValuesNext(metrics: seq<Metric>, m: Metric, cell: CellKey, key: MetricKey)
    ensures ValuesAt(metrics + [m], cell, key) ==
            ValuesAt(metrics, cell, key) + (if m.Cell() == cell && m.key == key then [m.value] else [])
  {
    assert (metrics + [m])[..|metrics|] == metrics;
  }

  datatype MetricDelta = MetricDelta(key: MetricKey, delta: Delta, improvement: Option<real>)

  function Sign(key: MetricKey): real {
    if key.direction == "maximize" then 1.0 else -1.0
  }

  function Scaled(values: seq<real>, factor: real): seq<real> {
    seq(|values|, i requires 0 <= i < |values| => values[i] * factor)
  }

  function MetricDeltaOf(key: MetricKey, values: seq<(real, real)>, population: nat): MetricDelta {
    MetricDelta(key, Paired(values, population), Mean(Scaled(Changes(values), Sign(key))))
  }

  lemma {:induction false} SumOfScaled(values: seq<real>, scaled: seq<real>, factor: real)
    requires |scaled| == |values| && forall i :: 0 <= i < |values| ==> scaled[i] == values[i] * factor
    ensures Sum(scaled) == Sum(values) * factor
  {
    if values != [] {
      var n := |values| - 1;
      SumOfScaled(values[..n], scaled[..n], factor);
      assert (Sum(values[..n]) + values[n]) * factor == Sum(values[..n]) * factor + values[n] * factor;
    }
  }

  /** The directional improvement is the change in means, with the sign of the metric's direction. */
  lemma ImprovementFollowsDirection(key: MetricKey, values: seq<(real, real)>, population: nat)
    ensures var m := MetricDeltaOf(key, values, population);
            m.improvement == if key.direction == "maximize" then m.delta.change else Negated(m.delta.change)
  {
    var changes := Changes(values);
    var scaled := Scaled(changes, Sign(key));
    SumOfScaled(changes, scaled, Sign(key));
    if values != [] {
      NegateQuotient(Sum(changes), |values| as real);
    }
  }

  lemma NegateQuotient(x: real, n: real)
    requires n > 0.0
    ensures x * -1.0 == -x && (-x) / n == -(x / n)
  {
  }

  function MirrorMetric(m: MetricDelta): MetricDelta {
    MetricDelta(m.key, Mirror(m.delta), Negated(m.improvement))
  }

  lemma {:induction false} SwapMirrorsMetric(keys: seq<CellKey>, b: seq<Metric>, c: seq<Metric>, key: MetricKey)
    ensures MetricPairs(keys, c, b, key) == Swapped(MetricPairs(keys, b, c, key))
    ensures MetricDeltaOf(key, MetricPairs(keys, c, b, key), |keys|)
            == MirrorMetric(MetricDeltaOf(key, MetricPairs(keys, b, c, key), |keys|))
  {
    if keys != [] {
      SwapMirrorsMetric(keys[..|keys| - 1], b, c, key);
    }
    SwapMirrorsPaired(MetricPairs(keys, b, c, key), |keys|);
    ImprovementFollowsDirection(key, MetricPairs(keys, b, c, key), |keys|);
    ImprovementFollowsDirection(key, MetricPairs(keys, c, b, key), |keys|);
  }

  // ------------------------------------------------------------------ the whole comparison

  datatype Comparison = Comparison(matched: seq<CellKey>, baselineOnly: seq<CellKey>, candidateOnly: seq<CellKey>,
                                   success: Delta, latency: Delta, cost: CostDelta, metrics: seq<MetricDelta>)

  function MetricsOf(keys: seq<CellKey>, b: seq<Metric>, c: seq<Metric>, names: seq<MetricKey>): seq<MetricDelta> {
    seq(|names|, i requires 0 <= i < |names| => MetricDeltaOf(names[i], MetricPairs(keys, b, c, names[i]), |keys|))
  }

  function ComparisonOf(b: Snapshot, c: Snapshot, byCell: set<CellKey> -> seq<CellKey>,
                        byMetric: set<MetricKey> -> seq<MetricKey>): Comparison
    requires Sorts(byCell)
  {
    var left, right := CellMap(b.cells), CellMap(c.cells);
    var keys := byCell(MatchedKeys(left, right));
    var pairs := PairsOf(left, right, keys);
    Comparison(keys, byCell(left.Keys - right.Keys), byCell(right.Keys - left.Keys),
               PairedDelta(pairs, Success), PairedDelta(pairs, Duration), CostOf(pairs),
               MetricsOf(keys, b.metrics, c.metrics, byMetric(PresentKeys(keys, b.metrics, c.metrics))))
  }

  method CompareMetrics(keys: seq<CellKey>, ghost b: seq<Metric>, ghost c: seq<Metric>, names: seq<MetricKey>,
                        values: Collected) returns (metrics: seq<MetricDelta>)
    requires forall key :: CollectedAt(values, key) == MetricPairs(keys, b, c, key)
    ensures metrics == MetricsOf(keys, b, c, names)
  {
    metrics := [];
    for i := 0 to |names|
      invariant metrics == MetricsOf(keys, b, c, names)[..i]
    {
      metrics := metrics + [MetricDeltaOf(names[i], CollectedAt(values, names[i]), |keys|)];
    }
  }

  /** `compare_evals` on two snapshots. */
  method CompareEvals(b: Snapshot, c: Snapshot, byCell: set<CellKey> -> seq<CellKey>,
                      byMetric: set<MetricKey> -> seq<MetricKey>) returns (r: Comparison)
    requires Sorts(byCell) && Sorts(byMetric)
    ensures r == ComparisonOf(b, c, byCell, byMetric)
  {
    var left, right := CellMap(b.cells), CellMap(c.cells);
    var keys := byCell(MatchedKeys(left, right));
    var pairs := PairsOf(left, right, keys);
    var values, presence := CollectMetrics(keys, b.metrics, c.metrics);
    var names := byMetric(presence.Keys);
    assert presence.Keys == PresentKeys(keys, b.metrics, c.metrics);
    var metrics := CompareMetrics(keys, b.metrics, c.metrics, names, values);
    var cost := PairedCost(pairs);
    r := Comparison(keys, byCell(left.Keys - right.Keys), byCell(right.Keys - left.Keys),
                    PairedDelta(pairs, Success), PairedDelta(pairs, Duration), cost, metrics);
  }

  /** The cell is the last of the cells with the key. */
  ghost predicate IsLast(cells: seq<Cell>, key: CellKey, cell: Cell) {
    exists i :: LastOf(cells, key, i) && cells[i] == cell
  }

  /** The pairs hold, for each matched key, the baseline's last cell and then the candidate's. */
  ghost predicate PairedByKey(b: Snapshot, c: Snapshot, keys: seq<CellKey>, pairs: seq<(Cell, Cell)>) {
    && |pairs| == |keys|
    && (forall i :: 0 <= i < |keys| ==> IsLast(b.cells, keys[i], pairs[i].0) && IsLast(c.cells, keys[i], pairs[i].1))
  }

  /** What is compared: the keys of both evals, and of each the baseline's cell with the candidate's. */
  lemma ComparesCellsByKey(b: Snapshot, c: Snapshot, byCell: set<CellKey> -> seq<CellKey>,
                           byMetric: set<MetricKey> -> seq<MetricKey>, pairs: seq<(Cell, Cell)>)
    requires Sorts(byCell) && PairedByKey(b, c, ComparisonOf(b, c, byCell, byMetric).matched, pairs)
    ensures var r := ComparisonOf(b, c, byCell, byMetric);
            && (forall key :: key in r.matched <==> HasKey(b.cells, key) && HasKey(c.cells, key))
            && (forall key :: key in r.baselineOnly <==> HasKey(b.cells, key) && !HasKey(c.cells, key))
            && (forall key :: key in r.candidateOnly <==> !HasKey(b.cells, key) && HasKey(c.cells, key))
            && r.success == PairedDelta(pairs, Success) && r.latency == PairedDelta(pairs, Duration)
            && r.cost == CostOf(pairs)
  {
    var left, right := CellMap(b.cells), CellMap(c.cells);
    var keys := byCell(MatchedKeys(left, right));
    forall key
      ensures key in left <==> HasKey(b.cells, key)
      ensures key in right <==> HasKey(c.cells, key)
    {
      KeysAreHeld(b.cells, key);
      KeysAreHeld(c.cells, key);
    }
    forall i | 0 <= i < |keys|
      ensures pairs[i] == (left[keys[i]], right[keys[i]])
    {
      CellMapHoldsTheLast(b.cells, keys[i]);
      CellMapHoldsTheLast(c.cells, keys[i]);
    }
    assert pairs == PairsOf(left, right, keys);
  }

  predicate HasKey(cells: seq<Cell>, key: CellKey) {
    exists cell :: cell in cells && cell.Key() == key
  }

  lemma {:induction false} KeysAreHeld(cells: seq<Cell>, key: CellKey)
    ensures key in CellMap(cells) <==> HasKey(cells, key)
  {
    if cells != [] {
      KeysAreHeld(cells[..|cells| - 1], key);
    }
  }

  function MirrorComparison(r: Comparison): Comparison {
    Comparison(r.matched, r.candidateOnly, r.baselineOnly, Mirror(r.success), Mirror(r.latency),
               MirrorCost(r.cost),
               seq(|r.metrics|, i requires 0 <= i < |r.metrics| => MirrorMetric(r.metrics[i])))
  }

  /** Exchanging the evals exchanges the one-sided cells and the means, and negates every change and improvement. */
  lemma SwapMirrorsComparison(b: Snapshot, c: Snapshot, byCell: set<CellKey> -> seq<CellKey>,
                              byMetric: set<MetricKey> -> seq<MetricKey>)
    requires Sorts(byCell)
    ensures ComparisonOf(c, b, byCell, byMetric) == MirrorComparison(ComparisonOf(b, c, byCell, byMetric))
  {
    var left, right := CellMap(b.cells), CellMap(c.cells);
    assert MatchedKeys(right, left) == MatchedKeys(left, right);
    var keys := byCell(MatchedKeys(left, right));
    SwapMirrorsPairs(left, right, keys);
    assert PresentKeys(keys, c.metrics, b.metrics) == PresentKeys(keys, b.metrics, c.metrics);
    SwapMirrorsMetrics(keys, b.metrics, c.metrics, byMetric(PresentKeys(keys, b.metrics, c.metrics)));
  }

  lemma SwapMirrorsPairs(b: map<CellKey, Cell>, c: map<CellKey, Cell>, keys: seq<CellKey>)
    requires forall k :: k in keys ==> k in b && k in c
    ensures var pairs, back := PairsOf(b, c, keys), PairsOf(c, b, keys);
            && PairedDelta(back, Success) == Mirror(PairedDelta(pairs, Success))
            && PairedDelta(back, Duration) == Mirror(PairedDelta(pairs, Duration))
            && CostOf(back) == MirrorCost(CostOf(pairs))
  {
    var pairs := PairsOf(b, c, keys);
    assert PairsOf(c, b, keys) == Swapped(pairs);
    SwapMirrorsDelta(pairs, Success);
    SwapMirrorsDelta(pairs, Duration);
    SwapMirrorsGroups(pairs, SOURCES);
    SwapKeepsComparable(pairs);
  }

  lemma SwapMirrorsMetrics(keys: seq<CellKey>, b: seq<Metric>, c: seq<Metric>, names: seq<MetricKey>)
    ensures var there, back := MetricsOf(keys, b, c, names), MetricsOf(keys, c, b, names);
            back == seq(|there|, i requires 0 <= i < |there| => MirrorMetric(there[i]))
  {
    forall i | 0 <= i < |names|
      ensures MetricsOf(keys, c, b, names)[i] == MirrorMetric(MetricsOf(keys, b, c, names)[i])
    {
      SwapMirrorsMetric(keys, b, c, names[i]);
    }
  }
}
