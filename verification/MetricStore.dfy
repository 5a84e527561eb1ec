/**
 The metric rows a scorer leaves: recording a batch is all or nothing, and a row that is already there under its key
 is counted and skipped.
 */
module MetricStore {
  import opened Options
  import opened EvalCells

  /** A validated row; `content` is everything but the key and the run that two rows are compared by. */
  datatype Metric = Metric(key: string, runId: string, content: string)

  /** The rows by idempotency key. */
  type Store = map<string, Metric>

  /** The batch by key; of two rows with one key, the later. */
  function ByKey(rows: seq<Metric>): (unique: Store)
    ensures |unique| <= |rows|
  {
    if rows == [] then map[]
    else
      var n := |rows| - 1;
      var front := ByKey(rows[..n]);
      var unique := front[rows[n].key := rows[n]];
      assert unique.Keys == front.Keys + {rows[n].key};
      unique
  }

  /** Its keys are those of the rows, and under each is one of them. */
  lemma {:induction false} ByKeyHolds(rows: seq<Metric>)
    ensures forall row <- rows :: row.key in ByKey(rows)
    ensures forall key <- ByKey(rows) :: ByKey(rows)[key] in rows && ByKey(rows)[key].key == key
  {
    if rows != [] {
      var n := |rows| - 1;
      ByKeyHolds(rows[..n]);
      assert rows == rows[..n] + [rows[n]];
    }
  }

  /** No key of the batch is used for two different rows. */
  predicate Consistent(rows: seq<Metric>) {
    forall row <- rows :: row.key in ByKey(rows) && ByKey(rows)[row.key] == row
  }

  /** No key of the batch is taken by a different row. */
  predicate Fits(store: Store, rows: seq<Metric>) {
    forall row <- rows :: row.key in store ==> store[row.key] == row
  }

  /** The keys of the batch that the store does not have. */
  function New(store: Store, rows: seq<Metric>): (keys: set<string>)
    ensures |keys| <= |rows|
  {
    Parts(ByKey(rows).Keys, store.Keys);
    ByKey(rows).Keys - store.Keys
  }

  lemma Parts(keys: set<string>, others: set<string>)
    ensures |keys * others| + |keys - others| == |keys|
  {
    assert keys == keys * others + (keys - others);
  }

  /** The batch can be recorded: it uses no key for different rows. */
  predicate Recordable(store: Store, rows: seq<Metric>) {
    Consistent(rows) && Fits(store, rows)
  }

  /** The store once the batch is recorded. */
  function WithRows(store: Store, rows: seq<Metric>): Store {
    store + ByKey(rows)
  }

  /** What recording the batch answers. */
  function Counts(store: Store, rows: seq<Metric>): Ingestion {
    Ingestion(|rows|, |New(store, rows)|, |rows| - |New(store, rows)|)
  }

  // ------------------------------------------------------------------ the transaction

  class Hive {
    /** The harness of each indexed run. */
    var runs: map<string, string>
    var metrics: Store

    constructor (runs: map<string, string>, metrics: Store)
      ensures this.runs == runs && this.metrics == metrics
    {
      this.runs, this.metrics := runs, metrics;
    }

    /** The run of a row is indexed, and for this harness. */
    predicate RunKnown(harness: string, row: Metric)
      reads this`runs
    {
      row.runId in runs && runs[row.runId] == harness
    }

    /** `record_metrics`: either every row is there afterwards, or the store is as it was. */
    method RecordMetrics(harness: string, rows: seq<Metric>) returns (r: Option<Ingestion>)
      modifies this`metrics
      ensures r.Some? <==> (forall row <- rows :: RunKnown(harness, row)) && Recordable(old(metrics), rows)
      ensures r.Some? ==> metrics == WithRows(old(metrics), rows) && r.value == Counts(old(metrics), rows)
      ensures r.None? ==> metrics == old(metrics)
    {
      var unique, duplicates := Deduplicated(rows);
      if unique.None? {
        return None;
      }
      ByKeyHolds(rows);
      var known := CheckRows(harness, unique.value);
      if known.None? {
        return None;
      }
      Parts(unique.value.Keys, metrics.Keys);
      var inserted := InsertRows(unique.value);
      assert inserted == |New(old(metrics), rows)|;
      r := Some(Ingestion(|rows|, inserted, duplicates + known.value));
    }

    /** The row of a key may go in: its run is known, and the key is not taken by a different row. */
    predicate Admits(harness: string, row: Metric)
      reads this`runs, this`metrics
    {
      RunKnown(harness, row) && (row.key in metrics ==> metrics[row.key] == row)
    }

    /** Whether the batch can go in, and then how many of its rows are there already. */
    method CheckRows(harness: string, unique: Store) returns (known: Option<nat>)
      requires forall key <- unique :: unique[key].key == key
      ensures known.Some? <==> forall key <- unique :: Admits(harness, unique[key])
      ensures known.Some? ==> known.value == |unique.Keys * metrics.Keys|
    {
      var n := 0;
      var rest := unique.Keys;
      while rest != {}
        invariant rest <= unique.Keys && n == |(unique.Keys - rest) * metrics.Keys|
        invariant forall key <- unique.Keys - rest :: Admits(harness, unique[key])
      {
        var key :| key in rest;
        OneMore(unique.Keys, rest, key, metrics.Keys);
        if !RunKnown(harness, unique[key]) {
          return None;
        }
        if key in metrics {
          if metrics[key] != unique[key] {
            return None;
          }
          n := n + 1;
        }
        rest := rest - {key};
      }
      assert unique.Keys - rest == unique.Keys;
      known := Some(n);
    }

    /** `INSERT OR IGNORE` of every row. */
    method InsertRows(unique: Store) returns (inserted: nat)
      requires forall key <- unique :: key in metrics ==> metrics[key] == unique[key]
      modifies this`metrics
      ensures metrics == old(metrics) + unique
      ensures inserted == |unique.Keys - old(metrics).Keys|
    {
      inserted := 0;
      var rest := unique.Keys;
      while rest != {}
        invariant rest <= unique.Keys && inserted == |(unique.Keys - rest) - old(metrics).Keys|
        invariant metrics == old(metrics) + (unique - rest)
      {
        var key :| key in rest;
        OneMore(unique.Keys, rest, key, old(metrics).Keys);
        InsertOne(old(metrics), unique, rest, key);
        if key !in metrics {
          metrics := metrics[key := unique[key]];
          inserted := inserted + 1;
        }
        rest := rest - {key};
      }
      assert unique.Keys - rest == unique.Keys && unique - rest == unique;
    }
  }

  /** The rows of the batch by key, and how many repeat a row. */
  method Deduplicated(rows: seq<Metric>) returns (unique: Option<Store>, duplicates: nat)
    ensures unique == if Consistent(rows) then Some(ByKey(rows)) else None
    ensures unique.Some? ==> duplicates == |rows| - |unique.value|
  {
    var found: Store := map[];
    duplicates := 0;
    for k := 0 to |rows|
      invariant Consistent(rows[..k]) && found == ByKey(rows[..k]) && duplicates == k - |found|
    {
      var row := rows[k];
      NextRow(rows, k);
      if row.key !in found {
        found := found[row.key := row];
      } else if found[row.key] == row {
        duplicates := duplicates + 1;
      } else {
        Clash(rows, k);
        return None, 0;
      }
    }
    AllRows(rows);
    unique := Some(found);
  }

  /** One key less to go. */
  lemma OneMore(all: set<string>, rest: set<string>, key: string, others: set<string>)
    requires rest <= all && key in rest
    ensures all - (rest - {key}) == (all - rest) + {key}
    ensures |(all - (rest - {key})) * others| == |(all - rest) * others| + (if key in others then 1 else 0)
    ensures |(all - (rest - {key})) - others| == |(all - rest) - others| + (if key in others then 0 else 1)
  {
    var done := all - rest;
    assert all - (rest - {key}) == done + {key};
    if key in others {
      assert (done + {key}) * others == done * others + {key} && (done + {key}) - others == done - others;
    } else {
      assert (done + {key}) * others == done * others && (done + {key}) - others == (done - others) + {key};
    }
  }

  lemma InsertOne(before: Store, unique: Store, rest: set<string>, key: string)
    requires key in rest && rest <= unique.Keys && (key in before ==> before[key] == unique[key])
    ensures before + (unique - (rest - {key})) ==
            if key in before then before + (unique - rest) else (before + (unique - rest))[key := unique[key]]
    ensures key in before + (unique - rest) <==> key in before
  {
  }

  /** A batch is consistent exactly when rows with one key are the same. */
  lemma SameKeySameRow(rows: seq<Metric>)
    ensures Consistent(rows) <==> forall a <- rows, b <- rows :: a.key == b.key ==> a == b
  {
    ByKeyHolds(rows);
  }

  lemma NextRow(rows: seq<Metric>, k: nat)
    requires k < |rows| && Consistent(rows[..k])
    ensures var found, row := ByKey(rows[..k]), rows[k];
            && ByKey(rows[..k + 1]) == found[row.key := row]
            && (row.key !in found || found[row.key] == row ==> Consistent(rows[..k + 1]))
            && (row.key in found && found[row.key] == row ==> found[row.key := row] == found)
  {
    UpToRow(rows, k);
  }

  lemma Clash(rows: seq<Metric>, k: nat)
    requires k < |rows| && rows[k].key in ByKey(rows[..k]) && ByKey(rows[..k])[rows[k].key] != rows[k]
    ensures !Consistent(rows)
  {
    UpToRow(rows, k);
    ByKeyHolds(rows[..k]);
    assert ByKey(rows[..k])[rows[k].key] in rows && rows[k] in rows;
  }

  lemma AllRows(rows: seq<Metric>)
    ensures rows[..|rows|] == rows
  {
  }

  lemma UpToRow(rows: seq<Metric>, k: nat)
    requires k < |rows|
    ensures |rows[..k + 1]| == k + 1 && rows[..k + 1][..k] == rows[..k] && rows[..k + 1][k] == rows[k]
    ensures forall row :: row in rows[..k + 1] <==> row in rows[..k] || row == rows[k]
    ensures forall row :: row in rows[..k + 1] ==> row in rows
  {
    assert rows[..k + 1] == rows[..k] + [rows[k]];
  }

  // ------------------------------------------------------------------ what recording again leaves

  /** A batch that was recorded is there: recording it again changes nothing and counts every row as a duplicate. */
  lemma RecordedAgain(store: Store, rows: seq<Metric>)
    requires Recordable(store, rows)
    ensures Recordable(WithRows(store, rows), rows)
    ensures WithRows(WithRows(store, rows), rows) == WithRows(store, rows)
    ensures Counts(WithRows(store, rows), rows) == Ingestion(|rows|, 0, |rows|)
  {
    assert New(WithRows(store, rows), rows) == {};
  }

  /** Conservation: the store keeps what it had and grows by what is counted as inserted. */
  lemma StoreGrowsByInserted(store: Store, rows: seq<Metric>)
    requires Recordable(store, rows)
    ensures |WithRows(store, rows)| == |store| + Counts(store, rows).inserted
    ensures Counts(store, rows).inserted + Counts(store, rows).duplicates == Counts(store, rows).received == |rows|
    ensures forall key <- store :: key in WithRows(store, rows) && WithRows(store, rows)[key] == store[key]
    ensures forall row <- rows :: row.key in WithRows(store, rows) && WithRows(store, rows)[row.key] == row
  {
    assert WithRows(store, rows).Keys == store.Keys + New(store, rows);
    KeepsRows(store, rows);
  }

  lemma KeepsRows(store: Store, rows: seq<Metric>)
    requires Recordable(store, rows)
    ensures forall key <- store :: key in WithRows(store, rows) && WithRows(store, rows)[key] == store[key]
  {
    ByKeyHolds(rows);
  }

  lemma {:induction false} ByKeyConcat(a: seq<Metric>, b: seq<Metric>)
    ensures ByKey(a + b) == ByKey(a) + ByKey(b)
  {
    if b == [] {
      assert a + b == a;
    } else {
      var n := |b| - 1;
      ByKeyConcat(a, b[..n]);
      ByKeyNext(a + b);
      ByKeyNext(b);
      ConcatFront(a, b);
      MergePut(ByKey(a), ByKey(b[..n]), b[n].key, b[n]);
    }
  }

  lemma MergePut(a: Store, b: Store, key: string, row: Metric)
    ensures a + b[key := row] == (a + b)[key := row]
  {
  }

  lemma ConcatFront(a: seq<Metric>, b: seq<Metric>)
    requires b != []
    ensures (a + b)[..|a + b| - 1] == a + b[..|b| - 1] && (a + b)[|a + b| - 1] == b[|b| - 1]
  {
  }

  lemma {:induction false} ByKeyNext(rows: seq<Metric>)
    requires rows != []
    ensures var n := |rows| - 1; ByKey(rows) == ByKey(rows[..n])[rows[n].key := rows[n]]
  {
  }

  lemma InEither(a: seq<Metric>, b: seq<Metric>)
    ensures forall row <- a :: row in a + b
    ensures forall row <- b :: row in a + b
    ensures forall row <- a + b :: row in a || row in b
  {
  }

  lemma SameRow(rows: seq<Metric>, x: Metric, y: Metric)
    requires Consistent(rows) && x in rows && y in rows && x.key == y.key
    ensures x == y
  {
  }

  /** Two batches are consistent together when each is and the second uses no key of the first for another row. */
  lemma {:induction false} ConsistentConcat(a: seq<Metric>, b: seq<Metric>)
    ensures Consistent(a + b) <==> Consistent(a) && Consistent(b) && Fits(ByKey(a), b)
  {
    if Consistent(a + b) {
      ConsistentParts(a, b);
    }
    if Consistent(a) && Consistent(b) && Fits(ByKey(a), b) {
      ConsistentTogether(a, b);
    }
  }

  lemma {:induction false} ConsistentParts(a: seq<Metric>, b: seq<Metric>)
    requires Consistent(a + b)
    ensures Consistent(a) && Consistent(b) && Fits(ByKey(a), b)
  {
    ByKeyHolds(a);
    ByKeyHolds(b);
    InEither(a, b);
    forall row <- a
      ensures ByKey(a)[row.key] == row
    {
      SameRow(a + b, row, ByKey(a)[row.key]);
    }
    forall row <- b
      ensures ByKey(b)[row.key] == row && (row.key in ByKey(a) ==> ByKey(a)[row.key] == row)
    {
      SameRow(a + b, row, ByKey(b)[row.key]);
      if row.key in ByKey(a) {
        SameRow(a + b, row, ByKey(a)[row.key]);
      }
    }
  }

  lemma {:induction false} ConsistentTogether(a: seq<Metric>, b: seq<Metric>)
    requires Consistent(a) && Consistent(b) && Fits(ByKey(a), b)
    ensures Consistent(a + b)
  {
    ByKeyConcat(a, b);
    ByKeyHolds(b);
    forall row <- a + b
      ensures row.key in ByKey(a) + ByKey(b) && (ByKey(a) + ByKey(b))[row.key] == row
    {
      InEither(a, b);
    }
  }

  lemma {:induction false} FitsConcat(store: Store, a: seq<Metric>, b: seq<Metric>)
    requires Recordable(store, a)
    ensures Fits(store, a + b) <==> Fits(store, b)
    ensures Fits(WithRows(store, a), b) <==> Fits(store, b) && Fits(ByKey(a), b)
  {
    InEither(a, b);
    KeepsRows(store, a);
  }

  lemma NewConcat(store: Store, a: seq<Metric>, b: seq<Metric>)
    ensures |New(store, a + b)| == |New(store, a)| + |New(WithRows(store, a), b)|
  {
    ByKeyConcat(a, b);
    assert New(store, a + b) == New(store, a) + New(WithRows(store, a), b);
  }

  lemma RecordableInParts(store: Store, a: seq<Metric>, b: seq<Metric>)
    ensures Recordable(store, a + b) <==> Recordable(store, a) && Recordable(WithRows(store, a), b)
  {
    ConsistentConcat(a, b);
    if Recordable(store, a) {
      FitsConcat(store, a, b);
    } else if Fits(store, a + b) {
      InEither(a, b);
    }
  }

  /** Recording two batches one after the other is recording them as one, also in what cannot be recorded. */
  lemma RecordedInParts(store: Store, a: seq<Metric>, b: seq<Metric>)
    ensures Recordable(store, a + b) <==> Recordable(store, a) && Recordable(WithRows(store, a), b)
    ensures WithRows(store, a + b) == WithRows(WithRows(store, a), b)
    ensures Counts(store, a + b).received == Counts(store, a).received + Counts(WithRows(store, a), b).received
    ensures Counts(store, a + b).inserted == Counts(store, a).inserted + Counts(WithRows(store, a), b).inserted
    ensures Counts(store, a + b).duplicates == Counts(store, a).duplicates + Counts(WithRows(store, a), b).duplicates
  {
    RecordableInParts(store, a, b);
    NewConcat(store, a, b);
    assert |a + b| == |a| + |b|;
    RecordedConcat(store, a, b);
  }

  lemma RecordedConcat(store: Store, a: seq<Metric>, b: seq<Metric>)
    ensures WithRows(store, a + b) == WithRows(WithRows(store, a), b)
  {
    ByKeyConcat(a, b);
    Merge(store, ByKey(a), ByKey(b));
  }

  lemma Merge(a: Store, b: Store, c: Store)
    ensures a + b + c == a + (b + c)
  {
  }
}
