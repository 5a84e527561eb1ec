/** JSON-like values as the source's plain Python data: dictionaries keep their entries in insertion order. */
module Json {
  import opened Options

  datatype Json = Null | Bool(b: bool) | Num(n: real) | Str(s: string) | List(items: seq<Json>) | Dict(entries: Entries)

  type Entries = seq<(string, Json)>

  function Get(es: Entries, key: string): (v: Option<Json>)
    ensures v.Some? ==> exists i :: 0 <= i < |es| && es[i] == (key, v.value)
    ensures v.None? ==> forall i :: 0 <= i < |es| ==> es[i].0 != key
  {
    if es == [] then None
    else if es[0].0 == key then assert es[0] == (key, es[0].1); Some(es[0].1)
    else
      var v := Get(es[1..], key);
      assert v.Some? ==> exists i :: 0 <= i < |es[1..]| && es[1..][i] == (key, v.value);
      v
  }

  /** A place below a value: the keys and indexes that lead to it. */
  datatype Turn = At(key: string) | Nth(index: nat)

  function Find(v: Json, place: seq<Turn>): Option<Json>
    decreases |place|
  {
    if place == [] then Some(v)
    else match place[0]
         case At(key) =>
           if v.Dict? && Get(v.entries, key).Some? then Find(Get(v.entries, key).value, place[1..]) else None
         case Nth(n) => if v.List? && n < |v.items| then Find(v.items[n], place[1..]) else None
  }

  /** Assignment: an existing key keeps its place, a new one goes to the end. */
  function Put(es: Entries, key: string, value: Json): (r: Entries) {
    if es == [] then [(key, value)]
    else if es[0].0 == key then [(key, value)] + es[1..]
    else [es[0]] + Put(es[1..], key, value)
  }

  /** `del`: every entry but the key's. */
  function Remove(es: Entries, key: string): Entries {
    if es == [] then []
    else if es[0].0 == key then Remove(es[1..], key)
    else [es[0]] + Remove(es[1..], key)
  }

  predicate UniqueKeys(es: Entries) {
    forall i, j :: 0 <= i < j < |es| ==> es[i].0 != es[j].0
  }

  lemma {:induction false} GetPut(es: Entries, key: string, value: Json, other: string)
    ensures Get(Put(es, key, value), other) == if other == key then Some(value) else Get(es, other)
  {
    if es != [] && es[0].0 != key {
      GetPut(es[1..], key, value, other);
      assert Put(es, key, value)[1..] == Put(es[1..], key, value);
    }
  }

  lemma {:induction false} PutGet(es: Entries, key: string)
    requires Get(es, key).Some?
    ensures Put(es, key, Get(es, key).value) == es
  {
    if es[0].0 != key {
      PutGet(es[1..], key);
    }
  }

  lemma {:induction false} PutTwice(es: Entries, key: string, first: Json, second: Json)
    ensures Put(Put(es, key, first), key, second) == Put(es, key, second)
  {
    if es != [] && es[0].0 != key {
      PutTwice(es[1..], key, first, second);
      assert Put(es, key, first)[1..] == Put(es[1..], key, first);
    }
  }

  lemma {:induction false} GetRemove(es: Entries, key: string, other: string)
    ensures Get(Remove(es, key), other) == if other == key then None else Get(es, other)
  {
    if es != [] {
      GetRemove(es[1..], key, other);
    }
  }

  /** Assigning a key and deleting it again is deleting it. */
  lemma {:induction false} RemovePut(es: Entries, key: string, value: Json)
    ensures Remove(Put(es, key, value), key) == Remove(es, key)
  {
    if es != [] {
      if es[0].0 == key {
        assert Put(es, key, value)[1..] == es[1..];
      } else {
        RemovePut(es[1..], key, value);
        assert Put(es, key, value)[1..] == Put(es[1..], key, value);
      }
    }
  }

  lemma {:induction false} RemoveAbsent(es: Entries, key: string)
    requires Get(es, key).None?
    ensures Remove(es, key) == es
  {
    if es != [] {
      RemoveAbsent(es[1..], key);
    }
  }

  /** An assignment changes at most one entry's value, or appends one entry. */
  lemma {:induction false} PutShape(es: Entries, key: string, value: Json)
    ensures var r := Put(es, key, value);
            && |r| == (if Get(es, key).Some? then |es| else |es| + 1)
            && (forall i :: 0 <= i < |es| ==> r[i].0 == es[i].0 && (es[i].0 != key ==> r[i] == es[i]))
            && (forall i :: 0 <= i < |r| ==> r[i] == (key, value) || (i < |es| && r[i] == es[i]))
            && (Get(es, key).None? ==> r == es + [(key, value)])
            && (UniqueKeys(es) ==> UniqueKeys(r))
  {
    if es != [] && es[0].0 != key {
      PutShape(es[1..], key, value);
      var r, rest := Put(es, key, value), Put(es[1..], key, value);
      assert r[1..] == rest;
      forall i | 0 <= i < |r|
        ensures r[i] == (key, value) || (i < |es| && r[i] == es[i])
      {
        if i > 0 {
          assert r[i] == rest[i - 1];
        }
      }
      forall i | 0 <= i < |es|
        ensures r[i].0 == es[i].0 && (es[i].0 != key ==> r[i] == es[i])
      {
        if i > 0 {
          assert r[i] == rest[i - 1] && es[i] == es[1..][i - 1];
        }
      }
    }
  }
}
