/**
 Dotted and indexed paths into a spec tree: setting a field, finding one to remove, and the laws that make
 setting a lens. The tree is a value; a walk keeps the part it stands at and the trail that leads there.
 */
module SpecPath {
  import opened Options
  import opened Json
  import Decimal

  /** A path's dotted segments; splitting a text at dots never gives an empty list. */
  type Parts = seq<string>

  datatype WalkError = NotAnIndex | OutOfRange | NotAMapping
  datatype Result<T> = Ok(value: T) | Err(error: WalkError)

  /** `_resolve_index`: an existing index only. */
  function ResolveIndex(n: nat, segment: string): (r: Result<nat>)
    ensures r.Ok? <==> segment != "" && Decimal.AllDigits(segment) && Decimal.Parse(segment) < n
    ensures r.Ok? ==> r.value == Decimal.Parse(segment) < n
    ensures r == Err(NotAnIndex) <==> segment == "" || !Decimal.AllDigits(segment)
    ensures r.Err? ==> r.error == NotAnIndex || r.error == OutOfRange
  {
    if segment == "" || !Decimal.AllDigits(segment) then Err(NotAnIndex)
    else if Decimal.Parse(segment) >= n then Err(OutOfRange)
    else Ok(Decimal.Parse(segment))
  }

  /** An index is written in decimal, and resolves exactly when the list has it. */
  lemma {:induction false} PrintedIndexResolves(n: nat, i: nat)
    ensures ResolveIndex(n, Decimal.Print(i)) == if i < n then Ok(i) else Err(OutOfRange)
  {
    Decimal.ParsePrint(i);
  }

  predicate IsContainer(v: Json) {
    v.Dict? || v.List?
  }

  /** What a walk descends into under a key: the container there, else a new mapping. */
  function Descend(es: Entries, segment: string): (child: Json)
    ensures IsContainer(child)
  {
    var existing := Get(es, segment);
    if existing.Some? && IsContainer(existing.value) then existing.value else Dict([])
  }

  // ------------------------------------------------------------------ what setting and reading mean

  /** The tree with `value` at the path, mappings created where they are missing. */
  function SetPath(node: Json, parts: Parts, value: Json): Result<Json>
    requires parts != []
    decreases |parts|
  {
    match node
    case Dict(es) =>
      if |parts| == 1 then Ok(Dict(Put(es, parts[0], value)))
      else
        (match SetPath(Descend(es, parts[0]), parts[1..], value)
         case Ok(child) => Ok(Dict(Put(es, parts[0], child)))
         case Err(e) => Err(e))
    case List(items) =>
      (match ResolveIndex(|items|, parts[0])
       case Err(e) => Err(e)
       case Ok(i) =>
         if |parts| == 1 then Ok(List(items[i := value]))
         else
           match SetPath(items[i], parts[1..], value)
           case Ok(child) => Ok(List(items[i := child]))
           case Err(e) => Err(e))
    case _ => Err(NotAMapping)
  }

  /** The child a segment selects. */
  function Child(node: Json, segment: string): Option<Json> {
    match node
    case Dict(es) => Get(es, segment)
    case List(items) =>
      (match ResolveIndex(|items|, segment) case Ok(i) => Some(items[i]) case Err(_) => None)
    case _ => None
  }

  function Lookup(node: Json, parts: Parts): Option<Json> {
    if parts == [] then Some(node)
    else match Child(node, parts[0]) case None => None case Some(child) => Lookup(child, parts[1..])
  }

  // ------------------------------------------------------------------ the walk

  /** A segment as it resolved: a key of a mapping, or an index of a list. */
  datatype Key = Field(name: string) | Index(i: nat)

  function At(node: Json, trail: seq<Key>): Option<Json> {
    if trail == [] then Some(node)
    else
      match (node, trail[0])
      case (Dict(es), Field(name)) => (match Get(es, name) case None => None case Some(v) => At(v, trail[1..]))
      case (List(items), Index(i)) => if i < |items| then At(items[i], trail[1..]) else None
      case _ => None
  }

  /** The tree with the part at the trail replaced. */
  function PutAt(node: Json, trail: seq<Key>, v: Json): Json
    requires At(node, trail).Some?
  {
    if trail == [] then v
    else
      match node
      case Dict(es) => Dict(Put(es, trail[0].name, PutAt(Get(es, trail[0].name).value, trail[1..], v)))
      case List(items) => List(items[trail[0].i := PutAt(items[trail[0].i], trail[1..], v)])
      case _ => node
  }

  lemma {:induction false} AtPutAt(node: Json, trail: seq<Key>, v: Json)
    requires At(node, trail).Some?
    ensures At(PutAt(node, trail, v), trail) == Some(v)
  {
    if trail != [] {
      match node
      case Dict(es) =>
        var child := Get(es, trail[0].name).value;
        AtPutAt(child, trail[1..], v);
        GetPut(es, trail[0].name, PutAt(child, trail[1..], v), trail[0].name);
      case List(items) => AtPutAt(items[trail[0].i], trail[1..], v);
      case _ =>
    }
  }

  lemma {:induction false} PutAtTwice(node: Json, trail: seq<Key>, v: Json, w: Json)
    requires At(node, trail).Some?
    ensures At(PutAt(node, trail, v), trail).Some?
    ensures PutAt(PutAt(node, trail, v), trail, w) == PutAt(node, trail, w)
  {
    AtPutAt(node, trail, v);
    if trail != [] {
      match node
      case Dict(es) =>
        var name := trail[0].name;
        var child := Get(es, name).value;
        PutAtTwice(child, trail[1..], v, w);
        GetPut(es, name, PutAt(child, trail[1..], v), name);
        PutTwice(es, name, PutAt(child, trail[1..], v), PutAt(child, trail[1..], w));
      case List(items) => PutAtTwice(items[trail[0].i], trail[1..], v, w);
      case _ =>
    }
  }

  /** One step further down: the part at `trail + [k]` is `k`'s part of the one at `trail`. */
  lemma {:induction false} AtStep(node: Json, trail: seq<Key>, k: Key, v: Json)
    requires At(node, trail).Some?
    ensures At(node, trail + [k]) == At(At(node, trail).value, [k])
    ensures At(node, trail + [k]).Some? ==>
              PutAt(node, trail + [k], v) == PutAt(node, trail, PutAt(At(node, trail).value, [k], v))
  {
    if trail == [] {
      assert trail + [k] == [k];
    } else {
      assert (trail + [k])[1..] == trail[1..] + [k];
      match node
      case Dict(es) => AtStep(Get(es, trail[0].name).value, trail[1..], k, v);
      case List(items) => AtStep(items[trail[0].i], trail[1..], k, v);
      case _ =>
    }
  }

  /** The outcome of setting the part at a trail, as an outcome for the whole tree. */
  function Plug(tree: Json, trail: seq<Key>, r: Result<Json>): Result<Json>
    requires At(tree, trail).Some?
  {
    match r case Ok(v) => Ok(PutAt(tree, trail, v)) case Err(e) => Err(e)
  }

  /**
   `_walk_settable` and the assignment after it. The cursor moves down the path; a mapping that is missing is
   put into the tree before it is entered.
   */
  method SetField(raw: Json, parts: Parts, value: Json) returns (r: Result<Json>)
    requires parts != []
    ensures r == SetPath(raw, parts, value)
  {
    var tree, cursor := raw, raw;
    var trail: seq<Key> := [];
    var k := 0;
    while k < |parts| - 1
      invariant k <= |parts| - 1
      invariant At(tree, trail) == Some(cursor)
      invariant SetPath(raw, parts, value) == Plug(tree, trail, SetPath(cursor, parts[k..], value))
    {
      assert parts[k..][1..] == parts[k + 1..];
      match cursor {
        case List(items) =>
          var index := ResolveIndex(|items|, parts[k]);
          if index.Err? {
            return Err(index.error);
          }
          EnterIndex(tree, trail, items, index.value, parts[k..], value);
          cursor, trail := items[index.value], trail + [Index(index.value)];
        case Dict(es) =>
          var child := Descend(es, parts[k]);
          EnterField(tree, trail, es, parts[k..], value);
          tree := PutAt(tree, trail, Dict(Put(es, parts[k], child)));
          cursor, trail := child, trail + [Field(parts[k])];
        case _ => return Err(NotAMapping);
      }
      k := k + 1;
    }
    assert parts[k..] == [parts[k]];
    match cursor {
      case List(items) =>
        var index := ResolveIndex(|items|, parts[k]);
        if index.Err? {
          return Err(index.error);
        }
        r := Ok(PutAt(tree, trail, List(items[index.value := value])));
      case Dict(es) => r := Ok(PutAt(tree, trail, Dict(Put(es, parts[k], value))));
      case _ => r := Err(NotAMapping);
    }
  }

  lemma {:induction false} EnterIndex(tree: Json, trail: seq<Key>, items: seq<Json>, i: nat, parts: Parts, value: Json)
    requires At(tree, trail) == Some(List(items)) && |parts| > 1 && ResolveIndex(|items|, parts[0]) == Ok(i)
    ensures At(tree, trail + [Index(i)]) == Some(items[i])
    ensures Plug(tree, trail, SetPath(List(items), parts, value)) ==
            Plug(tree, trail + [Index(i)], SetPath(items[i], parts[1..], value))
  {
    AtStep(tree, trail, Index(i), Null);
    match SetPath(items[i], parts[1..], value)
    case Ok(child) => AtStep(tree, trail, Index(i), child);
    case Err(_) =>
  }

  lemma {:induction false} EnterField(tree: Json, trail: seq<Key>, es: Entries, parts: Parts, value: Json)
    requires At(tree, trail) == Some(Dict(es)) && |parts| > 1
    ensures var child := Descend(es, parts[0]);
            var grown := PutAt(tree, trail, Dict(Put(es, parts[0], child)));
            && At(grown, trail + [Field(parts[0])]) == Some(child)
            && Plug(tree, trail, SetPath(Dict(es), parts, value)) ==
               Plug(grown, trail + [Field(parts[0])], SetPath(child, parts[1..], value))
  {
    var child := Descend(es, parts[0]);
    EnterChild(tree, trail, es, parts[0], child, child);
    match SetPath(child, parts[1..], value)
    case Ok(v) =>
      EnterChild(tree, trail, es, parts[0], child, v);
    case Err(_) =>
  }

  /** A field put in place and then set again below is the field set at once. */
  lemma {:induction false} EnterChild(tree: Json, trail: seq<Key>, es: Entries, name: string, child: Json, v: Json)
    requires At(tree, trail) == Some(Dict(es))
    ensures var grown := PutAt(tree, trail, Dict(Put(es, name, child)));
            && At(grown, trail + [Field(name)]) == Some(child)
            && PutAt(grown, trail + [Field(name)], v) == PutAt(tree, trail, Dict(Put(es, name, v)))
  {
    var node := Dict(Put(es, name, child));
    var grown := PutAt(tree, trail, node);
    AtPutAt(tree, trail, node);
    GetPut(es, name, child, name);
    AtStep(grown, trail, Field(name), v);
    PutTwice(es, name, child, v);
    PutAtTwice(tree, trail, node, Dict(Put(es, name, v)));
  }

  // ------------------------------------------------------------------ when setting succeeds, and what it creates

  /** If the first `n` segments read a list, segment `n` names an item of it, a container unless it is the last. */
  predicate Passable(node: Json, parts: Parts, n: nat)
    requires n < |parts|
  {
    var at := Lookup(node, parts[..n]);
    at.Some? && at.value.List? ==>
      var i := ResolveIndex(|at.value.items|, parts[n]);
      i.Ok? && (n + 1 < |parts| ==> at.value.items[i.value].Dict? || at.value.items[i.value].List?)
  }

  /** Further down a path is as passable as the part below its first segment; where that reads nothing, it is free. */
  lemma PassableBelow(node: Json, parts: Parts, n: nat)
    requires n + 1 < |parts|
    ensures Passable(node, parts, n + 1) <==>
              Child(node, parts[0]).None? || Passable(Child(node, parts[0]).value, parts[1..], n)
  {
    assert parts[..n + 1][1..] == parts[1..][..n];
  }

  /** Nothing is in the way of a path below a part that is no container. */
  lemma PassableScalar(node: Json, parts: Parts, n: nat)
    requires n < |parts| && (node == Dict([]) || !(node.Dict? || node.List?))
    ensures Passable(node, parts, n)
  {
    if n > 0 {
      assert Child(node, parts[0]) == None;
    }
  }

  /**
   A path can be set exactly when the root is a container and every list on the way has the item its segment names. A
   mapping that is missing on the way, or that a scalar is in the place of, is no obstacle: it is created.
   */
  lemma {:induction false} SetsExactlyWherePassable(node: Json, parts: Parts, value: Json)
    requires parts != []
    ensures SetPath(node, parts, value).Ok? <==>
              (node.Dict? || node.List?) && forall n :: 0 <= n < |parts| ==> Passable(node, parts, n)
    decreases |parts|
  {
    assert parts[..0] == [];
    if |parts| == 1 {
      assert (forall n :: 0 <= n < |parts| ==> Passable(node, parts, n)) <==> Passable(node, parts, 0);
    } else if node.Dict? || node.List? {
      var child := Child(node, parts[0]);
      forall n | 0 <= n < |parts| - 1
        ensures Passable(node, parts, n + 1) <==> child.None? || Passable(child.value, parts[1..], n)
      {
        PassableBelow(node, parts, n);
      }
      if child.Some? && IsContainer(child.value) {
        SetsExactlyWherePassable(child.value, parts[1..], value);
        PassableFrom(node, parts, child.value);
      } else {
        SetsExactlyWherePassable(Dict([]), parts[1..], value);
        forall n | 0 <= n < |parts| - 1
          ensures Passable(Dict([]), parts[1..], n) && Passable(node, parts, n + 1)
        {
          PassableScalar(Dict([]), parts[1..], n);
          if child.Some? {
            PassableScalar(child.value, parts[1..], n);
          }
        }
        PassableFrom(node, parts, Dict([]));
      }
    }
  }

  /** A path is passable throughout when it is at the root and below. */
  lemma PassableFrom(node: Json, parts: Parts, below: Json)
    requires |parts| > 1
    requires forall n :: 0 <= n < |parts| - 1 ==> (Passable(node, parts, n + 1) <==> Passable(below, parts[1..], n))
    ensures (forall n :: 0 <= n < |parts| ==> Passable(node, parts, n)) <==>
              Passable(node, parts, 0) && forall n :: 0 <= n < |parts| - 1 ==> Passable(below, parts[1..], n)
  {
    if forall n :: 0 <= n < |parts| ==> Passable(node, parts, n) {
      forall n | 0 <= n < |parts| - 1
        ensures Passable(below, parts[1..], n)
      {
        assert Passable(node, parts, n + 1);
      }
    }
    if Passable(node, parts, 0) && forall n :: 0 <= n < |parts| - 1 ==> Passable(below, parts[1..], n) {
      forall n | 0 <= n < |parts|
        ensures Passable(node, parts, n)
      {
        if n > 0 {
          assert Passable(below, parts[1..], n - 1);
          assert Passable(node, parts, n - 1 + 1);
        }
      }
    }
  }

  /** In particular a path along which nothing reads a list can be set in any mapping. */
  lemma {:induction false} SetsWithoutLists(node: Json, parts: Parts, value: Json)
    requires parts != [] && node.Dict?
    requires forall n :: 0 <= n < |parts| ==>
               Lookup(node, parts[..n]).None? || !Lookup(node, parts[..n]).value.List?
    ensures SetPath(node, parts, value).Ok?
  {
    SetsExactlyWherePassable(node, parts, value);
  }

  /** The path's first `n` segments read a mapping that has the next one and no other. */
  predicate OnlyNextAt(r: Json, parts: Parts, n: nat)
    requires n < |parts|
  {
    var below := Lookup(r, parts[..n + 1]);
    below.Some? && Lookup(r, parts[..n]) == Some(Dict([(parts[n], below.value)]))
  }

  lemma {:induction false} CreatedMapping(parts: Parts, value: Json)
    requires parts != [] && SetPath(Dict([]), parts, value).Ok?
    ensures OnlyNextAt(SetPath(Dict([]), parts, value).value, parts, 0)
  {
    assert parts[..1] == [parts[0]] && parts[..1][1..] == [] && parts[..0] == [];
  }

  lemma OnlyNextBelow(r: Json, parts: Parts, n: nat)
    requires n + 1 < |parts| && Child(r, parts[0]).Some? && OnlyNextAt(Child(r, parts[0]).value, parts[1..], n)
    ensures OnlyNextAt(r, parts, n + 1)
  {
    assert parts[..n + 1][1..] == parts[1..][..n] && parts[..n + 2][1..] == parts[1..][..n + 1];
  }

  /** The part a setting goes on in: what the first segment reads if that is a container, else a new mapping. */
  lemma SetBelow(node: Json, parts: Parts, value: Json) returns (child: Json)
    requires |parts| > 1 && SetPath(node, parts, value).Ok?
    ensures SetPath(child, parts[1..], value).Ok?
    ensures Child(SetPath(node, parts, value).value, parts[0]) == Some(SetPath(child, parts[1..], value).value)
    ensures var was := Child(node, parts[0]);
            child == if was.Some? && (was.value.Dict? || was.value.List?) then was.value else Dict([])
  {
    match node
    case Dict(es) =>
      child := Descend(es, parts[0]);
      GetPut(es, parts[0], SetPath(child, parts[1..], value).value, parts[0]);
    case List(items) =>
      child := items[ResolveIndex(|items|, parts[0]).value];
    case _ =>
  }

  /** Where the path read nothing, or a scalar, there is a mapping afterwards that has the next segment and no other. */
  lemma {:induction false} SetCreatesMappings(node: Json, parts: Parts, value: Json, n: nat)
    requires 0 < n < |parts| && SetPath(node, parts, value).Ok?
    requires var was := Lookup(node, parts[..n]); was.None? || !(was.value.Dict? || was.value.List?)
    ensures OnlyNextAt(SetPath(node, parts, value).value, parts, n)
    decreases |parts|
  {
    assert parts[..n][1..] == parts[1..][..n - 1];
    var child := SetBelow(node, parts, value);
    if n == 1 {
      assert parts[1..][..0] == [];
      CreatedMapping(parts[1..], value);
    } else {
      if child == Dict([]) {
        NothingBelow(parts[1..][..n - 1]);
      }
      SetCreatesMappings(child, parts[1..], value, n - 1);
    }
    OnlyNextBelow(SetPath(node, parts, value).value, parts, n - 1);
  }

  // ------------------------------------------------------------------ setting is a lens

  /** Reading a path that was set gives the value. */
  lemma {:induction false} GetAfterSet(node: Json, parts: Parts, value: Json)
    requires parts != [] && SetPath(node, parts, value).Ok?
    ensures Lookup(SetPath(node, parts, value).value, parts) == Some(value)
    decreases |parts|
  {
    match node
    case Dict(es) =>
      if |parts| == 1 {
        GetPut(es, parts[0], value, parts[0]);
      } else {
        var child := Descend(es, parts[0]);
        GetAfterSet(child, parts[1..], value);
        GetPut(es, parts[0], SetPath(child, parts[1..], value).value, parts[0]);
      }
    case List(items) =>
      if |parts| > 1 {
        GetAfterSet(items[ResolveIndex(|items|, parts[0]).value], parts[1..], value);
      }
    case _ =>
  }

  /** Setting what a path already reads changes nothing. */
  lemma {:induction false} SetWhatIsThere(node: Json, parts: Parts, value: Json)
    requires parts != [] && Lookup(node, parts) == Some(value)
    ensures SetPath(node, parts, value) == Ok(node)
    decreases |parts|
  {
    match node
    case Dict(es) =>
      PutGet(es, parts[0]);
      if |parts| > 1 {
        SetWhatIsThere(Get(es, parts[0]).value, parts[1..], value);
      }
    case List(items) =>
      var i := ResolveIndex(|items|, parts[0]).value;
      if |parts| > 1 {
        SetWhatIsThere(items[i], parts[1..], value);
      }
      assert items[i := items[i]] == items;
    case _ =>
  }

  /** A path that reads something can be set. */
  lemma {:induction false} SetWhereItReads(node: Json, parts: Parts, value: Json)
    requires parts != [] && Lookup(node, parts).Some?
    ensures SetPath(node, parts, value).Ok?
    decreases |parts|
  {
    if |parts| > 1 {
      var child := Child(node, parts[0]).value;
      SetWhereItReads(child, parts[1..], value);
    }
  }

  /** Of two settings of a path the second counts. */
  lemma {:induction false} SetTwice(node: Json, parts: Parts, first: Json, second: Json)
    requires parts != [] && SetPath(node, parts, first).Ok?
    ensures SetPath(SetPath(node, parts, first).value, parts, second) == SetPath(node, parts, second)
    decreases |parts|
  {
    match node
    case Dict(es) =>
      if |parts| == 1 {
        PutTwice(es, parts[0], first, second);
      } else {
        var child := Descend(es, parts[0]);
        var set1 := SetPath(child, parts[1..], first).value;
        SetTwice(child, parts[1..], first, second);
        SetKeepsContainer(child, parts[1..], first);
        GetPut(es, parts[0], set1, parts[0]);
        if SetPath(child, parts[1..], second).Ok? {
          PutTwice(es, parts[0], set1, SetPath(child, parts[1..], second).value);
        }
      }
    case List(items) =>
      var i := ResolveIndex(|items|, parts[0]).value;
      if |parts| > 1 {
        SetTwice(items[i], parts[1..], first, second);
      }
      var set1 := if |parts| == 1 then first else SetPath(items[i], parts[1..], first).value;
      if SetPath(node, parts, second).Ok? {
        var r := SetPath(node, parts, second).value;
        assert items[i := set1][i := r.items[i]] == items[i := r.items[i]];
      }
    case _ =>
  }

  /** Setting below a node keeps its kind, and a list its length. */
  lemma {:induction false} SetKeepsContainer(node: Json, parts: Parts, value: Json)
    requires parts != [] && SetPath(node, parts, value).Ok?
    ensures var r := SetPath(node, parts, value).value;
            && (node.Dict? <==> r.Dict?) && (node.List? <==> r.List?) && IsContainer(r)
            && (node.List? ==> |r.items| == |node.items|)
  {
  }

  /** A node a container is read from, or below, is one itself. */
  lemma {:induction false} ReadsThroughContainer(v: Json, q: Parts)
    requires Lookup(v, q).Some? && IsContainer(Lookup(v, q).value)
    ensures IsContainer(v)
  {
  }

  /** Every list the path runs through is there afterwards with its length. */
  lemma {:induction false} SetKeepsLists(node: Json, parts: Parts, value: Json, n: nat)
    requires n < |parts| && SetPath(node, parts, value).Ok?
    requires Lookup(node, parts[..n]).Some? && Lookup(node, parts[..n]).value.List?
    ensures var r := Lookup(SetPath(node, parts, value).value, parts[..n]);
            r.Some? && r.value.List? && |r.value.items| == |Lookup(node, parts[..n]).value.items|
    decreases |parts|
  {
    SetKeepsContainer(node, parts, value);
    if n > 0 {
      assert parts[..n][1..] == parts[1..][..n - 1];
      match node
      case Dict(es) =>
        var child := Descend(es, parts[0]);
        assert Get(es, parts[0]).Some?;
        ReadsThroughContainer(Get(es, parts[0]).value, parts[1..][..n - 1]);
        SetKeepsLists(child, parts[1..], value, n - 1);
        GetPut(es, parts[0], SetPath(child, parts[1..], value).value, parts[0]);
      case List(items) =>
        SetKeepsLists(items[ResolveIndex(|items|, parts[0]).value], parts[1..], value, n - 1);
      case _ =>
    }
  }

  /** The two paths part at a segment that resolves differently, following the first as setting does. */
  predicate Diverge(node: Json, p: Parts, q: Parts)
    decreases |p|
  {
    if p == [] || q == [] then false
    else
      match node
      case Dict(es) => p[0] != q[0] || Diverge(Descend(es, p[0]), p[1..], q[1..])
      case List(items) =>
        var i, j := ResolveIndex(|items|, p[0]), ResolveIndex(|items|, q[0]);
        i != j || (i.Ok? && Diverge(items[i.value], p[1..], q[1..]))
      case _ => false
  }

  /** Any path that diverges from the one set reads as before, through created mappings too. */
  lemma {:induction false} SetElsewhere(node: Json, p: Parts, value: Json, q: Parts)
    requires p != [] && SetPath(node, p, value).Ok? && Diverge(node, p, q)
    ensures Lookup(SetPath(node, p, value).value, q) == Lookup(node, q)
    decreases |p|
  {
    match node
    case Dict(es) =>
      var placed := if |p| == 1 then value else SetPath(Descend(es, p[0]), p[1..], value).value;
      GetPut(es, p[0], placed, q[0]);
      if p[0] == q[0] {
        var child := Descend(es, p[0]);
        SetElsewhere(child, p[1..], value, q[1..]);
        if Get(es, p[0]) != Some(child) {
          NothingBelow(q[1..]);
          if Get(es, p[0]).Some? {
            ScalarReadsNothing(Get(es, p[0]).value, q[1..]);
          }
        }
      }
    case List(items) =>
      var i, j := ResolveIndex(|items|, p[0]), ResolveIndex(|items|, q[0]);
      if i == j {
        SetElsewhere(items[i.value], p[1..], value, q[1..]);
      }
    case _ =>
  }

  lemma {:induction false} NothingBelow(q: Parts)
    requires q != []
    ensures Lookup(Dict([]), q) == None
  {
  }

  lemma {:induction false} ScalarReadsNothing(v: Json, q: Parts)
    requires !IsContainer(v) && q != []
    ensures Lookup(v, q) == None
  {
  }

  // ------------------------------------------------------------------ removing

  /** `_walk_removable`: where the last segment's parent is, or nothing; the tree is only read. */
  datatype Location = Location(trail: seq<Key>, last: Key)

  method WalkRemovable(raw: Json, parts: Parts) returns (r: Result<Option<Location>>)
    requires parts != []
    ensures r == Locate(raw, [], parts)
  {
    var cursor := raw;
    var trail: seq<Key> := [];
    var k := 0;
    while k < |parts| - 1
      invariant k <= |parts| - 1
      invariant Locate(raw, [], parts) == Locate(cursor, trail, parts[k..])
    {
      assert parts[k..][1..] == parts[k + 1..];
      match cursor {
        case List(items) =>
          var index := ResolveIndex(|items|, parts[k]);
          if index.Err? {
            return Err(index.error);
          }
          cursor, trail := items[index.value], trail + [Index(index.value)];
        case Dict(es) =>
          var next := Get(es, parts[k]);
          if next.None? {
            return Ok(None);
          }
          cursor, trail := next.value, trail + [Field(parts[k])];
        case _ => return Ok(None);
      }
      k := k + 1;
    }
    match cursor {
      case List(items) =>
        var index := ResolveIndex(|items|, parts[k]);
        if index.Err? {
          return Err(index.error);
        }
        r := Ok(Some(Location(trail, Index(index.value))));
      case Dict(es) => r := Ok(Some(Location(trail, Field(parts[k]))));
      case _ => r := Ok(None);
    }
  }

  /** The location of a path below a node that was reached by `trail`. */
  function Locate(node: Json, trail: seq<Key>, parts: Parts): Result<Option<Location>>
    requires parts != []
    decreases |parts|
  {
    match node
    case List(items) =>
      (match ResolveIndex(|items|, parts[0])
       case Err(e) => Err(e)
       case Ok(i) =>
         if |parts| == 1 then Ok(Some(Location(trail, Index(i))))
         else Locate(items[i], trail + [Index(i)], parts[1..]))
    case Dict(es) =>
      if |parts| == 1 then Ok(Some(Location(trail, Field(parts[0]))))
      else (match Get(es, parts[0])
            case None => Ok(None)
            case Some(v) => Locate(v, trail + [Field(parts[0])], parts[1..]))
    case _ => Ok(None)
  }

  /** Assigning the last key at a parent. */
  function Assign(parent: Json, key: Key, value: Json): Json {
    match (parent, key)
    case (Dict(es), Field(name)) => Dict(Put(es, name, value))
    case (List(items), Index(i)) => if i < |items| then List(items[i := value]) else parent
    case _ => parent
  }

  /** A removable path is set at the very place it was located at, and nothing is created on the way. */
  lemma {:induction false} LocateAgreesWithSet(root: Json, node: Json, trail: seq<Key>, parts: Parts, value: Json)
    requires parts != [] && At(root, trail) == Some(node)
    requires Locate(node, trail, parts).Ok? && Locate(node, trail, parts).value.Some?
    ensures var l := Locate(node, trail, parts).value.value;
            && At(root, l.trail).Some?
            && Plug(root, trail, SetPath(node, parts, value)) ==
               Ok(PutAt(root, l.trail, Assign(At(root, l.trail).value, l.last, value)))
    decreases |parts|
  {
    if |parts| > 1 {
      match node
      case List(items) =>
        var i := ResolveIndex(|items|, parts[0]).value;
        EnterIndex(root, trail, items, i, parts, value);
        LocateAgreesWithSet(root, items[i], trail + [Index(i)], parts[1..], value);
      case Dict(es) =>
        var v := Get(es, parts[0]).value;
        EnterField(root, trail, es, parts, value);
        assert IsContainer(v);
        PutGet(es, parts[0]);
        PutAtSame(root, trail);
        AtStep(root, trail, Field(parts[0]), Null);
        LocateAgreesWithSet(root, v, trail + [Field(parts[0])], parts[1..], value);
      case _ =>
    }
  }

  lemma {:induction false} PutAtSame(node: Json, trail: seq<Key>)
    requires At(node, trail).Some?
    ensures PutAt(node, trail, At(node, trail).value) == node
  {
    if trail != [] {
      match node
      case Dict(es) =>
        PutAtSame(Get(es, trail[0].name).value, trail[1..]);
        PutGet(es, trail[0].name);
      case List(items) => PutAtSame(items[trail[0].i], trail[1..]);
      case _ =>
    }
  }

  /** Deleting the last key at a parent; None when a mapping does not have it. */
  function Deleted(parent: Json, key: Key): Option<Json> {
    match (parent, key)
    case (Dict(es), Field(name)) => if Get(es, name).Some? then Some(Dict(Remove(es, name))) else None
    case (List(items), Index(i)) => if i < |items| then Some(List(items[..i] + items[i + 1..])) else None
    case _ => None
  }

  /** `_delete_path`: the tree without the path, or None when there is nothing there. */
  method DeletePath(raw: Json, parts: Parts) returns (r: Result<Option<Json>>)
    requires parts != []
    ensures r == DeleteOf(raw, parts)
  {
    var found := WalkRemovable(raw, parts);
    LocateAgreesWithDelete(raw, raw, [], parts);
    match found {
      case Err(e) => r := Err(e);
      case Ok(None) => r := Ok(None);
      case Ok(Some(l)) =>
        var parent := Deleted(At(raw, l.trail).value, l.last);
        r := Ok(if parent.Some? then Some(PutAt(raw, l.trail, parent.value)) else None);
    }
  }

  /** The outcome of deleting below a trail, as an outcome for the whole tree. */
  function PlugDeleted(tree: Json, trail: seq<Key>, r: Result<Option<Json>>): Result<Option<Json>>
    requires At(tree, trail).Some?
  {
    match r case Ok(Some(v)) => Ok(Some(PutAt(tree, trail, v))) case other => other
  }

  function DeleteAt(root: Json, found: Result<Option<Location>>): Result<Option<Json>>
    requires found.Ok? && found.value.Some? ==> At(root, found.value.value.trail).Some?
  {
    match found
    case Err(e) => Err(e)
    case Ok(None) => Ok(None)
    case Ok(Some(l)) =>
      match Deleted(At(root, l.trail).value, l.last)
      case None => Ok(None)
      case Some(parent) => Ok(Some(PutAt(root, l.trail, parent)))
  }

  lemma {:induction false} LocateAgreesWithDelete(root: Json, node: Json, trail: seq<Key>, parts: Parts)
    requires parts != [] && At(root, trail) == Some(node)
    ensures var found := Locate(node, trail, parts);
            && (found.Ok? && found.value.Some? ==> At(root, found.value.value.trail).Some?)
            && PlugDeleted(root, trail, DeleteOf(node, parts)) == DeleteAt(root, found)
    decreases |parts|
  {
    if |parts| > 1 {
      match node
      case List(items) =>
        if ResolveIndex(|items|, parts[0]).Ok? {
          var i := ResolveIndex(|items|, parts[0]).value;
          AtStep(root, trail, Index(i), Null);
          LocateAgreesWithDelete(root, items[i], trail + [Index(i)], parts[1..]);
          match DeleteOf(items[i], parts[1..])
          case Ok(Some(v)) => AtStep(root, trail, Index(i), v);
          case _ =>
        }
      case Dict(es) =>
        if Get(es, parts[0]).Some? {
          var v := Get(es, parts[0]).value;
          AtStep(root, trail, Field(parts[0]), Null);
          LocateAgreesWithDelete(root, v, trail + [Field(parts[0])], parts[1..]);
          match DeleteOf(v, parts[1..])
          case Ok(Some(w)) => AtStep(root, trail, Field(parts[0]), w);
          case _ =>
        }
      case _ =>
    }
  }

  /** What deleting means, segment by segment. */
  function DeleteOf(node: Json, parts: Parts): Result<Option<Json>>
    requires parts != []
    decreases |parts|
  {
    match node
    case List(items) =>
      (match ResolveIndex(|items|, parts[0])
       case Err(e) => Err(e)
       case Ok(i) =>
         if |parts| == 1 then Ok(Some(List(items[..i] + items[i + 1..])))
         else match DeleteOf(items[i], parts[1..])
              case Ok(Some(v)) => Ok(Some(List(items[i := v])))
              case other => other)
    case Dict(es) =>
      (match Get(es, parts[0])
       case None => Ok(None)
       case Some(v) =>
         if |parts| == 1 then Ok(Some(Dict(Remove(es, parts[0]))))
         else match DeleteOf(v, parts[1..])
              case Ok(Some(w)) => Ok(Some(Dict(Put(es, parts[0], w))))
              case other => other)
    case _ => Ok(None)
  }

  /** Something is deleted exactly where the path reads something. */
  lemma {:induction false} DeletesExactlyWhatIsThere(node: Json, parts: Parts)
    requires parts != []
    ensures (DeleteOf(node, parts).Ok? && DeleteOf(node, parts).value.Some?) <==> Lookup(node, parts).Some?
    decreases |parts|
  {
    if |parts| > 1 && Child(node, parts[0]).Some? {
      DeletesExactlyWhatIsThere(Child(node, parts[0]).value, parts[1..]);
    } else {
      assert parts[1..] == [] || Child(node, parts[0]).None?;
    }
  }

  /** Deleting is an error exactly when the path comes to a list that has no item of its segment's name. */
  lemma {:induction false} DeleteFailsExactlyAtBadIndex(node: Json, parts: Parts)
    requires parts != []
    ensures DeleteOf(node, parts).Err? <==> exists n :: 0 <= n < |parts| && BadIndex(node, parts, n)
    decreases |parts|
  {
    assert parts[..0] == [];
    var child := Child(node, parts[0]);
    forall n | 0 <= n < |parts| - 1
      ensures BadIndex(node, parts, n + 1) <==> child.Some? && BadIndex(child.value, parts[1..], n)
    {
      assert parts[..n + 1][1..] == parts[1..][..n];
    }
    if child.Some? && |parts| > 1 {
      DeleteFailsExactlyAtBadIndex(child.value, parts[1..]);
      if n :| 0 <= n < |parts| - 1 && BadIndex(child.value, parts[1..], n) {
        assert BadIndex(node, parts, n + 1);
      }
    } else if DeleteOf(node, parts).Err? {
      assert BadIndex(node, parts, 0);
    }
    if n :| 0 <= n < |parts| && BadIndex(node, parts, n) {
      if n == 0 {
        assert parts[..n] == [];
      } else {
        assert parts[..n][1..] == parts[1..][..n - 1];
        assert BadIndex(child.value, parts[1..], n - 1);
      }
    }
  }

  /** The path's first `n` segments read a list that segment `n` names no item of. */
  predicate BadIndex(node: Json, parts: Parts, n: nat)
    requires n < |parts|
  {
    var at := Lookup(node, parts[..n]);
    at.Some? && at.value.List? && ResolveIndex(|at.value.items|, parts[n]).Err?
  }

  /** A field that was not there is gone again after setting and deleting it, its mapping as before. */
  lemma {:induction false} DeleteUndoesSet(node: Json, parts: Parts, value: Json)
    requires parts != [] && Lookup(node, parts).None?
    requires Lookup(node, parts[..|parts| - 1]).Some? && Lookup(node, parts[..|parts| - 1]).value.Dict?
    ensures SetPath(node, parts, value).Ok?
    ensures DeleteOf(SetPath(node, parts, value).value, parts) == Ok(Some(node))
    decreases |parts|
  {
    if |parts| == 1 {
      assert parts[..0] == [];
      match node
      case Dict(es) =>
        GetPut(es, parts[0], value, parts[0]);
        RemovePut(es, parts[0], value);
        RemoveAbsent(es, parts[0]);
    } else {
      assert parts[..|parts| - 1][1..] == parts[1..][..|parts| - 2];
      var child := Child(node, parts[0]).value;
      DeleteUndoesSet(child, parts[1..], value);
      match node
      case Dict(es) =>
        ReadsThroughContainer(child, parts[1..][..|parts| - 2]);
        var placed := SetPath(child, parts[1..], value).value;
        GetPut(es, parts[0], placed, parts[0]);
        PutTwice(es, parts[0], placed, child);
        PutGet(es, parts[0]);
      case List(items) =>
        var i := ResolveIndex(|items|, parts[0]).value;
        var placed := SetPath(child, parts[1..], value).value;
        assert items[i := placed][i := child] == items;
    }
  }

  /** Where the deletion of a path leaves what another path reads. */
  datatype Origin =
    | Above              // the path leads to something the deleted part was in
    | Gone               // the path leads to nothing any more
    | From(parts: Parts) // the path reads what this one read before

  function Under(segment: string, o: Origin): Origin {
    match o case From(parts) => From([segment] + parts) case other => other
  }

  /** What `q` reads after `p` is deleted: past a deleted list item, the index after its own. */
  function OriginOf(node: Json, p: Parts, q: Parts): Origin
    requires p != []
    decreases |p|
  {
    if q == [] then Above
    else match node
         case Dict(es) =>
           if q[0] != p[0] then From(q)
           else if |p| == 1 || Get(es, p[0]).None? then Gone
           else Under(q[0], OriginOf(Get(es, p[0]).value, p[1..], q[1..]))
         case List(items) =>
           var i, j := ResolveIndex(|items|, p[0]), ResolveIndex(|items|, q[0]);
           if i.Err? || j.Err? then From(q)
           else if |p| > 1 then
             if i == j then Under(q[0], OriginOf(items[i.value], p[1..], q[1..])) else From(q)
           else if j.value < i.value then From(q)
           else if j.value + 1 < |items| then From([Decimal.Print(j.value + 1)] + q[1..])
           else Gone
         case _ => Gone
  }

  /** `q` reads of the tree `r`, which the deletion of `p` left, what its origin says. */
  predicate ReadsByOrigin(node: Json, p: Parts, q: Parts, r: Json)
    requires p != []
  {
    match OriginOf(node, p, q)
    case Gone => Lookup(r, q) == None
    case From(o) => Lookup(r, q) == Lookup(node, o)
    case Above =>
      && |q| < |p| && Lookup(node, q).Some?
      && DeleteOf(Lookup(node, q).value, p[|q|..]) == Ok(Lookup(r, q))
  }

  /** What deleting a path leaves of every path: its own reads nothing, later list items move up, the rest stays. */
  lemma {:induction false} DeleteElsewhere(node: Json, p: Parts, q: Parts)
    requires p != [] && DeleteOf(node, p).Ok? && DeleteOf(node, p).value.Some?
    ensures ReadsByOrigin(node, p, q, DeleteOf(node, p).value.value)
    decreases |p|
  {
    if q == [] {
      assert p[0..] == p;
    } else if |p| > 1 {
      match node
      case Dict(es) => DeleteBelowField(es, p, q);
      case List(items) => DeleteBelowItem(items, p, q);
    } else {
      match node
      case Dict(es) => GetRemove(es, p[0], q[0]);
      case List(items) => DeleteItem(items, p, q);
    }
  }

  lemma {:induction false} DeleteItem(items: seq<Json>, p: Parts, q: Parts)
    requires |p| == 1 && ResolveIndex(|items|, p[0]).Ok? && q != []
    ensures ReadsByOrigin(List(items), p, q, DeleteOf(List(items), p).value.value)
  {
    var j := ResolveIndex(|items|, q[0]);
    if j.Ok? && j.value + 1 < |items| {
      PrintedIndexResolves(|items|, j.value + 1);
      assert ([Decimal.Print(j.value + 1)] + q[1..])[1..] == q[1..];
    }
  }

  lemma {:induction false} DeleteBelowField(es: Entries, p: Parts, q: Parts)
    requires |p| > 1 && q != [] && DeleteOf(Dict(es), p).Ok? && DeleteOf(Dict(es), p).value.Some?
    ensures ReadsByOrigin(Dict(es), p, q, DeleteOf(Dict(es), p).value.value)
    decreases |p|, 0
  {
    var child := Get(es, p[0]).value;
    GetPut(es, p[0], DeleteOf(child, p[1..]).value.value, q[0]);
    if q[0] == p[0] {
      DeleteElsewhere(child, p[1..], q[1..]);
      DeeperOrigin(child, p, q);
    }
  }

  lemma {:induction false} DeleteBelowItem(items: seq<Json>, p: Parts, q: Parts)
    requires |p| > 1 && q != [] && DeleteOf(List(items), p).Ok? && DeleteOf(List(items), p).value.Some?
    ensures ReadsByOrigin(List(items), p, q, DeleteOf(List(items), p).value.value)
    decreases |p|, 0
  {
    var i, j := ResolveIndex(|items|, p[0]), ResolveIndex(|items|, q[0]);
    if i == j {
      DeleteElsewhere(items[i.value], p[1..], q[1..]);
      DeeperOrigin(items[i.value], p, q);
    }
  }

  lemma {:induction false} DeeperOrigin(child: Json, p: Parts, q: Parts)
    requires |p| > 1 && q != []
    ensures |q| <= |p| ==> p[1..][|q| - 1..] == p[|q|..]
    ensures OriginOf(child, p[1..], q[1..]).From? ==>
              ([q[0]] + OriginOf(child, p[1..], q[1..]).parts)[1..] == OriginOf(child, p[1..], q[1..]).parts
  {
  }

  /** After a field of a mapping is deleted its path reads nothing, at any depth. */
  lemma {:induction false} DeletedFieldReadsNothing(node: Json, p: Parts)
    requires p != [] && DeleteOf(node, p).Ok? && DeleteOf(node, p).value.Some?
    requires Lookup(node, p[..|p| - 1]).Some? && Lookup(node, p[..|p| - 1]).value.Dict?
    ensures Lookup(DeleteOf(node, p).value.value, p) == None
    decreases |p|
  {
    DeleteElsewhere(node, p, p);
    OwnOriginGone(node, p);
  }

  lemma {:induction false} OwnOriginGone(node: Json, p: Parts)
    requires p != [] && Lookup(node, p[..|p| - 1]).Some? && Lookup(node, p[..|p| - 1]).value.Dict?
    ensures OriginOf(node, p, p) == Gone
    decreases |p|
  {
    if |p| == 1 {
      assert p[..0] == [];
    } else {
      assert p[..|p| - 1][1..] == p[1..][..|p| - 2];
      OwnOriginGone(Child(node, p[0]).value, p[1..]);
    }
  }
}
