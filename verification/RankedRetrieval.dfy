/**
 The ranked-retrieval scorer over exact reals. The discount `log2(rank + 2)` is any positive increasing
 function of the rank; where its values matter, the ones at ranks 0 and 2, which are whole, are given.
 */
module RankedRetrieval {
  type Discount = nat -> real

  /** The relevance dictionary, in insertion order. */
  type Relevance = seq<(string, nat)>

  ghost predicate IsDiscount(d: Discount) {
    (forall r :: d(r) > 0.0) && (forall r, q :: r < q ==> d(r) < d(q))
  }

  ghost predicate IsLog2Discount(d: Discount) {
    IsDiscount(d) && d(0) == 1.0 && d(2) == 2.0
  }

  predicate DistinctIds(ids: seq<string>) {
    forall j, k :: 0 <= j < k < |ids| ==> ids[j] != ids[k]
  }

  predicate IsDictionary(rel: Relevance) {
    forall j, k :: 0 <= j < k < |rel| ==> rel[j].0 != rel[k].0
  }

  // ------------------------------------------------------------------ the scorer

  /** One entry of the model's answer: a dictionary with a record id, or anything else. */
  datatype Item = Record(id: string) | NotARecord

  /** The record ids among the first `cutoff` entries of the answer. */
  function SelectedIds(items: seq<Item>, cutoff: nat): (ids: seq<string>)
    ensures |ids| <= cutoff
    ensures forall id :: id in ids <==> exists k :: 0 <= k < |items| && k < cutoff && items[k] == Record(id)
  {
    if items == [] || cutoff == 0 then []
    else
      var n := (if cutoff < |items| then cutoff else |items|) - 1;
      assert forall k :: 0 <= k < n ==> items[..n][k] == items[k];
      if items[n].Record? then SelectedIds(items[..n], n) + [items[n].id] else SelectedIds(items[..n], n)
  }

  /** A record listed before another is selected before it: dropping the last entry drops at most the last id. */
  lemma {:induction false} SelectedInOrder(items: seq<Item>, item: Item, cutoff: nat)
    requires |items| < cutoff
    ensures SelectedIds(items + [item], cutoff) ==
            SelectedIds(items, |items|) + (if item.Record? then [item.id] else [])
  {
    assert (items + [item])[..|items|] == items;
  }

  /** `relevance.get(id, 0)`. */
  function Lookup(rel: Relevance, id: string): nat {
    if rel == [] then 0 else if rel[0].0 == id then rel[0].1 else Lookup(rel[1..], id)
  }

  function Gains(selected: seq<string>, rel: Relevance): (g: seq<nat>)
    ensures |g| == |selected|
  {
    seq(|selected|, k requires 0 <= k < |selected| => Lookup(rel, selected[k]))
  }

  function Values(rel: Relevance): (v: seq<nat>)
    ensures |v| == |rel|
  {
    seq(|rel|, k requires 0 <= k < |rel| => rel[k].1)
  }

  predicate Descending(s: seq<nat>) {
    forall j, k :: 0 <= j < k < |s| ==> s[j] >= s[k]
  }

  function Insert(v: nat, s: seq<nat>): (r: seq<nat>)
    ensures multiset(r) == multiset(s) + multiset{v}
  {
    if s == [] || v >= s[0] then [v] + s
    else
      assert s == [s[0]] + s[1..];
      [s[0]] + Insert(v, s[1..])
  }

  /** `sorted(values, reverse=True)`. */
  function SortDescending(s: seq<nat>): (r: seq<nat>)
    ensures multiset(r) == multiset(s)
  {
    if s == [] then []
    else
      assert s == [s[0]] + s[1..];
      Insert(s[0], SortDescending(s[1..]))
  }

  lemma {:induction false} InsertDescending(v: nat, s: seq<nat>)
    requires Descending(s)
    ensures Descending(Insert(v, s))
  {
    if s != [] && v < s[0] {
      var rest := Insert(v, s[1..]);
      InsertDescending(v, s[1..]);
      forall k | 0 <= k < |rest|
        ensures rest[k] <= s[0]
      {
        assert rest[k] in multiset(rest);
        assert rest[k] in multiset(s[1..]) || rest[k] == v;
      }
    }
  }

  lemma {:induction false} SortIsDescending(s: seq<nat>)
    ensures Descending(SortDescending(s))
  {
    if s != [] {
      SortIsDescending(s[1..]);
      InsertDescending(s[0], SortDescending(s[1..]));
    }
  }

  function Ideal(rel: Relevance, cutoff: nat): (r: seq<nat>)
    ensures |r| <= cutoff
  {
    var sorted := SortDescending(Values(rel));
    if |sorted| <= cutoff then sorted else sorted[..cutoff]
  }

  function Pow2(n: nat): (p: nat)
    ensures p >= 1
  {
    if n == 0 then 1 else 2 * Pow2(n - 1)
  }

  function Gain(v: nat): (g: real)
    ensures g >= 0.0
  {
    (Pow2(v) - 1) as real
  }

  /** Powers of two: one is two, and exponents add up. */
  lemma {:induction false} Pow2Adds(m: nat, n: nat)
    ensures Pow2(0) == 1 && Pow2(1) == 2 && Pow2(m + n) == Pow2(m) * Pow2(n)
  {
    assert Pow2(1) == 2 * Pow2(0);
    if n > 0 {
      Pow2Adds(m, n - 1);
      assert Pow2(m + n) == 2 * Pow2(m + n - 1) && Pow2(n) == 2 * Pow2(n - 1);
    }
  }

  /** The gain of a relevance is a power of two less one: 0, 1, 3, and, a step up, twice that and one more. */
  lemma GainDoubles(v: nat)
    ensures Gain(0) == 0.0 && Gain(1) == 1.0 && Gain(2) == 3.0
    ensures Gain(v + 1) == 2.0 * Gain(v) + 1.0
  {
    assert Pow2(1) == 2 * Pow2(0) && Pow2(2) == 2 * Pow2(1);
  }

  /** The gain at a rank; past the end of the list there is none. */
  function GainAt(s: seq<nat>, r: nat): (g: real)
    ensures g >= 0.0
  {
    if r < |s| then Gain(s[r]) else 0.0
  }

  /** The discounted gains of the first `n` ranks. */
  function Discounted(s: seq<nat>, d: Discount, n: nat): real
    requires forall r :: d(r) > 0.0
  {
    if n == 0 then 0.0 else Discounted(s, d, n - 1) + GainAt(s, n - 1) / d(n - 1)
  }

  function Dcg(s: seq<nat>, d: Discount): real
    requires forall r :: d(r) > 0.0
  {
    Discounted(s, d, |s|)
  }

  function Ndcg(selected: seq<string>, rel: Relevance, d: Discount, cutoff: nat): real
    requires forall r :: d(r) > 0.0
  {
    var ideal := Dcg(Ideal(rel, cutoff), d);
    if ideal != 0.0 then Dcg(Gains(selected, rel), d) / ideal else 1.0
  }

  /** A list one longer gains its last entry's gain, discounted by the rank it stands at. */
  lemma {:induction false} DcgOfOneMore(s: seq<nat>, v: nat, d: Discount)
    requires forall r :: d(r) > 0.0
    ensures Dcg([], d) == 0.0 && Dcg(s + [v], d) == Dcg(s, d) + Gain(v) / d(|s|)
  {
    DiscountedPrefix(s, v, d, |s|);
  }

  lemma {:induction false} DiscountedPrefix(s: seq<nat>, v: nat, d: Discount, n: nat)
    requires n <= |s| && forall r :: d(r) > 0.0
    ensures Discounted(s + [v], d, n) == Discounted(s, d, n)
  {
    if n > 0 {
      DiscountedPrefix(s, v, d, n - 1);
    }
  }

  /** An entry's relevance is what the dictionary says of it, and 0 of an id it does not have. */
  lemma {:induction false} LookupIsEntry(rel: Relevance, id: string)
    requires IsDictionary(rel)
    ensures forall k :: 0 <= k < |rel| && rel[k].0 == id ==> Lookup(rel, id) == rel[k].1
    ensures (forall k :: 0 <= k < |rel| ==> rel[k].0 != id) ==> Lookup(rel, id) == 0
  {
    if rel != [] && rel[0].0 != id {
      LookupIsEntry(rel[1..], id);
      forall k | 0 <= k < |rel| && rel[k].0 == id
        ensures Lookup(rel, id) == rel[k].1
      {
        assert rel[1..][k - 1] == rel[k];
      }
    }
  }

  /** nDCG is the share of the ideal DCG that was reached; with nothing to reach it is 1. */
  lemma NdcgIsShare(selected: seq<string>, rel: Relevance, d: Discount, cutoff: nat)
    requires forall r :: d(r) > 0.0
    ensures var reached, ideal := Dcg(Gains(selected, rel), d), Dcg(Ideal(rel, cutoff), d);
            if ideal == 0.0 then Ndcg(selected, rel, d, cutoff) == 1.0
            else Ndcg(selected, rel, d, cutoff) * ideal == reached
  {
    var reached, ideal := Dcg(Gains(selected, rel), d), Dcg(Ideal(rel, cutoff), d);
    if ideal != 0.0 {
      ShareOf(reached, ideal);
    }
  }

  lemma ShareOf(part: real, whole: real)
    requires whole != 0.0
    ensures part / whole * whole == part
  {
  }

  /** The ideal list has the greatest relevances, one for each entry of the dictionary up to the cutoff. */
  lemma IdealIsTop(rel: Relevance, cutoff: nat)
    ensures |Ideal(rel, cutoff)| == if |rel| < cutoff then |rel| else cutoff
    ensures Ideal(rel, cutoff) <= SortDescending(Values(rel))
  {
    assert |multiset(SortDescending(Values(rel)))| == |multiset(Values(rel))| == |rel|;
  }

  // ------------------------------------------------------------------ no selection beats the top of the sorted list

  function GainSum(s: seq<nat>): real {
    if s == [] then 0.0 else Gain(s[0]) + GainSum(s[1..])
  }

  lemma {:induction false} GainSumConcat(s: seq<nat>, t: seq<nat>)
    ensures GainSum(s + t) == GainSum(s) + GainSum(t)
  {
    if s == [] {
      assert s + t == t;
    } else {
      assert (s + t)[1..] == s[1..] + t;
      GainSumConcat(s[1..], t);
    }
  }

  lemma {:induction false} GainMonotone(u: nat, v: nat)
    ensures u < v ==> Gain(u) < Gain(v)
  {
    if u < v {
      GainMonotone(u, v - 1);
    }
  }

  function Without<T>(x: seq<T>, p: nat): seq<T>
    requires p < |x|
  {
    x[..p] + x[p + 1..]
  }

  lemma {:induction false} WithoutOne(x: seq<nat>, p: nat)
    requires p < |x|
    ensures multiset(x) == multiset(Without(x, p)) + multiset{x[p]}
    ensures GainSum(x) == Gain(x[p]) + GainSum(Without(x, p))
  {
    SplitAt(x, p);
    MultisetAround(x, x[..p], x[p], x[p + 1..]);
    GainSumAround(x, x[..p], x[p], x[p + 1..]);
  }

  lemma SplitAt(x: seq<nat>, p: nat)
    requires p < |x|
    ensures x == x[..p] + [x[p]] + x[p + 1..]
  {
  }

  lemma MultisetAround(x: seq<nat>, front: seq<nat>, v: nat, back: seq<nat>)
    requires x == front + [v] + back
    ensures multiset(x) == multiset(front + back) + multiset{v}
  {
  }

  lemma {:induction false} GainSumAround(x: seq<nat>, front: seq<nat>, v: nat, back: seq<nat>)
    requires x == front + [v] + back
    ensures GainSum(x) == Gain(v) + GainSum(front + back)
  {
    GainSumConcat(front + [v], back);
    GainSumConcat(front, [v]);
    GainSumConcat(front, back);
  }

  lemma CancelOne(a: multiset<nat>, b: multiset<nat>, v: nat)
    requires a + multiset{v} <= b + multiset{v}
    ensures a <= b
  {
    forall x
      ensures a[x] <= b[x]
    {
      assert (a + multiset{v})[x] <= (b + multiset{v})[x];
    }
  }

  /** Without `top`'s first entry, `x` loses that entry if it has it, and any one entry otherwise. */
  lemma RestCovers(top: seq<nat>, x: seq<nat>, p: nat)
    requires top != [] && multiset(x) <= multiset(top) && p < |x|
    requires x[p] == top[0] || top[0] !in x
    ensures multiset(Without(x, p)) <= multiset(top[1..])
  {
    assert top == [top[0]] + top[1..];
    WithoutOne(x, p);
    if x[p] == top[0] {
      CancelOne(multiset(Without(x, p)), multiset(top[1..]), top[0]);
    } else {
      NotFirst(multiset(x), multiset(top[1..]), top[0]);
    }
  }

  lemma GainSumTop(top: seq<nat>, n: nat)
    requires 1 <= n <= |top|
    ensures GainSum(top[..n]) == Gain(top[0]) + GainSum(top[1..][..n - 1])
  {
    assert top[..n][1..] == top[1..][..n - 1];
  }

  lemma {:induction false} TopIsGreatest(top: seq<nat>, x: seq<nat>)
    requires Descending(top) && multiset(x) <= multiset(top)
    ensures |x| <= |top| && GainSum(x) <= GainSum(top[..|x|])
    decreases |top|
  {
    if x != [] {
      assert x[0] in multiset(x);
      var p := if top[0] in x then Position(x, top[0]) else 0;
      assert x[p] in multiset(x) && x[p] in top;
      RestCovers(top, x, p);
      TopIsGreatest(top[1..], Without(x, p));
      WithoutOne(x, p);
      GainMonotone(x[p], top[0]);
      GainSumTop(top, |x|);
    }
  }

  function Position(x: seq<nat>, v: nat): (p: nat)
    requires v in x
    ensures p < |x| && x[p] == v
  {
    if x[0] == v then 0 else 1 + Position(x[1..], v)
  }

  lemma NotFirst(a: multiset<nat>, b: multiset<nat>, v: nat)
    requires a <= b + multiset{v} && a[v] == 0
    ensures a <= b
  {
    forall x
      ensures a[x] <= b[x]
    {
      assert a[x] <= (b + multiset{v})[x];
    }
  }

  // ------------------------------------------------------------------ gains of distinct ids are distinct entries

  predicate Known(rel: Relevance, id: string) {
    exists k :: 0 <= k < |rel| && rel[k].0 == id
  }

  /** The gains of the selected ids that the dictionary knows. */
  function KnownGains(selected: seq<string>, rel: Relevance): seq<nat> {
    if selected == [] then []
    else if Known(rel, selected[0]) then [Lookup(rel, selected[0])] + KnownGains(selected[1..], rel)
    else KnownGains(selected[1..], rel)
  }

  lemma {:induction false} KnownGainsConcat(s: seq<string>, t: seq<string>, rel: Relevance)
    ensures KnownGains(s + t, rel) == KnownGains(s, rel) + KnownGains(t, rel)
  {
    if s == [] {
      assert s + t == t;
    } else {
      assert (s + t)[1..] == s[1..] + t;
      KnownGainsConcat(s[1..], t, rel);
    }
  }

  lemma {:induction false} UnknownIsZero(rel: Relevance, id: string)
    ensures !Known(rel, id) ==> Lookup(rel, id) == 0
  {
    if rel != [] {
      UnknownIsZero(rel[1..], id);
      assert rel[0].0 != id && Known(rel[1..], id) ==> Known(rel, id) by {
        if Known(rel[1..], id) {
          var k :| 0 <= k < |rel[1..]| && rel[1..][k].0 == id;
          assert rel[k + 1].0 == id;
        }
      }
    }
  }

  /** Without its first entry a dictionary answers the same about every other id. */
  lemma {:induction false} WithoutFirst(selected: seq<string>, rel: Relevance)
    requires rel != [] && rel[0].0 !in selected
    ensures KnownGains(selected, rel) == KnownGains(selected, rel[1..])
  {
    if selected != [] {
      WithoutFirst(selected[1..], rel);
      var id := selected[0];
      assert Known(rel, id) <==> Known(rel[1..], id) by {
        if Known(rel, id) {
          var k :| 0 <= k < |rel| && rel[k].0 == id;
          assert rel[1..][k - 1].0 == id;
        }
        if Known(rel[1..], id) {
          var k :| 0 <= k < |rel[1..]| && rel[1..][k].0 == id;
          assert rel[k + 1].0 == id;
        }
      }
    }
  }

  /** Taking one known id out of a selection takes its gain out. */
  lemma {:induction false} KnownGainsWithout(selected: seq<string>, rel: Relevance, p: nat)
    requires rel != [] && p < |selected| && selected[p] == rel[0].0 && DistinctIds(selected)
    ensures multiset(KnownGains(selected, rel)) ==
            multiset(KnownGains(Without(selected, p), rel[1..])) + multiset{rel[0].1}
  {
    var l, r := selected[..p], selected[p + 1..];
    assert selected == l + ([selected[p]] + r);
    KnownGainsConcat(l, [selected[p]] + r, rel);
    KnownGainsConcat([selected[p]], r, rel);
    assert Known(rel, rel[0].0);
    assert KnownGains([selected[p]], rel) == [rel[0].1];
    WithoutFirst(l, rel);
    WithoutFirst(r, rel);
    KnownGainsConcat(l, r, rel[1..]);
  }

  lemma {:induction false} KnownGainsAreEntries(selected: seq<string>, rel: Relevance)
    requires DistinctIds(selected) && IsDictionary(rel)
    ensures multiset(KnownGains(selected, rel)) <= multiset(Values(rel))
    decreases |rel|
  {
    if rel == [] {
      NothingKnown(selected);
    } else {
      var rest := rel[1..];
      assert Values(rel) == [rel[0].1] + Values(rest);
      if rel[0].0 in selected {
        var p :| 0 <= p < |selected| && selected[p] == rel[0].0;
        KnownGainsWithout(selected, rel, p);
        KnownGainsAreEntries(Without(selected, p), rest);
      } else {
        WithoutFirst(selected, rel);
        KnownGainsAreEntries(selected, rest);
      }
    }
  }

  lemma {:induction false} NothingKnown(selected: seq<string>)
    ensures KnownGains(selected, []) == []
  {
    if selected != [] {
      NothingKnown(selected[1..]);
    }
  }

  lemma {:induction false} KnownGainsBound(selected: seq<string>, rel: Relevance)
    ensures |KnownGains(selected, rel)| <= |selected|
    ensures GainSum(KnownGains(selected, rel)) == GainSum(Gains(selected, rel))
  {
    if selected != [] {
      KnownGainsBound(selected[1..], rel);
      UnknownIsZero(rel, selected[0]);
      assert Gains(selected, rel)[1..] == Gains(selected[1..], rel);
    }
  }

  // ------------------------------------------------------------------ from prefix sums to discounted sums

  function PrefixSum(s: seq<nat>, n: nat): real {
    if n == 0 then 0.0 else PrefixSum(s, n - 1) + GainAt(s, n - 1)
  }

  lemma {:induction false} PrefixIsSum(s: seq<nat>, n: nat)
    ensures PrefixSum(s, n) == GainSum(if n <= |s| then s[..n] else s)
  {
    if n > 0 {
      PrefixIsSum(s, n - 1);
      if n <= |s| {
        assert s[..n] == s[..n - 1] + [s[n - 1]];
        GainSumConcat(s[..n - 1], [s[n - 1]]);
      } else {
        assert s[..|s|] == s;
      }
    }
  }

  lemma {:induction false} GainSumPrefix(s: seq<nat>, k: nat)
    requires k <= |s|
    ensures GainSum(s[..k]) <= GainSum(s)
  {
    assert s == s[..k] + s[k..];
    GainSumConcat(s[..k], s[k..]);
    GainSumNonNegative(s[k..]);
  }

  lemma {:induction false} GainSumNonNegative(s: seq<nat>)
    ensures GainSum(s) >= 0.0
  {
    if s != [] {
      GainSumNonNegative(s[1..]);
    }
  }

  /** The known gains of the first `m` selected ids are no more than as many from the top of the sorted values. */
  lemma {:induction false} ChosenBelowTop(selected: seq<string>, rel: Relevance, m: nat)
    requires DistinctIds(selected) && IsDictionary(rel) && m <= |selected|
    ensures var top, known := SortDescending(Values(rel)), KnownGains(selected[..m], rel);
            |known| <= |top| && |known| <= m && GainSum(Gains(selected, rel)[..m]) <= GainSum(top[..|known|])
  {
    var chosen := selected[..m];
    KnownGainsAreEntries(chosen, rel);
    KnownGainsBound(chosen, rel);
    SortIsDescending(Values(rel));
    TopIsGreatest(SortDescending(Values(rel)), KnownGains(chosen, rel));
    assert Gains(selected, rel)[..m] == Gains(chosen, rel);
  }

  /** Cut anywhere, the ideal list has gained at least as much as any ranking of distinct ids. */
  lemma {:induction false} PrefixDominance(selected: seq<string>, rel: Relevance, cutoff: nat, n: nat)
    requires DistinctIds(selected) && IsDictionary(rel) && |selected| <= cutoff
    ensures PrefixSum(Gains(selected, rel), n) <= PrefixSum(Ideal(rel, cutoff), n)
  {
    var m := if n <= |selected| then n else |selected|;
    var gains, ideal := Gains(selected, rel), Ideal(rel, cutoff);
    ChosenBelowTop(selected, rel, m);
    PrefixIsSum(gains, n);
    assert gains[..|selected|] == gains;
    IdealPrefix(rel, cutoff, n, |KnownGains(selected[..m], rel)|);
  }

  /** The ideal list has gained, by any rank, at least what its first few entries gain. */
  lemma {:induction false} IdealPrefix(rel: Relevance, cutoff: nat, n: nat, k: nat)
    requires IsDictionary(rel) && k <= n && k <= |Ideal(rel, cutoff)|
    ensures GainSum(SortDescending(Values(rel))[..k]) <= PrefixSum(Ideal(rel, cutoff), n)
  {
    var ideal := Ideal(rel, cutoff);
    var shown := if n <= |ideal| then n else |ideal|;
    PrefixIsSum(ideal, n);
    assert ideal[..|ideal|] == ideal;
    assert ideal[..shown][..k] == SortDescending(Values(rel))[..k];
    GainSumPrefix(ideal[..shown], k);
  }

  // Summation by parts, one rank at a time: the lead in discounted gain is at least the last weight's share of it.
  lemma {:induction false} LeadIsKept(p: seq<nat>, q: seq<nat>, d: Discount, n: nat)
    requires IsDiscount(d) && forall m :: PrefixSum(p, m) <= PrefixSum(q, m)
    ensures n > 0 ==>
              Discounted(q, d, n) - Discounted(p, d, n) >= (PrefixSum(q, n) - PrefixSum(p, n)) / d(n - 1)
  {
    if n > 1 {
      LeadIsKept(p, q, d, n - 1);
      var lead := PrefixSum(q, n - 1) - PrefixSum(p, n - 1);
      Shrinks(lead, d(n - 2), d(n - 1));
      Quotients(GainAt(q, n - 1), GainAt(p, n - 1), lead, d(n - 1));
    } else if n == 1 {
      Quotients(GainAt(q, 0), GainAt(p, 0), 0.0, d(0));
    }
  }

  lemma Shrinks(x: real, small: real, large: real)
    requires x >= 0.0 && 0.0 < small < large
    ensures x / small >= x / large
    ensures x > 0.0 ==> x / small > x / large
  {
    var a, b := x / small, x / large;
    assert a * small == x && b * large == x;
  }

  lemma Quotients(x: real, y: real, z: real, w: real)
    requires w > 0.0
    ensures x / w - y / w + z / w == (x - y + z) / w
  {
  }

  // ------------------------------------------------------------------ the scores

  lemma NothingShared(w: real)
    requires w > 0.0
    ensures 0.0 / w == 0.0
  {
  }

  lemma {:induction false} DiscountedPastEnd(s: seq<nat>, d: Discount, n: nat)
    requires IsDiscount(d) && n >= |s|
    ensures Discounted(s, d, n) == Dcg(s, d)
  {
    if n > |s| {
      DiscountedPastEnd(s, d, n - 1);
      assert GainAt(s, n - 1) == 0.0;
      NothingShared(d(n - 1));
    }
  }

  lemma {:induction false} DiscountedNonNegative(s: seq<nat>, d: Discount, n: nat)
    requires IsDiscount(d)
    ensures Discounted(s, d, n) >= 0.0
  {
    if n > 0 {
      DiscountedNonNegative(s, d, n - 1);
      assert GainAt(s, n - 1) / d(n - 1) >= 0.0;
    }
  }

  /** Rearrangement: over distinct ids, no ranking has a greater discounted gain than the ideal order. */
  lemma DcgBelowIdeal(selected: seq<string>, rel: Relevance, d: Discount, cutoff: nat)
    requires DistinctIds(selected) && IsDictionary(rel) && |selected| <= cutoff && IsDiscount(d)
    ensures 0.0 <= Dcg(Gains(selected, rel), d) <= Dcg(Ideal(rel, cutoff), d)
  {
    var gains, ideal := Gains(selected, rel), Ideal(rel, cutoff);
    DiscountedNonNegative(gains, d, |gains|);
    DiscountedPastEnd(gains, d, cutoff);
    DiscountedPastEnd(ideal, d, cutoff);
    forall n {
      PrefixDominance(selected, rel, cutoff, n);
    }
    LeadPays(gains, ideal, d, cutoff);
  }

  lemma {:induction false} LeadPays(p: seq<nat>, q: seq<nat>, d: Discount, n: nat)
    requires IsDiscount(d) && forall m :: PrefixSum(p, m) <= PrefixSum(q, m)
    ensures Discounted(p, d, n) <= Discounted(q, d, n)
  {
    if n > 0 {
      LeadIsKept(p, q, d, n);
      NoShareNoLead(PrefixSum(q, n) - PrefixSum(p, n), d(n - 1));
    }
  }

  /** Only a list that matches the ideal gains rank by rank loses nothing to them. */
  lemma {:induction false} NoLeadIsEqual(p: seq<nat>, q: seq<nat>, d: Discount, n: nat, r: nat)
    requires IsDiscount(d) && forall m :: PrefixSum(p, m) <= PrefixSum(q, m)
    requires Discounted(p, d, n) == Discounted(q, d, n) && r < n
    ensures GainAt(p, r) == GainAt(q, r)
  {
    var lead, before := PrefixSum(q, n) - PrefixSum(p, n), PrefixSum(q, n - 1) - PrefixSum(p, n - 1);
    LeadIsKept(p, q, d, n);
    NoShareNoLead(lead, d(n - 1));
    if n == 1 {
      return;
    }
    LeadIsKept(p, q, d, n - 1);
    Shrinks(before, d(n - 2), d(n - 1));
    Quotients(GainAt(q, n - 1), GainAt(p, n - 1), before, d(n - 1));
    NoShareNoLead(0.0, d(n - 1));
    assert before == 0.0;
    if r < n - 1 {
      NoLeadIsEqual(p, q, d, n - 1, r);
    }
  }

  lemma NoShareNoLead(lead: real, w: real)
    requires w > 0.0 && lead >= 0.0
    ensures lead / w >= 0.0
    ensures lead / w <= 0.0 ==> lead == 0.0
  {
    assert (lead / w) * w == lead;
  }

  lemma {:induction false} SameGainsSameDcg(p: seq<nat>, q: seq<nat>, d: Discount, n: nat)
    requires IsDiscount(d) && forall r :: 0 <= r < n ==> GainAt(p, r) == GainAt(q, r)
    ensures Discounted(p, d, n) == Discounted(q, d, n)
  {
    if n > 0 {
      SameGainsSameDcg(p, q, d, n - 1);
    }
  }

  /** nDCG of distinct ids lies in [0, 1], and is 1 exactly when the ranking has the ideal gain at every rank. */
  lemma NdcgBounds(selected: seq<string>, rel: Relevance, d: Discount, cutoff: nat)
    requires DistinctIds(selected) && IsDictionary(rel) && |selected| <= cutoff && IsDiscount(d)
    ensures 0.0 <= Ndcg(selected, rel, d, cutoff) <= 1.0
    ensures Ndcg(selected, rel, d, cutoff) == 1.0 <==>
            forall r :: 0 <= r < cutoff ==> GainAt(Gains(selected, rel), r) == GainAt(Ideal(rel, cutoff), r)
  {
    var gains, ideal := Gains(selected, rel), Ideal(rel, cutoff);
    var x, y := Dcg(gains, d), Dcg(ideal, d);
    DcgBelowIdeal(selected, rel, d, cutoff);
    DiscountedPastEnd(gains, d, cutoff);
    DiscountedPastEnd(ideal, d, cutoff);
    if y != 0.0 {
      UnitRatio(x, y);
    }
    if x == y {
      forall n {
        PrefixDominance(selected, rel, cutoff, n);
      }
      forall r | 0 <= r < cutoff
        ensures GainAt(gains, r) == GainAt(ideal, r)
      {
        NoLeadIsEqual(gains, ideal, d, cutoff, r);
      }
    } else if forall r :: 0 <= r < cutoff ==> GainAt(gains, r) == GainAt(ideal, r) {
      SameGainsSameDcg(gains, ideal, d, cutoff);
    }
  }

  lemma UnitRatio(x: real, y: real)
    requires 0.0 <= x <= y && y > 0.0
    ensures 0.0 <= x / y <= 1.0 && (x / y == 1.0 <==> x == y)
  {
    assert (x / y) * y == x;
  }

  /** An id selected twice is counted twice: relevance to that id alone then scores above 1. */
  lemma RepeatedIdScoresAboveOne(selected: seq<string>, d: Discount, j: nat, k: nat)
    requires IsLog2Discount(d) && |selected| <= 3 && j < k < |selected| && selected[j] == selected[k]
    ensures IsDictionary([(selected[j], 1)]) && Ndcg(selected, [(selected[j], 1)], d, 3) > 1.0
  {
    var rel := [(selected[j], 1)];
    var gains := Gains(selected, rel);
    assert Values(rel) == [1] && SortDescending([1]) == [1] by {
      assert [1][1..] == [];
    }
    assert Ideal(rel, 3) == [1];
    assert Discounted([1], d, 1) == Discounted([1], d, 0) + GainAt([1], 0) / d(0);
    assert Gain(1) == 1.0;
    assert Dcg([1], d) == 1.0;
    var one := 1.0 / d(1);
    assert one * d(1) == 1.0 && one > 0.5;
    assert GainAt(gains, j) == 1.0 && GainAt(gains, k) == 1.0;
    TwoTerms(gains, d, j, k);
    assert 1.0 / d(j) + 1.0 / d(k) > 1.0;
  }

  lemma TwoTerms(s: seq<nat>, d: Discount, j: nat, k: nat)
    requires IsDiscount(d) && j < k < |s|
    ensures Dcg(s, d) >= GainAt(s, j) / d(j) + GainAt(s, k) / d(k)
  {
    DiscountedNonNegative(s, d, j);
    DiscountedGrows(s, d, j + 1, k);
    DiscountedGrows(s, d, k + 1, |s|);
  }

  lemma {:induction false} DiscountedGrows(s: seq<nat>, d: Discount, m: nat, n: nat)
    requires IsDiscount(d) && m <= n
    ensures Discounted(s, d, m) <= Discounted(s, d, n)
  {
    if m < n {
      DiscountedGrows(s, d, m, n - 1);
      assert GainAt(s, n - 1) / d(n - 1) >= 0.0;
    }
  }

  /** The score is a ratio for every relevance dictionary exactly when the answer repeats no id. */
  lemma NdcgSoundExactlyWithoutRepeats(selected: seq<string>, d: Discount)
    requires IsLog2Discount(d) && |selected| <= 3
    ensures (forall rel :: IsDictionary(rel) ==> Ndcg(selected, rel, d, 3) <= 1.0) <==> DistinctIds(selected)
  {
    if DistinctIds(selected) {
      forall rel | IsDictionary(rel) {
        NdcgBounds(selected, rel, d, 3);
      }
    } else {
      var j, k :| 0 <= j < k < |selected| && selected[j] == selected[k];
      RepeatedIdScoresAboveOne(selected, d, j, k);
    }
  }

  /** The ids the dictionary holds. */
  function RelevantIds(rel: Relevance): (ids: set<string>)
    ensures forall id :: id in ids <==> exists k :: 0 <= k < |rel| && rel[k].0 == id
  {
    set k | 0 <= k < |rel| :: rel[k].0
  }

  /** The share of the relevant ids that were selected: a ratio with or without repeats, 1 when none is missing. */
  function Recall(selected: seq<string>, rel: Relevance): (r: real)
    ensures 0.0 <= r <= 1.0
    ensures r == 1.0 <==> forall id :: id in RelevantIds(rel) ==> id in selected
    ensures r * |RelevantIds(rel)| as real == |set id | id in RelevantIds(rel) && id in selected| as real
  {
    var relevant := RelevantIds(rel);
    var hits := relevant * (set id | id in selected);
    if relevant == {} then 1.0
    else
      assert hits <= relevant;
      SubsetSize(hits, relevant);
      UnitRatio(|hits| as real, |relevant| as real);
      assert hits == relevant <==> forall id :: id in relevant ==> id in selected;
      assert hits == set id | id in relevant && id in selected;
      |hits| as real / |relevant| as real
  }

  lemma SubsetSize(a: set<string>, b: set<string>)
    requires a <= b
    ensures |a| <= |b| && (|a| == |b| <==> a == b)
  {
    assert b == a + (b - a);
    assert |b| == |a| + |b - a|;
  }

  /** How many of the selected ids are not eligible, each as often as it is selected. */
  function Ineligible(selected: seq<string>, eligible: set<string>): (n: nat)
    ensures n <= |selected|
    ensures n == 0 <==> forall id <- selected :: id in eligible
  {
    if selected == [] then 0
    else
      var front, last := selected[..|selected| - 1], selected[|selected| - 1];
      assert selected == front + [last];
      Ineligible(front, eligible) + (if last in eligible then 0 else 1)
  }

  /** The share of the selected ids that were made up: 0 exactly when all are eligible, 1 when none is. */
  function HallucinationRate(selected: seq<string>, eligible: set<string>): (r: real)
    ensures 0.0 <= r <= 1.0
    ensures r == 0.0 <==> forall id <- selected :: id in eligible
    ensures r * |selected| as real == Ineligible(selected, eligible) as real
  {
    if selected == [] then 0.0
    else
      UnitRatio(Ineligible(selected, eligible) as real, |selected| as real);
      Ineligible(selected, eligible) as real / |selected| as real
  }

  /** An id is counted once for each time it is selected and not eligible. */
  lemma {:induction false} IneligibleConcat(a: seq<string>, b: seq<string>, eligible: set<string>)
    ensures Ineligible(a + b, eligible) == Ineligible(a, eligible) + Ineligible(b, eligible)
  {
    if b == [] {
      assert a + b == a;
    } else {
      assert (a + b)[..|a + b| - 1] == a + b[..|b| - 1];
      IneligibleConcat(a, b[..|b| - 1], eligible);
    }
  }
}
