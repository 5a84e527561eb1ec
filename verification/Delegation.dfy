/**
 Delegation: a run hands its work to a peer harness, which may hand it on. What a peer spends, and whether it
 returns or raises, is an argument of the hand-off.
 */
module Delegation {
  import opened Options

  datatype Candidate = Candidate(harness: string, runs: nat, successRate: real)

  /** A harness's own delegation settings; the schema keeps the share in [0, 1]. */
  datatype Config = Config(maxDepth: int, share: real, minRuns: nat, minRate: real)

  datatype Refusal = Depth | Cycle | Budget

  /** The provenance record of a child: its depth and the harnesses from the root to its parent. */
  datatype Lineage = Lineage(parent: string, depth: nat, chain: seq<string>)

  /** What a run knows of its place: its harness, its depth, its ancestry and its cost ceiling, if it has one. */
  datatype Seat = Seat(harness: string, depth: nat, chain: seq<string>, limit: Option<real>)

  /** How a hand-off ends: the peer's record comes back with its cost, or the call raises after spending. */
  datatype Ending = Returned(cost: real) | Raised(spent: real)

  datatype HandOff = Refused(why: Refusal) | Started(lineage: Lineage, cap: Option<real>)

  // ------------------------------------------------------------------ which peers a run may choose by itself

  predicate Fit(c: Candidate, config: Config) {
    c.runs >= config.minRuns && (config.minRate > 0.0 ==> c.runs > 0 && c.successRate >= config.minRate)
  }

  /** The fit candidates in the order they are offered, each as often as it is. */
  function Kept(candidates: seq<Candidate>, config: Config): (keep: seq<Candidate>)
    ensures forall c :: multiset(keep)[c] == if Fit(c, config) then multiset(candidates)[c] else 0
  {
    if candidates == [] then []
    else
      var n := |candidates| - 1;
      assert candidates == candidates[..n] + [candidates[n]];
      if Fit(candidates[n], config) then Kept(candidates[..n], config) + [candidates[n]]
      else Kept(candidates[..n], config)
  }

  /** Whoever is kept stands as before: what comes of two lists is what comes of the first, then of the second. */
  lemma {:induction false} KeptInOrder(a: seq<Candidate>, b: seq<Candidate>, config: Config)
    ensures Kept(a + b, config) == Kept(a, config) + Kept(b, config)
  {
    if b == [] {
      assert a + b == a;
    } else {
      var n := |b| - 1;
      assert (a + b)[..|a + b| - 1] == a + b[..n];
      KeptInOrder(a, b[..n], config);
    }
  }

  /** `eligible`, by its two tests. */
  method Eligible(candidates: seq<Candidate>, config: Config) returns (keep: seq<Candidate>)
    ensures keep == Kept(candidates, config)
    ensures forall c :: c in keep <==>
              && c in candidates && c.runs >= config.minRuns
              && (config.minRate > 0.0 ==> c.runs > 0 && c.successRate >= config.minRate)
  {
    keep := [];
    for i := 0 to |candidates|
      invariant keep == Kept(candidates[..i], config)
    {
      var c := candidates[i];
      assert candidates[..i + 1][..i] == candidates[..i];
      if c.runs < config.minRuns {
        continue;
      }
      if config.minRate > 0.0 && (c.runs == 0 || c.successRate < config.minRate) {
        continue;
      }
      keep := keep + [c];
    }
    assert candidates[..|candidates|] == candidates;
    forall c
      ensures c in keep <==> c in candidates && Fit(c, config)
    {
      assert c in keep <==> multiset(keep)[c] > 0;
      assert c in candidates <==> multiset(candidates)[c] > 0;
    }
  }

  // ------------------------------------------------------------------ one hand-off

  function RefusalOf(candidate: string, childDepth: nat, chain: seq<string>, maxDepth: int): Option<Refusal> {
    if childDepth > maxDepth then Some(Depth)
    else if candidate in chain then Some(Cycle)
    else None
  }

  function ChildCostCap(remaining: real, share: real): real {
    (if remaining < 0.0 then 0.0 else remaining) * share
  }

  /** The cap of a run's next child: None when the run itself has no ceiling. */
  function CapOf(limit: Option<real>, cost: real, share: real): Option<real> {
    if limit.None? then None else Some(ChildCostCap(limit.value - cost, share))
  }

  function Tighter(own: Option<real>, cap: Option<real>): Option<real> {
    if own.None? then cap
    else if cap.None? then own
    else Some(if own.value < cap.value then own.value else cap.value)
  }

  /** A cap is the share of what is left of the ceiling, and nothing once that is used up; no ceiling, no cap. */
  lemma CapIsShareOfRest(limit: Option<real>, cost: real, share: real)
    ensures limit.None? <==> CapOf(limit, cost, share).None?
    ensures limit.Some? && cost <= limit.value ==> CapOf(limit, cost, share) == Some(Product(limit.value - cost, share))
    ensures limit.Some? && cost > limit.value ==> CapOf(limit, cost, share) == Some(0.0)
  {
    if limit.Some? {
      SignOfShare(limit.value - cost, share);
    }
  }

  /** The tighter of two ceilings is one of them and above neither; there is none only when there is neither. */
  lemma TighterIsLeast(own: Option<real>, cap: Option<real>)
    ensures Tighter(own, cap).None? <==> own.None? && cap.None?
    ensures Tighter(own, cap) == own || Tighter(own, cap) == cap
    ensures Tighter(own, cap).Some? ==>
              && (own.Some? ==> Tighter(own, cap).value <= own.value)
              && (cap.Some? ==> Tighter(own, cap).value <= cap.value)
  {
  }

  /** A hop of a chain: the parent's settings and what it has spent, the peer it chooses and the peer's own ceiling. */
  datatype Hop = Hop(config: Config, spent: real, candidate: string, ownLimit: Option<real>)

  /** The seat the peer is started in, None when the hand-off is refused or skipped for lack of budget. */
  function ChildSeat(s: Seat, h: Hop): Option<Seat> {
    var cap := CapOf(s.limit, h.spent, h.config.share);
    if RefusalOf(h.candidate, s.depth + 1, s.chain + [s.harness], h.config.maxDepth).Some? then None
    else if cap.Some? && cap.value <= 0.0 then None
    else Some(Seat(h.candidate, s.depth + 1, s.chain + [s.harness], Tighter(h.ownLimit, cap)))
  }

  /**
   A hand-off starts exactly when the next depth is within the run's limit, the peer is neither the run's harness nor
   one of its ancestors, and, under a ceiling, a share of something is left. The peer knows the ancestry, and its
   ceiling is the tighter of its own and the share of what is left.
   */
  lemma ChildSeatExactly(s: Seat, h: Hop)
    ensures ChildSeat(s, h).Some? <==>
              && s.depth < h.config.maxDepth && h.candidate != s.harness && h.candidate !in s.chain
              && (s.limit.Some? ==> h.spent < s.limit.value && h.config.share > 0.0)
    ensures ChildSeat(s, h).Some? ==>
              var c := ChildSeat(s, h).value;
              && c.harness == h.candidate && c.depth == s.depth + 1 && c.chain == s.chain + [s.harness]
              && (s.limit.None? ==> c.limit == h.ownLimit)
              && (s.limit.Some? ==>
                    var share := Product(s.limit.value - h.spent, h.config.share);
                    c.limit == Some(if h.ownLimit.Some? && h.ownLimit.value < share then h.ownLimit.value else share))
  {
    if s.limit.Some? {
      SignOfShare(s.limit.value - h.spent, h.config.share);
    }
  }

  function Product(x: real, y: real): real {
    x * y
  }

  lemma SignOfShare(left: real, share: real)
    ensures ChildCostCap(left, share) > 0.0 <==> left > 0.0 && share > 0.0
    ensures ChildCostCap(left, share) == Product(if left < 0.0 then 0.0 else left, share)
    ensures ChildCostCap(left, share) == if left < 0.0 then 0.0 else Product(left, share)
  {
    if left > 0.0 && share > 0.0 {
      assert left * share > 0.0;
    } else if left > 0.0 {
      assert left * share <= 0.0;
    } else {
      assert 0.0 * share == 0.0;
    }
  }

  class AgentRun {
    const config: Config
    const harness: string
    const depth: nat
    const chain: seq<string>
    const limit: Option<real>
    var cost: real
    var delegated: real
    var records: seq<real>

    /** A run takes its depth and ancestry from the lineage it is started with. */
    constructor (config: Config, harness: string, lineage: Option<Lineage>, limit: Option<real>)
      ensures this.config == config && cost == 0.0 && delegated == 0.0 && records == []
      ensures Place() == if lineage.None? then Seat(harness, 0, [], limit)
                        else Seat(harness, lineage.value.depth, lineage.value.chain, limit)
    {
      this.config, this.harness, this.limit := config, harness, limit;
      depth := if lineage.None? then 0 else lineage.value.depth;
      chain := if lineage.None? then [] else lineage.value.chain;
      cost, delegated, records := 0.0, 0.0, [];
    }

    function Place(): Seat {
      Seat(harness, depth, chain, limit)
    }

    /** `_run_delegation`: refuses for nothing, or performs one hand-off and charges what came back. */
    method RunDelegation(candidate: string, ending: Ending) returns (r: HandOff)
      modifies this
      ensures forall own :: var h := Hop(config, old(cost), candidate, own);
                && (r.Started? <==> ChildSeat(Place(), h).Some?)
                && (r.Started? ==>
                      ChildSeat(Place(), h).value
                      == Seat(candidate, r.lineage.depth, r.lineage.chain, Tighter(own, r.cap)))
      ensures r == Refused(Depth) <==> depth >= config.maxDepth
      ensures r == Refused(Cycle) <==> depth < config.maxDepth && (candidate == harness || candidate in chain)
      ensures r == Refused(Budget) <==>
                && depth < config.maxDepth && candidate != harness && candidate !in chain
                && limit.Some? && (old(cost) >= limit.value || config.share <= 0.0)
      ensures r.Started? ==>
                && r.lineage == Lineage(harness, depth + 1, chain + [harness])
                && r.cap == (if limit.None? then None else Some(Product(limit.value - old(cost), config.share)))
      ensures r.Started? && ending.Returned? ==>
                && cost == old(cost) + ending.cost
                && delegated == old(delegated) + ending.cost
                && records == old(records) + [ending.cost]
      ensures r.Refused? || ending.Raised? ==> unchanged(this)
    {
      if limit.Some? {
        SignOfShare(limit.value - cost, config.share);
      }
      var childDepth := depth + 1;
      var ancestry := chain + [harness];
      var refused := RefusalOf(candidate, childDepth, ancestry, config.maxDepth);
      if refused.Some? {
        return Refused(refused.value);
      }
      var cap := CapOf(limit, cost, config.share);
      if cap.Some? && cap.value <= 0.0 {
        return Refused(Budget);
      }
      r := Started(Lineage(harness, childDepth, ancestry), cap);
      if ending.Returned? {
        cost, delegated := cost + ending.cost, delegated + ending.cost;
        records := records + [ending.cost];
      }
    }
  }

  // ------------------------------------------------------------------ chains of hand-offs

  /** The seats of a chain of hand-offs, each started by the one before; it stops at the first refusal. */
  function Seats(s: Seat, hops: seq<Hop>): (seats: seq<Seat>)
    ensures seats != [] && seats[0] == s && |seats| <= |hops| + 1
    decreases |hops|
  {
    if hops == [] || ChildSeat(s, hops[0]).None? then [s]
    else [s] + Seats(ChildSeat(s, hops[0]).value, hops[1..])
  }

  predicate Distinct(names: seq<string>) {
    forall i, j :: 0 <= i < j < |names| ==> names[i] != names[j]
  }

  /** What every hand-off keeps: no harness twice, the run's own included, and a depth that counts the ancestry. */
  predicate Grounded(s: Seat) {
    s.depth == |s.chain| && Distinct(s.chain + [s.harness])
  }

  lemma ChildIsGrounded(s: Seat, h: Hop)
    requires Grounded(s) && ChildSeat(s, h).Some?
    ensures Grounded(ChildSeat(s, h).value)
  {
    var c := ChildSeat(s, h).value;
    var names := c.chain + [c.harness];
    forall i, j | 0 <= i < j < |names|
      ensures names[i] != names[j]
    {
      assert names[i] == c.chain[i];
      if j < |c.chain| {
        assert names[j] == (s.chain + [s.harness])[j];
      }
    }
  }

  /** Each seat of a chain is the child seat of the one before. */
  lemma {:induction false} EachSeatIsAChild(s: Seat, hops: seq<Hop>, k: nat)
    requires 0 < k < |Seats(s, hops)|
    ensures ChildSeat(Seats(s, hops)[k - 1], hops[k - 1]) == Some(Seats(s, hops)[k])
    decreases |hops|
  {
    var c := ChildSeat(s, hops[0]).value;
    assert Seats(s, hops)[k] == Seats(c, hops[1..])[k - 1];
    if k > 1 {
      EachSeatIsAChild(c, hops[1..], k - 1);
      assert Seats(s, hops)[k - 1] == Seats(c, hops[1..])[k - 2];
    }
  }

  /** Nobody forgets an ancestor, or that ancestor's place. */
  lemma {:induction false} AncestorsAreKnown(s: Seat, hops: seq<Hop>, j: nat, k: nat)
    requires Grounded(s) && j < k < |Seats(s, hops)|
    ensures Grounded(Seats(s, hops)[j]) && Grounded(Seats(s, hops)[k])
    ensures Seats(s, hops)[k].depth == Seats(s, hops)[j].depth + (k - j)
    ensures Seats(s, hops)[j].chain + [Seats(s, hops)[j].harness] <= Seats(s, hops)[k].chain
    decreases k
  {
    EachSeatIsAChild(s, hops, k);
    if j < k - 1 {
      AncestorsAreKnown(s, hops, j, k - 1);
    } else if j > 0 {
      AncestorsAreKnown(s, hops, 0, j);
    }
    ChildIsGrounded(Seats(s, hops)[k - 1], hops[k - 1]);
  }

  /**
   Every chain of hand-offs from a root visits no harness twice, knows its whole ancestry, counts it as its depth
   and is no longer than the limit of the run that made the last hand-off.
   */
  lemma {:induction false} ChainsNeverLoop(s: Seat, hops: seq<Hop>, j: nat, k: nat)
    requires s.depth == 0 && s.chain == [] && j < k < |Seats(s, hops)|
    ensures Seats(s, hops)[j].harness != Seats(s, hops)[k].harness
    ensures Seats(s, hops)[k].depth == |Seats(s, hops)[k].chain| == k <= hops[k - 1].config.maxDepth
    ensures Seats(s, hops)[k].chain[j] == Seats(s, hops)[j].harness
  {
    var ancestor, last := Seats(s, hops)[j], Seats(s, hops)[k];
    AncestorsAreKnown(s, hops, 0, k);
    AncestorsAreKnown(s, hops, j, k);
    EachSeatIsAChild(s, hops, k);
    if j > 0 {
      AncestorsAreKnown(s, hops, 0, j);
    }
    assert (ancestor.chain + [ancestor.harness])[j] == ancestor.harness;
    assert (last.chain + [last.harness])[j] == ancestor.harness;
    assert (last.chain + [last.harness])[k] == last.harness;
  }

  /** A chain from a root whose own limit is `limit`, through runs whose limits are at most `top`. */
  predicate RootedChain(s: Seat, hops: seq<Hop>, limit: int, top: int) {
    && s.depth == 0 && s.chain == []
    && (hops != [] ==> hops[0].config.maxDepth == limit)
    && (forall k :: 1 <= k < |hops| ==> hops[k].config.maxDepth <= top)
  }

  /**
   A root's depth limit bounds every chain below it exactly when no run below has a greater one: each run goes by
   its own limit, and none is handed on.
   */
  lemma RootLimitHoldsExactlyWhenGreatest(limit: int, top: int)
    requires limit >= 1
    ensures (forall s, hops :: RootedChain(s, hops, limit, top) ==> |Seats(s, hops)| <= limit + 1) <==> top <= limit
  {
    if top <= limit {
      forall s, hops | RootedChain(s, hops, limit, top)
        ensures |Seats(s, hops)| <= limit + 1
      {
        var k := |Seats(s, hops)| - 1;
        if k > 0 {
          ChainsNeverLoop(s, hops, 0, k);
        }
      }
    } else {
      var hops := LongHops(limit, top, limit + 1);
      LongChain(limit, top, limit + 1);
      assert RootedChain(Seat(Named(0), 0, [], None), hops, limit, top);
    }
  }

  /** Harness ids of different lengths. */
  function Named(n: nat): (id: string)
    ensures |id| == n
  {
    seq(n, _ => 'x')
  }

  function LongHops(limit: int, top: int, n: nat): (hops: seq<Hop>)
    ensures |hops| == n
    ensures forall k :: 0 <= k < n ==>
              hops[k] == Hop(Config(if k == 0 then limit else top, 1.0, 0, 0.0), 0.0, Named(k + 1), None)
  {
    seq(n, k requires 0 <= k < n => Hop(Config(if k == 0 then limit else top, 1.0, 0, 0.0), 0.0, Named(k + 1), None))
  }

  function LongSeat(k: nat): Seat {
    Seat(Named(k), k, seq(k, j requires 0 <= j < k => Named(j)), None)
  }

  lemma NextLongSeat(k: nat, h: Hop)
    requires h.candidate == Named(k + 1) && h.ownLimit == None && h.config.maxDepth >= k + 1
    ensures ChildSeat(LongSeat(k), h) == Some(LongSeat(k + 1))
  {
    var chain := LongSeat(k).chain + [Named(k)];
    assert chain == LongSeat(k + 1).chain;
    assert forall j :: 0 <= j < |chain| ==> |chain[j]| == j;
  }

  /** A chain whose runs all allow it goes on as long as there are hops. */
  lemma {:induction false} LongChainFrom(hops: seq<Hop>, k: nat)
    requires forall j :: 0 <= j < |hops| ==>
               hops[j].candidate == Named(k + j + 1) && hops[j].ownLimit == None && hops[j].config.maxDepth >= k + j + 1
    ensures |Seats(LongSeat(k), hops)| == |hops| + 1
    decreases |hops|
  {
    if hops != [] {
      NextLongSeat(k, hops[0]);
      assert forall j :: 0 <= j < |hops| - 1 ==> hops[1..][j] == hops[j + 1];
      LongChainFrom(hops[1..], k + 1);
    }
  }

  lemma LongChain(limit: int, top: int, n: nat)
    requires limit >= 1 && n <= limit + 1 && top >= limit + 1
    ensures |Seats(Seat(Named(0), 0, [], None), LongHops(limit, top, n))| == n + 1
  {
    assert LongSeat(0) == Seat(Named(0), 0, [], None);
    LongChainFrom(LongHops(limit, top, n), 0);
  }

  /** The shortest such chain: below a root that allows one hop, a peer that allows two makes the second. */
  lemma RootLimitIsNotInherited()
    ensures exists root: Seat, hops: seq<Hop> ::
              RootedChain(root, hops, 1, 2) && |hops| == 2 && |Seats(root, hops)| == 3
  {
    var root := Seat("a", 0, [], None);
    var hops := [Hop(Config(1, 1.0, 0, 0.0), 0.0, "b", None), Hop(Config(2, 1.0, 0, 0.0), 0.0, "c", None)];
    var b := ChildSeat(root, hops[0]).value;
    assert hops[1..][0] == hops[1] && b.chain == ["a"];
    assert ChildSeat(b, hops[1]).Some?;
    assert |Seats(b, hops[1..])| == 2;
    assert RootedChain(root, hops, 1, 2) && |Seats(root, hops)| == 3;
  }

  /** A budget after `k` hops that each take a share of it: the root's times the `k`-th power of the share. */
  function Shrunk(budget: real, share: real, k: nat): (r: real)
    ensures budget >= 0.0 && share >= 0.0 ==> r >= 0.0
  {
    if k == 0 then budget
    else
      var before := Shrunk(budget, share, k - 1);
      assert before >= 0.0 && share >= 0.0 ==> before * share >= 0.0;
      before * share
  }

  /**
   The ceiling `k` hops down is at most the root's shrunk `k` times by a share that no run exceeds, and no run
   under a ceiling starts one without.
   */
  lemma {:induction false} CapsShrinkGeometrically(s: Seat, hops: seq<Hop>, share: real, k: nat)
    requires s.limit.Some? && s.limit.value >= 0.0 && k < |Seats(s, hops)|
    requires forall h :: h in hops ==> 0.0 <= h.config.share <= share && h.spent >= 0.0
    ensures Seats(s, hops)[k].limit.Some? && Seats(s, hops)[k].limit.value <= Shrunk(s.limit.value, share, k)
    decreases k
  {
    if k > 0 {
      CapsShrinkGeometrically(s, hops, share, k - 1);
      EachSeatIsAChild(s, hops, k);
      assert hops[k - 1] in hops;
      CapShrinksOnce(Seats(s, hops)[k - 1], hops[k - 1], share, s.limit.value, k);
    }
  }

  lemma CapShrinksOnce(s: Seat, h: Hop, share: real, root: real, k: nat)
    requires k > 0 && s.limit.Some? && ChildSeat(s, h).Some? && h.spent >= 0.0
    requires 0.0 <= h.config.share <= share && root >= 0.0
    requires s.limit.value <= Shrunk(root, share, k - 1)
    ensures ChildSeat(s, h).value.limit.Some? && ChildSeat(s, h).value.limit.value <= Shrunk(root, share, k)
  {
    CapIsAShare(s.limit.value, Shrunk(root, share, k - 1), h.spent, h.config.share, share);
  }

  lemma CapIsAShare(limit: real, bound: real, spent: real, share: real, most: real)
    requires limit <= bound && bound >= 0.0 && spent >= 0.0 && 0.0 <= share <= most
    ensures ChildCostCap(limit - spent, share) <= bound * most
  {
    var left := if limit - spent < 0.0 then 0.0 else limit - spent;
    assert left * share <= bound * share && bound * share <= bound * most;
  }

  // ------------------------------------------------------------------ the budget of a whole tree of runs

  /**
   What a run has paid for so far: model calls, admitted on an estimate and charged what they cost; the calls that
   select a peer, which no guardrail sees; and hand-offs to peers with their share, their own ceiling and everything
   they paid for in turn.
   */
  datatype Work =
    | Begun
    | Called(before: Work, estimate: real, cost: real)
    | Selected(before: Work, cost: real)
    | Delegated(before: Work, child: Work, share: real, ownLimit: Option<real>, raised: bool)

  /** What a run records as its cost: its own calls and the records that came back. */
  function Recorded(w: Work): real {
    match w
    case Begun => 0.0
    case Called(before, _, cost) => Recorded(before) + cost
    case Selected(before, cost) => Recorded(before) + cost
    case Delegated(before, child, _, _, raised) => Recorded(before) + (if raised then 0.0 else Recorded(child))
  }

  /** What was really spent, by the run and by everyone below it. */
  function Spent(w: Work): real {
    match w
    case Begun => 0.0
    case Called(before, _, cost) => Spent(before) + cost
    case Selected(before, cost) => Spent(before) + cost
    case Delegated(before, child, _, _, _) => Spent(before) + Spent(child)
  }

  /** The spends of hand-offs that raised, anywhere in the tree: nobody is charged for them. */
  function Lost(w: Work): real {
    match w
    case Begun => 0.0
    case Called(before, _, _) => Lost(before)
    case Selected(before, _) => Lost(before)
    case Delegated(before, child, _, _, raised) => Lost(before) + (if raised then Spent(child) else Lost(child))
  }

  /** The cost guardrail before a model call. */
  predicate Guarded(recorded: real, estimate: real, limit: Option<real>) {
    limit.Some? ==> recorded < limit.value && recorded + estimate <= limit.value
  }

  // What the code lets happen, whatever the calls then cost; the schema keeps shares in [0, 1] and ceilings positive.
  predicate Admitted(w: Work, share: real, limit: Option<real>)
    decreases w
  {
    match w
    case Begun => true
    case Called(before, estimate, cost) =>
      Admitted(before, share, limit) && Guarded(Recorded(before), estimate, limit) && cost >= 0.0
    case Selected(before, cost) => Admitted(before, share, limit) && cost >= 0.0
    case Delegated(before, child, childShare, ownLimit, _) =>
      var cap := CapOf(limit, Recorded(before), share);
      && Admitted(before, share, limit)
      && 0.0 <= childShare <= 1.0 && (ownLimit.Some? ==> ownLimit.value > 0.0)
      && (cap.Some? ==> cap.value > 0.0)
      && Admitted(child, childShare, Tighter(ownLimit, cap))
  }

  /** What the run has been charged for hand-offs. */
  function Charged(w: Work): real {
    match w
    case Begun => 0.0
    case Called(before, _, _) => Charged(before)
    case Selected(before, _) => Charged(before)
    case Delegated(before, child, _, _, raised) => Charged(before) + (if raised then 0.0 else Recorded(child))
  }

  /** Every child that came back recorded no more than its ceiling. */
  predicate ChildrenWithinCaps(w: Work, share: real, limit: Option<real>) {
    match w
    case Begun => true
    case Called(before, _, _) => ChildrenWithinCaps(before, share, limit)
    case Selected(before, _) => ChildrenWithinCaps(before, share, limit)
    case Delegated(before, child, _, ownLimit, raised) =>
      var ceiling := Tighter(ownLimit, CapOf(limit, Recorded(before), share));
      && ChildrenWithinCaps(before, share, limit)
      && (!raised && ceiling.Some? ==> Recorded(child) <= ceiling.value)
  }

  lemma {:induction false} RecordedCoversCharges(w: Work, share: real, limit: Option<real>)
    requires Admitted(w, share, limit)
    ensures 0.0 <= Charged(w) <= Recorded(w) <= Spent(w) && Lost(w) >= 0.0
    decreases w
  {
    match w
    case Begun =>
    case Called(before, _, _) => RecordedCoversCharges(before, share, limit);
    case Selected(before, _) => RecordedCoversCharges(before, share, limit);
    case Delegated(before, child, childShare, ownLimit, _) =>
      RecordedCoversCharges(before, share, limit);
      RecordedCoversCharges(child, childShare, Tighter(ownLimit, CapOf(limit, Recorded(before), share)));
  }

  /** A hand-off the cap rule admits leaves the run room for the whole cap. */
  lemma CapFitsWhatIsLeft(limit: real, recorded: real, share: real)
    requires 0.0 <= share <= 1.0 && CapOf(Some(limit), recorded, share).value > 0.0
    ensures recorded + CapOf(Some(limit), recorded, share).value <= limit
  {
    var left := if limit - recorded < 0.0 then 0.0 else limit - recorded;
    assert left * share <= left;
  }

  /**
   Children that stay within their caps and are charged back one after the other never exceed the run's budget,
   whatever its own calls cost: all their charges fit its ceiling, and after each of them so does its whole cost.
   */
  lemma {:induction false} ChargesStayWithinTheCeiling(w: Work, share: real, limit: real)
    requires 0.0 <= share <= 1.0 && limit >= 0.0
    requires Admitted(w, share, Some(limit)) && ChildrenWithinCaps(w, share, Some(limit))
    ensures Charged(w) <= limit
    ensures w.Delegated? ==> Recorded(w) <= limit
  {
    match w
    case Begun =>
    case Called(before, _, _) => ChargesStayWithinTheCeiling(before, share, limit);
    case Selected(before, _) => ChargesStayWithinTheCeiling(before, share, limit);
    case Delegated(before, child, childShare, ownLimit, raised) =>
      CapFitsWhatIsLeft(limit, Recorded(before), share);
      RecordedCoversCharges(w, share, Some(limit));
      if !raised {
        assert Recorded(child) <= CapOf(Some(limit), Recorded(before), share).value;
      }
  }

  /** A run that has recorded its whole ceiling starts nothing more, whatever the estimate or the peer. */
  lemma {:induction false} NothingStartsAtTheCeiling(w: Work, share: real, limit: real, estimate: real, cost: real)
    requires 0.0 <= share <= 1.0 && estimate >= 0.0
    requires Admitted(w, share, Some(limit)) && Recorded(w) >= limit
    ensures !Admitted(Called(w, estimate, cost), share, Some(limit))
    ensures forall child, childShare, ownLimit, raised ::
              !Admitted(Delegated(w, child, childShare, ownLimit, raised), share, Some(limit))
  {
    forall child, childShare, ownLimit, raised
      ensures !Admitted(Delegated(w, child, childShare, ownLimit, raised), share, Some(limit))
    {
      assert CapOf(Some(limit), Recorded(w), share) == Some(0.0);
    }
  }

  /** Conservation: what a tree of runs really spent is what its root recorded and what raised. */
  lemma {:induction false} SpendIsRecordedOrLost(w: Work)
    ensures Spent(w) == Recorded(w) + Lost(w)
  {
    match w
    case Begun =>
    case Called(before, _, _) => SpendIsRecordedOrLost(before);
    case Selected(before, _) => SpendIsRecordedOrLost(before);
    case Delegated(before, child, _, _, _) =>
      SpendIsRecordedOrLost(before);
      SpendIsRecordedOrLost(child);
  }

  /**
   The budget holds for a run: what was spent is within its ceiling, and stays so when the run goes on with any call
   that the guardrail admits and that costs what was estimated.
   */
  ghost predicate BudgetHolds(w: Work, share: real, limit: Option<real>) {
    limit.Some? ==>
      && Spent(w) <= limit.value
      && forall cost :: Admitted(Called(w, cost, cost), share, limit) ==> Spent(Called(w, cost, cost)) <= limit.value
  }

  /** It held at every moment, for every run of the tree under its own ceiling. */
  ghost predicate AlwaysHolds(w: Work, share: real, limit: Option<real>)
    decreases w
  {
    && BudgetHolds(w, share, limit)
    && match w
       case Begun => true
       case Called(before, _, _) => AlwaysHolds(before, share, limit)
       case Selected(before, _) => AlwaysHolds(before, share, limit)
       case Delegated(before, child, childShare, ownLimit, _) =>
         && AlwaysHolds(before, share, limit)
         && AlwaysHolds(child, childShare, Tighter(ownLimit, CapOf(limit, Recorded(before), share)))
  }

  /**
   Under a ceiling, every call cost at most what was left when it was made, and no hand-off raised that had spent
   anything; the same in every run of the tree.
   */
  predicate WithinMeans(w: Work, share: real, limit: Option<real>)
    decreases w
  {
    match w
    case Begun => true
    case Called(before, _, cost) =>
      WithinMeans(before, share, limit) && (limit.Some? ==> Recorded(before) + cost <= limit.value)
    case Selected(before, cost) =>
      WithinMeans(before, share, limit) && (limit.Some? ==> Recorded(before) + cost <= limit.value)
    case Delegated(before, child, childShare, ownLimit, raised) =>
      && WithinMeans(before, share, limit)
      && (limit.Some? && raised ==> Spent(child) <= 0.0)
      && WithinMeans(child, childShare, Tighter(ownLimit, CapOf(limit, Recorded(before), share)))
  }

  /** Within its means a run loses nothing and records no more than its ceiling. */
  lemma {:induction false} MeansCoverTheTree(w: Work, share: real, limit: real)
    requires 0.0 <= share <= 1.0 && limit > 0.0
    requires Admitted(w, share, Some(limit)) && WithinMeans(w, share, Some(limit))
    ensures Recorded(w) <= limit && Lost(w) == 0.0
    decreases w
  {
    RecordedCoversCharges(w, share, Some(limit));
    match w
    case Begun =>
    case Called(before, _, _) => MeansCoverTheTree(before, share, limit);
    case Selected(before, _) => MeansCoverTheTree(before, share, limit);
    case Delegated(before, child, childShare, ownLimit, raised) =>
      var cap := CapOf(Some(limit), Recorded(before), share);
      MeansCoverTheTree(before, share, limit);
      CapFitsWhatIsLeft(limit, Recorded(before), share);
      MeansCoverTheTree(child, childShare, Tighter(ownLimit, cap).value);
  }

  /** The budget of one run holds at a moment exactly when it has not overspent and has lost nothing. */
  lemma {:induction false} BudgetAtAMoment(w: Work, share: real, limit: real)
    requires limit > 0.0 && Admitted(w, share, Some(limit))
    ensures BudgetHolds(w, share, Some(limit)) <==> Recorded(w) <= limit && Lost(w) <= 0.0
  {
    RecordedCoversCharges(w, share, Some(limit));
    SpendIsRecordedOrLost(w);
    var rest := limit - Recorded(w);
    if rest > 0.0 {
      assert Admitted(Called(w, rest, rest), share, Some(limit));
      assert Spent(Called(w, rest, rest)) == limit + Lost(w);
    }
  }

  /**
   The user's budget holds throughout a tree of runs exactly when every call costs at most what is left when it is
   made and no hand-off raises that had spent anything.
   */
  lemma {:induction false} BudgetHoldsExactlyWithinMeans(w: Work, share: real, limit: Option<real>)
    requires 0.0 <= share <= 1.0 && (limit.Some? ==> limit.value > 0.0)
    requires Admitted(w, share, limit)
    ensures AlwaysHolds(w, share, limit) <==> WithinMeans(w, share, limit)
    decreases w
  {
    if limit.Some? {
      LastSpendWithinMeans(w, share, limit.value);
    }
    match w
    case Begun =>
    case Called(before, _, _) => BudgetHoldsExactlyWithinMeans(before, share, limit);
    case Selected(before, _) => BudgetHoldsExactlyWithinMeans(before, share, limit);
    case Delegated(before, child, childShare, ownLimit, _) =>
      BudgetHoldsExactlyWithinMeans(before, share, limit);
      BudgetHoldsExactlyWithinMeans(child, childShare, Tighter(ownLimit, CapOf(limit, Recorded(before), share)));
  }

  /** One spend more: whether the budget still holds is whether that spend was within the means. */
  lemma {:induction false} LastSpendWithinMeans(w: Work, share: real, limit: real)
    requires 0.0 <= share <= 1.0 && limit > 0.0 && Admitted(w, share, Some(limit))
    ensures WithinMeans(w, share, Some(limit)) ==> BudgetHolds(w, share, Some(limit))
    ensures w.Called? || w.Selected? ==>
              (BudgetHolds(w, share, Some(limit)) ==> Recorded(w.before) + w.cost <= limit)
    ensures w.Delegated? && BudgetHolds(w, share, Some(limit)) && w.raised ==> Spent(w.child) <= 0.0
  {
    BudgetAtAMoment(w, share, limit);
    if WithinMeans(w, share, Some(limit)) {
      MeansCoverTheTree(w, share, limit);
    }
    if w.Delegated? {
      RecordedCoversCharges(w.before, share, Some(limit));
    }
  }

  // The three ways to overspend, each a family of trees the code admits: no single cause may be left out above.

  /** A call that costs more than the whole ceiling, though its estimate fitted. */
  lemma {:induction false} EstimateTooLow(limit: real, share: real, estimate: real, cost: real)
    requires 0.0 < limit < cost && estimate <= limit
    ensures var w := Called(Begun, estimate, cost);
            Admitted(w, share, Some(limit)) && Lost(w) == 0.0 && Spent(w) > limit && !WithinMeans(w, share, Some(limit))
  {
    assert Recorded(Begun) == 0.0 && Spent(Begun) == 0.0;
  }

  /** The selection of a peer, which nothing guards, when less is left than it costs. */
  lemma {:induction false} SelectedTooLate(limit: real, share: real, spent: real, cost: real)
    requires 0.0 <= spent <= limit && 0.0 < limit < spent + cost && cost >= 0.0
    ensures var w := Selected(Called(Begun, spent, spent), cost);
            Admitted(w, share, Some(limit)) && Lost(w) == 0.0 && Spent(w) > limit && !WithinMeans(w, share, Some(limit))
  {
    var first := Called(Begun, spent, spent);
    assert Recorded(first) == spent == Spent(first) && Lost(first) == 0.0 && Admitted(first, share, Some(limit));
  }

  /** A hand-off that raises after the peer has spent, and a run that goes on with what it believes is left. */
  lemma {:induction false} RaisedAfterSpending(limit: real, share: real, spent: real)
    requires limit > 0.0 && 0.0 <= share <= 1.0 && 0.0 < spent <= ChildCostCap(limit, share)
    ensures var w := Called(Delegated(Begun, Called(Begun, spent, spent), share, None, true), limit, limit);
            && Admitted(w, share, Some(limit)) && Recorded(w) == limit && Lost(w) == spent
            && Spent(w) > limit && !WithinMeans(w, share, Some(limit))
  {
    var child, cap := Called(Begun, spent, spent), ChildCostCap(limit, share);
    var raised := Delegated(Begun, child, share, None, true);
    assert CapOf(Some(limit), Recorded(Begun), share) == Some(cap) == Tighter(None, Some(cap));
    assert Spent(child) == spent && Admitted(child, share, Some(cap));
    assert Recorded(raised) == 0.0 && Lost(raised) == spent && Admitted(raised, share, Some(limit));
  }
}
