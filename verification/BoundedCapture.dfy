/** The bounded capture of a confined command's output: a head, a tail, and a count of what fell between. */
module BoundedCapture {
  type Bytes = seq<bv8>

  function Min(x: int, y: int): int {
    if x <= y then x else y
  }

  function Max(x: int, y: int): int {
    if x >= y then x else y
  }

  /** A quarter of the budget is the tail's, and either part keeps at least one byte. */
  function TailCap(cap: int): (c: nat)
    ensures c >= 1
  {
    Max(1, cap / 4)
  }

  function HeadCap(cap: int): (c: nat)
    ensures c >= 1
    ensures c + TailCap(cap) == Max(2, cap)
  {
    Max(1, cap - TailCap(cap))
  }

  /** The tail has the whole quarter of the budget, at least one byte, and the head what is left of it. */
  lemma CapsOfBudget(cap: int)
    ensures TailCap(cap) == 1 || 4 * TailCap(cap) <= cap
    ensures 4 * TailCap(cap) + 4 > cap
    ensures cap >= 2 ==> HeadCap(cap) == cap - TailCap(cap)
    ensures cap < 2 ==> HeadCap(cap) == TailCap(cap) == 1
  {
  }

  /** The last `n` bytes, or all of them. */
  function Last(s: Bytes, n: nat): Bytes {
    if |s| <= n then s else s[|s| - n..]
  }

  /** What is kept of a whole stream under a cap. */
  datatype Kept = Kept(head: Bytes, tail: Bytes, discarded: nat)

  function KeptOf(cap: int, stream: Bytes): Kept {
    var n := Min(|stream|, HeadCap(cap));
    var tail := Last(stream[n..], TailCap(cap));
    Kept(stream[..n], tail, |stream| - n - |tail|)
  }

  /** The head is the first bytes, the tail the last, both as many as fit; the rest is counted, and the cap is kept. */
  lemma WhatIsKept(cap: int, stream: Bytes)
    ensures var k := KeptOf(cap, stream);
            && |k.head| == Min(|stream|, HeadCap(cap)) && k.head <= stream
            && |k.tail| == Min(|stream| - |k.head|, TailCap(cap)) && k.tail == stream[|stream| - |k.tail|..]
            && |k.head| + |k.tail| + k.discarded == |stream|
            && |k.head| + |k.tail| <= Max(2, cap)
            && (k.discarded == 0 <==> k.head + k.tail == stream)
  {
    var n := Min(|stream|, HeadCap(cap));
    assert stream[..n] + stream[n..] == stream;
  }

  class Capture {
    const cap: int
    var head: Bytes
    var tail: Bytes
    var discarded: nat
    ghost var stream: Bytes

    /** The capture holds what its cap keeps of everything fed so far. */
    ghost predicate Valid()
      reads this
    {
      Kept(head, tail, discarded) == KeptOf(cap, stream)
    }

    constructor (cap: int)
      ensures Valid() && this.cap == cap && stream == []
    {
      this.cap := cap;
      head, tail, discarded, stream := [], [], 0, [];
    }

    method Feed(chunk: Bytes)
      requires Valid()
      modifies this
      ensures Valid() && stream == old(stream) + chunk
    {
      ghost var before := Kept(head, tail, discarded);
      KeptFeed(cap, stream, chunk);
      stream := stream + chunk;
      var rest := chunk;
      var room := HeadCap(cap) - |head|;
      if room > 0 {
        var taken := Min(room, |chunk|);
        head := head + chunk[..taken];
        rest := chunk[taken..];
      }
      assert head == before.head + chunk[..Taken(cap, before.head, chunk)];
      assert rest == chunk[Taken(cap, before.head, chunk)..];
      if rest == [] {
        return;
      }
      var overflow := Max(0, |tail| + |rest| - TailCap(cap));
      discarded := discarded + overflow;
      tail := Last(tail + rest, TailCap(cap));
    }

    /** Reads the pipe to its end, chunk by chunk. */
    method Drain(chunks: seq<Bytes>)
      requires Valid()
      modifies this
      ensures Valid() && stream == old(stream) + Concat(chunks)
    {
      var k := 0;
      while k < |chunks|
        invariant k <= |chunks| && Valid() && stream == old(stream) + Concat(chunks[..k])
      {
        ConcatNext(old(stream), chunks, k);
        Feed(chunks[k]);
        k := k + 1;
      }
      assert chunks[..k] == chunks;
    }
  }

  function Concat(chunks: seq<Bytes>): Bytes {
    if chunks == [] then [] else Concat(chunks[..|chunks| - 1]) + chunks[|chunks| - 1]
  }

  lemma ConcatNext(before: Bytes, chunks: seq<Bytes>, k: nat)
    requires k < |chunks|
    ensures before + Concat(chunks[..k]) + chunks[k] == before + Concat(chunks[..k + 1])
  {
    assert chunks[..k + 1][..k] == chunks[..k];
  }

  /** How much of a chunk the head takes. */
  function Taken(cap: int, head: Bytes, chunk: Bytes): (n: nat)
    ensures n <= |chunk|
  {
    var room := HeadCap(cap) - |head|;
    if room > 0 then Min(room, |chunk|) else 0
  }

  lemma LastOfLast(s: Bytes, t: Bytes, n: nat)
    ensures Last(Last(s, n) + t, n) == Last(s + t, n)
  {
  }

  /** A chunk fed to what is kept: the head takes what it has room for, the tail the rest. */
  function Fed(cap: int, k: Kept, chunk: Bytes): Kept {
    var taken := Taken(cap, k.head, chunk);
    var rest := chunk[taken..];
    Kept(k.head + chunk[..taken], if rest == [] then k.tail else Last(k.tail + rest, TailCap(cap)),
         k.discarded + if rest == [] then 0 else Max(0, |k.tail| + |rest| - TailCap(cap)))
  }

  /** Feeding a chunk to what is kept of a stream gives what is kept of the longer stream. */
  lemma KeptFeed(cap: int, before: Bytes, chunk: Bytes)
    ensures Fed(cap, KeptOf(cap, before), chunk) == KeptOf(cap, before + chunk)
  {
    var k, all := KeptOf(cap, before), before + chunk;
    var n := |k.head|;
    var taken := Taken(cap, k.head, chunk);
    SplitFeed(cap, before, chunk);
    assert all[..n + taken] == before[..n] + chunk[..taken];
    LastOfLast(before[n..], chunk[taken..], TailCap(cap));
    if taken == |chunk| {
      assert before[n..] + chunk[taken..] == before[n..];
    }
  }

  lemma SplitFeed(cap: int, before: Bytes, chunk: Bytes)
    ensures var n := Min(|before|, HeadCap(cap));
            var taken := Taken(cap, before[..n], chunk);
            && Min(|before + chunk|, HeadCap(cap)) == n + taken
            && (before + chunk)[n + taken..] == before[n..] + chunk[taken..]
  {
  }

  /** A capture of a whole stream, read in these chunks. */
  method CaptureAll(cap: int, chunks: seq<Bytes>) returns (k: Kept)
    ensures k == KeptOf(cap, Concat(chunks))
  {
    var capture := new Capture(cap);
    capture.Drain(chunks);
    assert [] + Concat(chunks) == Concat(chunks);
    k := Kept(capture.head, capture.tail, capture.discarded);
  }
}
