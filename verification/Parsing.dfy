/** The streaming parser combinators the wire formats are built from. */
module Parsing {
  import opened Bytes

  /** The outcome of a streaming parser: a value and the unread input, a request
      for more input, a definite failure, or a panic. */
  datatype Parsed<+T> = Done(value: T, rest: seq<byte>) | Incomplete | Failed | Panicked {
    predicate IsFailure() { !Done? }

    function PropagateFailure<U>(): (r: Parsed<U>)
      requires IsFailure()
    {
      match this
      case Incomplete => Incomplete
      case Failed => Failed
      case Panicked => Panicked
    }

    function Extract(): (r: (T, seq<byte>))
      requires Done?
    {
      (value, rest)
    }
  }

  /** `take(n)`. */
  function Take(n: nat, i: seq<byte>): (r: Parsed<seq<byte>>)
    ensures r.Done? ==> |r.value| == n && |r.rest| == |i| - n
  {
    if |i| < n then Incomplete else Done(i[..n], i[n..])
  }

  /** `be_u8`, `be_u16`, `be_u32`, `be_u64` for n = 1, 2, 4, 8. */
  function Number(n: nat, i: seq<byte>): (r: Parsed<nat>)
    ensures r.Done? ==> |r.rest| == |i| - n
  {
    if |i| < n then Incomplete else Done(FromBE(i[..n]), i[n..])
  }

  /** `length_data(be_uN)`: n length bytes, then that many bytes. */
  function Counted(n: nat, i: seq<byte>): (r: Parsed<seq<byte>>)
    ensures r.Done? ==> |r.rest| + n <= |i|
  {
    var (len, i) :- Number(n, i);
    Take(len, i)
  }

  /** `count(take(size), n)`: n byte strings of equal size. */
  function Chunks(n: nat, size: nat, i: seq<byte>): (r: Parsed<seq<seq<byte>>>)
    ensures r.Done? ==> |r.value| == n && |r.rest| <= |i|
    decreases n, i
  {
    if n == 0 then Done([], i)
    else
      var (c, i) :- Take(size, i);
      var (cs, i) :- Chunks(n - 1, size, i);
      Done([c] + cs, i)
  }

  /** `tag(t)`: the given bytes; a mismatch in what is there fails at once. */
  function Tag(t: seq<byte>, i: seq<byte>): (r: Parsed<()>)
    ensures r.Done? ==> |r.rest| == |i| - |t|
  {
    if |t| <= |i| then if i[..|t|] == t then Done((), i[|t|..]) else Failed
    else if i == t[..|i|] then Incomplete else Failed
  }

  // ---------- writing ----------

  function Concat(xs: seq<seq<byte>>): (b: seq<byte>)
  {
    if xs == [] then [] else xs[0] + Concat(xs[1..])
  }

  ghost predicate AllSized(xs: seq<seq<byte>>, size: nat)
  {
    forall i :: 0 <= i < |xs| ==> |xs[i]| == size
  }

  // ---------- what is written is read back ----------

  lemma TakeBack(b: seq<byte>, rest: seq<byte>)
    ensures Take(|b|, b + rest) == Done(b, rest)
  {
    assert (b + rest)[..|b|] == b && (b + rest)[|b|..] == rest;
  }

  lemma NumberBack(x: nat, n: nat, rest: seq<byte>)
    requires x < Pow(256, n)
    ensures Number(n, ToBE(x, n) + rest) == Done(x, rest)
  {
    ToThenFrom(x, n);
    var b := ToBE(x, n);
    assert (b + rest)[..n] == b && (b + rest)[n..] == rest;
  }

  lemma CountedBack(b: seq<byte>, n: nat, rest: seq<byte>)
    requires |b| < Pow(256, n)
    ensures Counted(n, ToBE(|b|, n) + (b + rest)) == Done(b, rest)
  {
    NumberBack(|b|, n, b + rest);
    TakeBack(b, rest);
  }

  lemma {:induction false} ChunksBack(xs: seq<seq<byte>>, size: nat, rest: seq<byte>)
    requires AllSized(xs, size)
    ensures Chunks(|xs|, size, Concat(xs) + rest) == Done(xs, rest)
  {
    if xs == [] {
      assert Concat(xs) + rest == rest;
    } else {
      var tail := Concat(xs[1..]) + rest;
      ChunksBack(xs[1..], size, rest);
      assert Concat(xs) + rest == xs[0] + tail;
      TakeBack(xs[0], tail);
      assert xs == [xs[0]] + xs[1..];
    }
  }

  lemma TagBack(t: seq<byte>, rest: seq<byte>)
    ensures Tag(t, t + rest) == Done((), rest)
  {
    assert (t + rest)[..|t|] == t && (t + rest)[|t|..] == rest;
  }
}
