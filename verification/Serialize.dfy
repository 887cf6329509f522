/**
 * The helper that serialises into a buffer of unknown size by trying, and growing the
 * buffer to what the attempt says it lacked.
 */
module Serialize {
  import opened Bytes
  import opened Parsing

  datatype Attempt = Ok(size: nat, out: seq<byte>) | BufferTooSmall(needed: nat)

  /** A serialiser writes its pieces one after another and stops at the first that does
      not fit, saying how long the buffer would have to be for that piece. */
  method Try(pieces: seq<seq<byte>>, capacity: nat) returns (r: Attempt)
    ensures |Concat(pieces)| <= capacity ==> r == Ok(|Concat(pieces)|, Concat(pieces))
    ensures |Concat(pieces)| > capacity ==> r.BufferTooSmall? && capacity < r.needed <= |Concat(pieces)|
  {
    var out: seq<byte> := [];
    var i := 0;
    assert pieces[0..] == pieces;
    while i < |pieces|
      invariant 0 <= i <= |pieces| && |out| <= capacity
      invariant out + Concat(pieces[i..]) == Concat(pieces)
    {
      assert pieces[i..][1..] == pieces[i + 1..];
      Assoc(out, pieces[i], Concat(pieces[i + 1..]));
      if |out| + |pieces[i]| > capacity {
        return BufferTooSmall(|out| + |pieces[i]|);
      }
      out := out + pieces[i];
      i := i + 1;
    }
    assert out + [] == out;
    return Ok(|out|, out);
  }

  /** `serialize`: it always ends, and with exactly what the serialiser writes, however
      its output is cut into pieces. */
  method Serialize(pieces: seq<seq<byte>>) returns (buf: seq<byte>)
    ensures buf == Concat(pieces)
  {
    var capacity := 0;
    while true
      invariant capacity <= |Concat(pieces)|
      decreases |Concat(pieces)| - capacity
    {
      var r := Try(pieces, capacity);
      match r {
        case Ok(size, out) => return out[..size];
        case BufferTooSmall(needed) => capacity := capacity + (needed - capacity);
      }
    }
  }
}
