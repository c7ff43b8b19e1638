// The unit of every buffer, picture plane and stream of the model, and the few
// sequences several modules build from it.

module Bytes {
  type byte = x: int | 0 <= x < 256

  function Min(a: nat, b: nat): (r: nat)
    ensures r <= a && r <= b && (r == a || r == b)
  {
    if a > b then b else a
  }

  function Zeros(n: nat): (r: seq<byte>)
    ensures |r| == n
  {
    seq(n, _ => 0)
  }

  lemma ZerosJoin(m: nat, n: nat)
    ensures Zeros(m) + Zeros(n) == Zeros(m + n)
  {
  }

  function Flatten(q: seq<seq<byte>>): seq<byte> {
    if q == [] then [] else q[0] + Flatten(q[1..])
  }

  lemma {:induction false} FlattenAdd(q: seq<seq<byte>>, bytes: seq<byte>)
    ensures Flatten(q + [bytes]) == Flatten(q) + bytes
  {
    if q == [] {
      assert Flatten([bytes]) == bytes + [];
    } else {
      FlattenAdd(q[1..], bytes);
      assert (q + [bytes])[1..] == q[1..] + [bytes];
    }
  }

  lemma SplitAt(s: seq<byte>, t: seq<byte>, n: nat)
    requires n <= |t|
    ensures (s + t[..n]) + t[n..] == s + t
  {
    assert t[..n] + t[n..] == t;
  }
}
