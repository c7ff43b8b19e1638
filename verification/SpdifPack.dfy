// Packing of a compressed frame into an IEC 61937 burst, and the interleaving of
// its words into the left and right halves of 64-byte blocks.

module SpdifPack {
  import opened Bytes

  const BURST := 6144
  const DTS_BURST := 2048

  datatype StreamKind = Ac3 | Dts | Raw

  // ---------------------------------------------------------------- bursts

  // A 16-bit word of a little-endian byte buffer.
  function Word(s: seq<byte>, k: nat): nat
    requires 2 * k + 1 < |s|
  {
    (s[2 * k] as int) + 256 * (s[2 * k + 1] as int)
  }

  function Bytes2(w: nat): (r: seq<byte>)
    ensures |r| == 2
  {
    [w % 256, w / 256 % 256]
  }

  // Pc, the data type, and Pd, the length code.
  function Pc(kind: StreamKind): nat {
    if kind == Ac3 then 1 else 11
  }

  function Pd(kind: StreamKind, frameSize: nat): nat {
    if kind == Ac3 then frameSize * 8 else 2040 * 8
  }

  function Preamble(kind: StreamKind, frameSize: nat): (r: seq<byte>)
    ensures |r| == 8
  {
    Bytes2(0xF872) + Bytes2(0x4E1F) + Bytes2(Pc(kind)) + Bytes2(Pd(kind, frameSize))
  }

  // iec958_buf before interleaving; a raw frame leaves the rest of it as it was.
  function Burst(kind: StreamKind, frame: seq<byte>, before: seq<byte>): (r: seq<byte>)
    requires |before| == BURST && |frame| <= (if kind == Raw then BURST else BURST - 8)
    ensures |r| == BURST
  {
    if kind == Raw then frame + before[|frame|..]
    else Preamble(kind, |frame|) + frame + Zeros(BURST - 8 - |frame|)
  }

  // The bytes of whole blocks among n.
  function Whole(n: nat): (m: nat)
    ensures m % 64 == 0 && m <= n < m + 64
    ensures m == n <==> n % 64 == 0
  {
    n / 64 * 64
  }

  // How many bytes the loop interleaves.
  function Packed(kind: StreamKind, frameSize: nat): (n: nat)
    ensures n % 64 == 0
    ensures frameSize <= BURST ==> n <= BURST
    ensures kind == Raw ==> frameSize <= n < frameSize + 64
  {
    match kind
    case Ac3 => BURST
    case Dts => DTS_BURST
    case Raw => (frameSize + 63) / 64 * 64
  }

  // ---------------------------------------------------------------- interleaving

  // The first word of every pair of words, and the second.
  function Firsts(b: seq<byte>): (t: seq<byte>)
    requires |b| % 4 == 0
    ensures |t| == |b| / 2 && |t| % 2 == 0
  {
    if b == [] then [] else Firsts(b[..|b| - 4]) + b[|b| - 4..|b| - 2]
  }

  function Seconds(b: seq<byte>): (t: seq<byte>)
    requires |b| % 4 == 0
    ensures |t| == |b| / 2 && |t| % 2 == 0
  {
    if b == [] then [] else Seconds(b[..|b| - 4]) + b[|b| - 2..]
  }

  function Merge(l: seq<byte>, r: seq<byte>): (b: seq<byte>)
    requires |l| == |r| && |l| % 2 == 0
    ensures |b| == |l| + |r|
  {
    if l == [] then []
    else
      var n := |l| - 2;
      Merge(l[..n], r[..n]) + l[n..] + r[n..]
  }

  lemma MergeStep(l: seq<byte>, r: seq<byte>, u: seq<byte>, v: seq<byte>)
    requires |l| == |r| && |l| % 2 == 0 && |u| == |v| == 2
    ensures Merge(l + u, r + v) == Merge(l, r) + u + v
  {
    assert (l + u)[..|l|] == l && (l + u)[|l|..] == u;
    assert (r + v)[..|r|] == r && (r + v)[|r|..] == v;
  }

  lemma Cut4(b: seq<byte>)
    requires |b| >= 4
    ensures var n := |b| - 4; b == b[..n] + b[n..n + 2] + b[n + 2..]
  {
  }

  lemma LastPair(b: seq<byte>, n: nat)
    requires |b| == n + 4 && n % 4 == 0
    ensures Firsts(b) == Firsts(b[..n]) + b[n..n + 2] && Seconds(b) == Seconds(b[..n]) + b[n + 2..]
  {
  }

  lemma Rejoined(b: seq<byte>, n: nat, f: seq<byte>, g: seq<byte>, l: seq<byte>, r: seq<byte>)
    requires |b| == n + 4 && f == l + b[n..n + 2] && g == r + b[n + 2..]
    requires |l| == |r| && |l| % 2 == 0 && Merge(l, r) == b[..n]
    ensures Merge(f, g) == b
  {
    MergeStep(l, r, b[n..n + 2], b[n + 2..]);
    Cut4(b);
  }

  lemma {:induction false} MergeHalves(b: seq<byte>)
    requires |b| % 4 == 0
    ensures Merge(Firsts(b), Seconds(b)) == b
  {
    if b != [] {
      var n := |b| - 4;
      MergeHalves(b[..n]);
      LastPair(b, n);
      Rejoined(b, n, Firsts(b), Seconds(b), Firsts(b[..n]), Seconds(b[..n]));
    }
  }

  lemma {:induction false} HalvesMerge(l: seq<byte>, r: seq<byte>)
    requires |l| == |r| && |l| % 2 == 0
    ensures Firsts(Merge(l, r)) == l && Seconds(Merge(l, r)) == r
  {
    if l != [] {
      var n := |l| - 2;
      HalvesMerge(l[..n], r[..n]);
      var b := Merge(l, r);
      assert b[..|b| - 4] == Merge(l[..n], r[..n]);
      assert b[|b| - 4..|b| - 2] == l[n..] && b[|b| - 2..] == r[n..];
    }
  }

  // Pair i of the words of b.
  lemma {:induction false} HalfBytes(b: seq<byte>, pairs: nat, i: nat)
    requires |b| == 4 * pairs && i < pairs
    ensures Firsts(b)[2 * i] == b[4 * i] && Firsts(b)[2 * i + 1] == b[4 * i + 1]
    ensures Seconds(b)[2 * i] == b[4 * i + 2] && Seconds(b)[2 * i + 1] == b[4 * i + 3]
  {
    if i < pairs - 1 {
      HalfBytes(b[..4 * (pairs - 1)], pairs - 1, i);
    }
  }

  // One block: its even words, then its odd words.
  function Block(b: seq<byte>): (t: seq<byte>)
    requires |b| == 64
    ensures |t| == 64
  {
    Firsts(b) + Seconds(b)
  }

  function Unblock(t: seq<byte>): (b: seq<byte>)
    requires |t| == 64
    ensures |b| == 64
  {
    Merge(t[..32], t[32..])
  }

  lemma BlockInvertible(b: seq<byte>)
    requires |b| == 64
    ensures Unblock(Block(b)) == b && Block(Unblock(b)) == b
  {
    MergeHalves(b);
    HalvesMerge(b[..32], b[32..]);
    assert Block(b)[..32] == Firsts(b) && Block(b)[32..] == Seconds(b);
  }

  // Pair i of block b is split between the halves of t.
  predicate PairSplit(b: seq<byte>, t: seq<byte>, i: nat)
    requires |b| == |t| == 64 && i < 16
  {
    && t[2 * i] == b[4 * i] && t[2 * i + 1] == b[4 * i + 1]
    && t[32 + 2 * i] == b[4 * i + 2] && t[32 + 2 * i + 1] == b[4 * i + 3]
  }

  lemma BlockOfPairs(b: seq<byte>, t: seq<byte>)
    requires |b| == |t| == 64
    requires forall i :: 0 <= i < 16 ==> PairSplit(b, t, i)
    ensures t == Block(b)
  {
    forall m | 0 <= m < 64
      ensures t[m] == Block(b)[m]
    {
      var i := if m < 32 then m / 2 else (m - 32) / 2;
      HalfBytes(b, 16, i);
      assert PairSplit(b, t, i);
    }
  }

  function Interleaved(s: seq<byte>): (r: seq<byte>)
    requires |s| % 64 == 0
    ensures |r| == |s|
  {
    if s == [] then [] else Interleaved(s[..|s| - 64]) + Block(s[|s| - 64..])
  }

  function Deinterleaved(s: seq<byte>): (r: seq<byte>)
    requires |s| % 64 == 0
    ensures |r| == |s|
  {
    if s == [] then [] else Deinterleaved(s[..|s| - 64]) + Unblock(s[|s| - 64..])
  }

  lemma CutAt(a: seq<byte>, b: seq<byte>)
    ensures (a + b)[..|a|] == a && (a + b)[|a|..] == b
  {
  }

  lemma {:induction false} InterleavedUndone(s: seq<byte>)
    requires |s| % 64 == 0
    ensures Deinterleaved(Interleaved(s)) == s
  {
    if s != [] {
      var n := |s| - 64;
      InterleavedUndone(s[..n]);
      BlockInvertible(s[n..]);
      CutAt(Interleaved(s[..n]), Block(s[n..]));
      assert s[..n] + s[n..] == s;
    }
  }

  lemma {:induction false} DeinterleavedUndone(s: seq<byte>)
    requires |s| % 64 == 0
    ensures Interleaved(Deinterleaved(s)) == s
  {
    if s != [] {
      var n := |s| - 64;
      DeinterleavedUndone(s[..n]);
      BlockInvertible(s[n..]);
      CutAt(Deinterleaved(s[..n]), Unblock(s[n..]));
      assert s[..n] + s[n..] == s;
    }
  }

  // Interleaving loses nothing.
  lemma Invertible(s: seq<byte>)
    requires |s| % 64 == 0
    ensures Deinterleaved(Interleaved(s)) == s && Interleaved(Deinterleaved(s)) == s
  {
    InterleavedUndone(s);
    DeinterleavedUndone(s);
  }

  // In words: word 32 * k + i of the output is word 32 * k + 2 * i of the burst, and
  // word 32 * k + 16 + i is word 32 * k + 2 * i + 1.
  lemma {:induction false} WordPlaces(s: seq<byte>, blocks: nat, k: nat, i: nat)
    requires |s| == 64 * blocks && k < blocks && i < 16
    ensures Word(Interleaved(s), 32 * k + i) == Word(s, 32 * k + 2 * i)
    ensures Word(Interleaved(s), 32 * k + 16 + i) == Word(s, 32 * k + 2 * i + 1)
  {
    var n := 64 * (blocks - 1);
    if k < blocks - 1 {
      WordPlaces(s[..n], blocks - 1, k, i);
    } else {
      HalfBytes(s[n..], 16, i);
    }
  }

  lemma InterleavedStep(s: seq<byte>, j: nat)
    requires j % 64 == 0 && j + 64 <= |s|
    ensures Interleaved(s[..j + 64]) == Interleaved(s[..j]) + Block(s[j..j + 64])
  {
    var t := s[..j + 64];
    assert t[..|t| - 64] == s[..j] && t[|t| - 64..] == s[j..j + 64];
  }

  // ---------------------------------------------------------------- byte by byte

  // Within a block, where byte q of the interleaved words comes from: a word of the left
  // half is the first of its pair, one of the right half the second.
  function InSource(q: nat): nat {
    if q < 2 then q else if q < 32 then 4 + InSource(q - 2) else 2 + InSource(q - 32)
  }

  // Where byte t goes.
  function InPosition(t: nat): nat {
    if t < 2 then t else if t < 4 then 30 + t else 2 + InPosition(t - 4)
  }

  // Byte c of word h of pair i goes to byte c of word i of half h.
  lemma {:induction false} PairPosition(i: nat, h: nat, c: nat)
    requires h < 2 && c < 2
    ensures InPosition(4 * i + 2 * h + c) == 32 * h + 2 * i + c
  {
    if i > 0 {
      PairPosition(i - 1, h, c);
    }
  }

  lemma {:induction false} LeftSource(i: nat, c: nat)
    requires i < 16 && c < 2
    ensures InSource(2 * i + c) == 4 * i + c
  {
    if i > 0 {
      LeftSource(i - 1, c);
    }
  }

  lemma PairSource(i: nat, h: nat, c: nat)
    requires i < 16 && h < 2 && c < 2
    ensures InSource(32 * h + 2 * i + c) == 4 * i + 2 * h + c
  {
    LeftSource(i, c);
  }

  lemma InInverse(t: nat)
    requires t < 64
    ensures InPosition(t) < 64 && InSource(InPosition(t)) == t
  {
    var i, h, c := t / 4, t % 4 / 2, t % 2;
    assert t == 4 * i + 2 * h + c;
    PairPosition(i, h, c);
    PairSource(i, h, c);
  }

  lemma InInverse'(q: nat)
    requires q < 64
    ensures InSource(q) < 64 && InPosition(InSource(q)) == q
  {
    var i, h, c := q % 32 / 2, q / 32, q % 2;
    assert q == 32 * h + 2 * i + c;
    PairPosition(i, h, c);
    PairSource(i, h, c);
  }

  function Source(p: nat): nat {
    if p < 64 then InSource(p) else 64 + Source(p - 64)
  }

  function Position(b: nat): nat {
    if b < 64 then InPosition(b) else 64 + Position(b - 64)
  }

  lemma {:induction false} Inverse(p: nat)
    ensures Position(Source(p)) == p && Source(Position(p)) == p
  {
    if p < 64 {
      InInverse(p);
      InInverse'(p);
    } else {
      Inverse(p - 64);
    }
  }

  lemma {:induction false} BlockWise(k: nat, t: nat)
    requires t < 64
    ensures Source(64 * k + t) == 64 * k + InSource(t) && Position(64 * k + t) == 64 * k + InPosition(t)
  {
    if k > 0 {
      BlockWise(k - 1, t);
      assert 64 * k + t - 64 == 64 * (k - 1) + t;
    }
  }

  // Byte c of word i of half h of an interleaved block.
  lemma PairByte(b: seq<byte>, i: nat, h: nat, c: nat)
    requires |b| == 64 && i < 16 && h < 2 && c < 2
    ensures Block(b)[32 * h + 2 * i + c] == b[4 * i + 2 * h + c]
  {
    HalfBytes(b, 16, i);
  }

  lemma BlockByte(b: seq<byte>, q: nat)
    requires |b| == 64 && q < 64
    ensures InSource(q) < 64 && Block(b)[q] == b[InSource(q)]
  {
    var i, h, c := q % 32 / 2, q / 32, q % 2;
    assert q == 32 * h + 2 * i + c;
    PairSource(i, h, c);
    PairByte(b, i, h, c);
  }

  lemma LastBlock(s: seq<byte>, n: nat, p: nat)
    requires |s| == n + 64 && n % 64 == 0 && p < |s|
    ensures Interleaved(s)[p] == if p < n then Interleaved(s[..n])[p] else Block(s[n..])[p - n]
  {
  }

  lemma {:induction false} ByteFrom(s: seq<byte>, blocks: nat, p: nat)
    requires |s| == 64 * blocks && p < |s|
    ensures Source(p) < |s| && Interleaved(s)[p] == s[Source(p)]
  {
    var n := 64 * (blocks - 1);
    LastBlock(s, n, p);
    if p < n {
      ByteFrom(s[..n], blocks - 1, p);
    } else {
      LastByteFrom(s, blocks - 1, p - n);
    }
  }

  lemma LastByteFrom(s: seq<byte>, k: nat, q: nat)
    requires |s| == 64 * k + 64 && q < 64
    ensures Source(64 * k + q) < |s| && Block(s[64 * k..])[q] == s[Source(64 * k + q)]
  {
    BlockWise(k, q);
    BlockByte(s[64 * k..], q);
  }

  // ---------------------------------------------------------------- iec958_pack_frame

  // The interleaving loops: left and right walk the halves of each block, pp the burst.
  method InterleaveWords(buf: array<byte>, burst: array<byte>, n: nat)
    requires buf != burst && n % 64 == 0 && n <= burst.Length && n <= buf.Length
    modifies buf
    ensures buf[..n] == Interleaved(burst[..n])
    ensures buf[n..] == old(buf[n..])
  {
    var pp, left, right, j := 0, 0, 32, 0;
    ghost var s, rest := burst[..], buf[n..];
    while j < n
      invariant j <= n && j % 64 == 0
      invariant pp == j && left == j && right == j + 32
      invariant buf[..j] == Interleaved(s[..j])
      invariant buf[n..] == rest
    {
      ghost var done := buf[..j];
      InterleaveBlock(buf, burst, pp, left, right);
      InterleavedStep(s, j);
      assert burst[j..j + 64] == s[j..j + 64];
      Extended(buf[..], done, j);
      pp, left, right, j := pp + 64, left + 64, right + 64, j + 64;
    }
    assert burst[..n] == s[..n];
  }

  lemma Extended(s: seq<byte>, done: seq<byte>, j: nat)
    requires j + 64 <= |s| && s[..j] == done
    ensures s[..j + 64] == done + s[j..j + 64]
  {
  }

  // The first i pairs of burst[start..] are split between the halves at start in buf.
  ghost predicate PairsCopied(buf: seq<byte>, burst: seq<byte>, start: nat, i: nat)
    requires start + 64 <= |buf| && start + 64 <= |burst| && i <= 16
  {
    forall j :: 0 <= j < i ==> PairCopied(buf, burst, start, j)
  }

  ghost predicate PairCopied(buf: seq<byte>, burst: seq<byte>, start: nat, j: nat)
    requires start + 64 <= |buf| && start + 64 <= |burst| && j < 16
  {
    PairSplit(burst[start..start + 64], buf[start..start + 64], j)
  }

  // One turn of the inner loop: a word to the left, the next to the right.
  method CopyPair(buf: array<byte>, burst: array<byte>, pp: nat, left: nat, right: nat)
    requires buf != burst && pp + 3 < burst.Length && left + 1 < right && right + 1 < buf.Length
    modifies buf
    ensures buf[..] ==
              old(buf[..])[left := burst[pp]][left + 1 := burst[pp + 1]]
                          [right := burst[pp + 2]][right + 1 := burst[pp + 3]]
  {
    buf[left], buf[left + 1] := burst[pp], burst[pp + 1];
    buf[right], buf[right + 1] := burst[pp + 2], burst[pp + 3];
  }

  lemma BlockCopied(buf: seq<byte>, burst: seq<byte>, start: nat)
    requires start + 64 <= |buf| && start + 64 <= |burst| && PairsCopied(buf, burst, start, 16)
    ensures buf[start..start + 64] == Block(burst[start..start + 64])
  {
    var b, t := burst[start..start + 64], buf[start..start + 64];
    forall i | 0 <= i < 16
      ensures PairSplit(b, t, i)
    {
      assert PairCopied(buf, burst, start, i);
    }
    BlockOfPairs(b, t);
  }

  lemma PairsStep(s: seq<byte>, s': seq<byte>, burst: seq<byte>, start: nat, i: nat)
    requires start + 64 <= |s| && start + 64 <= |burst| && i < 16 && PairsCopied(s, burst, start, i)
    requires var (p, l, r) := (start + 4 * i, start + 2 * i, start + 32 + 2 * i);
             s' == s[l := burst[p]][l + 1 := burst[p + 1]][r := burst[p + 2]][r + 1 := burst[p + 3]]
    ensures PairsCopied(s', burst, start, i + 1)
    ensures forall q :: 0 <= q < start || start + 64 <= q < |s| ==> s'[q] == s[q]
  {
    forall j | 0 <= j < i + 1
      ensures PairCopied(s', burst, start, j)
    {
      assert j < i ==> PairCopied(s, burst, start, j);
    }
  }

  // Sixteen words to the half that starts at left, sixteen to the half that starts at right.
  method InterleaveBlock(buf: array<byte>, burst: array<byte>, pp0: nat, left0: nat, right0: nat)
    requires buf != burst && pp0 == left0 && right0 == left0 + 32
    requires left0 + 64 <= burst.Length && left0 + 64 <= buf.Length
    modifies buf
    ensures buf[left0..left0 + 64] == Block(burst[left0..left0 + 64])
    ensures buf[..left0] == old(buf[..left0]) && buf[left0 + 64..] == old(buf[left0 + 64..])
  {
    var pp, left, right := pp0, left0, right0;
    for i := 0 to 16
      invariant pp == pp0 + 4 * i && left == left0 + 2 * i && right == right0 + 2 * i
      invariant forall q :: 0 <= q < left0 || left0 + 64 <= q < buf.Length ==> buf[q] == old(buf[q])
      invariant PairsCopied(buf[..], burst[..], left0, i)
    {
      ghost var s := buf[..];
      CopyPair(buf, burst, pp, left, right);
      PairsStep(s, buf[..], burst[..], left0, i);
      pp, left, right := pp + 4, left + 2, right + 2;
    }
    assert burst[..][left0..left0 + 64] == burst[left0..left0 + 64];
    assert buf[..][left0..left0 + 64] == buf[left0..left0 + 64];
    BlockCopied(buf[..], burst[..], left0);
  }

  // The burst in iec958_buf: preamble, frame, zeros; raw samples as they are.
  method FillBurst(buf: array<byte>, burst: array<byte>, frameSize: nat, kind: StreamKind)
    requires buf != burst && burst.Length == BURST && frameSize <= buf.Length
    requires frameSize <= (if kind == Raw then BURST else BURST - 8)
    modifies burst
    ensures burst[..] == Burst(kind, buf[..frameSize], old(burst[..]))
  {
    var start := if kind == Raw then 0 else 8;
    ghost var before := burst[..];
    forall i | 0 <= i < frameSize { burst[start + i] := buf[i]; }
    if kind == Raw {
      assert burst[..] == buf[..frameSize] + before[frameSize..];
      return;
    }
    var head := Preamble(kind, frameSize);
    forall i | 0 <= i < 8 { burst[i] := head[i]; }
    forall i | frameSize + 8 <= i < BURST { burst[i] := 0; }
    ThreeParts(burst[..], head, buf[..frameSize]);
  }

  lemma ThreeParts(s: seq<byte>, head: seq<byte>, frame: seq<byte>)
    requires |s| == BURST && |head| == 8 && |frame| <= BURST - 8
    requires forall i :: 0 <= i < 8 ==> s[i] == head[i]
    requires forall i :: 8 <= i < 8 + |frame| ==> s[i] == frame[i - 8]
    requires forall i :: 8 + |frame| <= i < BURST ==> s[i] == 0
    ensures s == head + frame + Zeros(BURST - 8 - |frame|)
  {
  }

  method PackFrame(buf: array<byte>, burst: array<byte>, frameSize: nat, kind: StreamKind) returns (length: nat)
    requires buf != burst && burst.Length == BURST
    requires frameSize <= (if kind == Raw then BURST else BURST - 8)
    requires frameSize <= buf.Length && Packed(kind, frameSize) <= buf.Length
    modifies buf, burst
    ensures burst[..] == Burst(kind, old(buf[..frameSize]), old(burst[..]))
    ensures var n := Packed(kind, frameSize);
            buf[..n] == Interleaved(burst[..n]) && buf[n..] == old(buf[n..])
    ensures match kind
            case Ac3 => length == 6144
            case Dts => length == 2048
            case Raw => length % 64 == 0 && length <= frameSize < length + 64
  {
    var n := Packed(kind, frameSize);
    FillBurst(buf, burst, frameSize, kind);
    InterleaveWords(buf, burst, n);
    length := if kind == Raw then Whole(frameSize) else n;
  }

  // ---------------------------------------------------------------- what a receiver gets

  lemma Bytes2Word(w: nat)
    requires w < 0x10000
    ensures (Bytes2(w)[0] as int) + 256 * (Bytes2(w)[1] as int) == w
  {
  }

  // The parts of a burst: four words, the frame, zeros.
  lemma BurstParts(kind: StreamKind, frame: seq<byte>, before: seq<byte>)
    requires kind != Raw && |before| == BURST && |frame| <= BURST - 8
    ensures var s := Burst(kind, frame, before);
            && s[..2] == Bytes2(0xF872) && s[2..4] == Bytes2(0x4E1F)
            && s[4..6] == Bytes2(Pc(kind)) && s[6..8] == Bytes2(Pd(kind, |frame|))
            && s[8..8 + |frame|] == frame
            && s[8 + |frame|..] == Zeros(BURST - 8 - |frame|)
  {
  }

  lemma BurstWords(kind: StreamKind, frame: seq<byte>, before: seq<byte>)
    requires kind != Raw && |before| == BURST && |frame| <= BURST - 8
    ensures var s := Burst(kind, frame, before);
            && Word(s, 0) == 0xF872 && Word(s, 1) == 0x4E1F
            && Word(s, 2) == (if kind == Ac3 then 1 else 11)
            && Word(s, 3) == (if kind == Ac3 then 8 * |frame| else 16320)
  {
    var s := Burst(kind, frame, before);
    BurstParts(kind, frame, before);
    Bytes2Word(0xF872);
    Bytes2Word(0x4E1F);
    Bytes2Word(Pc(kind));
    Bytes2Word(Pd(kind, |frame|));
    assert s[0] == s[..2][0] && s[1] == s[..2][1];
    assert s[2] == s[2..4][0] && s[3] == s[2..4][1];
    assert s[4] == s[4..6][0] && s[5] == s[4..6][1];
    assert s[6] == s[6..8][0] && s[7] == s[6..8][1];
  }

  // Undoing the interleaving of an AC-3 burst gives Pa, Pb, Pc, Pd, the frame and zeros;
  // Pd is the frame's length in bits.
  lemma Ac3Received(frame: seq<byte>, before: seq<byte>)
    requires |before| == BURST && |frame| <= BURST - 8
    ensures var got := Deinterleaved(Interleaved(Burst(Ac3, frame, before)));
            && |got| == 6144 && got[..6] == [0x72, 0xF8, 0x1F, 0x4E, 1, 0]
            && Word(got, 3) == 8 * |frame|
            && got[8..8 + |frame|] == frame
            && got[8 + |frame|..] == Zeros(6136 - |frame|)
  {
    Invertible(Burst(Ac3, frame, before));
    BurstParts(Ac3, frame, before);
    BurstWords(Ac3, frame, before);
    HeadBytes(Burst(Ac3, frame, before));
  }

  // The bytes behind the first three words, and the lower one first in all.
  lemma HeadBytes(s: seq<byte>)
    requires |s| >= 8 && Word(s, 0) == 0xF872 && Word(s, 1) == 0x4E1F
    ensures s[..4] == [0x72, 0xF8, 0x1F, 0x4E]
    ensures Word(s, 2) < 256 ==> s[4..6] == [Word(s, 2), 0]
    ensures Word(s, 3) == 16320 ==> s[6..8] == [0xC0, 0x3F]
  {
    assert s[0] == 0x72 && s[1] == 0xF8 && s[2] == 0x1F && s[3] == 0x4E;
  }

  // A DTS burst carries the whole frame exactly when it is no longer than 2040 bytes; its
  // length code is that of all 2040 bytes behind the preamble, in bits.
  lemma DtsReceivedIff(frame: seq<byte>, before: seq<byte>)
    requires |before| == BURST && |frame| <= BURST - 8
    ensures var got := Deinterleaved(Interleaved(Burst(Dts, frame, before)[..DTS_BURST]));
            && |got| == 2048 && got[..8] == [0x72, 0xF8, 0x1F, 0x4E, 11, 0, 0xC0, 0x3F]
            && Word(got, 3) == 8 * |got[8..]|
            && (frame <= got[8..] <==> |frame| <= 2040)
            && (|frame| <= 2040 ==> got[8 + |frame|..] == Zeros(2040 - |frame|))
  {
    var s := Burst(Dts, frame, before);
    Invertible(s[..DTS_BURST]);
    BurstWords(Dts, frame, before);
    DtsPayload(frame, before);
    HeadBytes(s[..DTS_BURST]);
  }

  lemma DtsPayload(frame: seq<byte>, before: seq<byte>)
    requires |before| == BURST && |frame| <= BURST - 8
    ensures var got := Burst(Dts, frame, before)[..DTS_BURST];
            && (frame <= got[8..] <==> |frame| <= 2040)
            && (|frame| <= 2040 ==> got[8 + |frame|..] == Zeros(2040 - |frame|))
  {
    var s := Burst(Dts, frame, before);
    BurstParts(Dts, frame, before);
    if |frame| <= 2040 {
      assert s[..DTS_BURST][8..][..|frame|] == s[8..8 + |frame|];
      assert s[..DTS_BURST][8 + |frame|..] == s[8 + |frame|..][..2040 - |frame|];
    }
  }

  // What iec958_pack_frame leaves of raw samples.
  function RawSent(frame: seq<byte>, before: seq<byte>): (r: seq<byte>)
    requires |before| == BURST && |frame| <= BURST
    ensures |frame| <= |r|
  {
    Interleaved(Burst(Raw, frame, before)[..Packed(Raw, |frame|)])
  }

  // A receiver of the returned length gets raw samples back whole exactly when they fill
  // whole blocks; what is missing otherwise is the last partial block.
  lemma RawReceivedIff(frame: seq<byte>, before: seq<byte>)
    requires |before| == BURST && |frame| <= BURST
    ensures var got := Deinterleaved(RawSent(frame, before)[..Whole(|frame|)]);
            got == frame[..Whole(|frame|)] && (got == frame <==> |frame| % 64 == 0)
  {
    var m := Whole(|frame|);
    var s := Burst(Raw, frame, before)[..Packed(Raw, |frame|)];
    InterleavedPrefix(s, m);
    RawPart(frame, before, m);
    Invertible(frame[..m]);
  }

  lemma RawPart(frame: seq<byte>, before: seq<byte>, m: nat)
    requires |before| == BURST && m <= |frame| <= BURST
    ensures Burst(Raw, frame, before)[..Packed(Raw, |frame|)][..m] == frame[..m]
  {
  }

  lemma FrontOf(a: seq<byte>, b: seq<byte>, m: nat)
    requires m <= |a|
    ensures (a + b)[..m] == a[..m]
  {
  }

  lemma {:induction false} InterleavedPrefix(s: seq<byte>, m: nat)
    requires |s| % 64 == 0 && m % 64 == 0 && m <= |s|
    ensures Interleaved(s)[..m] == Interleaved(s[..m])
  {
    if m == |s| {
      assert s[..m] == s;
      assert Interleaved(s)[..m] == Interleaved(s);
    } else {
      var n := |s| - 64;
      Multiples(m, n);
      InterleavedPrefix(s[..n], m);
      FrontOf(s[..n], s[n..], m);
      assert s[..n] + s[n..] == s;
      FrontOf(Interleaved(s[..n]), Block(s[n..]), m);
    }
  }

  lemma Multiples(m: nat, n: nat)
    requires m % 64 == 0 && n % 64 == 0 && m < n + 64
    ensures m <= n
  {
  }

  // ---------------------------------------------------------------- what the transcoder sends

  // dts_transenc_process_frame drops the length iec958_pack_frame returns and writes as
  // many bytes of the buffer as the frame has: packed ones first, then, of a frame longer
  // than a burst, its own.
  function Sent(frame: seq<byte>): (r: seq<byte>)
    requires |frame| <= BURST - 8
    ensures |r| == |frame|
  {
    if |frame| <= DTS_BURST then DtsPacked(frame)[..|frame|] else DtsPacked(frame) + frame[DTS_BURST..]
  }

  function DtsPacked(frame: seq<byte>): (r: seq<byte>)
    requires |frame| <= BURST - 8
    ensures |r| == DTS_BURST
  {
    Interleaved(DtsBurst(frame))
  }

  function DtsBurst(frame: seq<byte>): (r: seq<byte>)
    requires |frame| <= BURST - 8
    ensures |r| == DTS_BURST
  {
    Burst(Dts, frame, Zeros(BURST))[..DTS_BURST]
  }

  // Byte b of the burst is among the n bytes sent.
  predicate Carried(n: nat, b: nat) {
    b < DTS_BURST && Position(b) < n
  }

  lemma SentByte(frame: seq<byte>, p: nat)
    requires |frame| <= BURST - 8 && p < |frame| && p < DTS_BURST
    ensures Sent(frame)[p] == DtsPacked(frame)[p]
    ensures Source(p) < DTS_BURST && Sent(frame)[p] == DtsBurst(frame)[Source(p)]
  {
    ByteFrom(DtsBurst(frame), 32, p);
  }

  lemma PositionBelow(b: nat)
    requires b < DTS_BURST
    ensures Position(b) < DTS_BURST
  {
    InInverse(b % 64);
    BlockWise(b / 64, b % 64);
  }

  // A byte that is carried is sent in its position.
  lemma CarriedByte(frame: seq<byte>, b: nat)
    requires |frame| <= BURST - 8 && Carried(|frame|, b)
    ensures Sent(frame)[Position(b)] == DtsBurst(frame)[b]
  {
    PositionBelow(b);
    Inverse(b);
    SentByte(frame, Position(b));
  }

  // The whole burst is sent exactly for frames of at least 2048 bytes, but a burst carries
  // at most 2040 bytes of its frame.
  lemma WholeBurstIff(frame: seq<byte>)
    requires |frame| <= BURST - 8
    ensures DtsPacked(frame) <= Sent(frame) <==> |frame| >= DTS_BURST
    ensures (forall b :: 0 <= b < DTS_BURST ==> Carried(|frame|, b)) <==> |frame| >= DTS_BURST
  {
    if |frame| < DTS_BURST {
      PairPosition(15, 1, 1);
      BlockWise(31, 63);
      assert !Carried(|frame|, DTS_BURST - 1);
    } else {
      forall b | 0 <= b < DTS_BURST
        ensures Carried(|frame|, b)
      {
        PositionBelow(b);
      }
    }
  }

  // The four preamble words are sent exactly for frames of at least 36 bytes.
  lemma PreambleSentIff(n: nat)
    ensures (forall b :: 0 <= b < 8 ==> Carried(n, b)) <==> n >= 36
  {
    if n < 36 {
      PairPosition(1, 1, 1);
      assert !Carried(n, 7);
    } else {
      forall b | 0 <= b < 8
        ensures Carried(n, b)
      {
        PairPosition(b / 4, b % 4 / 2, b % 2);
        assert b == 4 * (b / 4) + 2 * (b % 4 / 2) + b % 2;
      }
    }
  }

  // Of every frame there is a byte that is not sent.
  lemma ByteMissing(n: nat) returns (i: nat)
    requires 0 < n <= BURST - 8
    ensures i < n && !Carried(n, 8 + i) && (n > DTS_BURST ==> i < DTS_BURST)
  {
    if n > 2040 {
      i := 2040;
    } else {
      var k := (n + 7) / 64;
      if n <= 64 * k {
        BlockWise(k, n + 7 - 64 * k);
        i := n - 1;
      } else if n <= 3 {
        PairPosition(2, 0, 0);
        i := 0;
      } else {
        i := LateByte(n, k);
      }
    }
  }

  // The last burst byte of the last block that ends a pair.
  lemma LateByte(n: nat, k: nat) returns (i: nat)
    requires 64 * k < n && 64 * k <= n + 7 < 64 * k + 64 && n > 3
    ensures i < n && Position(8 + i) >= n
  {
    var pair := (n + 4 - 64 * k) / 4;
    var t := 4 * pair + 3;
    i := 64 * k + t - 8;
    PairPosition(pair, 1, 1);
    BlockWise(k, t);
  }

  // Two frames that differ in a byte that is not sent only look the same.
  lemma SameSent(n: nat, i: nat, f: seq<byte>, g: seq<byte>)
    requires i < n <= BURST - 8 && !Carried(n, 8 + i) && (n > DTS_BURST ==> i < DTS_BURST)
    requires |f| == |g| == n && forall k :: 0 <= k < n && k != i ==> f[k] == g[k]
    ensures Sent(f) == Sent(g)
  {
    forall p | 0 <= p < n
      ensures Sent(f)[p] == Sent(g)[p]
    {
      if p < DTS_BURST {
        SentByte(f, p);
        SentByte(g, p);
        Inverse(p);
        assert Source(p) != 8 + i;
        SameBurstByte(f, g, i, Source(p));
      } else {
        assert Sent(f)[p] == f[p] && Sent(g)[p] == g[p];
      }
    }
  }

  lemma SameBurstByte(f: seq<byte>, g: seq<byte>, i: nat, b: nat)
    requires |f| == |g| <= BURST - 8 && b < DTS_BURST && b != 8 + i
    requires forall k :: 0 <= k < |f| && k != i ==> f[k] == g[k]
    ensures DtsBurst(f)[b] == DtsBurst(g)[b]
  {
    BurstByte(f, b);
    BurstByte(g, b);
  }

  lemma BurstByte(frame: seq<byte>, b: nat)
    requires |frame| <= BURST - 8 && b < DTS_BURST
    ensures DtsBurst(frame)[b] ==
              if b < 8 then Preamble(Dts, |frame|)[b] else if b < 8 + |frame| then frame[b - 8] else 0
  {
  }

  // No receiver can tell all frames of a size apart from what is sent: the exception is
  // the empty frame.
  lemma FrameSentIff(n: nat)
    requires n <= BURST - 8
    ensures (forall f: seq<byte>, g: seq<byte> | |f| == n && |g| == n :: Sent(f) == Sent(g) ==> f == g) <==> n == 0
  {
    if n > 0 {
      var i := ByteMissing(n);
      var f := Zeros(n);
      var g := f[i := 1];
      SameSent(n, i, f, g);
      assert f[i] != g[i];
    }
  }
}
