/** Block buffering and padding of md5lib/md5.cc, for any block transform; sections 3.1, 3.2 and
    3.4 of RFC 1321. A uint32 is 32 bits wide. */
module MD5 {
  import opened Bytes

  const BLOCK: nat := 64

  // ----- what the digest of a message is -----

  /** The transform folded over the blocks of m. */
  function Fold<S>(f: (S, seq<byte>) -> S, iv: S, m: seq<byte>): S
    requires |m| % BLOCK == 0
    decreases |m|
  {
    if m == [] then iv else f(Fold(f, iv, m[..|m| - BLOCK]), m[|m| - BLOCK..])
  }

  /** Bytes in full blocks. */
  function Full(n: nat): (r: nat)
    ensures r <= n < r + BLOCK && r % BLOCK == 0
  {
    n / BLOCK * BLOCK
  }

  function Zeros(n: nat): (z: seq<byte>)
    ensures |z| == n && forall i :: 0 <= i < n ==> z[i] == 0
  {
    seq(n, _ => 0)
  }

  /** The zero bytes that follow the byte 0x80: up to 56 modulo 64. */
  function PadLength(n: nat): nat {
    (BLOCK + 55 - n % BLOCK) % BLOCK
  }

  /** Length in bits modulo 2^64, low-order byte first. */
  function BitCount(n: nat): (b: seq<byte>)
    ensures |b| == 8
  {
    UnpackWord(8 * n % TWO64, 8)
  }

  function Padded(m: seq<byte>): seq<byte> {
    m + [0x80] + Zeros(PadLength(|m|)) + BitCount(|m|)
  }

  lemma PadArith(n: nat)
    ensures (n + 1 + PadLength(n)) % BLOCK == 56 && PadLength(n) < BLOCK
  {
    var q, r := n / BLOCK, n % BLOCK;
    assert n == BLOCK * q + r;
    if r <= 55 {
      assert PadLength(n) == 55 - r;
      assert n + 1 + PadLength(n) == BLOCK * q + 56;
    } else {
      assert PadLength(n) == BLOCK + 55 - r;
      assert n + 1 + PadLength(n) == BLOCK * (q + 1) + 56;
    }
  }

  /** Section 3.1: the byte 0x80 and fewer than 64 zeros leave 8 bytes missing to a full block. */
  lemma PaddedShape(m: seq<byte>)
    ensures |Padded(m)| % BLOCK == 0 && |Padded(m)| == |m| + 1 + PadLength(|m|) + 8
    ensures (|m| + 1 + PadLength(|m|)) % BLOCK == 56 && PadLength(|m|) < BLOCK
    ensures m <= Padded(m) && Padded(m)[|m|] == 128
    ensures forall i :: |m| < i < |Padded(m)| - 8 ==> Padded(m)[i] == 0
  {
    hide PadLength, BitCount;
    PadArith(|m|);
    var x := |m| + 1 + PadLength(|m|);
    assert x == BLOCK * (x / BLOCK) + 56;
    assert x + 8 == BLOCK * (x / BLOCK + 1);
  }

  /** Section 3.2: the last 8 bytes are the number of bits modulo 2^64, low-order byte first. */
  lemma PaddedCount(m: seq<byte>, i: nat)
    requires i < 8
    ensures |Padded(m)| >= 8 && Padded(m)[|Padded(m)| - 8 + i] == 8 * |m| % 0x1_0000_0000_0000_0000 / Power256(i) % 256
  {
    hide PadLength, UnpackWord, Power256;
    UnpackAt(8 * |m| % TWO64, 8, i);
  }

  function Digest<S>(f: (S, seq<byte>) -> S, iv: S, m: seq<byte>): S {
    PaddedShape(m);
    Fold(f, iv, Padded(m))
  }

  lemma FoldNext<S>(f: (S, seq<byte>) -> S, iv: S, m: seq<byte>, b: seq<byte>)
    requires |m| % BLOCK == 0 && |b| == BLOCK
    ensures Fold(f, iv, m + b) == f(Fold(f, iv, m), b)
  {
    assert (m + b)[..|m|] == m && (m + b)[|m|..] == b;
  }

  // ----- two words of the bit count -----

  lemma {:induction false} UnpackTwo(x: nat, y: nat, n: nat, k: nat)
    requires x < Power256(n)
    ensures UnpackWord(x + Power256(n) * y, n + k) == UnpackWord(x, n) + UnpackWord(y, k)
    decreases n
  {
    if n > 0 {
      var p := Power256(n - 1);
      assert Power256(n) * y == 256 * (p * y);
      var w := x + Power256(n) * y;
      assert w % 256 == x % 256 && w / 256 == x / 256 + p * y;
      UnpackTwo(x / 256, y, n - 1, k);
    }
  }

  lemma CountBytes(lo: nat, hi: nat, n: nat)
    requires lo < TWO32 && lo + TWO32 * hi == 8 * n % TWO64
    ensures UnpackWord(lo, 4) + UnpackWord(hi, 4) == BitCount(n)
  {
    assert Power256(4) == 256 * (256 * (256 * (256 * Power256(0))));
    UnpackTwo(lo, hi, 4, 4);
  }

  /** The two words of the bit count after len more bytes. */
  function Low(lo: nat, len: nat): nat {
    (lo + 8 * len % TWO32) % TWO32
  }

  function High(lo: nat, hi: nat, len: nat): nat {
    ((if Low(lo, len) < lo then (hi + 1) % TWO32 else hi) + len / 0x2000_0000) % TWO32
  }

  /** The carry from the low to the high word. */
  lemma Carry(lo: nat, hi: nat, n: nat, len: nat)
    requires lo < TWO32 && hi < TWO32 && len < TWO32 && lo + TWO32 * hi == 8 * n % TWO64
    ensures Low(lo, len) < TWO32 && High(lo, hi, len) < TWO32
    ensures Low(lo, len) + TWO32 * High(lo, hi, len) == 8 * (n + len) % TWO64
  {
    var k, top := 8 * len % TWO32, len / 0x2000_0000;
    var lo1 := (lo + k) % TWO32;
    var c := if lo1 < lo then 1 else 0;
    SplitLength(len);
    LowCarry(lo, k);
    HighWord(hi + c, top);
    WrapHigh(lo1, hi + c + top);
    WrapSum(8 * n, 8 * len);
    assert lo1 + TWO32 * (hi + c + top) == lo + TWO32 * hi + 8 * len;
  }

  lemma SplitLength(len: nat)
    ensures 8 * len == 8 * len % TWO32 + TWO32 * (len / 0x2000_0000)
  {
    var q, r := len / 0x2000_0000, len % 0x2000_0000;
    assert 8 * len == TWO32 * q + 8 * r && 8 * r < TWO32;
    Residue(8 * len, TWO32, q, 8 * r);
  }

  lemma Residue(n: nat, m: nat, q: nat, r: nat)
    requires n == m * q + r && r < m
    ensures n % m == r
  {
    var d := n / m;
    assert d < q ==> m * (d + 1) <= m * q;
    assert d > q ==> m * d >= m * (q + 1);
  }

  lemma LowCarry(lo: nat, k: nat)
    requires lo < TWO32 && k < TWO32
    ensures var lo1 := (lo + k) % TWO32; lo + k == lo1 + TWO32 * (if lo1 < lo then 1 else 0)
  {
  }

  lemma HighWord(x: nat, top: nat)
    ensures (x % TWO32 + top) % TWO32 == (x + top) % TWO32
  {
  }

  lemma WrapHigh(lo: nat, hi: nat)
    requires lo < TWO32
    ensures (lo + TWO32 * hi) % TWO64 == lo + TWO32 * (hi % TWO32)
  {
    assert hi == hi / TWO32 * TWO32 + hi % TWO32;
    assert lo + TWO32 * hi == lo + TWO32 * (hi % TWO32) + TWO64 * (hi / TWO32);
  }

  lemma WrapSum(a: nat, b: nat)
    ensures (a % TWO64 + b) % TWO64 == (a + b) % TWO64
  {
  }

  // ----- the context -----

  class MD5Context<S(0)> {
    const f: (S, seq<byte>) -> S
    const iv: S
    var buf: S
    var bits0: nat
    var bits1: nat
    const data: array<byte>
    /** Everything passed to update so far. */
    ghost var msg: seq<byte>

    ghost predicate Counted()
      reads this
    {
      bits0 < TWO32 && bits1 < TWO32 && bits0 + TWO32 * bits1 == 8 * |msg| % TWO64
    }

    ghost predicate Valid()
      reads this, data
    {
      && data.Length == BLOCK && Counted()
      && buf == Fold(f, iv, msg[..Full(|msg|)])
      && data[..|msg| - Full(|msg|)] == msg[Full(|msg|)..]
    }

    /** MD5Init. */
    constructor (f: (S, seq<byte>) -> S, iv: S)
      ensures Valid() && fresh(data) && msg == [] && this.f == f && this.iv == iv
    {
      this.f, this.iv, buf := f, iv, iv;
      bits0, bits1, msg := 0, 0, [];
      data := new byte[BLOCK];
    }

    /** memcpy into the block buffer. */
    method Fill(off: nat, src: seq<byte>)
      requires off + |src| <= data.Length
      modifies data
      ensures data[..off] == old(data[..off]) && data[off..off + |src|] == src
      ensures data[off + |src|..] == old(data[off + |src|..])
    {
      forall i | 0 <= i < |src| {
        data[off + i] := src[i];
      }
    }

    method Count(len: nat)
      requires len < TWO32
      modifies this`bits0, this`bits1
      ensures bits0 == Low(old(bits0), len) && bits1 == High(old(bits0), old(bits1), len)
    {
      var t := bits0;
      bits0 := (t + 8 * len % TWO32) % TWO32;
      if bits0 < t {
        bits1 := (bits1 + 1) % TWO32;
      }
      bits1 := (bits1 + len / 0x2000_0000) % TWO32;
    }

    /** MD5Update: afterwards the context is the one of the longer message, however the message
        came in pieces. */
    method Update(src: seq<byte>)
      requires Valid() && |src| < TWO32
      modifies this`buf, this`bits0, this`bits1, this`msg, data
      ensures Valid() && msg == old(msg) + src
    {
      hide Fold, Full, Low, High;
      ghost var m, all := msg, msg + src;
      ghost var b := Full(|m|);
      var t := bits0 / 8 % BLOCK;
      InBuffer(bits0, bits1, |m|);
      Carry(bits0, bits1, |m|, |src|);
      Count(|src|);
      msg := all;
      var pos := 0;
      if t != 0 {
        t := BLOCK - t;
        if |src| < t {
          Fill(BLOCK - t, src);
          Short(m, src, data[..], t);
          return;
        }
        Fill(BLOCK - t, src[..t]);
        FirstBlock(f, iv, m, src, data[..], t);
        buf := f(buf, data[..]);
        pos := t;
      } else {
        assert all[..|m|] == m == m[..b];
      }
      Blocks(src, pos, m);
    }

    /** The 64-byte chunks from pos on, and the bytes that remain. */
    method Blocks(src: seq<byte>, start: nat, ghost m: seq<byte>)
      requires start <= |src| && (|m| + start) % BLOCK == 0 && msg == m + src && data.Length == BLOCK
      requires buf == Fold(f, iv, msg[..|m| + start]) && Counted()
      modifies this`buf, data
      ensures Valid()
    {
      hide Fold, Full;
      var pos := start;
      while |src| - pos >= BLOCK
        invariant pos <= |src| && (|m| + pos) % BLOCK == 0
        invariant buf == Fold(f, iv, msg[..|m| + pos])
      {
        Fill(0, src[pos..pos + BLOCK]);
        NextBlock(f, iv, m, src, data[..], pos);
        buf := f(buf, data[..]);
        pos := pos + BLOCK;
      }
      Fill(0, src[pos..]);
      LastBytes(m, src, data[..], pos);
    }

    /** MD5Final: the transform over the padded message. */
    method Final() returns (digest: S)
      requires Valid()
      modifies this`buf, data
      ensures digest == Digest(f, iv, msg)
    {
      hide Fold, Full, BitCount, UnpackWord, Digest;
      ghost var m := msg;
      var count := bits0 / 8 % BLOCK;
      InBuffer(bits0, bits1, |m|);
      Pad(count);
      ghost var front := data[..56];
      Fill(56, UnpackWord(bits0, 4) + UnpackWord(bits1, 4));
      CountBytes(bits0, bits1, |m|);
      assert data[..56] == front && data[56..] == BitCount(|m|);
      assert data[..] == data[..56] + data[56..];
      buf := f(buf, data[..]);
      digest := buf;
    }

    /** 0x80 and zeros, up to the last 8 bytes of a block; the transform over a block that this
        fills. */
    method Pad(first: nat)
      requires Valid() && first == |msg| - Full(|msg|) < BLOCK
      modifies this`buf, data
      ensures data.Length == BLOCK && f(buf, data[..56] + BitCount(|msg|)) == Digest(f, iv, msg)
    {
      hide Fold, Full, BitCount, PadLength, Padded;
      var count := first;
      Fill(count, [0x80]);
      ghost var have := msg[Full(|msg|)..] + [0x80];
      assert data[..count + 1] == have;
      var p := count + 1;
      count := BLOCK - 1 - count;
      PadLengthIs(|msg|, count);
      if count < 8 {
        Fill(p, Zeros(count));
        assert data[..] == have + Zeros(count);
        buf := f(buf, data[..]);
        Fill(0, Zeros(56));
        TwoBlocks(f, iv, msg, have, count);
      } else {
        Fill(p, Zeros(count - 8));
        assert data[..56] == have + Zeros(count - 8);
        OneBlock(f, iv, msg, have, count);
      }
    }
  }

  lemma InBuffer(lo: nat, hi: nat, n: nat)
    requires lo < TWO32 && lo + TWO32 * hi == 8 * n % TWO64
    ensures lo / 8 % BLOCK == n - Full(n)
  {
    var q := 8 * n / TWO64;
    Quotient(8 * n, TWO64);
    Blocks(lo, hi, n, q);
    Remainder(n, 0x80_0000_0000_0000 * q + 0x80_0000 * hi, lo / 8);
  }

  /** TWO64 and TWO32 bits are whole blocks. */
  lemma Blocks(lo: nat, hi: nat, n: nat, q: nat)
    requires 8 * n == TWO64 * q + (lo + TWO32 * hi)
    ensures n == BLOCK * (0x80_0000_0000_0000 * q + 0x80_0000 * hi) + lo / 8
  {
    var r := 0x80_0000_0000_0000 * q + 0x80_0000 * hi;
    assert 512 * r == TWO64 * q + TWO32 * hi;
    assert lo == 8 * (n - BLOCK * r);
  }

  lemma Quotient(n: nat, m: nat)
    requires m > 0
    ensures n == m * (n / m) + n % m
  {
  }

  lemma Remainder(n: nat, r: nat, x: nat)
    requires n == BLOCK * r + x
    ensures n % BLOCK == x % BLOCK
  {
  }

  lemma FullIs(n: nat, b: nat)
    requires b % BLOCK == 0 && b <= n < b + BLOCK
    ensures Full(n) == b
  {
  }

  lemma Short(m: seq<byte>, src: seq<byte>, data: seq<byte>, t: nat)
    requires |data| == BLOCK && 0 < t <= BLOCK && |src| < t && |m| - Full(|m|) == BLOCK - t
    requires data[..BLOCK - t] == m[Full(|m|)..] && data[BLOCK - t..BLOCK - t + |src|] == src
    ensures var all := m + src;
      && Full(|all|) == Full(|m|) && all[..Full(|all|)] == m[..Full(|m|)]
      && data[..|all| - Full(|all|)] == all[Full(|all|)..]
  {
    FullIs(|m + src|, Full(|m|));
  }

  lemma FirstBlock<S>(f: (S, seq<byte>) -> S, iv: S, m: seq<byte>, src: seq<byte>, data: seq<byte>, t: nat)
    requires |data| == BLOCK && 0 < t <= BLOCK && t <= |src| && |m| - Full(|m|) == BLOCK - t
    requires data[..BLOCK - t] == m[Full(|m|)..] && data[BLOCK - t..BLOCK - t + t] == src[..t]
    ensures (|m| + t) % BLOCK == 0
    ensures f(Fold(f, iv, m[..Full(|m|)]), data) == Fold(f, iv, (m + src)[..|m| + t])
  {
    hide Fold;
    var b := Full(|m|);
    FoldNext(f, iv, m[..b], data);
    assert data == data[..BLOCK - t] + data[BLOCK - t..BLOCK - t + t];
    assert (m + src)[..|m| + t] == m[..b] + data;
  }

  lemma NextBlock<S>(f: (S, seq<byte>) -> S, iv: S, m: seq<byte>, src: seq<byte>, data: seq<byte>, pos: nat)
    requires |data| == BLOCK && pos + BLOCK <= |src| && (|m| + pos) % BLOCK == 0
    requires data[0..BLOCK] == src[pos..pos + BLOCK]
    ensures (|m| + pos + BLOCK) % BLOCK == 0
    ensures f(Fold(f, iv, (m + src)[..|m| + pos]), data) == Fold(f, iv, (m + src)[..|m| + pos + BLOCK])
  {
    hide Fold;
    FoldNext(f, iv, (m + src)[..|m| + pos], data);
    assert (m + src)[..|m| + pos + BLOCK] == (m + src)[..|m| + pos] + data;
  }

  lemma LastBytes(m: seq<byte>, src: seq<byte>, data: seq<byte>, pos: nat)
    requires |data| == BLOCK && pos <= |src| < pos + BLOCK && (|m| + pos) % BLOCK == 0
    requires data[0..|src| - pos] == src[pos..]
    ensures Full(|m + src|) == |m| + pos && data[..|m + src| - (|m| + pos)] == (m + src)[|m| + pos..]
  {
    FullIs(|m + src|, |m| + pos);
    assert (m + src)[|m| + pos..] == src[pos..];
  }

  lemma PadLengthIs(n: nat, count: nat)
    requires n - Full(n) == BLOCK - 1 - count && count < BLOCK
    ensures PadLength(n) == if count < 8 then count + 56 else count - 8
  {
    Remainder(n, n / BLOCK, n - Full(n));
  }

  lemma OneBlock<S>(f: (S, seq<byte>) -> S, iv: S, m: seq<byte>, have: seq<byte>, count: nat)
    requires 8 <= count < BLOCK && have == m[Full(|m|)..] + [0x80] && |have| == BLOCK - count
    requires PadLength(|m|) == count - 8
    ensures f(Fold(f, iv, m[..Full(|m|)]), have + Zeros(count - 8) + BitCount(|m|)) == Digest(f, iv, m)
  {
    hide Fold, BitCount;
    PaddedShape(m);
    var b := Full(|m|);
    FoldNext(f, iv, m[..b], have + Zeros(count - 8) + BitCount(|m|));
    assert Padded(m) == m[..b] + (have + Zeros(count - 8) + BitCount(|m|));
  }

  lemma TwoBlocks<S>(f: (S, seq<byte>) -> S, iv: S, m: seq<byte>, have: seq<byte>, count: nat)
    requires count < 8 && have == m[Full(|m|)..] + [0x80] && |have| == BLOCK - count
    requires PadLength(|m|) == count + 56
    ensures f(f(Fold(f, iv, m[..Full(|m|)]), have + Zeros(count)), Zeros(56) + BitCount(|m|)) == Digest(f, iv, m)
  {
    hide Fold, BitCount;
    PaddedShape(m);
    var b := Full(|m|);
    var first := have + Zeros(count);
    FoldNext(f, iv, m[..b], first);
    FoldNext(f, iv, m[..b] + first, Zeros(56) + BitCount(|m|));
    assert Zeros(count + 56) == Zeros(count) + Zeros(56);
    assert Padded(m) == m[..b] + first + (Zeros(56) + BitCount(|m|));
  }

  // ----- a message in pieces -----

  function Concat(pieces: seq<seq<byte>>): seq<byte> {
    if pieces == [] then [] else Concat(pieces[..|pieces| - 1]) + pieces[|pieces| - 1]
  }

  /** MD5Init, any number of MD5Update, MD5Final: the digest does not depend on the pieces. */
  method DigestPieces<S(0)>(f: (S, seq<byte>) -> S, iv: S, pieces: seq<seq<byte>>) returns (digest: S)
    requires forall i :: 0 <= i < |pieces| ==> |pieces[i]| < TWO32
    ensures digest == Digest(f, iv, Concat(pieces))
  {
    hide Fold, Padded;
    var ctx := new MD5Context<S>(f, iv);
    var i := 0;
    while i < |pieces|
      invariant 0 <= i <= |pieces| && ctx.Valid() && fresh(ctx) && fresh(ctx.data)
      invariant ctx.msg == Concat(pieces[..i]) && ctx.f == f && ctx.iv == iv
    {
      assert pieces[..i + 1][..i] == pieces[..i];
      ctx.Update(pieces[i]);
      i := i + 1;
    }
    assert pieces[..i] == pieces;
    digest := ctx.Final();
  }
}
