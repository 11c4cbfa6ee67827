/** Bytes stored in 8-byte words: what memcpy into a container leaves in its words. */
module Bytes {

  const TWO32: nat := 0x1_0000_0000
  const TWO64: nat := 0x1_0000_0000_0000_0000

  type byte = b: int | 0 <= b < 256

  /** Up to eight bytes as one little-endian word. */
  function PackWord(bs: seq<byte>): (w: nat) {
    if bs == [] then 0 else bs[0] + 256 * PackWord(bs[1..])
  }

  function UnpackWord(w: nat, n: nat): (bs: seq<byte>)
    ensures |bs| == n
  {
    if n == 0 then [] else [w % 256] + UnpackWord(w / 256, n - 1)
  }

  /** Words taken by n bytes. */
  function Words(n: nat): nat {
    (n + 7) / 8
  }

  function Pack(bs: seq<byte>): (ws: seq<int>)
    ensures |ws| == Words(|bs|)
    ensures forall i :: 0 <= i < |ws| ==> ws[i] >= 0
  {
    if bs == [] then []
    else if |bs| <= 8 then [PackWord(bs)]
    else [PackWord(bs[..8])] + Pack(bs[8..])
  }

  function Unpack(ws: seq<int>, n: nat): (bs: seq<byte>)
    requires |ws| == Words(n) && forall i :: 0 <= i < |ws| ==> ws[i] >= 0
    ensures |bs| == n
  {
    if n == 0 then []
    else if n <= 8 then UnpackWord(ws[0], n)
    else UnpackWord(ws[0], 8) + Unpack(ws[1..], n - 8)
  }

  lemma {:induction false} UnpackPackWord(bs: seq<byte>)
    ensures UnpackWord(PackWord(bs), |bs|) == bs
  {
    if bs != [] {
      UnpackPackWord(bs[1..]);
      var w := PackWord(bs[1..]);
      assert (bs[0] + 256 * w) % 256 == bs[0] && (bs[0] + 256 * w) / 256 == w;
    }
  }

  lemma {:induction false} UnpackPack(bs: seq<byte>)
    ensures Unpack(Pack(bs), |bs|) == bs
  {
    hide PackWord, UnpackWord;
    if bs == [] {
    } else if |bs| <= 8 {
      UnpackPackWord(bs);
    } else {
      UnpackPackWord(bs[..8]);
      UnpackPack(bs[8..]);
      assert Pack(bs)[1..] == Pack(bs[8..]);
      assert bs == bs[..8] + bs[8..];
    }
  }

  function Power256(n: nat): (p: nat)
    ensures p > 0
  {
    if n == 0 then 1 else 256 * Power256(n - 1)
  }

  lemma {:induction false} PackUnpackWord(w: nat, n: nat)
    requires w < Power256(n)
    ensures PackWord(UnpackWord(w, n)) == w
  {
    if n > 0 {
      PackUnpackWord(w / 256, n - 1);
      assert UnpackWord(w, n)[1..] == UnpackWord(w / 256, n - 1);
    }
  }

  /** The low-order byte comes first. */
  lemma {:induction false} UnpackAt(w: nat, n: nat, i: nat)
    requires i < n
    ensures UnpackWord(w, n)[i] == w / Power256(i) % 256
  {
    if i > 0 {
      UnpackAt(w / 256, n - 1, i - 1);
      DivTwice(w, Power256(i - 1));
    }
  }

  lemma DivTwice(w: nat, b: nat)
    requires b > 0
    ensures w / 256 / b == w / (256 * b)
  {
    var q := w / 256;
    var p, t, m := q / b, q % b, 256 * b;
    Division(q, b);
    Times(b, p);
    Quotient(w, m, p, 256 * t + w % 256);
  }

  lemma Division(q: nat, b: nat)
    requires b > 0
    ensures q == b * (q / b) + q % b && q % b < b
  {
  }

  lemma Times(b: nat, p: nat)
    ensures (256 * b) * p == 256 * (b * p)
  {
  }

  lemma Quotient(n: nat, m: nat, q: nat, r: nat)
    requires n == m * q + r && r < m
    ensures n / m == q
  {
    var d := n / m;
    assert d < q ==> m * (d + 1) <= m * q;
    assert d > q ==> m * d >= m * (q + 1);
  }
}
