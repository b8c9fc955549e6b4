/** Bytes, their fixed-width integer encodings, and encoded pieces inside longer streams. */
module Bytes {
  import opened Arith

  type byte = n: int | 0 <= n < 256

  function Pow256(w: nat): nat {
    if w == 0 then 1 else 256 * Pow256(w - 1)
  }

  function Little(n: nat, w: nat): (s: seq<byte>)
    ensures |s| == w
  {
    if w == 0 then [] else [n % 256] + Little(n / 256, w - 1)
  }

  function FromLittle(s: seq<byte>): nat {
    if s == [] then 0 else s[0] + 256 * FromLittle(s[1..])
  }

  function Big(n: nat, w: nat): (s: seq<byte>)
    ensures |s| == w
  {
    if w == 0 then [] else Big(n / 256, w - 1) + [n % 256]
  }

  function FromBig(s: seq<byte>): nat {
    if s == [] then 0 else 256 * FromBig(s[..|s| - 1]) + s[|s| - 1]
  }

  lemma {:induction false} LittleRoundTrip(n: nat, w: nat)
    requires n < Pow256(w)
    ensures FromLittle(Little(n, w)) == n
  {
    if w == 0 {
    } else {
      LittleRoundTrip(n / 256, w - 1);
      assert Little(n, w)[1..] == Little(n / 256, w - 1);
    }
  }

  lemma {:induction false} BigRoundTrip(n: nat, w: nat)
    requires n < Pow256(w)
    ensures FromBig(Big(n, w)) == n
  {
    if w == 0 {
    } else {
      BigRoundTrip(n / 256, w - 1);
      assert Big(n, w)[..w - 1] == Big(n / 256, w - 1);
    }
  }

  lemma {:induction false} Pow256Positive(w: nat)
    ensures Pow256(w) > 0
  {
    if w == 0 {
    } else {
      Pow256Positive(w - 1);
    }
  }

  /** The least significant byte stands first: byte k is digit k of the number in base 256. */
  lemma {:induction false} LittleDigit(n: nat, w: nat, k: nat)
    requires k < w
    ensures Pow256(k) > 0 && Little(n, w)[k] == n / Pow256(k) % 256
    decreases k
  {
    if k == 0 {
    } else {
      Pow256Positive(k - 1);
      LittleDigit(n / 256, w - 1, k - 1);
      DivTwice(n, 256, Pow256(k - 1));
    }
  }

  /** The most significant byte stands first. */
  lemma {:induction false} BigDigit(n: nat, w: nat, k: nat)
    requires k < w
    ensures Pow256(k) > 0 && Big(n, w)[w - 1 - k] == n / Pow256(k) % 256
    decreases k
  {
    if k == 0 {
    } else {
      Pow256Positive(k - 1);
      BigDigit(n / 256, w - 1, k - 1);
      DivTwice(n, 256, Pow256(k - 1));
    }
  }

  lemma {:induction false} FromLittleBound(s: seq<byte>)
    ensures FromLittle(s) < Pow256(|s|)
  {
    if s == [] {
    } else {
      FromLittleBound(s[1..]);
    }
  }

  lemma {:induction false} Widths()
    ensures Pow256(1) == 0x100 && Pow256(2) == 0x1_0000 && Pow256(4) == 0x1_0000_0000
    ensures Pow256(8) == 0x1_0000_0000_0000_0000
  {
    assert Pow256(3) == 0x100_0000;
    assert Pow256(5) == 0x100_0000_0000;
    assert Pow256(6) == 0x1_0000_0000_0000;
    assert Pow256(7) == 0x100_0000_0000_0000;
  }

  // The piece stands in the stream at this position.
  predicate At(data: seq<byte>, pos: nat, piece: seq<byte>) {
    pos + |piece| <= |data| && data[pos..pos + |piece|] == piece
  }

  lemma {:induction false} AtSplit(data: seq<byte>, pos: nat, a: seq<byte>, b: seq<byte>)
    requires At(data, pos, a + b)
    ensures At(data, pos, a) && At(data, pos + |a|, b)
  {
    var whole := data[pos..pos + |a + b|];
    assert whole[..|a|] == a && whole[|a|..] == b;
    assert data[pos..pos + |a|] == whole[..|a|];
    assert data[pos + |a|..pos + |a| + |b|] == whole[|a|..];
  }

  function Ascii(s: string): seq<byte> {
    seq(|s|, i requires 0 <= i < |s| => s[i] as int % 256)
  }
}
