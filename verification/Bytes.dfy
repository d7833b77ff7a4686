/** Bytes and the little-endian layout of unsigned integers in memory. */
module Bytes {
  import opened Integers

  type byte = x: int | 0 <= x < 256

  function LittleEndian(n: nat, width: nat): (b: seq<byte>)
    ensures |b| == width
  {
    if width == 0 then [] else [n % 256] + LittleEndian(n / 256, width - 1)
  }

  function FromLittleEndian(b: seq<byte>): nat {
    if b == [] then 0 else b[0] + 256 * FromLittleEndian(b[1..])
  }

  /** How many values fit into `width` bytes. */
  function Limit(width: nat): nat {
    if width == 0 then 1 else 256 * Limit(width - 1)
  }

  lemma {:induction false} DecodeEncoded(n: nat, width: nat)
    requires n < Limit(width)
    ensures FromLittleEndian(LittleEndian(n, width)) == n
  {
    if width > 0 {
      DecodeEncoded(n / 256, width - 1);
      assert LittleEndian(n, width)[1..] == LittleEndian(n / 256, width - 1);
    }
  }

  lemma {:induction false} EncodeDecoded(b: seq<byte>)
    ensures FromLittleEndian(b) < Limit(|b|)
    ensures LittleEndian(FromLittleEndian(b), |b|) == b
  {
    if b != [] {
      EncodeDecoded(b[1..]);
      LowestByte(b[0], FromLittleEndian(b[1..]));
      assert [b[0]] + b[1..] == b;
    }
  }

  lemma LowestByte(lowest: byte, rest: nat)
    ensures (lowest + 256 * rest) % 256 == lowest && (lowest + 256 * rest) / 256 == rest
  {
  }

  lemma {:induction false} LimitIsPositive(width: nat)
    ensures Limit(width) > 0
  {
    if width > 0 {
      LimitIsPositive(width - 1);
    }
  }

  lemma QuotientOfQuotient(n: nat, d: nat)
    requires d > 0
    ensures n / 256 / d == n / (256 * d)
  {
    var q, r := n / 256 / d, n / 256 % d;
    assert n / 256 == q * d + r && n == 256 * (n / 256) + n % 256;
    assert n == q * (256 * d) + (256 * r + n % 256);
    QuotientIs(n, 256 * d, q, 256 * r + n % 256);
  }

  lemma QuotientIs(n: nat, d: nat, q: nat, r: nat)
    requires 0 <= r < d && n == q * d + r
    ensures n / d == q
  {
    var p := n / d;
    assert n == p * d + n % d;
    if p < q {
      ProductGap(p, q, d);
    } else if p > q {
      ProductGap(q, p, d);
    }
  }

  lemma ProductGap(a: nat, b: nat, d: nat)
    requires a < b
    ensures a * d + d <= b * d
  {
    assert (b - a - 1) * d >= 0;
    assert b * d == a * d + d + (b - a - 1) * d;
  }

  /** The byte at place `k` is the one of weight `256^k`: the lowest comes first. */
  lemma {:induction false} LittleEndianAt(n: nat, width: nat, k: nat)
    requires k < width
    ensures Limit(k) > 0 && LittleEndian(n, width)[k] == n / Limit(k) % 256
  {
    LimitIsPositive(k);
    if k > 0 {
      LittleEndianAt(n / 256, width - 1, k - 1);
      QuotientOfQuotient(n, Limit(k - 1));
    }
  }

  lemma OneByte()
    ensures Limit(0) == 1 && Limit(1) == 256
  {
    assert Limit(1) == 256 * Limit(0);
  }

  lemma TwoBytes()
    ensures Limit(2) == UINT16_LIMIT
  {
    assert Limit(1) == 256 * Limit(0);
  }

  lemma TwoBytesFit(b: seq<byte>)
    requires |b| == 2
    ensures FromLittleEndian(b) < UINT16_LIMIT
  {
    EncodeDecoded(b);
    TwoBytes();
  }
}
