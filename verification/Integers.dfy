/** Fixed-width integers as bytes, in either order. */
module Integers {
  import opened Bytes

  /** The number of values `w` bytes can hold. */
  function Range(w: nat): (r: nat)
    ensures r > 0
  {
    if w == 0 then 1 else 256 * Range(w - 1)
  }

  function BigEndian(n: nat, w: nat): (b: seq<Byte>)
    ensures |b| == w
  {
    if w == 0 then [] else BigEndian(n / 256, w - 1) + [n % 256]
  }

  function FromBigEndian(b: seq<Byte>): nat {
    if b == [] then 0 else FromBigEndian(b[..|b| - 1]) * 256 + b[|b| - 1]
  }

  function LittleEndian(n: nat, w: nat): (b: seq<Byte>)
    ensures |b| == w
  {
    if w == 0 then [] else [n % 256] + LittleEndian(n / 256, w - 1)
  }

  function FromLittleEndian(b: seq<Byte>): nat {
    if b == [] then 0 else b[0] + 256 * FromLittleEndian(b[1..])
  }

  lemma {:induction false} DivRange(n: nat, w: nat)
    requires w > 0
    ensures n % Range(w) == (n / 256 % Range(w - 1)) * 256 + n % 256
    ensures n < Range(w) <==> n / 256 < Range(w - 1)
  {
    var r, q := Range(w - 1), n / 256;
    var k := q / r;
    assert q == k * r + q % r;
    assert n == 256 * q + n % 256;
    var low := (q % r) * 256 + n % 256;
    assert n == k * (256 * r) + low;
    Remainder(n, 256 * r, k, low);
  }

  lemma Remainder(n: nat, m: nat, k: nat, low: nat)
    requires 0 < m && n == k * m + low && low < m
    ensures n % m == low
  {
    var d := n / m - k;
    assert d * m == low - n % m;
    AtLeastOne(d, m);
  }

  lemma AtLeastOne(d: int, m: nat)
    ensures d >= 1 ==> d * m >= m
    ensures d <= -1 ==> d * m + m <= 0
  {
  }

  /** Writing keeps the low `w` bytes of the number, and reading gives them back. */
  lemma {:induction false} BigEndianReads(n: nat, w: nat)
    ensures FromBigEndian(BigEndian(n, w)) == n % Range(w)
  {
    if w > 0 {
      BigEndianReads(n / 256, w - 1);
      DivRange(n, w);
      assert BigEndian(n, w)[..w - 1] == BigEndian(n / 256, w - 1);
    }
  }

  lemma {:induction false} LittleEndianReads(n: nat, w: nat)
    ensures FromLittleEndian(LittleEndian(n, w)) == n % Range(w)
  {
    if w > 0 {
      LittleEndianReads(n / 256, w - 1);
      DivRange(n, w);
      assert LittleEndian(n, w)[1..] == LittleEndian(n / 256, w - 1);
    }
  }

  /** Every run of bytes is the writing of exactly one number. */
  lemma {:induction false} BigEndianWrites(b: seq<Byte>)
    ensures FromBigEndian(b) < Range(|b|) && BigEndian(FromBigEndian(b), |b|) == b
  {
    if b != [] {
      BigEndianWrites(b[..|b| - 1]);
      var high, low := FromBigEndian(b[..|b| - 1]), b[|b| - 1];
      assert (high * 256 + low) % 256 == low && (high * 256 + low) / 256 == high;
    }
  }

  lemma {:induction false} LittleEndianWrites(b: seq<Byte>)
    ensures FromLittleEndian(b) < Range(|b|) && LittleEndian(FromLittleEndian(b), |b|) == b
  {
    if b != [] {
      LittleEndianWrites(b[1..]);
      var high := FromLittleEndian(b[1..]);
      var n := b[0] + 256 * high;
      assert n % 256 == b[0] && n / 256 == high;
      assert LittleEndian(n, |b|) == [b[0]] + LittleEndian(high, |b| - 1);
    }
  }
}
