/** Unsigned integers of a fixed number of bytes, least significant byte first, as a little-endian machine
    stores them. */
module LittleEndian {
  import MachineBits

  newtype byte = b: int | 0 <= b < 256

  /** The number of values that fit in so many bytes. */
  function Range(width: nat): (r: nat)
    ensures r > 0
  {
    if width == 0 then 1 else 256 * Range(width - 1)
  }

  function Encode(width: nat, v: nat): (s: seq<byte>)
    ensures |s| == width
  {
    if width == 0 then [] else [(v % 256) as byte] + Encode(width - 1, v / 256)
  }

  function Decode(s: seq<byte>): nat {
    if s == [] then 0 else s[0] as nat + 256 * Decode(s[1..])
  }

  /** Byte i is the i-th digit to the base 256. */
  lemma {:induction false} ByteAt(width: nat, v: nat, i: nat)
    requires i < width
    ensures Encode(width, v)[i] as nat == (v / Range(i)) % 256
  {
    if i > 0 {
      ByteAt(width - 1, v / 256, i - 1);
      QuotientTwice(v, Range(i - 1));
    }
  }

  lemma QuotientTwice(v: nat, n: nat)
    requires n > 0
    ensures v / (256 * n) == (v / 256) / n
  {
    var q, p := (v / 256) / n, v / (256 * n);
    SplitRemainder(v, n);
    assert v / 256 == n * q + (v / 256) % n && v == (256 * n) * p + v % (256 * n);
    assert n * q == n * p by { assert (256 * n) * p == 256 * (n * p); }
    SameFactor(n, q, p);
  }

  lemma SameFactor(n: nat, q: nat, p: nat)
    requires n > 0 && n * q == n * p
    ensures q == p
  {
    assert n * (q - p) == 0;
  }

  lemma {:induction false} DecodeInRange(s: seq<byte>)
    ensures Decode(s) < Range(|s|)
  {
    if s != [] {
      DecodeInRange(s[1..]);
    }
  }

  /** What is stored is what is read, as long as it fits. */
  lemma {:induction false} RoundTrip(width: nat, v: nat)
    requires v < Range(width)
    ensures Decode(Encode(width, v)) == v
  {
    if width > 0 {
      RoundTrip(width - 1, v / 256);
      assert Encode(width, v)[1..] == Encode(width - 1, v / 256);
    }
  }

  /** What does not fit is stored modulo the range. */
  lemma {:induction false} RoundTripModulo(width: nat, v: nat)
    ensures Decode(Encode(width, v)) == v % Range(width)
  {
    if width > 0 {
      RoundTripModulo(width - 1, v / 256);
      assert Encode(width, v)[1..] == Encode(width - 1, v / 256);
      SplitRemainder(v, Range(width - 1));
    }
  }

  lemma SplitRemainder(v: nat, n: nat)
    requires n > 0
    ensures v % (256 * n) == v % 256 + 256 * ((v / 256) % n)
  {
    var q, r := (v / 256) / n, v % 256 + 256 * ((v / 256) % n);
    assert v / 256 == n * q + (v / 256) % n;
    assert v == (256 * n) * q + r by { assert (256 * n) * q == 256 * (n * q); }
    assert r < 256 * n;
    MachineBits.Remainder(v, 256 * n, q, r);
  }

  /** Bytes are determined by the number they store. */
  lemma {:induction false} Canonical(s: seq<byte>)
    ensures Encode(|s|, Decode(s)) == s
  {
    if s != [] {
      Canonical(s[1..]);
      LowestByte(s[0], Decode(s[1..]));
      hide Encode;
      EncodeStep(|s| - 1, Decode(s));
      assert s == [s[0]] + s[1..];
    }
  }

  lemma LowestByte(b: byte, high: nat)
    ensures (b as nat + 256 * high) % 256 == b as nat && (b as nat + 256 * high) / 256 == high
  {
  }

  lemma EncodeStep(width: nat, v: nat)
    ensures Encode(width + 1, v) == [(v % 256) as byte] + Encode(width, v / 256)
  {
  }

  function Zeros(n: nat): (s: seq<byte>)
    ensures |s| == n && forall i | 0 <= i < n :: s[i] == 0
  {
    seq(n, _ => 0)
  }

  lemma {:induction false} ZerosDecode(n: nat)
    ensures Decode(Zeros(n)) == 0
  {
    if n > 0 {
      ZerosDecode(n - 1);
      assert Zeros(n)[1..] == Zeros(n - 1);
    }
  }

  lemma Widths()
    ensures Range(4) == 0x1_0000_0000 && Range(8) == 0x1_0000_0000_0000_0000
  {
    assert Range(1) == 256 && Range(2) == 0x1_0000 && Range(3) == 0x100_0000 && Range(4) == 0x1_0000_0000;
    assert Range(5) == 0x100_0000_0000 && Range(6) == 0x1_0000_0000_0000 && Range(7) == 0x100_0000_0000_0000;
  }
}
