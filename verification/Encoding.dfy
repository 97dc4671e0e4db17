/** Numbers as hexadecimal text and as big-endian bytes. */
module Encoding {
  import opened NumberTheory
  import opened Words

  function HexDigit(d: nat): uint8
    requires d < 16
  {
    if d < 10 then 48 + d else 87 + d
  }

  predicate IsHexDigit(c: uint8) { 48 <= c <= 57 || 97 <= c <= 102 || 65 <= c <= 70 }

  function DigitValue(c: uint8): nat
    requires IsHexDigit(c)
  {
    if c <= 57 then c - 48 else if c <= 70 then c - 55 else c - 87
  }

  // fmt.Sprintf("%x", n)
  function Hex(n: nat): Bytes {
    if n < 16 then [HexDigit(n)] else Hex(n / 16) + [HexDigit(n % 16)]
  }

  predicate IsHex(s: Bytes) { s != [] && forall c <- s :: IsHexDigit(c) }

  // big.Int.SetString(s, 16)
  function ParseHex(s: Bytes): nat
    requires IsHex(s)
  {
    var last := |s| - 1;
    if last == 0 then DigitValue(s[0]) else 16 * ParseHex(s[..last]) + DigitValue(s[last])
  }

  lemma {:induction false} HexRoundTrip(n: nat)
    ensures IsHex(Hex(n)) && ParseHex(Hex(n)) == n
  {
    if n >= 16 {
      HexRoundTrip(n / 16);
      assert Hex(n)[..|Hex(n)| - 1] == Hex(n / 16);
    }
  }

  // big.Int.SetBytes and big.Int.Bytes: big endian, no leading zero byte.
  function Value(bytes: Bytes): nat {
    if bytes == [] then 0 else 256 * Value(bytes[..|bytes| - 1]) + bytes[|bytes| - 1]
  }

  function BigEndian(n: nat): Bytes {
    if n == 0 then [] else BigEndian(n / 256) + [n % 256]
  }

  function Zeros(n: nat): (z: Bytes)
    ensures |z| == n && forall b <- z :: b == 0
  {
    seq(n, _ => 0)
  }

  lemma {:induction false} ValueOfBigEndian(n: nat)
    ensures Value(BigEndian(n)) == n
  {
    if n > 0 {
      ValueOfBigEndian(n / 256);
      assert BigEndian(n)[..|BigEndian(n)| - 1] == BigEndian(n / 256);
    }
  }

  lemma {:induction false} BigEndianOfValue(bytes: Bytes)
    requires bytes != [] && bytes[0] != 0
    ensures BigEndian(Value(bytes)) == bytes
  {
    var last := |bytes| - 1;
    assert bytes == bytes[..last] + [bytes[last]];
    if last > 0 {
      BigEndianOfValue(bytes[..last]);
      assert Value(bytes[..last]) > 0;
    }
    assert Value(bytes) / 256 == Value(bytes[..last]);
  }

  lemma {:induction false} ValueShifted(bytes: Bytes, n: nat)
    ensures Value(bytes + Zeros(n)) == Value(bytes) * Pow(256, n)
  {
    if n == 0 {
      assert bytes + Zeros(0) == bytes;
    } else {
      var longer := bytes + Zeros(n);
      assert longer[..|longer| - 1] == bytes + Zeros(n - 1);
      ValueShifted(bytes, n - 1);
      assert 256 * (Value(bytes) * Pow(256, n - 1)) == Value(bytes) * Pow(256, n);
    }
  }

  lemma {:induction false} ValueOfZeros(n: nat)
    ensures Value(Zeros(n)) == 0
  {
    if n > 0 {
      assert Zeros(n)[..n - 1] == Zeros(n - 1);
      ValueOfZeros(n - 1);
    }
  }

  lemma {:induction false} BigEndianLength(n: nat, k: nat)
    requires Pow(256, k) <= n < Pow(256, k + 1)
    ensures |BigEndian(n)| == k + 1
  {
    if k > 0 {
      assert Pow(256, k) == 256 * Pow(256, k - 1) && Pow(256, k + 1) == 256 * Pow(256, k);
      BigEndianLength(n / 256, k - 1);
    } else {
      assert Pow(256, 0) == 1;
      assert n / 256 == 0;
    }
  }

  lemma {:induction false} ShortLength(n: nat, k: nat)
    requires n < Pow(256, k)
    ensures |BigEndian(n)| <= k
  {
    if n > 0 {
      assert k > 0 by { assert Pow(256, 0) == 1; }
      ShortLength(n / 256, k - 1);
    }
  }

  lemma {:induction false} LeadingZero(bytes: Bytes)
    requires bytes != [] && bytes[0] == 0
    ensures Value(bytes) < Pow(256, |bytes| - 1)
  {
    if |bytes| > 1 {
      LeadingZero(bytes[..|bytes| - 1]);
    } else {
      assert bytes[..0] == [];
    }
  }

  // binary.BigEndian.PutUint32 and PutUint64: the last k bytes of n.
  function FixedBigEndian(n: nat, k: nat): (b: Bytes)
    ensures |b| == k
  {
    if k == 0 then [] else FixedBigEndian(n / 256, k - 1) + [n % 256]
  }

  lemma {:induction false} FixedValue(n: nat, k: nat)
    requires n < Pow(256, k)
    ensures Value(FixedBigEndian(n, k)) == n
  {
    if k > 0 {
      assert FixedBigEndian(n, k)[..k - 1] == FixedBigEndian(n / 256, k - 1);
      FixedValue(n / 256, k - 1);
    }
  }

  lemma {:induction false} ValueBound(bytes: Bytes)
    ensures Value(bytes) < Pow(256, |bytes|)
  {
    if bytes != [] {
      ValueBound(bytes[..|bytes| - 1]);
    }
  }
}
