/** The contract VM's evaluation stack with its memory meter (vm/stack.go), and signed numbers as bytes
    (vm/utils.go). */
module VmStack {
  import opened Encoding
  import opened NumberTheory
  import opened VmBytes
  import opened Words

  const MEMORY_MAX := 1000000

  // Elements up to this size cannot make the 32-bit size check wrap.
  const MAX_ELEMENT := TWO_32 - 1 - MEMORY_MAX

  ghost function Usage(elements: seq<Bytes>): nat {
    if elements == [] then 0 else Usage(elements[..|elements| - 1]) + |elements[|elements| - 1]|
  }

  lemma {:induction false} UsageConcat(xs: seq<Bytes>, ys: seq<Bytes>)
    ensures Usage(xs + ys) == Usage(xs) + Usage(ys)
  {
    if ys == [] {
      assert xs + ys == xs;
    } else {
      assert (xs + ys)[..|xs + ys| - 1] == xs + ys[..|ys| - 1];
      UsageConcat(xs, ys[..|ys| - 1]);
    }
  }

  lemma UsageOne(e: Bytes)
    ensures Usage([e]) == |e|
  {
    assert [e][..0] == [];
  }

  // An element counts towards the usage, wherever it lies.
  lemma UsageAt(elements: seq<Bytes>, i: nat)
    requires i < |elements|
    ensures Usage(elements) == Usage(elements[..i] + elements[i + 1..]) + |elements[i]|
  {
    assert elements == elements[..i] + [elements[i]] + elements[i + 1..];
    UsageConcat(elements[..i] + [elements[i]], elements[i + 1..]);
    UsageConcat(elements[..i], [elements[i]]);
    UsageConcat(elements[..i], elements[i + 1..]);
    UsageOne(elements[i]);
  }

  // The memory check of Push on 32-bit words.
  predicate Fits(usage: uint32, size: nat) { MEMORY_MAX >= Wrap32(Wrap32(size) + usage) }

  class Stack {
    var elements: seq<Bytes>
    var memoryUsage: uint32

    // The meter is exact and within the limit.
    ghost predicate Valid()
      reads this
    {
      memoryUsage == Usage(elements) <= MEMORY_MAX
    }

    constructor NewStack()
      ensures elements == [] && Valid()
    {
      elements, memoryUsage := [], 0;
    }

    method Push(element: Bytes) returns (ok: bool)
      requires Valid() && |element| <= MAX_ELEMENT
      modifies this
      ensures Valid()
      ensures ok <==> old(memoryUsage) + |element| <= MEMORY_MAX
      ensures elements == if ok then old(elements) + [element] else old(elements)
    {
      UsageConcat(elements, [element]);
      UsageOne(element);
      ok := Fits(memoryUsage, |element|);
      if ok {
        memoryUsage := Wrap32(memoryUsage + Wrap32(|element|));
        elements := elements + [element];
      }
    }

    // The code's own test would let index == length through to a slice panic; the precondition is what ROLL guarantees.
    method PopIndexAt(index: nat) returns (element: Bytes)
      requires Valid() && index < |elements|
      modifies this
      ensures Valid() && element == old(elements)[index]
      ensures elements == old(elements)[..index] + old(elements)[index + 1..]
    {
      UsageAt(elements, index);
      element := elements[index];
      memoryUsage := Wrap32(memoryUsage - Wrap32(|element|));
      elements := elements[..index] + elements[index + 1..];
    }

    method Pop() returns (r: Result<Bytes>)
      requires Valid()
      modifies this
      ensures Valid()
      ensures if old(elements) == [] then r == Failure && elements == []
        else r == Success(old(elements)[|old(elements)| - 1]) && elements == old(elements)[..|old(elements)| - 1]
      ensures r.Success? ==> |r.value| <= MEMORY_MAX
    {
      if |elements| == 0 { return Failure; }
      var element := elements[|elements| - 1];
      memoryUsage := Wrap32(memoryUsage - Wrap32(|element|));
      elements := elements[..|elements| - 1];
      r := Success(element);
    }
  }

  // Why sizes are bounded: an element of 2^32 bytes passes the check on any valid stack and leaves the meter where it
  // was.
  lemma HugeElementEscapes(usage: uint32)
    requires usage <= MEMORY_MAX
    ensures Fits(usage, TWO_32) && Wrap32(usage + Wrap32(TWO_32)) == usage
  {
  }

  // -------------------- signed numbers --------------------

  datatype Number = Number(n: int) | BadSign | NoBytes

  // A sign byte and the magnitude. Empty bytes are a slice panic.
  function SignedBigIntConversion(ba: Bytes): Number {
    if ba == [] then NoBytes
    else if ba[0] != 0 && ba[0] != 1 then BadSign
    else Number(if ba[0] == 1 then 0 - Value(ba[1..]) else Value(ba[1..]))
  }

  function Magnitude(n: int): nat { if n >= 0 then n else 0 - n }

  function SignedByteArrayConversion(n: int): Bytes { [if n >= 0 then 0 else 1] + BigEndian(Magnitude(n)) }

  lemma SignedRoundTrip(n: int)
    ensures SignedBigIntConversion(SignedByteArrayConversion(n)) == Number(n)
  {
    ValueOfBigEndian(Magnitude(n));
    assert SignedByteArrayConversion(n)[1..] == BigEndian(Magnitude(n));
  }

  // The size in bytes, as Pow sees it.
  ghost predicate Within(n: int, k: nat) { Magnitude(n) < Pow(256, k) }

  lemma OperandWithin(ba: Bytes)
    requires SignedBigIntConversion(ba).Number?
    ensures Within(SignedBigIntConversion(ba).n, |ba| - 1)
  {
    ValueBound(ba[1..]);
  }

  lemma ResultSize(n: int, k: nat)
    requires Within(n, k)
    ensures |SignedByteArrayConversion(n)| <= k + 1
  {
    ShortLength(Magnitude(n), k);
  }

  lemma {:induction false} PowerGrows(k: nat, l: nat)
    requires k <= l
    ensures 1 <= Pow(256, k) <= Pow(256, l)
    decreases l
  {
    if l > 0 {
      if k < l {
        PowerGrows(k, l - 1);
      } else {
        PowerGrows(k - 1, l - 1);
      }
    }
  }

  lemma SumWithin(a: int, i: nat, b: int, j: nat)
    requires Within(a, i) && Within(b, j)
    ensures Within(a + b, (if i > j then i else j) + 1) && Within(a - b, (if i > j then i else j) + 1)
  {
    var m := if i > j then i else j;
    PowerGrows(i, m);
    PowerGrows(j, m);
    assert Pow(256, m + 1) == 256 * Pow(256, m);
  }

  lemma ProductBelow(x: nat, y: nat, p: nat, q: nat)
    requires x < p && y < q
    ensures x * y < p * q
  {
    assert p * q == x * y + x * (q - y) + (p - x) * q;
    assert x * (q - y) >= 0 by { ProductNonNegative(x, q - y); }
    assert (p - x) * q >= q by { ProductNonNegative(p - x - 1, q); assert (p - x) * q == (p - x - 1) * q + q; }
  }

  lemma ProductNonNegative(x: nat, y: nat)
    ensures x * y >= 0
  {
  }

  lemma ProductWithin(a: int, i: nat, b: int, j: nat)
    requires Within(a, i) && Within(b, j)
    ensures Within(a * b, i + j)
  {
    hide Pow;
    PowAdd(256, i, j);
    MagnitudeOfProduct(a, b);
    ProductBelow(Magnitude(a), Magnitude(b), Pow(256, i), Pow(256, j));
  }

  lemma MagnitudeOfProduct(a: int, b: int)
    ensures Magnitude(a * b) == Magnitude(a) * Magnitude(b)
  {
    var x: int, y: int := Magnitude(a), Magnitude(b);
    ProductNonNegative(x, y);
    assert (0 - x) * y == 0 - x * y;
    assert x * (0 - y) == 0 - x * y;
    assert (0 - x) * (0 - y) == x * y;
  }

  // Quotients and remainders are no larger than their operands.
  lemma QuotientWithin(a: int, i: nat, b: int, j: nat)
    requires Within(a, i) && Within(b, j) && b != 0
    ensures Within(a / b, i + 1) && Within(a % b, j)
  {
    hide Pow;
    var p := Pow(256, i);
    PowerGrows(i, i + 1);
    PowAdd(256, i, 1);
    assert Pow(256, 1) == 256 by { OnePower(); }
    QuotientBound(a, b);
  }

  lemma OnePower()
    ensures Pow(256, 1) == 256
  {
    assert Pow(256, 0) == 1;
  }

  lemma QuotientBound(a: int, b: int)
    requires b != 0
    ensures Magnitude(a / b) <= Magnitude(a) + 1 && 0 <= a % b < Magnitude(b)
  {
    var q, r := a / b, a % b;
    assert a == b * q + r;
    MagnitudeOfProduct(b, q);
    var x: int, y: int := Magnitude(b), Magnitude(q);
    assert x * y <= Magnitude(a) + r;
    if y >= 1 {
      ProductAtLeast(x, y);
    }
  }

  lemma ProductAtLeast(x: nat, y: nat)
    requires x >= 1 && y >= 1
    ensures x * y >= (y - 1) + x
  {
    ProductNonNegative(x - 1, y - 1);
    assert x * y == (x - 1) * (y - 1) + (y - 1) + x;
  }

  // Shifting by one byte's count of bits adds at most 32 bytes.
  lemma ShiftWithin(a: int, i: nat, bits: nat)
    requires Within(a, i) && bits < 256
    ensures Within(a * Pow(2, bits), i + 32)
  {
    hide Pow;
    PowTwoBelow(bits);
    ProductWithin(a, i, Pow(2, bits), 32);
  }

  lemma PowTwoBelow(bits: nat)
    requires bits < 256
    ensures 0 < Pow(2, bits) && Within(Pow(2, bits), 32)
  {
    hide Pow;
    assert Pow(2, 8) == 256 by { Doublings(); }
    PowMul(2, 8, 32);
    TwoGrows(bits, 256);
  }

  lemma Doublings()
    ensures Pow(2, 8) == 256
  {
    assert Pow(2, 2) == 4 && Pow(2, 4) == 16 && Pow(2, 6) == 64;
  }

  lemma {:induction false} TwoGrows(e: nat, f: nat)
    requires e < f
    ensures 0 < Pow(2, e) < Pow(2, f)
    decreases f
  {
    if e < f - 1 {
      TwoGrows(e, f - 1);
    } else if e > 0 {
      TwoGrows(e - 1, f - 1);
    }
  }

  // A right shift rounds towards minus infinity.
  lemma ShiftRightWithin(a: int, i: nat, bits: nat)
    requires Within(a, i) && bits < 256
    ensures Pow(2, bits) > 0 && Within(a / Pow(2, bits), i + 1)
  {
    PowTwoBelow(bits);
    QuotientWithin(a, i, Pow(2, bits), 32);
  }
}
