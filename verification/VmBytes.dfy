/** Sized byte strings inside the contract VM's maps and arrays (vm/utils.go, vm/map.go): a little-endian 16-bit length
    before each element. */
module VmBytes {
  import opened Words

  const UINT16_MAX := 65535

  datatype Result<T> = Success(value: T) | Failure

  function UInt16ToByteArray(n: uint16): (ba: Bytes)
    ensures |ba| == 2
  {
    [n % 256, n / 256]
  }

  function LittleEndian(low: int, high: int): int { low + 256 * high }

  function ByteArrayToUI16(ba: Bytes): Result<uint16> {
    if ba == [] then Success(0) else if |ba| != 2 then Failure else Success(LittleEndian(ba[0], ba[1]))
  }

  lemma UInt16RoundTrip(n: uint16)
    ensures ByteArrayToUI16(UInt16ToByteArray(n)) == Success(n)
  {
  }

  predicate Sized(e: Bytes) { |e| <= UINT16_MAX }

  function Element(e: Bytes): (ba: Bytes)
    requires Sized(e)
    ensures |ba| == 2 + |e|
  {
    UInt16ToByteArray(|e|) + e
  }

  predicate AllSized(es: seq<Bytes>) { forall i :: 0 <= i < |es| ==> Sized(es[i]) }

  function Elements(es: seq<Bytes>): Bytes
    requires AllSized(es)
  {
    if es == [] then [] else Elements(es[..|es| - 1]) + Element(es[|es| - 1])
  }

  lemma {:induction false} ElementsConcat(xs: seq<Bytes>, ys: seq<Bytes>)
    requires AllSized(xs) && AllSized(ys)
    ensures AllSized(xs + ys) && Elements(xs + ys) == Elements(xs) + Elements(ys)
  {
    if ys == [] {
      assert xs + ys == xs;
    } else {
      assert (xs + ys)[..|xs + ys| - 1] == xs + ys[..|ys| - 1];
      ElementsConcat(xs, ys[..|ys| - 1]);
    }
  }

  lemma ElementsOne(e: Bytes)
    requires Sized(e)
    ensures Elements([e]) == Element(e)
  {
    assert [e][..0] == [];
  }

  // Where element i starts.
  ghost function Offset(es: seq<Bytes>, i: nat): (n: nat)
    requires AllSized(es) && i <= |es|
    ensures n <= |Elements(es)|
  {
    SplitElements(es, i);
    |Elements(es[..i])|
  }

  lemma SplitElements(es: seq<Bytes>, i: nat)
    requires AllSized(es) && i <= |es|
    ensures Elements(es) == Elements(es[..i]) + Elements(es[i..])
  {
    hide Elements;
    assert es == es[..i] + es[i..];
    ElementsConcat(es[..i], es[i..]);
  }

  lemma WholeOffset(es: seq<Bytes>)
    requires AllSized(es)
    ensures Offset(es, |es|) == |Elements(es)|
  {
    assert es[..|es|] == es;
  }

  // Around element i the elements are those before it, its size and bytes, and those after it.
  lemma ElementsAt(es: seq<Bytes>, i: nat)
    requires AllSized(es) && i < |es|
    ensures Elements(es) == Elements(es[..i]) + Element(es[i]) + Elements(es[i + 1..])
    ensures Offset(es, i + 1) == Offset(es, i) + 2 + |es[i]| <= |Elements(es)|
    ensures Elements(es)[Offset(es, i)..Offset(es, i) + 2] == UInt16ToByteArray(|es[i]|)
    ensures Elements(es)[Offset(es, i) + 2..Offset(es, i + 1)] == es[i]
    ensures Elements(es)[..Offset(es, i)] == Elements(es[..i])
      && Elements(es)[Offset(es, i + 1)..] == Elements(es[i + 1..])
  {
    hide Elements, UInt16ToByteArray;
    var before, after, size := es[..i], es[i + 1..], UInt16ToByteArray(|es[i]|);
    assert es == before + [es[i]] + after;
    assert es[..i + 1] == before + [es[i]];
    ElementsConcat(before + [es[i]], after);
    ElementsConcat(before, [es[i]]);
    ElementsOne(es[i]);
    Slices(Elements(before), size, es[i], Elements(after));
  }

  lemma Slices(a: Bytes, b: Bytes, c: Bytes, d: Bytes)
    ensures var all := a + (b + c) + d;
      && all[..|a|] == a && all[|a|..|a| + |b|] == b && all[|a| + |b|..|a| + |b| + |c|] == c
      && all[|a| + |b| + |c|..] == d
  {
  }

  lemma {:induction false} OffsetGrows(es: seq<Bytes>, i: nat)
    requires AllSized(es) && i <= |es|
    ensures 2 * i <= Offset(es, i) && Offset(es, i) + 2 * (|es| - i) <= |Elements(es)|
    decreases |es| - i
  {
    if i < |es| {
      ElementsAt(es, i);
      OffsetGrows(es, i + 1);
    } else {
      assert es[..i] == es;
    }
    OffsetAtLeast(es, i);
  }

  lemma {:induction false} OffsetAtLeast(es: seq<Bytes>, i: nat)
    requires AllSized(es) && i <= |es|
    ensures 2 * i <= Offset(es, i)
  {
    if i > 0 {
      OffsetAtLeast(es, i - 1);
      ElementsAt(es, i - 1);
    }
  }

  // The bytes determine the elements.
  lemma {:induction false} ElementsInjective(xs: seq<Bytes>, ys: seq<Bytes>)
    requires AllSized(xs) && AllSized(ys) && Elements(xs) == Elements(ys)
    ensures xs == ys
    decreases |xs|
  {
    hide Elements;
    if xs == [] || ys == [] {
      OffsetGrows(xs, 0);
      OffsetGrows(ys, 0);
      assert |Elements([])| == 0 by { NoElements(); }
    } else {
      ElementsAt(xs, 0);
      ElementsAt(ys, 0);
      assert xs[..0] == ys[..0] == [];
      UInt16RoundTrip(|xs[0]|);
      UInt16RoundTrip(|ys[0]|);
      assert |xs[0]| == |ys[0]|;
      ElementsInjective(xs[1..], ys[1..]);
      assert xs == [xs[0]] + xs[1..] && ys == [ys[0]] + ys[1..];
    }
  }

  lemma NoElements()
    ensures Elements([]) == []
  {
  }
}
