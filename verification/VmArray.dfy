/** The contract VM's byte-encoded array (vm/array.go): a tag, a 16-bit size and the sized elements. Offsets
    are 16-bit. */
module VmArray {
  import opened Words
  import opened VmBytes

  const ARRAY_TAG: uint8 := 0x02

  // The bytes of an array of the given elements.
  function Encode(es: seq<Bytes>): Bytes
    requires AllSized(es)
  {
    [ARRAY_TAG] + UInt16ToByteArray(Wrap16(|es|)) + Elements(es)
  }

  // Within the 16-bit offsets the array code uses.
  ghost predicate Represents(bytes: Bytes, es: seq<Bytes>) {
    AllSized(es) && bytes == Encode(es) && |bytes| < TWO_16
  }

  lemma RepresentsOne(bytes: Bytes, xs: seq<Bytes>, ys: seq<Bytes>)
    requires Represents(bytes, xs) && Represents(bytes, ys)
    ensures xs == ys
  {
    assert Elements(xs) == bytes[3..] == Elements(ys);
    ElementsInjective(xs, ys);
  }

  // The 16-bit header is exact, since every element takes two bytes or more.
  lemma SizeFits(es: seq<Bytes>)
    requires AllSized(es) && |Encode(es)| < TWO_16
    ensures |es| < TWO_16 && Wrap16(|es|) == |es| && Encode(es)[1..3] == UInt16ToByteArray(|es|)
  {
    OffsetGrows(es, 0);
  }

  function Removed(es: seq<Bytes>, i: nat): seq<Bytes>
    requires i < |es|
  {
    es[..i] + es[i + 1..]
  }

  lemma EncodeRemoved(es: seq<Bytes>, i: nat)
    requires AllSized(es) && i < |es| && |es| < TWO_16
    ensures AllSized(Removed(es, i))
    ensures Elements(Removed(es, i)) == Elements(es)[..Offset(es, i)] + Elements(es)[Offset(es, i + 1)..]
    ensures |Elements(Removed(es, i))| == |Elements(es)| - 2 - |es[i]|
  {
    hide Elements;
    ElementsAt(es, i);
    ElementsConcat(es[..i], es[i + 1..]);
  }

  // Append on any bytes with a header: the element at the end, the header one higher.
  function Appended(bytes: Bytes, ba: Bytes): Bytes
    requires |bytes| >= 3 && Sized(ba)
  {
    bytes[..1] + UInt16ToByteArray(Wrap16(LittleEndian(bytes[1], bytes[2]) + 1)) + bytes[3..] + Element(ba)
  }

  lemma AppendedEncodes(es: seq<Bytes>, ba: Bytes)
    requires AllSized(es) && |Encode(es)| < TWO_16 && Sized(ba)
    ensures AllSized(es + [ba]) && Appended(Encode(es), ba) == Encode(es + [ba])
  {
    SizeFits(es);
    ElementsConcat(es, [ba]);
    ElementsOne(ba);
    assert Encode(es)[3..] == Elements(es);
  }

  function Inserted(es: seq<Bytes>, i: nat, e: Bytes): seq<Bytes>
    requires i <= |es|
  {
    es[..i] + [e] + es[i..]
  }

  // What Insert builds at position i: append to the part before it, then the part after it.
  lemma InsertedEncodes(es: seq<Bytes>, i: nat, e: Bytes)
    requires AllSized(es) && |Encode(es)| < TWO_16 && Sized(e) && i < |es|
    ensures AllSized(Inserted(es, i, e))
    ensures Appended(Encode(es)[..3 + Offset(es, i)], e) + Encode(es)[3 + Offset(es, i)..] == Encode(Inserted(es, i, e))
  {
    hide Elements;
    SizeFits(es);
    ElementsAt(es, i);
    OffsetGrows(es, i);
    var at := Offset(es, i);
    assert Elements(es)[at..] == Elements(es[i..]) by { SuffixElements(es, i); }
    ElementsConcat(es[..i], [e]);
    ElementsConcat(es[..i] + [e], es[i..]);
    ElementsOne(e);
    assert Encode(es)[..3 + at][3..] == Elements(es[..i]);
    assert Encode(es)[3 + at..] == Elements(es)[at..];
    assert Encode(es)[..3 + at][..1] == [ARRAY_TAG];
  }

  lemma SuffixElements(es: seq<Bytes>, i: nat)
    requires AllSized(es) && i <= |es|
    ensures Elements(es)[Offset(es, i)..] == Elements(es[i..])
  {
    hide Elements;
    SplitElements(es, i);
  }

  // Cutting element i out of the bytes, before the header is corrected.
  lemma CutElement(es: seq<Bytes>, i: nat)
    requires AllSized(es) && |Encode(es)| < TWO_16 && i < |es|
    ensures var k := 3 + Offset(es, i);
      && k + 2 + |es[i]| <= |Encode(es)|
      && AllSized(Removed(es, i))
      && Encode(es)[..k] + Encode(es)[k + 2 + |es[i]|..]
        == [ARRAY_TAG] + UInt16ToByteArray(Wrap16(|es|)) + Elements(Removed(es, i))
  {
    hide Elements, UInt16ToByteArray;
    SizeFits(es);
    EncodeRemoved(es, i);
    ElementsAt(es, i);
    var header, at := [ARRAY_TAG] + UInt16ToByteArray(|es|), Offset(es, i);
    assert Encode(es)[..3 + at] == header + Elements(es)[..at];
    assert Encode(es)[3 + at + 2 + |es[i]|..] == Elements(es)[at + 2 + |es[i]|..];
  }

  lemma RemovedRepresents(es: seq<Bytes>, i: nat, bytes: Bytes)
    requires AllSized(es) && |Encode(es)| < TWO_16 && i < |es| && AllSized(Removed(es, i))
    requires bytes == [ARRAY_TAG] + UInt16ToByteArray(Wrap16(|es| - 1)) + Elements(Removed(es, i))
    ensures Represents(bytes, Removed(es, i))
  {
    SizeFits(es);
    EncodeRemoved(es, i);
  }

  // Bytes 3 and on are the elements.
  lemma BytesAt(es: seq<Bytes>, i: nat, j: nat)
    requires AllSized(es) && 3 <= i <= j <= |Encode(es)|
    ensures Encode(es)[i..j] == Elements(es)[i - 3..j - 3]
  {
  }

  lemma ElementBytes(bytes: Bytes, es: seq<Bytes>, i: nat)
    requires Represents(bytes, es) && i < |es|
    ensures var at := 3 + Offset(es, i);
      at + 2 + |es[i]| <= |bytes| < TWO_16 && bytes[at + 2..at + 2 + |es[i]|] == es[i]
  {
    hide Elements;
    ElementsAt(es, i);
    var at := 3 + Offset(es, i);
    BytesAt(es, at + 2, at + 2 + |es[i]|);
  }

  class Array {
    var bytes: Bytes

    constructor NewArray()
      ensures Represents(bytes, [])
    {
      bytes := [ARRAY_TAG] + [0x00, 0x00];
      new;
      assert bytes == Encode([]);
    }

    // ArrayFromByteArray checks no more than the tag.
    static method ArrayFromByteArray(arr: Bytes) returns (a: Array?)
      ensures a == null <==> arr == [] || arr[0] != ARRAY_TAG
      ensures a != null ==> fresh(a) && a.bytes == arr
    {
      if |arr| == 0 || arr[0] != ARRAY_TAG { return null; }
      a := new Array.NewArray();
      a.bytes := arr;
    }

    function GetSize(): (r: Result<uint16>)
      reads this
    {
      if |bytes| < 3 then Failure else ByteArrayToUI16(bytes[1..3])
    }

    method SetSize(ba: Bytes)
      requires |bytes| >= 3 && |ba| == 2
      modifies this
      ensures bytes == old(bytes)[..1] + ba + old(bytes)[3..]
    {
      bytes := bytes[1 := ba[0]];
      bytes := bytes[2 := ba[1]];
    }

    method IncrementSize() returns (ok: bool)
      modifies this
      ensures ok <==> old(|bytes|) >= 3
      ensures bytes
        == if ok then old(bytes)[..1] + UInt16ToByteArray(Wrap16(old(GetSize()).value + 1)) + old(bytes)[3..]
          else old(bytes)
    {
      var s := GetSize();
      if s.Failure? { return false; }
      SetSize(UInt16ToByteArray(Wrap16(s.value + 1)));
      return true;
    }

    method DecrementSize() returns (ok: bool)
      modifies this
      ensures ok <==> old(|bytes|) >= 3 && old(GetSize()).value > 0
      ensures bytes == if ok then old(bytes)[..1] + UInt16ToByteArray(old(GetSize()).value - 1) + old(bytes)[3..]
        else old(bytes)
    {
      var s := GetSize();
      if s.Failure? { return false; }
      if s.value <= 0 { return false; }
      SetSize(UInt16ToByteArray(s.value - 1));
      return true;
    }

    // goToIndex: where element `index` starts and its size. The offset never wraps.
    method GoToIndex(index: uint16, ghost es: seq<Bytes>) returns (ok: bool, at: uint16, size: uint16)
      requires Represents(bytes, es)
      ensures ok <==> index < |es|
      ensures ok ==> |es| < TWO_16
      ensures ok ==> at == 3 + Offset(es, index) && size == |es[index]| && at + 2 + size <= |bytes|
    {
      hide Elements, UInt16ToByteArray, ByteArrayToUI16;
      ok, at, size := false, 3, 0;
      SizeFits(es);
      UInt16RoundTrip(|es|);
      var s := GetSize();
      if s.value < index { return; }
      var currentElement: uint16 := 0;
      WholeOffset(es);
      assert es[..0] == [] && Offset(es, 0) == 0 by { NoElements(); }
      while at < Wrap16(|bytes|) && currentElement <= index
        invariant currentElement <= |es| && currentElement <= index && at == 3 + Offset(es, currentElement) <= |bytes|
        invariant size == 0
        decreases index - currentElement
      {
        assert currentElement < |es|;
        ElementsAt(es, currentElement);
        BytesAt(es, at, at + 2);
        UInt16RoundTrip(|es[currentElement]|);
        var elementSize := ByteArrayToUI16(bytes[at..at + 2]);
        if elementSize.Failure? { return; }
        if currentElement == index {
          ok, size := true, elementSize.value;
          return;
        }
        at := Wrap16(at + 2 + elementSize.value);
        currentElement := Wrap16(currentElement + 1);
      }
      if currentElement < |es| {
        OffsetGrows(es, currentElement);
      }
    }

    method At(index: uint16, ghost es: seq<Bytes>) returns (r: Result<Bytes>)
      requires Represents(bytes, es)
      ensures r == if index < |es| then Success(es[index]) else Failure
    {
      hide Represents;
      var ok, i, s := GoToIndex(index, es);
      if !ok { return Failure; }
      ElementBytes(bytes, es, index);
      r := Success(bytes[i + 2..Wrap16(i + 2 + s)]);
    }

    method Append(ba: Bytes) returns (ok: bool)
      requires |bytes| >= 3
      modifies this
      ensures ok <==> Sized(ba)
      ensures bytes == if ok then Appended(old(bytes), ba) else old(bytes)
    {
      if |ba| > UINT16_MAX { return false; }
      var sb := UInt16ToByteArray(|ba|);
      bytes := bytes + (sb + ba);
      assert bytes[1..3] == old(bytes)[1..3];
      ok := IncrementSize();
    }

    method Remove(index: uint16, ghost es: seq<Bytes>) returns (ok: bool)
      requires Represents(bytes, es)
      modifies this
      ensures ok <==> index < |es|
      ensures Represents(bytes, if ok then Removed(es, index) else es)
    {
      hide Elements, Encode, UInt16ToByteArray, ByteArrayToUI16, Removed;
      var k, s;
      ok, k, s := GoToIndex(index, es);
      if !ok { return; }
      SizeFits(es);
      UInt16RoundTrip(|es|);
      CutElement(es, index);
      ghost var rest := Removed(es, index);
      bytes := bytes[..k] + bytes[Wrap16(k + 2 + s)..];
      assert bytes[1..3] == UInt16ToByteArray(|es|);
      assert bytes[3..] == Elements(rest) && bytes[..1] == [ARRAY_TAG];
      ok := DecrementSize();
      assert bytes == [ARRAY_TAG] + UInt16ToByteArray(|es| - 1) + Elements(rest);
      assert Represents(bytes, rest) by { RemovedRepresents(es, index, bytes); }
    }

    // Replaces element i by removing it and inserting at its place. With the last index the removal leaves nothing to
    // insert before and an error is returned; an element that is too long is removed without replacement or error.
    method Insert(index: uint16, element: Bytes, ghost es: seq<Bytes>) returns (ok: bool)
      requires Represents(bytes, es)
      modifies this
      ensures ok <==> index + 1 < |es|
      ensures index >= |es| ==> bytes == old(bytes)
      ensures index + 1 == |es| ==> Represents(bytes, es[..index])
      ensures index + 1 < |es| && Sized(element) ==>
        AllSized(es[index := element]) && bytes == Encode(es[index := element])
      ensures index + 1 < |es| && !Sized(element) ==> Represents(bytes, Removed(es, index))
    {
      hide Elements, Encode, Element, UInt16ToByteArray, Offset, Appended;
      ok := Remove(index, es);
      if !ok { return; }
      ghost var rest := Removed(es, index);
      if index + 1 == |es| {
        assert rest == es[..index];
      }
      var i, s;
      ok, i, s := GoToIndex(index, rest);
      if !ok { return; }
      var tmp := new Array.NewArray();
      tmp.bytes := bytes[..i];
      var appended := tmp.Append(element);
      bytes := tmp.bytes + bytes[i..];
      if appended {
        InsertedEncodes(rest, index, element);
        assert Inserted(rest, index, element) == es[index := element];
      }
    }
  }

  // Why the total length matters: one element of 65531 bytes makes 65536 bytes, whose 16-bit length is 0, and the loop
  // of goToIndex does not run.
  lemma TooLongForOffsets(e: Bytes)
    requires |e| == 65531
    ensures Sized(e) && |Encode([e])| == TWO_16 && Wrap16(|Encode([e])|) == 0
  {
    ElementsOne(e);
  }
}
