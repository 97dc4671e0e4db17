/** The contract VM's byte-encoded map (vm/map.go): a tag, a 16-bit size and, for each entry, the sized key and the
    sized value. It refines a list of pairs searched from the front, and a finite map while keys are distinct. */
module VmMap {
  import opened Words
  import opened VmBytes

  const MAP_TAG: uint8 := 0x01

  datatype Entry = Entry(key: Bytes, value: Bytes)

  predicate SizedEntries(es: seq<Entry>) { forall i :: 0 <= i < |es| ==> Sized(es[i].key) && Sized(es[i].value) }

  function Flat(es: seq<Entry>): (fs: seq<Bytes>)
    requires SizedEntries(es)
    ensures |fs| == 2 * |es| && AllSized(fs)
    ensures forall i :: 0 <= i < |es| ==> fs[2 * i] == es[i].key && fs[2 * i + 1] == es[i].value
  {
    if es == [] then [] else Flat(es[..|es| - 1]) + [es[|es| - 1].key, es[|es| - 1].value]
  }

  function Encode(es: seq<Entry>): (ba: Bytes)
    requires SizedEntries(es)
    ensures |ba| >= 3
  {
    [MAP_TAG] + UInt16ToByteArray(Wrap16(|es|)) + Elements(Flat(es))
  }

  ghost predicate Represents(bytes: Bytes, es: seq<Entry>) {
    SizedEntries(es) && bytes == Encode(es) && |es| < TWO_16
  }

  lemma RepresentsOne(bytes: Bytes, xs: seq<Entry>, ys: seq<Entry>)
    requires Represents(bytes, xs) && Represents(bytes, ys)
    ensures xs == ys
  {
    assert Elements(Flat(xs)) == bytes[3..] == Elements(Flat(ys));
    ElementsInjective(Flat(xs), Flat(ys));
    assert forall i :: 0 <= i < |xs| ==> xs[i].key == Flat(xs)[2 * i] && xs[i].value == Flat(xs)[2 * i + 1];
  }

  // The first entry with the key, or the number of entries.
  function Find(es: seq<Entry>, key: Bytes): (i: nat)
    ensures i <= |es| && (i < |es| ==> es[i].key == key)
    ensures forall j :: 0 <= j < i ==> es[j].key != key
    decreases |es|
  {
    if es == [] then 0
    else if Find(es[..|es| - 1], key) < |es| - 1 then Find(es[..|es| - 1], key)
    else if es[|es| - 1].key == key then |es| - 1 else |es|
  }

  function Without(es: seq<Entry>, key: Bytes): seq<Entry> {
    var i := Find(es, key);
    if i < |es| then es[..i] + es[i + 1..] else es
  }

  function Lookup(es: seq<Entry>, key: Bytes): Result<Bytes> {
    var i := Find(es, key);
    if i < |es| then Success(es[i].value) else Failure
  }

  lemma {:induction false} FlatConcat(xs: seq<Entry>, ys: seq<Entry>)
    requires SizedEntries(xs) && SizedEntries(ys)
    ensures SizedEntries(xs + ys) && Flat(xs + ys) == Flat(xs) + Flat(ys)
  {
    if ys == [] {
      assert xs + ys == xs;
    } else {
      assert (xs + ys)[..|xs + ys| - 1] == xs + ys[..|ys| - 1];
      FlatConcat(xs, ys[..|ys| - 1]);
    }
  }

  lemma FlatPrefix(es: seq<Entry>, i: nat)
    requires SizedEntries(es) && i <= |es|
    ensures Flat(es)[..2 * i] == Flat(es[..i]) && Flat(es)[2 * i..] == Flat(es[i..])
  {
    hide Flat;
    assert es == es[..i] + es[i..];
    FlatConcat(es[..i], es[i..]);
    Halves(Flat(es[..i]), Flat(es[i..]));
  }

  lemma Halves(a: seq<Bytes>, b: seq<Bytes>)
    ensures (a + b)[..|a|] == a && (a + b)[|a|..] == b
  {
  }

  // Where entry i starts.
  ghost function At(es: seq<Entry>, i: nat): nat
    requires SizedEntries(es) && i <= |es|
  {
    3 + Offset(Flat(es), 2 * i)
  }

  // The bytes at an entry: the size of its key, the key, the size of its value, the value, the next entry.
  lemma EntryBytes(bytes: Bytes, es: seq<Entry>, i: nat)
    requires SizedEntries(es) && bytes == Encode(es) && i < |es|
    ensures var k, v := es[i].key, es[i].value;
      var at := At(es, i);
      && at + 2 + |k| + 2 + |v| == At(es, i + 1) <= |bytes|
      && bytes[at..at + 2] == UInt16ToByteArray(|k|) && bytes[at + 2..at + 2 + |k|] == k
      && bytes[at + 2 + |k|..at + 2 + |k| + 2] == UInt16ToByteArray(|v|) && bytes[at + 2 + |k| + 2..At(es, i + 1)] == v
  {
    hide Elements, UInt16ToByteArray, Flat, Offset;
    var fs := Flat(es);
    ElementsAt(fs, 2 * i);
    ElementsAt(fs, 2 * i + 1);
    var k, v, at := es[i].key, es[i].value, Offset(fs, 2 * i);
    Shift(bytes, Elements(fs), at, at + 2);
    Shift(bytes, Elements(fs), at + 2, at + 2 + |k|);
    Shift(bytes, Elements(fs), at + 2 + |k|, at + 2 + |k| + 2);
    Shift(bytes, Elements(fs), at + 2 + |k| + 2, at + 2 + |k| + 2 + |v|);
  }

  lemma Shift(bytes: Bytes, body: Bytes, i: nat, j: nat)
    requires |bytes| == 3 + |body| && bytes[3..] == body && i <= j <= |body|
    ensures bytes[3 + i..3 + j] == body[i..j]
  {
  }

  // An index at an entry's start is inside the bytes exactly when there is such an entry.
  lemma EntryEdges(bytes: Bytes, es: seq<Entry>, i: nat)
    requires Represents(bytes, es) && i <= |es|
    ensures SizedEntries(es) && 3 <= At(es, i) <= |bytes|
    ensures At(es, i) < |bytes| <==> i < |es|
    ensures i == 0 ==> At(es, i) == 3
  {
    OffsetGrows(Flat(es), 2 * i);
    WholeOffset(Flat(es));
    assert Flat(es)[..0] == [];
    NoElements();
  }

  lemma FindIs(es: seq<Entry>, key: Bytes, i: nat)
    requires i <= |es| && (forall j :: 0 <= j < i ==> es[j].key != key) && (i < |es| ==> es[i].key == key)
    ensures Find(es, key) == i
  {
  }

  // What each scan leaves behind when it finds no entry with the key.
  lemma NotFound(bytes: Bytes, es: seq<Entry>, key: Bytes, i: nat)
    requires Represents(bytes, es) && i <= |es| && At(es, i) >= |bytes| && forall j :: 0 <= j < i ==> es[j].key != key
    ensures Find(es, key) == |es|
  {
    EntryEdges(bytes, es, i);
    FindIs(es, key, i);
  }

  // Cutting entry i out of the bytes.
  lemma CutEntry(es: seq<Entry>, i: nat)
    requires SizedEntries(es) && i < |es|
    ensures At(es, i) <= At(es, i + 1) <= |Encode(es)|
    ensures var rest := es[..i] + es[i + 1..];
      && SizedEntries(rest)
      && Encode(es)[..At(es, i)] + Encode(es)[At(es, i + 1)..]
        == [MAP_TAG] + UInt16ToByteArray(Wrap16(|es|)) + Elements(Flat(rest))
  {
    hide Elements, UInt16ToByteArray, Flat, Offset;
    var fs, rest := Flat(es), es[..i] + es[i + 1..];
    EntryBytes(Encode(es), es, i);
    FlatPrefix(es, i);
    FlatPrefix(es, i + 1);
    FlatConcat(es[..i], es[i + 1..]);
    ElementsConcat(Flat(es[..i]), Flat(es[i + 1..]));
    OffsetSplits(fs, 2 * i);
    OffsetSplits(fs, 2 * (i + 1));
    var header, a, b := [MAP_TAG] + UInt16ToByteArray(Wrap16(|es|)), Offset(fs, 2 * i), Offset(fs, 2 * (i + 1));
    assert Encode(es)[..3 + a] == header + Elements(fs)[..a];
    assert Encode(es)[3 + b..] == Elements(fs)[b..];
  }

  lemma OffsetSplits(fs: seq<Bytes>, n: nat)
    requires AllSized(fs) && n <= |fs|
    ensures Elements(fs)[..Offset(fs, n)] == Elements(fs[..n]) && Elements(fs)[Offset(fs, n)..] == Elements(fs[n..])
  {
    hide Elements;
    SplitElements(fs, n);
  }

  class Map {
    var bytes: Bytes

    constructor NewMap()
      ensures Represents(bytes, [])
    {
      bytes := [MAP_TAG, 0x00, 0x00];
      new;
      assert bytes == Encode([]);
    }

    // MapFromByteArray checks no more than the tag.
    static method MapFromByteArray(m: Bytes) returns (r: Map?)
      ensures r == null <==> m == [] || m[0] != MAP_TAG
      ensures r != null ==> fresh(r) && r.bytes == m
    {
      if |m| <= 0 || m[0] != MAP_TAG { return null; }
      r := new Map.NewMap();
      r.bytes := m;
    }

    method SetSize(ba: Bytes)
      requires |bytes| >= 3 && |ba| == 2
      modifies this
      ensures bytes == old(bytes)[..1] + ba + old(bytes)[3..]
    {
      bytes := bytes[1 := ba[0]];
      bytes := bytes[2 := ba[1]];
    }

    method IncrementSize()
      requires |bytes| >= 3
      modifies this
      ensures bytes
        == old(bytes)[..1] + UInt16ToByteArray(Wrap16(LittleEndian(old(bytes[1]), old(bytes[2])) + 1)) + old(bytes)[3..]
    {
      var s := ByteArrayToUI16(bytes[1..3]);
      SetSize(UInt16ToByteArray(Wrap16(s.value + 1)));
    }

    method DecrementSize() returns (ok: bool)
      requires |bytes| >= 3
      modifies this
      ensures ok <==> old(bytes[1] != 0 || bytes[2] != 0)
      ensures bytes
        == if ok then old(bytes)[..1] + UInt16ToByteArray(LittleEndian(old(bytes[1]),
            old(bytes[2])) - 1) + old(bytes)[3..] else old(bytes)
    {
      var s := ByteArrayToUI16(bytes[1..3]);
      if s.value <= 0 { return false; }
      SetSize(UInt16ToByteArray(s.value - 1));
      return true;
    }

    function GetElementSize(index: nat): Result<uint16>
      requires index + 2 <= |bytes|
      reads this
    {
      ByteArrayToUI16(bytes[index..index + 2])
    }

    // The element and the index after it.
    method GetElement(startsAt: nat) returns (r: Result<Bytes>, endsBefore: nat)
      requires startsAt + 2 <= |bytes|
      ensures var size := ByteArrayToUI16(bytes[startsAt..startsAt + 2]);
        if size.Success? && startsAt + 2 + size.value <= |bytes|
        then endsBefore == startsAt + 2 + size.value && r == Success(bytes[startsAt + 2..endsBefore])
        else r == Failure && endsBefore == 0
    {
      var size := GetElementSize(startsAt);
      if size.Failure? { return Failure, 0; }
      endsBefore := startsAt + 2 + size.value;
      if startsAt >= endsBefore || |bytes| < startsAt + 2 || |bytes| < endsBefore { return Failure, 0; }
      r := Success(bytes[startsAt + 2..endsBefore]);
    }

    // The key at an entry, the size of its value and where the next entry starts.
    method ReadEntry(index: nat, ghost es: seq<Entry>, ghost i: nat) returns (k: Bytes, valueStartsAt: nat, next: nat)
      requires Represents(bytes, es) && i < |es| && index == At(es, i)
      ensures k == es[i].key && valueStartsAt == index + 2 + |k| && next == At(es, i + 1)
      ensures valueStartsAt + 2 <= next <= |bytes|
        && bytes[valueStartsAt..valueStartsAt + 2] == UInt16ToByteArray(|es[i].value|)
      ensures next == valueStartsAt + 2 + |es[i].value| && bytes[valueStartsAt + 2..next] == es[i].value
    {
      hide Encode, At, UInt16ToByteArray, ByteArrayToUI16;
      EntryBytes(bytes, es, i);
      UInt16RoundTrip(|es[i].key|);
      UInt16RoundTrip(|es[i].value|);
      var key;
      key, valueStartsAt := GetElement(index);
      k := key.value;
      var sizeOfValue := GetElementSize(valueStartsAt);
      next := valueStartsAt + 2 + sizeOfValue.value;
    }

    method MapContainsKey(key: Bytes, ghost es: seq<Entry>) returns (found: bool)
      requires Represents(bytes, es)
      ensures found <==> Find(es, key) < |es|
    {
      hide Represents, At, Encode, Find;
      var index := 3;
      ghost var i := 0;
      EntryEdges(bytes, es, 0);
      while index < |bytes|
        invariant i <= |es| && index == At(es, i) && forall j :: 0 <= j < i ==> es[j].key != key
        decreases |es| - i
      {
        EntryEdges(bytes, es, i);
        var k, valueStartsAt, next := ReadEntry(index, es, i);
        if key == k {
          FindIs(es, key, i);
          return true;
        }
        index, i := next, i + 1;
      }
      NotFound(bytes, es, key, i);
      return false;
    }

    method GetVal(key: Bytes, ghost es: seq<Entry>) returns (r: Result<Bytes>)
      requires Represents(bytes, es)
      ensures r == Lookup(es, key)
    {
      hide Represents, At, Encode, Find, ByteArrayToUI16, UInt16ToByteArray;
      var index := 3;
      ghost var i := 0;
      EntryEdges(bytes, es, 0);
      while index < |bytes|
        invariant i <= |es| && index == At(es, i) && forall j :: 0 <= j < i ==> es[j].key != key
        decreases |es| - i
      {
        EntryEdges(bytes, es, i);
        var k, valueStartsAt, next := ReadEntry(index, es, i);
        UInt16RoundTrip(|es[i].value|);
        var v, nextElementStartsAt := GetElement(valueStartsAt);
        if key == k {
          FindIs(es, key, i);
          return v;
        }
        index, i := nextElementStartsAt, i + 1;
      }
      NotFound(bytes, es, key, i);
      return Failure;
    }

    method Append(key: Bytes, value: Bytes, ghost es: seq<Entry>) returns (ok: bool)
      requires Represents(bytes, es)
      modifies this
      ensures ok <==> Sized(key) && Sized(value)
      ensures ok ==> SizedEntries(es + [Entry(key, value)]) && bytes == Encode(es + [Entry(key, value)])
      ensures !ok ==> bytes == old(bytes)
    {
      hide Elements, Flat, ByteArrayToUI16, UInt16ToByteArray;
      if |key| > UINT16_MAX || |value| > UINT16_MAX { return false; }
      ghost var more := es + [Entry(key, value)];
      AppendedElements(es, Entry(key, value));
      var tmp := bytes + UInt16ToByteArray(|key|);
      tmp := tmp + key;
      tmp := tmp + UInt16ToByteArray(|value|);
      tmp := tmp + value;
      AppendedBytes(bytes, tmp, es, Entry(key, value));
      Header(tmp, |es|, Elements(Flat(more)));
      bytes := tmp;
      IncrementSize();
      return true;
    }

    method Remove(key: Bytes, ghost es: seq<Entry>) returns (ok: bool)
      requires Represents(bytes, es)
      modifies this
      ensures ok <==> Find(es, key) < |es|
      ensures Represents(bytes, Without(es, key))
    {
      hide Represents, At, Encode, Find;
      var index := 3;
      ghost var i := 0;
      EntryEdges(bytes, es, 0);
      while index < |bytes|
        invariant i <= |es| && index == At(es, i) && forall j :: 0 <= j < i ==> es[j].key != key
        invariant bytes == old(bytes)
        decreases |es| - i
      {
        EntryEdges(bytes, es, i);
        var k, valueStartsAt, valueEndsBefore := ReadEntry(index, es, i);
        if key == k {
          FindIs(es, key, i);
          CutRepresents(bytes, es, i);
          bytes := bytes[..index] + bytes[valueEndsBefore..];
          var decremented := DecrementSize();
          return true;
        }
        index, i := valueEndsBefore, i + 1;
      }
      NotFound(bytes, es, key, i);
      return false;
    }

    // Removes the first entry with the key and appends a new one, also when there was none; then an error is returned
    // all the same. A value that is too long is dropped without an error.
    method SetVal(key: Bytes, value: Bytes, ghost es: seq<Entry>) returns (ok: bool)
      requires Represents(bytes, es)
      modifies this
      ensures ok <==> Find(es, key) < |es|
      ensures Sized(key) && Sized(value) ==>
        SizedEntries(Without(es, key) + [Entry(key, value)]) && bytes == Encode(Without(es, key) + [Entry(key, value)])
      ensures !(Sized(key) && Sized(value)) ==> Represents(bytes, Without(es, key))
    {
      ok := Remove(key, es);
      var appended := Append(key, value, Without(es, key));
    }
  }

  // The bytes after appending an entry, before the header is corrected.
  lemma AppendedBytes(bytes: Bytes, tmp: Bytes, es: seq<Entry>, e: Entry)
    requires SizedEntries(es) && Sized(e.key) && Sized(e.value) && |es| < TWO_16 && bytes == Encode(es)
    requires tmp == bytes + UInt16ToByteArray(|e.key|) + e.key + UInt16ToByteArray(|e.value|) + e.value
    ensures SizedEntries(es + [e]) && tmp == [MAP_TAG] + UInt16ToByteArray(|es|) + Elements(Flat(es + [e]))
  {
    hide Elements, Flat, UInt16ToByteArray, Encode, Element;
    AppendedElements(es, e);
    var head, body := [MAP_TAG] + UInt16ToByteArray(|es|), Elements(Flat(es));
    assert bytes == head + body by { EncodeParts(es); }
    ElementParts(e.key);
    ElementParts(e.value);
    Regroup(head, body, UInt16ToByteArray(|e.key|), e.key, UInt16ToByteArray(|e.value|), e.value);
  }

  lemma EncodeParts(es: seq<Entry>)
    requires SizedEntries(es) && |es| < TWO_16
    ensures Encode(es) == [MAP_TAG] + UInt16ToByteArray(|es|) + Elements(Flat(es))
  {
    hide Elements, Flat, UInt16ToByteArray, Wrap16;
    Wrap16Same(|es|);
  }

  lemma ElementParts(e: Bytes)
    requires Sized(e)
    ensures Element(e) == UInt16ToByteArray(|e|) + e
  {
  }

  lemma Regroup(head: Bytes, body: Bytes, a: Bytes, b: Bytes, c: Bytes, d: Bytes)
    ensures head + body + a + b + c + d == head + (body + (a + b) + (c + d))
  {
  }

  lemma AppendedElements(es: seq<Entry>, e: Entry)
    requires SizedEntries(es) && Sized(e.key) && Sized(e.value)
    ensures SizedEntries(es + [e]) && Elements(Flat(es + [e])) == Elements(Flat(es)) + Element(e.key) + Element(e.value)
  {
    assert (es + [e])[..|es|] == es;
    assert Flat(es + [e]) == Flat(es) + [e.key, e.value];
    assert [e.key, e.value] == [e.key] + [e.value];
    ElementsConcat([e.key], [e.value]);
    ElementsConcat(Flat(es), [e.key, e.value]);
    ElementsOne(e.key);
    ElementsOne(e.value);
  }

  // Cutting an entry out and correcting the header.
  lemma CutRepresents(bytes: Bytes, es: seq<Entry>, i: nat)
    requires Represents(bytes, es) && i < |es|
    ensures At(es, i) <= At(es, i + 1) <= |bytes|
    ensures var rest := es[..i] + es[i + 1..];
      var cut := bytes[..At(es, i)] + bytes[At(es, i + 1)..];
      && |cut| >= 3 && (cut[1] != 0 || cut[2] != 0)
      && Represents(cut[..1] + UInt16ToByteArray(LittleEndian(cut[1], cut[2]) - 1) + cut[3..], rest)
  {
    hide Elements, Flat, At, UInt16ToByteArray;
    CutEntry(es, i);
    UInt16RoundTrip(|es|);
    var rest, cut := es[..i] + es[i + 1..], bytes[..At(es, i)] + bytes[At(es, i + 1)..];
    Header(cut, |es|, Elements(Flat(rest)));
  }

  lemma Header(bytes: Bytes, n: uint16, body: Bytes)
    requires bytes == [MAP_TAG] + UInt16ToByteArray(n) + body
    ensures |bytes| >= 3 && LittleEndian(bytes[1], bytes[2]) == n && (n > 0 ==> bytes[1] != 0 || bytes[2] != 0)
    ensures bytes[..1] == [MAP_TAG] && bytes[3..] == body
  {
  }

  // -------------------- the map as a finite map --------------------

  ghost predicate DistinctKeys(es: seq<Entry>) { forall i, j :: 0 <= i < j < |es| ==> es[i].key != es[j].key }

  // Later entries are hidden by earlier ones.
  ghost function AsMap(es: seq<Entry>): map<Bytes, Bytes> {
    if es == [] then map[]
    else var rest := AsMap(es[..|es| - 1]); if es[|es| - 1].key in rest then rest
    else rest[es[|es| - 1].key := es[|es| - 1].value]
  }

  lemma {:induction false} LookupIsMap(es: seq<Entry>, key: Bytes)
    ensures Lookup(es, key).Success? <==> key in AsMap(es)
    ensures Lookup(es, key).Success? ==> AsMap(es)[key] == Lookup(es, key).value
  {
    if es != [] {
      LookupIsMap(es[..|es| - 1], key);
    }
  }

  // Removing the first entry with a key removes the key, exactly when no later entry has it.
  lemma RemoveIsMap(es: seq<Entry>, key: Bytes)
    requires DistinctKeys(es)
    ensures DistinctKeys(Without(es, key)) && AsMap(Without(es, key)) == AsMap(es) - {key}
  {
    var i, rest := Find(es, key), Without(es, key);
    forall k ensures Lookup(rest, k) == if k == key then Failure else Lookup(es, k) {
      WithoutLookup(es, key, k);
    }
    SameMap(rest, es, key);
  }

  lemma SameMap(rest: seq<Entry>, es: seq<Entry>, key: Bytes)
    requires forall k :: Lookup(rest, k) == if k == key then Failure else Lookup(es, k)
    ensures AsMap(rest) == AsMap(es) - {key}
  {
    forall k ensures k in AsMap(rest) <==> k in AsMap(es) - {key} {
      LookupIsMap(rest, k);
      LookupIsMap(es, k);
    }
    forall k | k in AsMap(rest) ensures AsMap(rest)[k] == AsMap(es)[k] {
      LookupIsMap(rest, k);
      LookupIsMap(es, k);
    }
  }

  lemma WithoutLookup(es: seq<Entry>, key: Bytes, k: Bytes)
    requires DistinctKeys(es)
    ensures Lookup(Without(es, key), k) == if k == key then Failure else Lookup(es, k)
  {
    var i, n, rest := Find(es, key), Find(es, k), Without(es, key);
    if i < |es| {
      FindIs(rest, k, if k == key then |rest| else if n < i then n else n - 1);
    }
  }

  // SetVal then GetVal: the new value comes back exactly when no second entry of that key was there to hide it.
  lemma SetThenGet(es: seq<Entry>, key: Bytes, value: Bytes)
    ensures Lookup(Without(es, key) + [Entry(key, value)], key) == Success(value)
      <==> Lookup(Without(es, key), key) in {Failure, Success(value)}
    ensures DistinctKeys(es) ==> Lookup(Without(es, key), key) == Failure
  {
    var rest := Without(es, key);
    FindIs(rest + [Entry(key, value)], key, Find(rest, key));
    if DistinctKeys(es) {
      WithoutLookup(es, key, key);
    }
  }

  // While keys are distinct, SetVal is a map update and keeps them distinct; so does Append of a new key.
  lemma SetIsMap(es: seq<Entry>, key: Bytes, value: Bytes)
    requires DistinctKeys(es)
    ensures var after := Without(es, key) + [Entry(key, value)];
      DistinctKeys(after) && AsMap(after) == AsMap(es)[key := value]
  {
    var rest := Without(es, key);
    RemoveIsMap(es, key);
    LookupIsMap(rest, key);
    var after := rest + [Entry(key, value)];
    assert after[..|rest|] == rest;
    assert AsMap(after) == AsMap(rest)[key := value];
    WithoutLookup(es, key, key);
    assert Find(rest, key) == |rest|;
  }

  // Appending a key that is already there changes nothing a lookup can see.
  lemma AppendIsMap(es: seq<Entry>, key: Bytes, value: Bytes)
    ensures AsMap(es + [Entry(key, value)]) == if key in AsMap(es) then AsMap(es) else AsMap(es)[key := value]
  {
    assert (es + [Entry(key, value)])[..|es|] == es;
  }
}
