/** The contract VM's map and array opcodes (vm/vm.go): what they push, from the operations they call, and its size. It
    is at most the operands and the sizes written in front of a key, a value or an element, so no result can wrap the
    stack's check. */
module VmLibrary {
  import opened Words
  import opened VmBytes
  import VmArray
  import opened VmExec
  import opened VmSemantics
  import VmMap
  import opened VmStack

  lemma UsageOfThree(a: Bytes, b: Bytes, c: Bytes)
    ensures Usage([a, b]) == |a| + |b| && Usage([a, b, c]) == |a| + |b| + |c|
  {
    UsageOne(a);
    assert [a, b][..1] == [a] && [a, b, c][..2] == [a, b];
  }

  lemma MapSize(es: seq<VmMap.Entry>, e: VmMap.Entry)
    requires VmMap.SizedEntries(es) && Sized(e.key) && Sized(e.value)
    ensures VmMap.SizedEntries(es + [e]) && |VmMap.Encode(es + [e])| == |VmMap.Encode(es)| + |e.key| + |e.value| + 4
  {
    VmMap.AppendedElements(es, e);
  }

  lemma MapRest(es: seq<VmMap.Entry>, i: nat)
    requires VmMap.SizedEntries(es) && i < |es|
    ensures var rest := es[..i] + es[i + 1..];
      VmMap.SizedEntries(rest) && |VmMap.Encode(rest)| + |es[i].key| + |es[i].value| + 4 == |VmMap.Encode(es)|
  {
    hide VmMap.Encode, VmMap.Flat, Elements;
    VmMap.CutEntry(es, i);
    VmMap.EntryBytes(VmMap.Encode(es), es, i);
    EncodedSize(es);
    EncodedSize(es[..i] + es[i + 1..]);
  }

  lemma EncodedSize(es: seq<VmMap.Entry>)
    requires VmMap.SizedEntries(es)
    ensures |VmMap.Encode(es)| == 3 + |Elements(VmMap.Flat(es))|
  {
  }

  // Every result of a map opcode is within the bound on its operands.
  lemma MapResultsAreBounded(bytes: Bytes, es: seq<VmMap.Entry>, key: Bytes, value: Bytes)
    requires VmMap.Represents(bytes, es)
    ensures VmMap.Lookup(es, key).Success? ==> |VmMap.Lookup(es, key).value| <= LibraryBound([bytes, key])
    ensures var rest := VmMap.Without(es, key);
      VmMap.SizedEntries(rest) && |VmMap.Encode(rest)| <= LibraryBound([bytes, key])
    ensures Sized(key) && Sized(value) ==> var pushed := es + [VmMap.Entry(key, value)];
      VmMap.SizedEntries(pushed) && |VmMap.Encode(pushed)| <= LibraryBound([bytes, key, value])
    ensures Sized(key) && Sized(value) ==> var changed := VmMap.Without(es, key) + [VmMap.Entry(key, value)];
      VmMap.SizedEntries(changed) && |VmMap.Encode(changed)| <= LibraryBound([bytes, key, value])
  {
    hide VmMap.Encode, VmMap.Find, Usage;
    UsageOfThree(bytes, key, value);
    var i := VmMap.Find(es, key);
    if i < |es| {
      MapRest(es, i);
    }
    if Sized(key) && Sized(value) {
      MapSize(es, VmMap.Entry(key, value));
      MapSize(VmMap.Without(es, key), VmMap.Entry(key, value));
    }
  }

  // So is every result of an array opcode.
  lemma ArrayResultsAreBounded(bytes: Bytes, es: seq<Bytes>, index: Bytes, i: nat, element: Bytes)
    requires VmArray.Represents(bytes, es)
    ensures i < |es| ==> |es[i]| <= LibraryBound([bytes, index])
    ensures i < |es| ==> var rest := VmArray.Removed(es, i);
      AllSized(rest) && |VmArray.Encode(rest)| <= LibraryBound([bytes, index])
    ensures Sized(element) ==>
      AllSized(es + [element]) && |VmArray.Encode(es + [element])| <= LibraryBound([bytes, element])
    ensures i < |es| && Sized(element) ==>
      AllSized(es[i := element]) && |VmArray.Encode(es[i := element])| <= LibraryBound([bytes, index, element])
  {
    hide Elements, Usage;
    UsageOfThree(bytes, index, element);
    UsageOfThree(bytes, element, []);
    if Sized(element) {
      ElementsConcat(es, [element]);
      ElementsOne(element);
    }
    if i < |es| {
      ElementsAt(es, i);
      ElementsConcat(es[..i], es[i + 1..]);
      if Sized(element) {
        assert es[i := element] == es[..i] + [element] + es[i + 1..];
        ElementsConcat(es[..i], [element]);
        ElementsConcat(es[..i] + [element], es[i + 1..]);
      }
    }
  }

  // -------------------- the library --------------------

  predicate OnMaps(op: OpCode) { op in {MAPHASKEY, MAPPUSH, MAPGETVAL, MAPSETVAL, MAPREMOVE} }
  predicate OnArrays(op: OpCode) { op in {ARRAPPEND, ARRINSERT, ARRREMOVE, ARRAT} }

  predicate Tagged(bytes: Bytes, tag: uint8) { bytes != [] && bytes[0] == tag }

  // The operands are an encoded map, or an encoded array with an index, if the opcode takes one.
  ghost predicate IsMap(bytes: Bytes) { exists es :: VmMap.Represents(bytes, es) }
  ghost predicate IsArray(bytes: Bytes) { exists es :: VmArray.Represents(bytes, es) }

  ghost function Entries(bytes: Bytes): (es: seq<VmMap.Entry>)
    requires IsMap(bytes)
    ensures VmMap.Represents(bytes, es)
  {
    var es :| VmMap.Represents(bytes, es); es
  }

  ghost function Items(bytes: Bytes): (es: seq<Bytes>)
    requires IsArray(bytes)
    ensures VmArray.Represents(bytes, es)
  {
    var es :| VmArray.Represents(bytes, es); es
  }

  // The entry after the others, where key and value can be sized.
  ghost function Added(es: seq<VmMap.Entry>, key: Bytes, value: Bytes): Bytes
    requires VmMap.SizedEntries(es)
  {
    if Sized(key) && Sized(value) then VmMap.Encode(es + [VmMap.Entry(key, value)]) else VmMap.Encode(es)
  }

  lemma RestSized(es: seq<VmMap.Entry>, key: Bytes)
    requires VmMap.SizedEntries(es)
    ensures VmMap.SizedEntries(VmMap.Without(es, key))
  {
  }

  // A map opcode on an encoded map.
  ghost function MapAnswer(op: OpCode, args: seq<Bytes>): Computed
    requires OnMaps(op) && |args| == OperandCount(op) && IsMap(args[0])
  {
    var es, k := Entries(args[0]), args[1];
    RestSized(es, k);
    var present, rest := VmMap.Find(es, k) < |es|, VmMap.Without(es, k);
    if op == MAPHASKEY then Computed(Bool(present))
    else if op == MAPPUSH then if Sized(k) && Sized(args[2]) then Computed(Added(es, k, args[2])) else Error
    else if !present then Error
    else if op == MAPGETVAL then Computed(VmMap.Lookup(es, k).value)
    else if op == MAPSETVAL then Computed(Added(rest, k, args[2]))
    else Computed(VmMap.Encode(rest))
  }

  // An array opcode on an encoded array.
  ghost function ArrayAnswer(op: OpCode, args: seq<Bytes>): Computed
    requires OnArrays(op) && |args| == OperandCount(op) && IsArray(args[0])
  {
    var es := Items(args[0]);
    if op == ARRAPPEND then
      if Sized(args[1]) then AppendedSized(es, args[1]); Computed(VmArray.Encode(es + [args[1]])) else Error
    else
      var index := ByteArrayToUI16(args[1]);
      if index.Failure? || index.value >= |es| then Error
      else
        var i := index.value;
        RemovedSized(es, i);
        if op == ARRAT then Computed(es[i])
        else if op == ARRREMOVE || (i + 1 < |es| && !Sized(args[2])) then
          Computed(VmArray.Encode(VmArray.Removed(es, i)))
        else if i + 1 < |es| then Computed(VmArray.Encode(es[i := args[2]]))
        else Error
  }

  lemma AppendedSized(es: seq<Bytes>, e: Bytes)
    requires AllSized(es) && Sized(e)
    ensures AllSized(es + [e])
  {
  }

  lemma RemovedSized(es: seq<Bytes>, i: nat)
    requires AllSized(es) && i < |es|
    ensures AllSized(VmArray.Removed(es, i))
  {
  }

  // What the interpreter is told after some of the operands: an opcode refuses a map without its tag, or an index of
  // more than two bytes, before it pops the next one.
  function Early(op: OpCode, args: seq<Bytes>): Computed {
    if op in {MAPHASKEY, MAPSETVAL} && args != [] && !Tagged(args[0], VmMap.MAP_TAG) then Error
    else if op == ARRINSERT && |args| > 1 && |args[1]| > 2 then Error
    else Computed([])
  }

  // The library of the modelled operations. On operands that encode no map or array, and for digests and signatures,
  // the answer is `other`.
  ghost function Answer(other: (OpCode, seq<Bytes>) -> Computed, op: OpCode, args: seq<Bytes>): Computed {
    if op in {NEWMAP, NEWARR} then Computed([if op == NEWMAP then VmMap.MAP_TAG else VmArray.ARRAY_TAG, 0x00, 0x00])
    else if |args| != OperandCount(op) then Early(op, args)
    else if OnMaps(op) then
      if !Tagged(args[0], VmMap.MAP_TAG) then Error
      else if IsMap(args[0]) then MapAnswer(op, args) else other(op, args)
    else if OnArrays(op) then
      if !Tagged(args[0], VmArray.ARRAY_TAG) || (op in {ARRINSERT, ARRREMOVE} && |args[1]| > 2) then Error
      else if IsArray(args[0]) then ArrayAnswer(op, args) else other(op, args)
    else other(op, args)
  }

  // The opcodes on an encoded map compute what the operations of the map leave behind.
  method MapOpcode(op: OpCode, args: seq<Bytes>) returns (answer: Computed)
    requires OnMaps(op) && |args| == OperandCount(op) && IsMap(args[0])
    ensures answer == MapAnswer(op, args)
  {
    hide VmMap.Encode, VmMap.Find, VmMap.Without;
    ghost var es := Entries(args[0]);
    var k := args[1];
    var m := VmMap.Map.MapFromByteArray(args[0]);
    assert m != null by { MapTag(args[0], es); }
    RestSized(es, k);
    if op == MAPHASKEY {
      var result := m.MapContainsKey(k, es);
      return Computed(Bool(result));
    } else if op == MAPGETVAL {
      var v := m.GetVal(k, es);
      return if v.Failure? then Error else Computed(v.value);
    }
    var ok: bool;
    if op == MAPPUSH {
      ok := m.Append(k, args[2], es);
    } else if op == MAPSETVAL {
      ok := m.SetVal(k, args[2], es);
    } else {
      ok := m.Remove(k, es);
    }
    answer := if ok then Computed(m.bytes) else Error;
  }

  lemma MapTag(bytes: Bytes, es: seq<VmMap.Entry>)
    requires VmMap.Represents(bytes, es)
    ensures Tagged(bytes, VmMap.MAP_TAG)
  {
  }

  lemma ArrayTag(bytes: Bytes, es: seq<Bytes>)
    requires VmArray.Represents(bytes, es)
    ensures Tagged(bytes, VmArray.ARRAY_TAG) && |bytes| >= 3
  {
  }

  lemma HeaderIsSize(bytes: Bytes, es: seq<Bytes>)
    requires VmArray.Represents(bytes, es)
    ensures |bytes| >= 3 && ByteArrayToUI16(bytes[1..3]) == Success(|es|)
  {
    VmArray.SizeFits(es);
    UInt16RoundTrip(|es|);
  }

  // And those on an encoded array.
  method ArrayOpcode(op: OpCode, args: seq<Bytes>) returns (answer: Computed)
    requires OnArrays(op) && |args| == OperandCount(op) && IsArray(args[0])
    ensures answer == ArrayAnswer(op, args)
  {
    hide VmArray.Encode, VmArray.Removed, VmArray.Appended, ByteArrayToUI16;
    ghost var es := Items(args[0]);
    var arr := VmArray.Array.ArrayFromByteArray(args[0]);
    ArrayTag(args[0], es);
    var ok: bool;
    if op == ARRAPPEND {
      if Sized(args[1]) { VmArray.AppendedEncodes(es, args[1]); }
      ok := arr.Append(args[1]);
      return if ok then Computed(arr.bytes) else Error;
    }
    var index := ByteArrayToUI16(args[1]);
    if index.Failure? { return Error; }
    if op == ARRAT {
      var element := arr.At(index.value, es);
      return if element.Failure? then Error else Computed(element.value);
    }
    if op == ARRINSERT {
      HeaderIsSize(args[0], es);
      var size := arr.GetSize();
      if index.value >= size.value { return Error; }
      ok := arr.Insert(index.value, args[2], es);
    } else {
      ok := arr.Remove(index.value, es);
    }
    answer := if ok then Computed(arr.bytes) else Error;
  }

  // -------------------- its size --------------------

  // What is not modelled does not outgrow its operands either.
  ghost predicate OtherBounded(other: (OpCode, seq<Bytes>) -> Computed) {
    forall op, args: seq<Bytes> :: other(op, args).Computed? ==> |other(op, args).bytes| <= LibraryBound(args)
  }

  lemma MapAnswerIsBounded(op: OpCode, args: seq<Bytes>)
    requires OnMaps(op) && |args| == OperandCount(op) && IsMap(args[0]) && MapAnswer(op, args).Computed?
    ensures |MapAnswer(op, args).bytes| <= LibraryBound(args)
  {
    hide VmMap.Encode, VmMap.Find, VmMap.Without, Usage;
    var es := Entries(args[0]);
    SmallAnswers(args);
    if |args| == 2 {
      assert args == [args[0], args[1]];
      MapResultsAreBounded(args[0], es, args[1], []);
    } else {
      assert args == [args[0], args[1], args[2]];
      MapResultsAreBounded(args[0], es, args[1], args[2]);
      UsageOfThree(args[0], args[1], args[2]);
    }
  }

  lemma ArrayAnswerIsBounded(op: OpCode, args: seq<Bytes>)
    requires OnArrays(op) && |args| == OperandCount(op) && IsArray(args[0]) && ArrayAnswer(op, args).Computed?
    ensures |ArrayAnswer(op, args).bytes| <= LibraryBound(args)
  {
    hide VmArray.Encode, VmArray.Removed, Usage, ByteArrayToUI16;
    var es := Items(args[0]);
    var index := ByteArrayToUI16(args[1]);
    var i := if index.Success? then index.value else 0;
    if |args| == 2 {
      assert args == [args[0], args[1]];
      ArrayResultsAreBounded(args[0], es, args[1], i, args[1]);
    } else {
      assert args == [args[0], args[1], args[2]];
      ArrayResultsAreBounded(args[0], es, args[1], i, args[2]);
      UsageOfThree(args[0], args[1], args[2]);
    }
  }

  // Surroundings with the modelled library satisfy what the interpreter needs: only what is not modelled, and the sizes
  // of the context and of the messages, remain to be bounded.
  lemma ModelledLibraryIsBounded(env: Env, other: (OpCode, seq<Bytes>) -> Computed)
    requires OtherBounded(other) && forall op, args: seq<Bytes> :: env.library(op, args) == Answer(other, op, args)
    requires var c := env.context;
      && |c.address| <= 64 && |c.issuer| <= 64 && |c.balance| <= 64 && |c.sender| <= 64 && |c.amount| <= 64
      && |c.data| <= MAX_ELEMENT
    requires (forall op, kind :: |env.messages(op, kind)| <= MAX_ELEMENT)
      && (forall kind :: |env.execMessages(kind)| <= MAX_ELEMENT)
    ensures env.Bounded()
  {
    hide MapAnswer, ArrayAnswer, LibraryBound;
    forall op, args: seq<Bytes> | env.library(op, args).Computed?
      ensures |env.library(op, args).bytes| <= LibraryBound(args)
    {
      assert env.library(op, args) == Answer(other, op, args);
      SmallAnswers(args);
      if OnMaps(op) && |args| == OperandCount(op) && IsMap(args[0]) && MapAnswer(op, args).Computed? {
        MapAnswerIsBounded(op, args);
      }
      if OnArrays(op) && |args| == OperandCount(op) && IsArray(args[0]) && ArrayAnswer(op, args).Computed? {
        ArrayAnswerIsBounded(op, args);
      }
    }
  }

  lemma SmallAnswers(args: seq<Bytes>)
    ensures LibraryBound(args) >= 3
  {
  }
}
