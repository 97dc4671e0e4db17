/** The contract VM's interpreter loop and its gas (vm/vm.go, vm/op_codes.go). The opcodes on maps, arrays, SHA3 and
    signatures compute through the parameter `library`, whose malformed inputs may end in a slice panic; error messages
    are the parameter `messages`. Bytes are values: slices do not alias. */
module VmExec {
  import opened Encoding
  import opened NumberTheory
  import opened VmBytes
  import opened Options
  import opened VmSemantics
  import opened VmStack
  import opened Words

  lemma CalculateSize(op: OpCode, a: Bytes, b: Bytes)
    requires |a| <= MEMORY_MAX && |b| <= MEMORY_MAX && SignedBigIntConversion(a).Number?
      && SignedBigIntConversion(b).Number?
    requires op in {ADD, SUB, MULT} || (op in {DIV, MOD} && SignedBigIntConversion(b).n != 0)
    ensures |SignedByteArrayConversion(Calculate(op, SignedBigIntConversion(a).n,
      SignedBigIntConversion(b).n))| <= MAX_ELEMENT
  {
    hide SignedBigIntConversion, SignedByteArrayConversion, Within;
    var x, i, y, j := SignedBigIntConversion(a).n, |a| - 1, SignedBigIntConversion(b).n, |b| - 1;
    assert i >= 0 && j >= 0 by { NumberHasBytes(a); NumberHasBytes(b); }
    OperandWithin(a);
    OperandWithin(b);
    match op
    case ADD => SumWithin(x, i, y, j); ResultSize(x + y, (if i > j then i else j) + 1);
    case SUB => SumWithin(x, i, y, j); ResultSize(x - y, (if i > j then i else j) + 1);
    case MULT => ProductWithin(x, i, y, j); ResultSize(x * y, i + j);
    case DIV => QuotientWithin(x, i, y, j); ResultSize(x / y, i + 1);
    case MOD => QuotientWithin(x, i, y, j); ResultSize(x % y, j);
  }

  lemma NumberHasBytes(a: Bytes)
    requires SignedBigIntConversion(a).Number?
    ensures a != []
  {
  }

  // An operand is within the memory limit, and so is its negation.
  lemma NumberWithin(a: Bytes)
    requires |a| <= MEMORY_MAX && SignedBigIntConversion(a).Number?
    ensures var n := SignedBigIntConversion(a).n; Within(n, MEMORY_MAX) && Within(0 - n, MEMORY_MAX)
  {
    OperandWithin(a);
    PowerGrows(|a| - 1, MEMORY_MAX);
  }

  lemma UnsignedWithin(a: Bytes)
    requires |a| <= MEMORY_MAX
    ensures Within(Value(a), MEMORY_MAX)
  {
    ValueBound(a);
    PowerGrows(|a|, MEMORY_MAX);
  }

  lemma OneMoreVariable(frame: Frame, i: nat, n: int)
    requires SmallFrame(frame) && Within(n, MEMORY_MAX)
    ensures SmallFrame(frame.(variables := frame.variables[i := n]))
  {
    hide Within;
  }

  function EmptyFrame(returnAddress: nat): (frame: Frame)
    ensures SmallFrame(frame) && frame.returnAddress == returnAddress && frame.variables == map[]
  {
    Frame(returnAddress, map[])
  }

  lemma WithinSize(n: int)
    requires Within(n, MEMORY_MAX)
    ensures |SignedByteArrayConversion(n)| <= MAX_ELEMENT
  {
    ResultSize(n, MEMORY_MAX);
  }

  lemma ZeroWithin()
    ensures Within(0, MEMORY_MAX)
  {
    PowerGrows(0, MEMORY_MAX);
  }

  ghost predicate SmallFrame(frame: Frame) {
    forall i :: i in frame.variables ==> Within(frame.variables[i], MEMORY_MAX)
  }

  // -------------------- the machine --------------------

  class VM {
    const env: Env
    const evaluationStack: Stack
    var code: Bytes
    var pc: nat
    var fee: uint64
    var callStack: seq<Frame>
    var variables: seq<Bytes>

    ghost predicate Valid()
      reads this, evaluationStack
    {
      && env.Bounded() && evaluationStack.Valid()
      && (forall v <- variables :: |v| <= MAX_ELEMENT) && (forall frame <- callStack :: SmallFrame(frame))
    }

    ghost function View(): State
      reads this, evaluationStack
    {
      State(evaluationStack.elements, pc, fee, callStack, variables)
    }

    constructor NewVM(env: Env, variables: seq<Bytes>)
      requires env.Bounded() && forall v <- variables :: |v| <= MAX_ELEMENT
      ensures Valid() && this.env == env && this.variables == variables && evaluationStack.elements == []
        && callStack == []
      ensures fresh(evaluationStack) && pc == 0
    {
      this.env, this.variables := env, variables;
      evaluationStack := new Stack.NewStack();
      code, pc, fee, callStack := [], 0, 0, [];
    }

    method Fetch() returns (r: Result<uint8>)
      modifies this`pc
      ensures if old(pc) < |code| then r == Success(code[old(pc)]) && pc == old(pc) + 1
        else r == Failure && pc == old(pc)
    {
      if |code| > pc {
        r := Success(code[pc]);
        pc := pc + 1;
      } else {
        r := Failure;
      }
    }

    // An argument that ends with the code is refused.
    method FetchMany(n: nat) returns (r: Result<Bytes>)
      modifies this`pc
      ensures if old(pc) + n < |code| then r == Success(code[old(pc)..old(pc) + n]) && pc == old(pc) + n
        else r == Failure && pc == old(pc)
    {
      if |code| - pc > n {
        r := Success(code[pc..pc + n]);
        pc := pc + n;
      } else {
        r := Failure;
      }
    }

    // The error return: a message is pushed if there is room.
    method Fail(op: OpCode, kind: Kind) returns (status: Status)
      requires Valid()
      modifies evaluationStack
      ensures Valid() && status == Done(false) && View().fee == old(View()).fee
    {
      hide SmallFrame;
      var ok := evaluationStack.Push(env.messages(op, kind));
      status := Done(false);
    }

    // Takes the cost of popping an element off the gas.
    method Charge(op: OpCode, element: Bytes) returns (ok: bool)
      requires |element| <= MEMORY_MAX
      modifies this`fee
      ensures ok <==> PopCost(op, element) <= old(fee) && old(fee) - PopCost(op, element) < TWO_63
      ensures fee == if ok then old(fee) - PopCost(op, element) else old(fee)
    {
      var gasCost := GasFactor(op) * ((|element| + 63) / 64);
      AffordableExactly(fee, gasCost);
      ok := Affordable(fee, gasCost);
      if ok {
        fee := Wrap64(fee - gasCost);
      }
    }

    // The element is gone even when it could not be paid for.
    method PopBytes(op: OpCode) returns (r: Popped<Bytes>)
      requires Valid()
      modifies this`fee, evaluationStack
      ensures Valid() && r != PopPanic && View() == Drop(op, old(View())) && View().fee <= old(View()).fee
      ensures r.Popped? <==> Take(op, old(View()), 1).Some?
      ensures r.Popped? ==> Take(op, old(View()), 1) == Some(View())
      ensures r.Popped? ==>
        old(View()).elements != [] && r.value == Top(old(View())) && |Top(old(View()))| <= MEMORY_MAX
      ensures var before := old(evaluationStack.elements);
        if before == [] then r == NotPopped(Empty) && evaluationStack.elements == before && fee == old(fee)
        else var top := before[|before| - 1];
          && evaluationStack.elements == before[..|before| - 1] && |top| <= MEMORY_MAX
          && if PopCost(op, top) <= old(fee) && old(fee) - PopCost(op, top) < TWO_63
             then r == Popped(top) && fee == old(fee) - PopCost(op, top)
             else r == NotPopped(OutOfGas) && fee == old(fee)
    {
      hide PopCost, SmallFrame;
      TakeOne(op, View());
      var bytes := evaluationStack.Pop();
      if bytes.Failure? { return NotPopped(Empty); }
      var paid := Charge(op, bytes.value);
      r := if paid then Popped(bytes.value) else NotPopped(OutOfGas);
    }

    method PopSignedBigInt(op: OpCode) returns (r: Popped<int>)
      requires Valid()
      modifies this`fee, evaluationStack
      ensures Valid() && View() == Drop(op, old(View())) && View().fee <= old(View()).fee
      ensures r == PopPanic <==> EmptyNumber(op, old(View()), 1)
      ensures r.Popped? <==>
        Take(op, old(View()), 1).Some? && SignedBigIntConversion(Top(old(View()))).Number?
      ensures r.Popped? ==>
        && old(View()).elements != [] && |Top(old(View()))| <= MEMORY_MAX && Take(op, old(View()), 1) == Some(View())
        && SignedBigIntConversion(Top(old(View()))) == Number(r.value)
    {
      hide SmallFrame, Env.Bounded, PopCost, Take, Value, Payable;
      TakeOne(op, View());
      var bytes := PopBytes(op);
      if bytes.NotPopped? { return NotPopped(bytes.kind); }
      match SignedBigIntConversion(bytes.value) {
        case NoBytes => r := PopPanic;
        case BadSign => r := NotPopped(Invalid);
        case Number(n) => r := Popped(n);
      }
    }

    method PopUnsignedBigInt(op: OpCode) returns (r: Popped<nat>)
      requires Valid()
      modifies this`fee, evaluationStack
      ensures Valid() && fee <= old(fee) && r != PopPanic && View() == Drop(op, old(View()))
      ensures View().fee <= old(View()).fee
      ensures r.Popped? <==> Take(op, old(View()), 1).Some?
      ensures r.Popped? ==> Take(op, old(View()), 1) == Some(View())
      ensures r.Popped? ==>
        old(View()).elements != [] && r.value == Value(Top(old(View()))) && Within(r.value, MEMORY_MAX)
    {
      hide SmallFrame, Env.Bounded, PopCost, Take, Value, Payable, Drop, Within;
      var bytes := PopBytes(op);
      if bytes.NotPopped? { return NotPopped(bytes.kind); }
      UnsignedWithin(bytes.value);
      r := Popped(Value(bytes.value));
    }

    // Push, and the error return when there is no room.
    method PushOrFail(op: OpCode, bytes: Bytes) returns (status: Status)
      requires Valid() && |bytes| <= MAX_ELEMENT
      modifies evaluationStack
      ensures Valid() && status in {Running, Done(false)} && View().fee == old(View()).fee
      ensures status == Running <==> old(evaluationStack.memoryUsage) + |bytes| <= MEMORY_MAX
      ensures status == Running ==> evaluationStack.elements == old(evaluationStack.elements) + [bytes]
      ensures Matches(Put(old(View()), bytes), status, View())
    {
      var ok := evaluationStack.Push(bytes);
      if ok { return Running; }
      status := Fail(op, NoMemory);
    }

    // Push whose error is ignored.
    method PushIfFits(bytes: Bytes) returns (status: Status)
      requires Valid() && |bytes| <= MAX_ELEMENT
      modifies evaluationStack
      ensures Valid() && Matches(Offer(old(View()), bytes), status, View()) && View().fee == old(View()).fee
    {
      hide Usage, SmallFrame, Env.Bounded;
      var dropped := evaluationStack.Push(bytes);
      status := Running;
    }

    // -------------------- instructions --------------------

    method Push() returns (status: Status)
      requires Valid()
      modifies this`pc, evaluationStack
      ensures Valid() && View().fee <= old(View()).fee
      ensures Matches(PushTurn(code, old(View())), status, View())
    {
      hide SmallFrame, Env.Bounded, Usage;
      var arg := Fetch();
      var bytes := FetchMany((if arg.Success? then arg.value else 0) + 1);
      if arg.Failure? || bytes.Failure? {
        status := Fail(PUSH, OutOfBounds);
        return;
      }
      status := PushOrFail(PUSH, bytes.value);
    }

    method Dup() returns (status: Status)
      requires Valid()
      modifies this`fee, evaluationStack
      ensures Valid() && View().fee <= old(View()).fee && status in {Running, Done(false)}
      ensures Matches(DupTurn(old(View())), status, View())
    {
      hide SmallFrame, Env.Bounded, PopCost, Usage, Payable, Take;
      TakeOne(DUP, View());
      ghost var before := evaluationStack.elements;
      var tos := PopBytes(DUP);
      if tos.NotPopped? {
        status := Fail(DUP, tos.kind);
        return;
      }
      UsageSnoc(before[..|before| - 1], tos.value);
      assert before == before[..|before| - 1] + [tos.value];
      status := PushTwice(DUP, tos.value);
    }

    method PushTwice(op: OpCode, bytes: Bytes) returns (status: Status)
      requires Valid() && |bytes| <= MAX_ELEMENT
      modifies evaluationStack
      ensures Valid() && status in {Running, Done(false)}
      ensures status == Running <==> Usage(old(evaluationStack.elements)) + 2 * |bytes| <= MEMORY_MAX
      ensures status == Running ==> evaluationStack.elements == old(evaluationStack.elements) + [bytes, bytes]
    {
      hide SmallFrame, Env.Bounded, Usage, Put;
      UsageSnoc(evaluationStack.elements, bytes);
      status := PushOrFail(op, bytes);
      if status == Running {
        status := PushOrFail(op, bytes);
      }
    }

    // Takes an element out and pushes it again, which always fits.
    method Lift(index: nat) returns (status: Status)
      requires Valid() && index < |evaluationStack.elements|
      modifies evaluationStack
      ensures Valid() && status == Running
      ensures var before := old(evaluationStack.elements);
        View() == old(View()).(elements := before[..index] + before[index + 1..] + [before[index]])
    {
      hide SmallFrame, Env.Bounded, Usage, Put;
      UsageAt(evaluationStack.elements, index);
      var newTos := evaluationStack.PopIndexAt(index);
      PutFits(View(), newTos);
      status := PushOrFail(ROLL, newTos);
    }

    // Brings the element `arg + 1` below the top to the top. The index handed to PopIndexAt is always in range.
    method Roll() returns (status: Status)
      requires Valid()
      modifies this`pc, evaluationStack
      ensures Valid() && View().fee <= old(View()).fee
      ensures Matches(RollTurn(code, old(View())), status, View())
    {
      hide SmallFrame, Env.Bounded, Usage;
      var arg := Fetch();
      var index := |evaluationStack.elements| - ((if arg.Success? then arg.value else 0) + 2);
      if arg.Failure? {
        status := Fail(ROLL, OutOfBounds);
        return;
      }
      if index != -1 {
        if arg.value >= |evaluationStack.elements| {
          status := Fail(ROLL, OutOfBounds);
          return;
        }
        status := Lift(index);
      } else {
        status := Running;
      }
    }

    method Pop() returns (status: Status)
      requires Valid()
      modifies this`fee, evaluationStack
      ensures Valid() && View().fee <= old(View()).fee && status in {Running, Done(false)}
      ensures Matches(PopTurn(old(View())), status, View())
    {
      hide SmallFrame, Env.Bounded, PopCost, Usage, Take, Drop, Payable;
      TakeOne(POP, View());
      var tos := PopBytes(POP);
      if tos.NotPopped? {
        status := Fail(POP, tos.kind);
      } else {
        status := Running;
      }
    }

    // ADD, SUB, MULT, DIV and MOD: the top is the right operand.
    method Arithmetic(op: OpCode) returns (status: Status)
      requires Valid() && op in {ADD, SUB, MULT, DIV, MOD}
      modifies this`fee, evaluationStack
      ensures Valid() && View().fee <= old(View()).fee
      ensures Matches(ArithmeticTurn(op, old(View())), status, View())
    {
      hide SmallFrame, Env.Bounded, SignedBigIntConversion, SignedByteArrayConversion, EmptyNumber, Take, Drop, Usage,
           Calculate, Put, VM.View;
      ghost var s := View();
      TakeTwo(op, s);
      var right := PopSignedBigInt(op);
      if right.PopPanic? { return Panicked; }
      var left := PopSignedBigInt(op);
      if left.PopPanic? { return Panicked; }
      if right.NotPopped? || left.NotPopped? {
        status := Fail(op, if right.NotPopped? then right.kind else left.kind);
        return;
      }
      if op in {DIV, MOD} && right.value == 0 {
        status := Fail(op, DivisionByZero);
        return;
      }
      CalculateSize(op, s.elements[|s.elements| - 2], s.elements[|s.elements| - 1]);
      status := PushOrFail(op, SignedByteArrayConversion(Calculate(op, left.value, right.value)));
    }

    method Neg() returns (status: Status)
      requires Valid()
      modifies this`fee, evaluationStack
      ensures Valid() && View().fee <= old(View()).fee
      ensures Matches(NegTurn(old(View())), status, View())
    {
      hide SmallFrame, Env.Bounded, SignedBigIntConversion, SignedByteArrayConversion, Within, EmptyNumber, Take, Drop,
           Usage, PopCost, Payable, VM.View, Offer;
      ghost var s := View();
      var tos := PopSignedBigInt(NEG);
      if tos.PopPanic? { return Panicked; }
      if tos.NotPopped? {
        status := Fail(NEG, tos.kind);
        return;
      }
      NumberWithin(Top(s));
      WithinSize(0 - tos.value);
      status := PushIfFits(SignedByteArrayConversion(0 - tos.value));
    }

    // EQ and NEQ compare unsigned, without an error when the result does not fit.
    method Equality(op: OpCode) returns (status: Status)
      requires Valid() && op in {EQ, NEQ}
      modifies this`fee, evaluationStack
      ensures Valid() && View().fee <= old(View()).fee
      ensures Matches(EqualityTurn(op, old(View())), status, View())
    {
      hide SmallFrame, Env.Bounded, Value, Usage, Take, Drop, VM.View, Offer, Within;
      TakeTwo(op, View());
      var right := PopUnsignedBigInt(op);
      var left := PopUnsignedBigInt(op);
      if right.NotPopped? || left.NotPopped? {
        status := Fail(op, if right.NotPopped? then right.kind else left.kind);
        return;
      }
      status := PushIfFits(Bool((left.value == right.value) == (op == EQ)));
    }

    method Comparison(op: OpCode) returns (status: Status)
      requires Valid() && op in {LT, GT, LTE, GTE}
      modifies this`fee, evaluationStack
      ensures Valid() && View().fee <= old(View()).fee
      ensures Matches(ComparisonTurn(op, old(View())), status, View())
    {
      hide SmallFrame, Env.Bounded, SignedBigIntConversion, Usage, EmptyNumber, Take, Drop, Compare, VM.View, Offer;
      TakeTwo(op, View());
      var right := PopSignedBigInt(op);
      if right.PopPanic? { return Panicked; }
      var left := PopSignedBigInt(op);
      if left.PopPanic? { return Panicked; }
      if right.NotPopped? || left.NotPopped? {
        status := Fail(op, if right.NotPopped? then right.kind else left.kind);
        return;
      }
      status := PushIfFits(Bool(Compare(op, left.value, right.value)));
    }

    // Right shifts round towards minus infinity.
    method Shift(op: OpCode) returns (status: Status)
      requires Valid() && op in {SHIFTL, SHIFTR}
      modifies this`fee, this`pc, evaluationStack
      ensures Valid() && View().fee <= old(View()).fee && status != Done(true)
      ensures Matches(ShiftTurn(op, code, old(View())), status, View())
    {
      hide SmallFrame, Env.Bounded, SignedBigIntConversion, SignedByteArrayConversion, Pow, Within, EmptyNumber, Take,
           Drop, Usage, Put;
      ghost var before := evaluationStack.elements;
      var nrOfShifts := Fetch();
      TakeAt(op, old(View()), 1, pc);
      EmptyAt(op, old(View()), pc);
      var tos := PopSignedBigInt(op);
      if tos.PopPanic? { return Panicked; }
      if nrOfShifts.Failure? || tos.NotPopped? {
        status := Fail(op, if nrOfShifts.Failure? then OutOfBounds else tos.kind);
        return;
      }
      NumberWithin(before[|before| - 1]);
      ShiftSizes(tos.value, nrOfShifts.value);
      var factor := Pow(2, nrOfShifts.value);
      status := PushOrFail(op,
                           SignedByteArrayConversion(if op == SHIFTL then tos.value * factor else tos.value / factor));
    }

    lemma ShiftSizes(n: int, bits: uint8)
      requires Within(n, MEMORY_MAX)
      ensures var factor := Pow(2, bits);
        factor > 0 && |SignedByteArrayConversion(n * factor)| <= MAX_ELEMENT
          && |SignedByteArrayConversion(n / factor)| <= MAX_ELEMENT
    {
      hide Pow, Within, SignedByteArrayConversion;
      ShiftWithin(n, MEMORY_MAX, bits);
      ShiftRightWithin(n, MEMORY_MAX, bits);
      ResultSize(n * Pow(2, bits), MEMORY_MAX + 32);
      ResultSize(n / Pow(2, bits), MEMORY_MAX + 1);
    }

    method Nop() returns (status: Status)
      requires Valid()
      modifies this`pc, evaluationStack
      ensures Valid() && View().fee <= old(View()).fee
      ensures Matches(NopTurn(code, old(View())), status, View())
    {
      hide SmallFrame, Env.Bounded, Usage;
      var skipped := Fetch();
      if skipped.Failure? {
        status := Fail(NOP, OutOfBounds);
      } else {
        status := Running;
      }
    }

    method Jmp() returns (status: Status)
      requires Valid()
      modifies this`pc, evaluationStack
      ensures Valid() && View().fee <= old(View()).fee
      ensures Matches(JmpTurn(code, old(View())), status, View())
    {
      hide SmallFrame, Env.Bounded, Usage, Value;
      var nextInstruction := FetchMany(2);
      if nextInstruction.Failure? {
        status := Fail(JMP, OutOfBounds);
        return;
      }
      pc := Value(nextInstruction.value);
      status := Running;
    }

    // Jumps when the popped element starts with a 1; an empty element is a slice panic.
    method JmpIf() returns (status: Status)
      requires Valid()
      modifies this`pc, this`fee, evaluationStack
      ensures Valid() && View().fee <= old(View()).fee && status != Done(true)
      ensures Matches(JmpIfTurn(code, old(View())), status, View())
    {
      hide SmallFrame, Env.Bounded, Usage, Value, Take, Drop, PopCost, Payable;
      TakeOne(JMPIF, View());
      var nextInstruction := FetchMany(2);
      TakeAt(JMPIF, old(View()), 1, pc);
      var right := PopBytes(JMPIF);
      if nextInstruction.Failure? || right.NotPopped? {
        status := Fail(JMPIF, if nextInstruction.Failure? then OutOfBounds else right.kind);
        return;
      }
      if right.value == [] { return Panicked; }
      if right.value[0] == 1 {
        pc := Value(nextInstruction.value);
      }
      status := Running;
    }

    // Pops the arguments into a new frame, the last one first.
    method LoadArguments(op: OpCode, argsToLoad: uint8) returns (ok: bool, frame: Frame, kind: Kind)
      requires Valid()
      modifies this`fee, evaluationStack
      ensures Valid() && View().fee <= old(View()).fee && SmallFrame(frame)
      ensures ok <==> Take(op, old(View()), argsToLoad).Some?
      ensures ok ==>
        && Take(op, old(View()), argsToLoad) == Some(View()) && argsToLoad <= |old(View()).elements|
        && frame == FrameOf(old(View()).pc, old(View()).elements, argsToLoad)
    {
      hide Within, Take, Drop, Value, Usage, Env.Bounded, PopCost, Payable, ArgumentsFrom, SmallFrame, Loading, VM.View,
           FrameOf, SignedBigIntConversion;
      kind, ok := Empty, true;
      ghost var s := View();
      frame := EmptyFrame(pc);
      assert pc == s.pc by { ViewParts(); }
      var i: int := argsToLoad - 1;
      LoadingStarts(op, s, frame, argsToLoad);
      while i >= 0
        invariant -1 <= i < argsToLoad && Valid() && View().fee <= s.fee
        invariant SmallFrame(frame) && frame.returnAddress == s.pc
        invariant Loading(op, s, View(), frame, argsToLoad, argsToLoad - 1 - i)
      {
        LoadingGoesOn(op, s, View(), frame, argsToLoad, argsToLoad - 1 - i);
        var value := PopUnsignedBigInt(op);
        if value.NotPopped? { return false, frame, value.kind; }
        OneMoreVariable(frame, i, value.value);
        frame := frame.(variables := frame.variables[i := value.value]);
        i := i - 1;
      }
      LoadingEnds(op, s, View(), frame, argsToLoad);
    }

    // CALL, and CALLIF when its condition holds: a jump with a new frame.
    method Enter(op: OpCode, returnAddress: nat, argsToLoad: uint8) returns (status: Status)
      requires Valid()
      modifies this`pc, this`fee, this`callStack, evaluationStack
      ensures Valid() && View().fee <= old(View()).fee && status in {Running, Done(false)}
      ensures Matches(EnterTurn(op, code, old(View()), returnAddress, argsToLoad), status, View())
    {
      hide SmallFrame, Env.Bounded, Take, FrameOf, Usage;
      if returnAddress == 0 || returnAddress > |code| {
        status := Fail(op, OutOfBounds);
        return;
      }
      var ok, frame, kind := LoadArguments(op, argsToLoad);
      if !ok {
        status := Fail(op, kind);
        return;
      }
      callStack := callStack + [frame];
      pc := returnAddress;
      status := Running;
    }

    method Call() returns (status: Status)
      requires Valid()
      modifies this`pc, this`fee, this`callStack, evaluationStack
      ensures Valid() && View().fee <= old(View()).fee && status in {Running, Done(false)}
      ensures Matches(CallTurn(code, old(View())), status, View())
    {
      hide SmallFrame, Env.Bounded, EnterTurn, Value, Usage;
      var returnAddress := FetchMany(2);
      var argsToLoad := Fetch();
      if returnAddress.Failure? || argsToLoad.Failure? {
        status := Fail(CALL, OutOfBounds);
        return;
      }
      status := Enter(CALL, Value(returnAddress.value), argsToLoad.value);
    }

    method CallIf() returns (status: Status)
      requires Valid()
      modifies this`pc, this`fee, this`callStack, evaluationStack
      ensures Valid() && View().fee <= old(View()).fee && status != Done(true)
      ensures Matches(CallIfTurn(code, old(View())), status, View())
    {
      hide SmallFrame, Env.Bounded, EnterTurn, Value, Usage, Take, PopCost, Payable;
      TakeOne(CALLIF, View());
      var returnAddress := FetchMany(2);
      var argsToLoad := Fetch();
      TakeAt(CALLIF, old(View()), 1, pc);
      var right := PopBytes(CALLIF);
      if returnAddress.Failure? || argsToLoad.Failure? || right.NotPopped? {
        status := Fail(CALLIF, if right.NotPopped? then right.kind else OutOfBounds);
        return;
      }
      if right.value == [] { return Panicked; }
      if right.value[0] != 1 { return Running; }
      status := Enter(CALLIF, Value(returnAddress.value), argsToLoad.value);
    }

    // A stub in the source: only the arguments are fetched.
    method CallExt() returns (status: Status)
      requires Valid()
      modifies this`pc, evaluationStack
      ensures Valid() && View().fee <= old(View()).fee
      ensures Matches(CallExtTurn(code, old(View())), status, View())
    {
      hide SmallFrame, Env.Bounded, Usage;
      var transactionAddress := FetchMany(32);
      var functionHash := FetchMany(4);
      var argsToLoad := Fetch();
      if transactionAddress.Failure? || functionHash.Failure? || argsToLoad.Failure? {
        status := Fail(CALLEXT, OutOfBounds);
      } else {
        status := Running;
      }
    }

    method Ret() returns (status: Status)
      requires Valid()
      modifies this`pc, this`callStack, evaluationStack
      ensures Valid() && View().fee <= old(View()).fee
      ensures Matches(RetTurn(old(View())), status, View())
    {
      hide SmallFrame, Env.Bounded, Usage;
      if |callStack| == 0 {
        status := Fail(RET, Empty);
        return;
      }
      pc := callStack[|callStack| - 1].returnAddress;
      callStack := callStack[..|callStack| - 1];
      status := Running;
    }

    method Size() returns (status: Status)
      requires Valid()
      modifies this`fee, evaluationStack
      ensures Valid() && View().fee <= old(View()).fee && status in {Running, Done(false)}
      ensures Matches(SizeTurn(old(View())), status, View())
    {
      hide SmallFrame, Env.Bounded, Usage, Take, Drop, PopCost, Payable, Put;
      TakeOne(SIZE, View());
      var element := PopBytes(SIZE);
      if element.NotPopped? {
        status := Fail(SIZE, element.kind);
        return;
      }
      status := PushOrFail(SIZE, FixedBigEndian(|element.value|, 8));
    }

    method SStore() returns (status: Status)
      requires Valid()
      modifies this`pc, this`fee, this`variables, evaluationStack
      ensures Valid() && View().fee <= old(View()).fee && status in {Running, Done(false)}
      ensures status != Running ==> variables == old(variables)
      ensures Matches(SStoreTurn(code, old(View())), status, View())
    {
      hide SmallFrame, Env.Bounded, Usage, Take, Drop, PopCost, Payable;
      TakeOne(SSTORE, View());
      var index := Fetch();
      TakeAt(SSTORE, old(View()), 1, pc);
      var value := PopBytes(SSTORE);
      if index.Failure? || value.NotPopped? {
        status := Fail(SSTORE, if index.Failure? then OutOfBounds else value.kind);
        return;
      }
      if index.value >= |variables| {
        status := Fail(SSTORE, OutOfBounds);
        return;
      }
      variables := variables[index.value := value.value];
      status := Running;
    }

    // Writes a variable of the innermost frame.
    method Store() returns (status: Status)
      requires Valid()
      modifies this`pc, this`fee, this`callStack, evaluationStack
      ensures Valid() && View().fee <= old(View()).fee && status != Done(true)
      ensures Matches(StoreTurn(code, old(View())), status, View())
    {
      hide SignedBigIntConversion, Within, Take, Drop, EmptyNumber, Usage, Env.Bounded;
      ghost var before := evaluationStack.elements;
      var address := Fetch();
      TakeAt(STORE, old(View()), 1, pc);
      EmptyAt(STORE, old(View()), pc);
      var right := PopSignedBigInt(STORE);
      if right.PopPanic? { return Panicked; }
      if address.Failure? || right.NotPopped? {
        status := Fail(STORE, if address.Failure? then OutOfBounds else right.kind);
        return;
      }
      if |callStack| == 0 {
        status := Fail(STORE, Empty);
        return;
      }
      NumberWithin(before[|before| - 1]);
      var n := |callStack| - 1;
      assert SmallFrame(callStack[n]);
      var frame := callStack[n].(variables := callStack[n].variables[address.value := right.value]);
      assert SmallFrame(frame);
      callStack := callStack[n := frame];
      status := Running;
    }

    method SLoad() returns (status: Status)
      requires Valid()
      modifies this`pc, evaluationStack
      ensures Valid() && View().fee <= old(View()).fee
      ensures Matches(SLoadTurn(code, old(View())), status, View())
    {
      hide SmallFrame, Env.Bounded, Usage, Put;
      var index := Fetch();
      if index.Failure? || index.value >= |variables| {
        status := Fail(SLOAD, OutOfBounds);
        return;
      }
      status := PushOrFail(SLOAD, variables[index.value]);
    }

    // Reads a variable of the innermost frame; one never written is 0.
    method Load() returns (status: Status)
      requires Valid()
      modifies this`pc, evaluationStack
      ensures Valid() && View().fee <= old(View()).fee
      ensures Matches(LoadTurn(code, old(View())), status, View())
    {
      hide Within, SignedByteArrayConversion, Usage, Put, Env.Bounded;
      var address := Fetch();
      if address.Failure? || |callStack| == 0 {
        status := Fail(LOAD, if address.Failure? then OutOfBounds else Empty);
        return;
      }
      var frame := callStack[|callStack| - 1];
      assert SmallFrame(frame);
      ZeroWithin();
      var val := if address.value in frame.variables then frame.variables[address.value] else 0;
      WithinSize(val);
      status := PushOrFail(LOAD, SignedByteArrayConversion(val));
    }

    // Pushes every parameter of the transaction data: a length byte and one byte more than it says.
    method CallData() returns (status: Status)
      requires Valid()
      modifies evaluationStack
      ensures Valid() && View().fee <= old(View()).fee
      ensures Matches(CallDataTurn(env.context.data, old(View())), status, View())
    {
      hide SmallFrame, Env.Bounded, Usage, Parameters, Put;
      var td := env.context.data;
      ghost var before, pushed: seq<Bytes> := evaluationStack.elements, [];
      var i := 0;
      assert Parameters(td, 0).Some? ==> [] + Parameters(td, 0).value == Parameters(td, 0).value;
      while i < |td|
        invariant 0 <= i && Valid() && evaluationStack.elements == before + pushed
        invariant Parameters(td, 0) == match Parameters(td, i) case Some(rest) => Some(pushed + rest) case None => None
        decreases |td| - i
      {
        var length := td[i];
        if |td| - i - 1 <= length {
          ParametersStop(td, i);
          status := Fail(CALLDATA, OutOfBounds);
          return;
        }
        var arg := td[i + 1..i + length + 2];
        ParametersGoOn(td, i, pushed, before);
        status := PushOrFail(CALLDATA, arg);
        if status != Running { return; }
        pushed := pushed + [arg];
        i := i + length + 2;
      }
      ParametersStop(td, i);
      UsageConcat(before, pushed);
      assert pushed + [] == pushed;
      status := Running;
    }

    lemma ParametersStop(td: Bytes, i: nat)
      ensures i >= |td| ==> Parameters(td, i) == Some([])
      ensures i < |td| && |td| - i - 1 <= td[i] ==> Parameters(td, i) == None
    {
    }

    // One more parameter, and what it adds to the stack whatever follows.
    lemma ParametersGoOn(td: Bytes, i: nat, pushed: seq<Bytes>, before: seq<Bytes>)
      requires i < |td| && |td| - i - 1 > td[i]
      ensures var arg, next := td[i + 1..i + td[i] + 2], Parameters(td, i + td[i] + 2);
        && Parameters(td, i) == (match next case Some(rest) => Some([arg] + rest) case None => None)
        && (next.Some? ==> pushed + ([arg] + next.value) == pushed + [arg] + next.value)
        && (next.Some? ==>
            Usage(before) + Usage(pushed + ([arg] + next.value)) >= Usage(before + pushed) + |arg|)
    {
      hide Usage;
      var arg, next := td[i + 1..i + td[i] + 2], Parameters(td, i + td[i] + 2);
      UsageConcat(before, pushed);
      if next.Some? {
        UsageConcat(pushed + [arg], next.value);
        UsageSnoc(pushed, arg);
      }
    }

    lemma {:induction false} OperandsUsage(elements: seq<Bytes>, n: nat)
      requires n <= |elements|
      ensures Usage(Operands(elements, n)) + Usage(elements[..|elements| - n]) == Usage(elements)
    {
      if n == 0 {
        assert elements[..|elements|] == elements;
      } else {
        OperandsUsage(elements, n - 1);
        var more, fewer := Operands(elements, n), Operands(elements, n - 1);
        assert more[..n - 1] == fewer && more[n - 1] == elements[|elements| - n];
        assert elements[..|elements| - (n - 1)][..|elements| - n] == elements[..|elements| - n];
      }
    }

    // Pops the operands of a library opcode, the topmost first, and asks the library after each of them. ARRAPPEND and
    // CHECKSIG pop all operands before looking at errors.
    method PopOperands(op: OpCode) returns (status: Status, answer: Computed)
      requires Valid()
      modifies this`fee, evaluationStack
      ensures Valid() && View().fee <= old(View()).fee && status != Done(true)
      ensures status == Running <==> LibraryGoesOn(env, op, old(View()))
      ensures status == Running ==> var before, n := old(View()).elements, OperandCount(op);
        && n <= |before| && answer == env.library(op, Operands(before, n)) && answer.Computed?
        && Take(op, old(View()), n) == Some(View()) && |answer.bytes| <= MAX_ELEMENT
      ensures status == Panicked <==> LibraryPanics(env, op, old(View()))
    {
      hide Usage, SmallFrame, PopCost, Take, Drop, Operands, Answers, AnswersBelow, LibraryPanics, OperandCount,
           VM.View,
           LibraryBound, Popping, PoppingFailed, LibraryGoesOn, Env.Bounded;
      ghost var s := View();
      assert Usage(s.elements) <= MEMORY_MAX by { ViewParts(); }
      var args: seq<Bytes> := [];
      var failed: bool, kind: Kind := false, Empty;
      answer := env.library(op, args);
      PoppingStarts(env, op, s);
      for k := 0 to OperandCount(op)
        invariant Valid() && View().fee <= s.fee
        invariant answer == env.library(op, args)
        invariant !failed ==> Popping(env, op, s, View(), args, k)
        invariant failed ==> op in {ARRAPPEND, CHECKSIG} && k > 0 && PoppingFailed(env, op, s, k)
        invariant failed && k < OperandCount(op) ==> answer.Computed?
      {
        if !answer.Computed? {
          PoppingUnanswered(env, op, s, View(), args, k);
          status := Unanswered(op, answer);
          return;
        }
        if failed {
          PoppingFailsOn(env, op, s, k);
        } else {
          PoppingGoesOn(env, op, s, View(), args, k);
        }
        var popped := PopBytes(op);
        if popped.NotPopped? {
          if op !in {ARRAPPEND, CHECKSIG} {
            PoppingFailsOn(env, op, s, k + 1);
            NotGoingOn(env, op, s);
            status := Fail(op, popped.kind);
            return;
          }
          failed, kind := true, popped.kind;
        } else {
          args := args + [popped.value];
          answer := env.library(op, args);
        }
      }
      if failed {
        PoppingFailsOn(env, op, s, OperandCount(op));
        NotGoingOn(env, op, s);
        status := Fail(op, kind);
      } else if !answer.Computed? {
        PoppingUnanswered(env, op, s, View(), args, OperandCount(op));
        status := Unanswered(op, answer);
      } else {
        PoppingAnswered(env, op, s, View(), args);
        GoingOn(env, op, s);
        AnswerFits(op, s.elements);
        status := Running;
      }
    }

    lemma ViewParts()
      ensures View() == State(evaluationStack.elements, pc, fee, callStack, variables)
    {
    }

    // The error return or the panic of an operation.
    method Unanswered(op: OpCode, answer: Computed) returns (status: Status)
      requires Valid() && !answer.Computed?
      modifies evaluationStack
      ensures Valid() && status == (if answer.Panic? then Panicked else Done(false)) && View().fee == old(View()).fee
    {
      if answer.Panic? { return Panicked; }
      status := Fail(op, Invalid);
    }

    lemma AnswerFits(op: OpCode, elements: seq<Bytes>)
      requires env.Bounded() && OperandCount(op) <= |elements| && Usage(elements) <= MEMORY_MAX
      requires env.library(op, Operands(elements, OperandCount(op))).Computed?
      ensures |env.library(op, Operands(elements, OperandCount(op))).bytes| <= MAX_ELEMENT
    {
      hide Usage, OperandCount;
      OperandsUsage(elements, OperandCount(op));
    }

    // The opcodes on maps, arrays, hashes and signatures: the operands are popped, the result of the library is pushed.
    method Library(op: OpCode) returns (status: Status)
      requires Valid()
      modifies this`fee, evaluationStack
      ensures Valid() && View().fee <= old(View()).fee
      ensures Matches(LibraryTurn(env, op, old(View())), status, View())
    {
      hide Usage, SmallFrame, Operands, OperandCount, Take, Answers, LibraryPanics;
      var answer;
      status, answer := PopOperands(op);
      if status != Running { return; }
      if op in {MAPHASKEY, NEWARR, CHECKSIG} {
        var dropped := evaluationStack.Push(answer.bytes);
      } else {
        status := PushOrFail(op, answer.bytes);
      }
    }

    // The switch of Exec, in three parts: stack and numbers, control flow, and data.
    method Execute(op: OpCode) returns (status: Status)
      requires Valid()
      modifies this, evaluationStack
      ensures Valid() && View().fee <= old(View()).fee && code == old(code)
      ensures Matches(Instruction(env, code, op, old(View())), status, View())
    {
      hide Valid, VM.View, NumbersTurn, ControlTurn, DataTurn;
      if OnNumbers(op) {
        status := ExecuteNumbers(op);
      } else if OnControl(op) {
        status := ExecuteControl(op);
      } else if op == ERRHALT {
        status := Done(false);
      } else if op == HALT {
        status := Done(true);
      } else {
        status := ExecuteData(op);
      }
    }

    method ExecuteNumbers(op: OpCode) returns (status: Status)
      requires Valid() && OnNumbers(op)
      modifies this`pc, this`fee, evaluationStack
      ensures Valid() && View().fee <= old(View()).fee
      ensures Matches(NumbersTurn(code, op, old(View())), status, View())
    {
      hide Valid, VM.View, PushTurn, DupTurn, RollTurn, PopTurn, ArithmeticTurn, NegTurn, EqualityTurn, ComparisonTurn,
           ShiftTurn;
      match op {
        case PUSH => status := Push();
        case DUP => status := Dup();
        case ROLL => status := Roll();
        case POP => status := Pop();
        case ADD | SUB | MULT | DIV | MOD => status := Arithmetic(op);
        case NEG => status := Neg();
        case EQ | NEQ => status := Equality(op);
        case LT | GT | LTE | GTE => status := Comparison(op);
        case SHIFTL | SHIFTR => status := Shift(op);
      }
    }

    method ExecuteControl(op: OpCode) returns (status: Status)
      requires Valid() && OnControl(op)
      modifies this`pc, this`fee, this`callStack, evaluationStack
      ensures Valid() && View().fee <= old(View()).fee
      ensures Matches(ControlTurn(code, op, old(View())), status, View())
    {
      hide Valid, VM.View, NopTurn, JmpTurn, JmpIfTurn, CallTurn, CallIfTurn, CallExtTurn, RetTurn;
      match op {
        case NOP => status := Nop();
        case JMP => status := Jmp();
        case JMPIF => status := JmpIf();
        case CALL => status := Call();
        case CALLIF => status := CallIf();
        case CALLEXT => status := CallExt();
        case RET => status := Ret();
      }
    }

    method ExecuteData(op: OpCode) returns (status: Status)
      requires Valid() && !OnNumbers(op) && !OnControl(op) && op != HALT && op != ERRHALT
      modifies this`pc, this`fee, this`callStack, this`variables, evaluationStack
      ensures Valid() && View().fee <= old(View()).fee
      ensures Matches(DataTurn(env, code, op, old(View())), status, View())
    {
      hide Valid, VM.View, SizeTurn, StoreTurn, SStoreTurn, LoadTurn, SLoadTurn, Put, CallDataTurn, LibraryTurn;
      if op == SIZE {
        status := Size();
      } else if op in {STORE, SSTORE, LOAD, SLOAD} {
        status := ExecuteStorage(op);
      } else if op in {ADDRESS, ISSUER, BALANCE, CALLER, CALLVAL} {
        status := PushContext(op);
      } else if op == CALLDATA {
        status := CallData();
      } else {
        status := Library(op);
      }
    }

    method ExecuteStorage(op: OpCode) returns (status: Status)
      requires Valid() && op in {STORE, SSTORE, LOAD, SLOAD}
      modifies this`pc, this`fee, this`callStack, this`variables, evaluationStack
      ensures Valid() && View().fee <= old(View()).fee
      ensures Matches(DataTurn(env, code, op, old(View())), status, View())
    {
      hide Valid, VM.View, StoreTurn, SStoreTurn, LoadTurn, SLoadTurn;
      if op == STORE {
        status := Store();
      } else if op == SSTORE {
        status := SStore();
      } else if op == LOAD {
        status := Load();
      } else {
        status := SLoad();
      }
    }

    // What the transaction and its accounts say: addresses, balance and amount.
    method PushContext(op: OpCode) returns (status: Status)
      requires Valid() && op in {ADDRESS, ISSUER, BALANCE, CALLER, CALLVAL}
      modifies evaluationStack
      ensures Valid() && View().fee <= old(View()).fee
      ensures status == Running ==> evaluationStack.elements == old(evaluationStack.elements) + [env.context.Field(op)]
      ensures Matches(Put(old(View()), env.context.Field(op)), status, View())
    {
      hide SmallFrame, Usage, Put;
      status := PushOrFail(op, env.context.Field(op));
    }

    // The error return of Exec itself: a message is pushed if there is room.
    method Refuse(kind: Kind) returns (status: Status)
      requires Valid()
      modifies evaluationStack
      ensures Valid() && View().fee == old(View()).fee && status == Done(false) && Matches(Failed, status, View())
    {
      hide Usage, SmallFrame;
      var pushed := evaluationStack.Push(env.execMessages(kind));
      status := Done(false);
    }

    // Takes the price of an instruction off the gas, if there is enough.
    method Pay(price: uint64) returns (ok: bool)
      requires Valid()
      modifies this`fee
      ensures Valid() && (ok <==> price <= old(View()).fee)
      ensures View() == if ok then old(View()).(fee := old(View()).fee - price) else old(View())
    {
      hide Usage, SmallFrame, Env.Bounded;
      ok := fee >= price;
      if ok {
        fee := fee - price;
      }
    }

    // Pays for an instruction and executes it.
    method Dispatch(op: OpCode) returns (status: Status)
      requires Valid()
      modifies this, evaluationStack
      ensures Valid() && View().fee <= old(View()).fee && code == old(code)
      ensures Matches(Charged(env, code, op, old(View())), status, View())
    {
      hide Valid, VM.View, Instruction, GasPrice, Matches;
      var paid := Pay(GasPrice(op));
      if paid {
        status := Execute(op);
      } else {
        status := Refuse(OutOfGas);
      }
    }

    // The next byte code.
    method FetchCode() returns (r: Result<uint8>)
      requires Valid()
      modifies this`pc
      ensures Valid() && (r.Success? <==> old(View()).pc < |code|)
      ensures r.Success? ==> r.value == code[old(View()).pc] && View() == old(View()).(pc := old(View()).pc + 1)
      ensures r.Failure? ==> View() == old(View())
    {
      hide Usage, SmallFrame, Env.Bounded;
      r := Fetch();
    }

    // One turn of the loop: fetch, pay, execute.
    method Step() returns (status: Status)
      requires Valid()
      modifies this, evaluationStack
      ensures Valid() && View().fee <= old(View()).fee && code == old(code)
      ensures Matches(VmSemantics.Step(env, code, old(View())), status, View())
    {
      hide Valid, VM.View, Decoded, Charged, Matches;
      var byteCode := FetchCode();
      if byteCode.Failure? {
        status := Refuse(OutOfBounds);
        return;
      }
      var opCode := Decoded(byteCode.value);
      if opCode.None? {
        status := Refuse(Invalid);
        return;
      }
      status := Dispatch(opCode.value);
    }

    // Exec ends for every contract and every fee, after at most one turn per unit of gas and one more, and does what
    // the turns say one after the other; the gas never grows or wraps, and the memory meter stays exact and within its
    // limit throughout.
    method Exec() returns (status: Status, ghost turns: nat)
      requires Valid()
      modifies this, evaluationStack
      ensures Valid() && status != Running && fee <= env.context.fee
      ensures turns <= env.context.fee + 1
      ensures Matches(Started(env, old(View())), status, View())
    {
      hide Usage, SmallFrame, VmSemantics.Step, Env.Bounded;
      code := env.context.contract;
      fee := env.context.fee;
      turns := 0;
      if |code| > 100000 {
        status := Refuse(Invalid);
        return;
      }
      status := Running;
      ghost var run := Run(env, code, View());
      while status == Running
        invariant Valid() && fee <= env.context.fee && code == env.context.contract
        invariant if status == Running then turns + fee <= env.context.fee && Run(env, code, View()) == run
          else turns <= env.context.fee + 1 && Matches(run, status, View())
        decreases status == Running, fee
      {
        status := Step();
        turns := turns + 1;
      }
    }
  }
}
