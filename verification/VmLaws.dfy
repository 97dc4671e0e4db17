/** What the contract VM's instructions mean together: what one computes, what another undoes, and what stays as it
    was. */
module VmLaws {
  import opened Encoding
  import opened NumberTheory
  import opened Options
  import opened VmBytes
  import opened VmSemantics
  import opened VmStack
  import opened Words

  // -------------------- gas --------------------

  ghost function TotalCost(op: OpCode, popped: seq<Bytes>): nat {
    if popped == [] then 0 else TotalCost(op, popped[..|popped| - 1]) + PopCost(op, popped[|popped| - 1])
  }

  // With gas below 2^63 elements can be popped exactly when it covers them together, and that much is taken.
  lemma {:induction false} AffordExactly(op: OpCode, fee: uint64, popped: seq<Bytes>)
    requires fee < TWO_63
    ensures Afford(op, fee, popped)
      == if TotalCost(op, popped) <= fee then Some(fee - TotalCost(op, popped)) else None
  {
    hide PopCost;
    if popped != [] {
      AffordExactly(op, fee, popped[..|popped| - 1]);
    }
  }

  // -------------------- numbers --------------------

  // The number on top.
  ghost function TopNumber(elements: seq<Bytes>): Number {
    if elements == [] then NoBytes else SignedBigIntConversion(elements[|elements| - 1])
  }

  // Euclidean division.
  ghost predicate Divided(left: int, right: int, quotient: int, remainder: int) {
    0 <= remainder < Magnitude(right) && left == quotient * right + remainder
  }

  // What an arithmetic instruction may leave of a left and a right operand.
  ghost predicate ResultOf(op: OpCode, left: int, right: int, result: int) {
    match op
    case ADD => result == left + right
    case SUB => result + right == left
    case MULT => result == left * right
    case DIV => exists m :: Divided(left, right, result, m)
    case MOD => exists d :: Divided(left, right, d, result)
    case _ => false
  }

  // The operands of an instruction on two numbers are there, paid for, and numbers.
  ghost predicate TwoNumbers(op: OpCode, s: State) {
    && |s.elements| >= 2 && Afford(op, s.fee, Operands(s.elements, 2)).Some?
    && Numbers(s.elements).0.Number? && Numbers(s.elements).1.Number?
  }

  // An arithmetic instruction goes on exactly when both operands are there, paid for and well formed, the divisor is
  // not 0 and the result fits. Then the result stands in place of both, to be read back as the number it is.
  lemma ArithmeticGoesOn(op: OpCode, s: State)
    requires op in {ADD, SUB, MULT, DIV, MOD}
    ensures ArithmeticTurn(op, s).Continue? <==>
      && TwoNumbers(op, s) && (op in {DIV, MOD} ==> Numbers(s.elements).1.n != 0)
      && exists result :: (
           && ResultOf(op, Numbers(s.elements).0.n, Numbers(s.elements).1.n, result)
           && Usage(s.elements[..|s.elements| - 2]) + |SignedByteArrayConversion(result)| <= MEMORY_MAX)
    ensures ArithmeticTurn(op, s).Continue? ==>
      var t, n := ArithmeticTurn(op, s).state, |s.elements| - 2;
      && t == s.(elements := t.elements, fee := t.fee) && Some(t.fee) == Afford(op, s.fee, Operands(s.elements, 2))
      && |t.elements| == n + 1 && t.elements[..n] == s.elements[..n]
      && TopNumber(t.elements).Number?
      && ResultOf(op, Numbers(s.elements).0.n, Numbers(s.elements).1.n, TopNumber(t.elements).n)
  {
    hide SignedBigIntConversion, SignedByteArrayConversion, Usage, ResultOf, Calculate, Afford;
    if TwoNumbers(op, s) {
      NothingEmpty(op, s, 2) by { EmptyIsNoNumber(s.elements); }
      var (left, right) := Numbers(s.elements);
      if op in {DIV, MOD} ==> right.n != 0 {
        CalculateMeets(op, left.n, right.n);
        SignedRoundTrip(Calculate(op, left.n, right.n));
        forall r | ResultOf(op, left.n, right.n, r) ensures r == Calculate(op, left.n, right.n) {
          ResultIsOne(op, left.n, right.n, r, Calculate(op, left.n, right.n));
        }
      }
    }
  }

  lemma EmptyIsNoNumber(elements: seq<Bytes>)
    requires |elements| >= 2 && Numbers(elements).0.Number? && Numbers(elements).1.Number?
    ensures elements[|elements| - 1] != [] && elements[|elements| - 2] != []
  {
  }

  // No panic on operands that are not empty.
  lemma {:induction false} NothingEmpty(op: OpCode, s: State, k: nat)
    requires k <= |s.elements| && forall i :: |s.elements| - k <= i < |s.elements| ==> s.elements[i] != []
    ensures !EmptyNumber(op, s, k)
    decreases k
  {
    hide PopCost, Payable;
    if k > 0 && s.elements != [] {
      NothingEmpty(op, Drop(op, s), k - 1);
    }
  }

  // With gas below 2^63 popping k numbers panics exactly when one of the top k elements is empty.
  lemma {:induction false} EmptyPanics(op: OpCode, s: State, k: nat)
    requires s.fee < TWO_63
    ensures EmptyNumber(op, s, k) <==> exists i :: 0 <= i < |s.elements| && |s.elements| - k <= i && s.elements[i] == []
    decreases k
  {
    if k > 0 && s.elements != [] {
      var t, n := Drop(op, s), |s.elements| - 1;
      EmptyPanics(op, t, k - 1);
      assert forall i :: 0 <= i < n ==> t.elements[i] == s.elements[i];
      assert s.elements[n] == Top(s);
    }
  }

  lemma CalculateMeets(op: OpCode, left: int, right: int)
    requires op in {ADD, SUB, MULT} || (op in {DIV, MOD} && right != 0)
    ensures ResultOf(op, left, right, Calculate(op, left, right))
  {
    if op in {DIV, MOD} {
      assert Divided(left, right, left / right, left % right);
    }
  }

  // Of each operation there is only one result.
  lemma ResultIsOne(op: OpCode, left: int, right: int, r: int, r': int)
    requires ResultOf(op, left, right, r) && ResultOf(op, left, right, r')
    ensures r == r'
  {
    match op
    case DIV =>
      var m :| Divided(left, right, r, m);
      var m' :| Divided(left, right, r', m');
      QuotientIsOne(right, r, m, r', m');
    case MOD =>
      var d :| Divided(left, right, d, r);
      var d' :| Divided(left, right, d', r');
      QuotientIsOne(right, d, r, d', r');
    case _ =>
  }

  lemma QuotientIsOne(b: int, q: int, r: int, q': int, r': int)
    requires 0 <= r < Magnitude(b) && 0 <= r' < Magnitude(b) && q * b + r == q' * b + r'
    ensures q == q' && r == r'
  {
    var d := q - q';
    assert d * b == r' - r by { assert (q - q') * b == q * b - q' * b; }
    MagnitudeOfProduct(d, b);
    if d != 0 {
      ProductAtLeast(Magnitude(d), Magnitude(b));
    }
  }

  // Subtracting what was added, and multiplying and adding what was divided, gives the operand back.
  lemma ArithmeticUndone(left: int, right: int, sum: int, quotient: int, remainder: int)
    requires ResultOf(ADD, left, right, sum)
    requires right != 0 ==> ResultOf(DIV, left, right, quotient) && ResultOf(MOD, left, right, remainder)
    ensures ResultOf(SUB, sum, right, left)
    ensures right != 0 ==>
      var product := quotient * right;
      ResultOf(MULT, quotient, right, product) && ResultOf(ADD, product, remainder, left)
  {
    if right != 0 {
      var m :| Divided(left, right, quotient, m);
      var d :| Divided(left, right, d, remainder);
      QuotientIsOne(right, quotient, m, d, remainder);
    }
  }

  // A comparison goes on exactly when both operands are there, paid for and well formed; it leaves a 1 or a 0 in place
  // of them, or nothing where not even that fits.
  lemma ComparisonGoesOn(op: OpCode, s: State)
    requires op in {LT, GT, LTE, GTE}
    ensures ComparisonTurn(op, s).Continue? <==> TwoNumbers(op, s)
    ensures TwoNumbers(op, s) ==>
      var t, (left, right) := ComparisonTurn(op, s).state, Numbers(s.elements);
      var less := right.n - left.n;
      var holds := (op == LT && less > 0) || (op == GT && less < 0) || (op == LTE && less >= 0)
                   || (op == GTE && less <= 0);
      && t == s.(elements := t.elements, fee := t.fee) && Some(t.fee) == Afford(op, s.fee, Operands(s.elements, 2))
      && t.elements == WithIfFits(s.elements[..|s.elements| - 2], [if holds then 1 else 0])
  {
    hide SignedBigIntConversion, Usage, Afford, EmptyNumber, WithIfFits, Numbers, Operands;
    if TwoNumbers(op, s) {
      NothingEmpty(op, s, 2) by { EmptyIsNoNumber(s.elements); }
    }
  }

  // EQ leaves a 1 exactly for equal unsigned values, and NEQ for different ones.
  lemma EqualityGoesOn(op: OpCode, s: State)
    requires op in {EQ, NEQ}
    ensures EqualityTurn(op, s).Continue? <==>
      |s.elements| >= 2 && Afford(op, s.fee, Operands(s.elements, 2)).Some?
    ensures EqualityTurn(op, s).Continue? ==>
      var t, n := EqualityTurn(op, s).state, |s.elements|;
      var holds := (op == EQ) <==> Value(s.elements[n - 1]) - Value(s.elements[n - 2]) == 0;
      && t == s.(elements := t.elements, fee := t.fee)
      && t.elements == WithIfFits(s.elements[..n - 2], [if holds then 1 else 0])
  {
    hide Value, Usage, Afford;
  }

  // Negating twice gives the number back.
  lemma NegatedTwice(s: State, t: State, u: State)
    requires NegTurn(s) == Continue(t) && NegTurn(t) == Continue(u)
    requires |t.elements| == |s.elements| == |u.elements|
    ensures TopNumber(s.elements).Number? && TopNumber(t.elements) == Number(0 - TopNumber(s.elements).n)
    ensures TopNumber(u.elements) == TopNumber(s.elements)
    ensures t.elements[..|s.elements| - 1] == u.elements[..|s.elements| - 1] == s.elements[..|s.elements| - 1]
  {
    hide SignedBigIntConversion, SignedByteArrayConversion, Usage, EmptyNumber, Afford;
    NegatedOnce(s, t);
    NegatedOnce(t, u);
  }

  lemma NegatedOnce(s: State, t: State)
    requires NegTurn(s) == Continue(t) && |t.elements| == |s.elements|
    ensures s.elements != [] && t.elements[..|s.elements| - 1] == s.elements[..|s.elements| - 1]
    ensures TopNumber(s.elements).Number? && TopNumber(t.elements) == Number(0 - TopNumber(s.elements).n)
  {
    hide SignedBigIntConversion, SignedByteArrayConversion, Usage, EmptyNumber, Afford;
    assert Take(NEG, s, 1).Some?;
    SignedRoundTrip(0 - SignedBigIntConversion(Top(s)).n);
  }

  // A shift to the left multiplies by the power of two; one to the right leaves the largest number whose product is not
  // above.
  lemma Shifted(op: OpCode, code: Bytes, s: State, t: State)
    requires op in {SHIFTL, SHIFTR} && ShiftTurn(op, code, s) == Continue(t)
    ensures s.pc < |code| && t.pc == s.pc + 1 && s.elements != [] && |t.elements| == |s.elements|
    ensures t.elements[..|s.elements| - 1] == s.elements[..|s.elements| - 1]
    ensures TopNumber(s.elements).Number? && TopNumber(t.elements).Number?
    ensures var n, m, factor := TopNumber(s.elements).n, TopNumber(t.elements).n, Pow(2, code[s.pc]);
      if op == SHIFTL then m == n * factor else m * factor <= n < (m + 1) * factor
  {
    hide SignedBigIntConversion, SignedByteArrayConversion, Usage, EmptyNumber, Afford, Pow;
    assert Take(op, s, 1).Some?;
    var n, factor := SignedBigIntConversion(Top(s)).n, Pow(2, code[s.pc]);
    SignedRoundTrip(if op == SHIFTL then n * factor else n / factor);
    if op == SHIFTR {
      Floors(n, factor);
    }
  }

  lemma Floors(n: int, d: nat)
    requires d > 0
    ensures (n / d) * d <= n < (n / d + 1) * d
  {
    assert n == d * (n / d) + n % d;
  }

  // -------------------- the stack --------------------

  // PUSH pushes the bytes of the code between its count and the next instruction; POP takes them off again.
  lemma PushThenPop(code: Bytes, s: State, t: State, u: State)
    requires PushTurn(code, s) == Continue(t) && PopTurn(t) == Continue(u)
    ensures u.elements == s.elements && u.pc == t.pc < |code| && t.elements != [] && s.pc < |code|
    ensures |Top(t)| - 1 == code[s.pc] && code[..s.pc + 1] + Top(t) + code[t.pc..] == code
  {
    hide Usage, Afford;
    assert Take(POP, t, 1).Some?;
  }

  // DUP doubles the top: POP takes the copy off again, and EQ finds both equal.
  lemma DupThenPop(s: State, t: State, u: State)
    requires DupTurn(s) == Continue(t) && PopTurn(t) == Continue(u)
    ensures u.elements == s.elements && u.pc == s.pc && t.elements == s.elements + [t.elements[|t.elements| - 1]]
  {
    hide Usage, Afford;
    assert Take(DUP, s, 1).Some? && Take(POP, t, 1).Some?;
  }

  lemma DupThenEq(s: State, t: State, u: State)
    requires DupTurn(s) == Continue(t) && EqualityTurn(EQ, t) == Continue(u)
    ensures s.elements != [] && u.elements == WithIfFits(s.elements[..|s.elements| - 1], [1])
  {
    hide Usage, Value, Afford;
    assert Take(DUP, s, 1).Some?;
    assert t.elements[..|t.elements| - 2] == s.elements[..|s.elements| - 1];
  }

  // ROLL with argument k goes on exactly above k elements, and lifts the one under k + 1 others to the top, if there is
  // one; everything else keeps its order.
  lemma Rolled(code: Bytes, s: State)
    ensures RollTurn(code, s).Continue? <==> s.pc < |code| && code[s.pc] < |s.elements|
    ensures RollTurn(code, s).Continue? ==>
      var t, k: int, n := RollTurn(code, s).state, code[s.pc], |s.elements|;
      var above := k + 1;
      && t == s.(pc := s.pc + 1, elements := t.elements) && multiset(t.elements) == multiset(s.elements)
      && (above == n ==> t.elements == s.elements)
      && (above < n ==>
          && t.elements[n - 1] == s.elements[n - 1 - above]
          && t.elements[n - 1 - above..n - 1] == s.elements[n - above..]
          && t.elements[..n - 1 - above] == s.elements[..n - 1 - above])
  {
    if RollTurn(code, s).Continue? {
      var i := |s.elements| - code[s.pc] - 2;
      if i >= 0 {
        assert s.elements == s.elements[..i] + [s.elements[i]] + s.elements[i + 1..];
      }
    }
  }

  // SIZE leaves the number of bytes of the top.
  lemma SizeLeft(s: State, t: State)
    requires SizeTurn(s) == Continue(t) && s.elements != [] && |Top(s)| <= MEMORY_MAX
    ensures t.elements == s.elements[..|s.elements| - 1] + [Top(t)] && |Top(t)| == 8 && Value(Top(t)) == |Top(s)|
  {
    hide Usage, Value, Afford, Pow;
    assert Take(SIZE, s, 1).Some?;
    EightBytes(|Top(s)|);
    FixedValue(|Top(s)|, 8);
  }

  lemma EightBytes(n: nat)
    requires n <= MEMORY_MAX
    ensures n < Pow(256, 8)
  {
    assert Pow(256, 1) == 256 && Pow(256, 2) == 65536 && Pow(256, 3) == 16777216;
    PowerGrows(3, 8);
  }

  // -------------------- control --------------------

  // A jump goes to the big-endian address behind it.
  lemma Jumped(code: Bytes, s: State)
    ensures JmpTurn(code, s)
      == if s.pc + 2 < |code| then Continue(s.(pc := LittleEndian(code[s.pc + 1], code[s.pc]))) else Failed
  {
    if s.pc + 2 < |code| {
      var target := code[s.pc..s.pc + 2];
      assert target[..1] == [code[s.pc]] && [code[s.pc]][..0] == [];
      assert Value([code[s.pc]]) == 256 * Value([code[s.pc]][..0]) + code[s.pc];
      assert Value(target) == 256 * Value(target[..1]) + target[1];
    }
  }

  // JMPIF is POP and then JMP or the next instruction, whichever the first byte says; an empty element is a panic.
  lemma JmpIfIsPopAndJmp(code: Bytes, s: State)
    ensures JmpIfTurn(code, s) == match PopTurn(s)
      case Continue(t) =>
        if s.pc + 2 >= |code| then Failed
        else if s.elements[|s.elements| - 1] == [] then Panics
        else if s.elements[|s.elements| - 1][0] == 1 then JmpTurn(code, t)
        else Continue(t.(pc := s.pc + 2))
      case _ => Failed
  {
    hide Value;
    SameFactor(JMPIF, POP, s, 1);
  }

  // CALLIF is POP and then CALL or the next instruction.
  lemma CallIfIsPopAndCall(code: Bytes, s: State)
    ensures CallIfTurn(code, s) == match PopTurn(s)
      case Continue(t) =>
        if s.pc + 2 >= |code| then Failed
        else if s.elements[|s.elements| - 1] == [] then Panics
        else if s.elements[|s.elements| - 1][0] == 1 then CallTurn(code, t)
        else Continue(t.(pc := s.pc + 3))
      case _ => Failed
  {
    hide Value;
    SameFactor(CALLIF, POP, s, 1);
    if s.pc + 2 < |code| && Take(POP, s, 1).Some? {
      SameFactor(CALLIF, CALL, Take(POP, s, 1).value.(pc := s.pc + 3), code[s.pc + 2]);
    }
  }

  lemma {:induction false} SameAfford(op: OpCode, op': OpCode, fee: uint64, popped: seq<Bytes>)
    requires GasFactor(op) == GasFactor(op')
    ensures Afford(op, fee, popped) == Afford(op', fee, popped)
  {
    if popped != [] {
      SameAfford(op, op', fee, popped[..|popped| - 1]);
    }
  }

  lemma SameFactor(op: OpCode, op': OpCode, s: State, k: nat)
    requires GasFactor(op) == GasFactor(op')
    ensures Take(op, s, k) == Take(op', s, k)
  {
    hide GasFactor;
    if k <= |s.elements| {
      SameAfford(op, op', s.fee, Operands(s.elements, k));
    }
  }

  // RET comes back behind the three bytes of the call's arguments, with the frames as they were and the arguments gone.
  lemma CallThenRet(code: Bytes, s: State, t: State, u: State)
    requires CallTurn(code, s) == Continue(t) && RetTurn(t) == Continue(u)
    ensures s.pc + 2 < |code| && t.pc == LittleEndian(code[s.pc + 1], code[s.pc]) && 0 < t.pc <= |code|
    ensures u.pc == s.pc + 3 && u.callStack == s.callStack && u.variables == s.variables
    ensures code[s.pc + 2] <= |s.elements| && u.elements == s.elements[..|s.elements| - code[s.pc + 2]]
  {
    hide Value, ArgumentsFrom, Afford;
    Jumped(code, s);
    assert Take(CALL, s.(pc := s.pc + 3), code[s.pc + 2]).Some?;
  }

  // -------------------- variables --------------------

  // LOAD reads what STORE wrote at the same address, and every other address of the frame is as it was.
  lemma StoreThenLoad(code: Bytes, s: State, t: State, u: State, pc: nat)
    requires StoreTurn(code, s) == Continue(t) && LoadTurn(code, t.(pc := pc)) == Continue(u)
    ensures s.elements != [] && TopNumber(s.elements).Number? && s.pc < |code| && pc < |code|
    ensures u.elements == t.elements + [u.elements[|t.elements|]]
    ensures code[pc] == code[s.pc] ==> TopNumber(u.elements) == TopNumber(s.elements)
    ensures code[pc] != code[s.pc] && LoadTurn(code, t.(pc := pc, callStack := s.callStack)).Continue? ==>
      LoadTurn(code, t.(pc := pc, callStack := s.callStack)).state.elements == u.elements
    ensures t.callStack[..|t.callStack| - 1] == s.callStack[..|s.callStack| - 1] && t.variables == s.variables
  {
    hide SignedBigIntConversion, SignedByteArrayConversion, Usage, EmptyNumber, Afford;
    assert Take(STORE, s, 1).Some?;
    SignedRoundTrip(SignedBigIntConversion(Top(s)).n);
  }

  // SLOAD reads what SSTORE wrote, and every other contract variable is as it was.
  lemma SStoreThenSLoad(code: Bytes, s: State, t: State, u: State, pc: nat)
    requires SStoreTurn(code, s) == Continue(t) && SLoadTurn(code, t.(pc := pc)) == Continue(u)
    ensures s.elements != [] && s.pc < |code| && pc < |code| && code[pc] < |s.variables| == |t.variables|
    ensures u.elements
      == t.elements + [if code[pc] == code[s.pc] then s.elements[|s.elements| - 1] else s.variables[code[pc]]]
    ensures t.elements == s.elements[..|s.elements| - 1] && t.callStack == s.callStack
  {
    hide Usage, Afford;
    assert Take(SSTORE, s, 1).Some?;
  }

  // Argument i of a call is its variable i, the last pushed under the highest address.
  lemma CallThenLoad(code: Bytes, s: State, t: State, u: State, pc: nat)
    requires CallTurn(code, s) == Continue(t) && LoadTurn(code, t.(pc := pc)) == Continue(u)
    ensures s.pc + 2 < |code| && pc < |code| && code[s.pc + 2] <= |s.elements|
    ensures var n, i := code[s.pc + 2], code[pc];
      TopNumber(u.elements) == Number(if i < n then Value(s.elements[|s.elements| - n + i]) else 0)
  {
    hide SignedBigIntConversion, SignedByteArrayConversion, Usage, Value, Afford;
    var n, i := code[s.pc + 2], code[pc];
    assert Take(CALL, s.(pc := s.pc + 3), n).Some?;
    SignedRoundTrip(if i < n then Value(s.elements[|s.elements| - n + i]) else 0);
  }

  // -------------------- surroundings --------------------

  // What the transaction and its accounts say.
  lemma ContextPushed(env: Env, code: Bytes, op: OpCode, s: State)
    requires op in {ADDRESS, ISSUER, BALANCE, CALLER, CALLVAL}
    ensures Instruction(env, code, op, s) == Put(s,
      if op == ADDRESS then env.context.address else if op == ISSUER then env.context.issuer
      else if op == BALANCE then env.context.balance else if op == CALLER then env.context.sender
      else env.context.amount)
  {
    hide Put, CallDataTurn, SizeTurn, StoreTurn, SStoreTurn, LoadTurn, SLoadTurn, LibraryTurn, NumbersTurn, ControlTurn;
  }

  // The parameters, each behind a byte that is one less than its length, are the transaction data again.
  ghost function Framed(ps: seq<Bytes>): Bytes
    requires forall p <- ps :: 1 <= |p| <= 256
  {
    if ps == [] then [] else [|ps[0]| - 1] + ps[0] + Framed(ps[1..])
  }

  lemma FramedFirst(p: Bytes, ps: seq<Bytes>)
    requires 1 <= |p| <= 256 && forall q <- ps :: 1 <= |q| <= 256
    ensures (forall q <- [p] + ps :: 1 <= |q| <= 256) && Framed([p] + ps) == [|p| - 1] + p + Framed(ps)
  {
    assert ([p] + ps)[1..] == ps;
  }

  lemma {:induction false} ParametersOfData(data: Bytes, i: nat)
    requires i <= |data| && Parameters(data, i).Some?
    ensures var ps := Parameters(data, i).value;
      (forall p <- ps :: 1 <= |p| <= 256) && Framed(ps) == data[i..]
    decreases |data| - i
  {
    hide Framed;
    if i < |data| {
      var next := i + data[i] + 2;
      ParametersOfData(data, next);
      FramedFirst(data[i + 1..next], Parameters(data, next).value);
      assert data[i..] == [data[i]] + data[i + 1..next] + data[next..];
    } else {
      NothingFramed();
    }
  }

  lemma NothingFramed()
    ensures Framed([]) == []
  {
  }

  lemma {:induction false} DataOfParameters(before: Bytes, ps: seq<Bytes>)
    requires forall p <- ps :: 1 <= |p| <= 256
    ensures Parameters(before + Framed(ps), |before|) == Some(ps)
    decreases ps
  {
    hide Framed;
    if ps == [] {
      NothingFramed();
    } else {
      var p, rest := ps[0], ps[1..];
      assert ps == [p] + rest && forall q <- rest :: q in ps;
      FramedFirst(p, rest);
      var start := before + [|p| - 1] + p;
      assert before + Framed(ps) == start + Framed(rest);
      DataOfParameters(start, rest);
      OneParameter(before, p, Framed(rest));
    }
  }

  lemma OneParameter(before: Bytes, p: Bytes, after: Bytes)
    requires 1 <= |p| <= 256
    ensures var start := before + [|p| - 1] + p;
      Parameters(start + after, |before|) == match Parameters(start + after, |start|)
        case Some(rest) => Some([p] + rest)
        case None => None
  {
    var data := before + [|p| - 1] + p + after;
    assert data[|before|] == |p| - 1;
    assert data[|before| + 1..|before| + |p| + 1] == p;
  }

  // CALLDATA pushes exactly the parameters that the data frames, in their order.
  lemma CallDataPushes(ps: seq<Bytes>, s: State)
    requires forall p <- ps :: 1 <= |p| <= 256
    ensures CallDataTurn(Framed(ps), s)
      == if Usage(s.elements) + Usage(ps) <= MEMORY_MAX then Continue(s.(elements := s.elements + ps)) else Failed
  {
    DataOfParameters([], ps);
    assert [] + Framed(ps) == Framed(ps);
  }

  // -------------------- skipping and prices --------------------

  // n instructions NOP.
  ghost function Nops(code: Bytes, s: State, n: nat): Turn
    decreases n
  {
    if n == 0 then Continue(s)
    else match NopTurn(code, s)
      case Continue(t) => Nops(code, t, n - 1)
      case other => other
  }

  lemma {:induction false} NopsSkip(code: Bytes, s: State, n: nat)
    ensures Nops(code, s, n) == if n == 0 || s.pc + n <= |code| then Continue(s.(pc := s.pc + n)) else Failed
    decreases n
  {
    if n > 0 && s.pc < |code| {
      NopsSkip(code, s.(pc := s.pc + 1), n - 1);
    }
  }

  // CALLEXT is a stub: it skips its 32 bytes of address, 4 of function name and 1 of arguments like as many NOPs.
  lemma CallExtSkips(code: Bytes, s: State)
    ensures CallExtTurn(code, s) == Nops(code, s, 32 + 4 + 1)
  {
    NopsSkip(code, s, 37);
  }

  // External calls and the contract's variables are dear, ending is free; what works on numbers, variables and the
  // library pays twice for its operands.
  lemma Priced(op: OpCode)
    ensures GasPrice(op) == match op
      case CALLEXT | SSTORE => 1000
      case SLOAD => 10
      case ERRHALT | HALT => 0
      case _ => 1
    ensures GasFactor(op) == match op
      case PUSH | POP | NOP | JMP | JMPIF | CALL | CALLIF | RET | SIZE | ERRHALT | HALT => 1
      case ADDRESS | ISSUER | BALANCE | CALLER | CALLVAL | CALLDATA => 1
      case _ => 2
  {
  }

  // Popping an element costs the factor for each of its blocks of 64 bytes, the last of which may be shorter.
  lemma CostPerBlock(op: OpCode, blocks: nat, more: nat, element: Bytes)
    requires |element| == 64 * blocks + more && more < 64
    ensures PopCost(op, element) == GasFactor(op) * (blocks + if more > 0 then 1 else 0)
  {
    assert (|element| + 63) / 64 == blocks + if more > 0 then 1 else 0;
  }
}
