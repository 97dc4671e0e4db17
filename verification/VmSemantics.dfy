/** What each instruction of the contract VM does, as a function of the machine's state: when it goes on and where, when
    it fails and when the Go code panics (vm/vm.go, vm/op_codes.go). */
module VmSemantics {
  import opened Encoding
  import opened NumberTheory
  import opened Options
  import opened VmBytes
  import opened VmStack
  import opened Words

  datatype OpCode =
    | PUSH | DUP | ROLL | POP | ADD | SUB | MULT | DIV | MOD | NEG | EQ | NEQ | LT | GT | LTE | GTE | SHIFTL | SHIFTR
    | NOP | JMP | JMPIF | CALL | CALLIF | CALLEXT | RET | SIZE | STORE | SSTORE | LOAD | SLOAD
    | ADDRESS | ISSUER | BALANCE | CALLER | CALLVAL | CALLDATA
    | NEWMAP | MAPHASKEY | MAPPUSH | MAPGETVAL | MAPSETVAL | MAPREMOVE
    | NEWARR | ARRAPPEND | ARRINSERT | ARRREMOVE | ARRAT | SHA3 | CHECKSIG | ERRHALT | HALT

  // The table by byte code.
  const OP_CODES: seq<OpCode> := [
    PUSH, DUP, ROLL, POP, ADD, SUB, MULT, DIV, MOD, NEG, EQ, NEQ, LT, GT, LTE, GTE, SHIFTL, SHIFTR, NOP,
    JMP, JMPIF, CALL, CALLIF, CALLEXT, RET, SIZE, STORE, SSTORE, LOAD, SLOAD, ADDRESS, ISSUER, BALANCE, CALLER,
    CALLVAL, CALLDATA, NEWMAP, MAPHASKEY, MAPPUSH, MAPGETVAL, MAPSETVAL, MAPREMOVE, NEWARR, ARRAPPEND, ARRINSERT,
    ARRREMOVE, ARRAT, SHA3, CHECKSIG, ERRHALT, HALT]

  function GasPrice(op: OpCode): uint64 {
    if op in {CALLEXT, SSTORE} then 1000 else if op == SLOAD then 10 else if op in {ERRHALT, HALT} then 0 else 1
  }

  function GasFactor(op: OpCode): uint64 {
    if op in {PUSH, POP, NOP, JMP, JMPIF, CALL, CALLIF, RET, SIZE, ADDRESS, ISSUER, BALANCE, CALLER, CALLVAL, CALLDATA,
      ERRHALT, HALT}
    then 1 else 2
  }

  predicate OnNumbers(op: OpCode) {
    op in {PUSH, DUP, ROLL, POP, ADD, SUB, MULT, DIV, MOD, NEG, EQ, NEQ, LT, GT, LTE, GTE, SHIFTL, SHIFTR}
  }

  predicate OnControl(op: OpCode) { op in {NOP, JMP, JMPIF, CALL, CALLIF, CALLEXT, RET} }

  // Popping an element costs the factor for every started 64 bytes.
  function PopCost(op: OpCode, element: Bytes): nat { GasFactor(op) * ((|element| + 63) / 64) }

  // int64(fee - cost) < 0 refuses the pop.
  predicate Affordable(fee: uint64, cost: uint64) { Wrap64(fee - cost) < TWO_63 }

  // The check is exact for fees below 2^63 and never lets the gas wrap; from 2^63 on it also refuses pops that could be
  // paid.
  lemma AffordableExactly(fee: uint64, cost: uint64)
    requires cost < TWO_63
    ensures Affordable(fee, cost) <==> cost <= fee && fee - cost < TWO_63
    ensures fee < TWO_63 ==> (Affordable(fee, cost) <==> cost <= fee)
  {
  }

  // -------------------- surroundings --------------------

  datatype Frame = Frame(returnAddress: nat, variables: map<nat, int>)

  // The outcome of an instruction: go on, return from Exec, or a Go panic.
  datatype Status = Running | Done(ok: bool) | Panicked

  datatype Computed = Computed(bytes: Bytes) | Error | Panic

  datatype Context = Context(contract: Bytes, fee: uint64, address: Bytes, issuer: Bytes, balance: Bytes,
                             sender: Bytes, amount: Bytes, data: Bytes)
  {
    function Field(op: OpCode): Bytes
      requires op in {ADDRESS, ISSUER, BALANCE, CALLER, CALLVAL}
    {
      if op == ADDRESS then address else if op == ISSUER then issuer else if op == BALANCE then balance
      else if op == CALLER then sender else amount
    }
  }

  datatype Kind = OutOfBounds | Invalid | OutOfGas | NoMemory | DivisionByZero | Empty

  // The library is asked after every popped operand; before the last one its answer only says whether to go on.
  datatype Env = Env(context: Context, library: (OpCode, seq<Bytes>) -> Computed, messages: (OpCode, Kind) -> Bytes,
                     execMessages: Kind -> Bytes)
  {
    // Sizes with which the stack's 32-bit memory check cannot wrap.
    ghost predicate Bounded() {
      && |context.address| <= 64 && |context.issuer| <= 64 && |context.balance| <= 64 && |context.sender| <= 64
      && |context.amount| <= 64
      && |context.data| <= MAX_ELEMENT
      && (forall op, args: seq<Bytes> :: library(op, args).Computed? ==>
        |library(op, args).bytes| <= LibraryBound(args))
      && (forall op, kind :: |messages(op, kind)| <= MAX_ELEMENT)
      && (forall kind :: |execMessages(kind)| <= MAX_ELEMENT)
    }
  }

  // No operation more than doubles its operands, but for what a 16-bit size can add.
  ghost function LibraryBound(args: seq<Bytes>): nat { 2 * Usage(args) + TWO_16 }

  // Popping bytes or a number: the value, an error, or a slice panic.
  datatype Popped<T> = Popped(value: T) | NotPopped(kind: Kind) | PopPanic

  // -------------------- what instructions compute --------------------

  function Bool(b: bool): Bytes { if b then [1] else [0] }

  // big.Int's Div and Mod are Euclidean, like those here.
  function Calculate(op: OpCode, left: int, right: int): int
    requires op in {ADD, SUB, MULT} || (op in {DIV, MOD} && right != 0)
  {
    if op == ADD then left + right else if op == SUB then left - right else if op == MULT then left * right
    else if op == DIV then left / right else left % right
  }

  function Compare(op: OpCode, left: int, right: int): bool
    requires op in {LT, GT, LTE, GTE}
  {
    if op == LT then left < right else if op == GT then left > right else if op == LTE then left <= right
    else left >= right
  }

  // The operands the library opcodes pop.
  function OperandCount(op: OpCode): nat {
    match op
    case NEWMAP | NEWARR => 0
    case SHA3 => 1
    case MAPPUSH | MAPSETVAL | ARRINSERT => 3
    case _ => 2
  }

  // -------------------- the state --------------------

  datatype State = State(elements: seq<Bytes>, pc: nat, fee: uint64, callStack: seq<Frame>, variables: seq<Bytes>)

  // What an instruction leads to: it goes on, HALT returns true, an error returns false, or the Go code panics.
  datatype Turn = Continue(state: State) | Halted(state: State) | Failed | Panics

  // How a method of the machine reports a turn.
  ghost predicate Matches(turn: Turn, status: Status, s: State) {
    match turn
    case Continue(t) => status == Running && s == t
    case Halted(t) => status == Done(true) && s == t
    case Failed => status == Done(false)
    case Panics => status == Panicked
  }

  ghost predicate Payable(fee: uint64, cost: nat) { cost <= fee && fee - cost < TWO_63 }

  // The gas after popping the elements one by one, if all of them can be paid.
  ghost function Afford(op: OpCode, fee: uint64, popped: seq<Bytes>): (left: Option<uint64>)
    ensures left.Some? ==> left.value <= fee
  {
    if popped == [] then Some(fee)
    else
      var e := popped[|popped| - 1];
      match Afford(op, fee, popped[..|popped| - 1])
      case Some(f) => if Payable(f, PopCost(op, e)) then Some(f - PopCost(op, e)) else None
      case None => None
  }

  // The top n elements, the topmost first.
  ghost function Operands(elements: seq<Bytes>, n: nat): seq<Bytes>
    requires n <= |elements|
  {
    seq(n, i requires 0 <= i < n => elements[|elements| - 1 - i])
  }

  // The state after popping and paying k elements.
  ghost function Take(op: OpCode, s: State, k: nat): (t: Option<State>)
    ensures t.Some? ==> k <= |s.elements| && t.value.elements == s.elements[..|s.elements| - k]
    ensures t.Some? ==> t.value == s.(elements := t.value.elements, fee := t.value.fee) && t.value.fee <= s.fee
  {
    if k > |s.elements| then None
    else match Afford(op, s.fee, Operands(s.elements, k))
      case Some(f) => Some(s.(elements := s.elements[..|s.elements| - k], fee := f))
      case None => None
  }

  ghost function Top(s: State): Bytes
    requires s.elements != []
  {
    s.elements[|s.elements| - 1]
  }

  // A result with the error return when it does not fit.
  ghost function Put(s: State, bytes: Bytes): (turn: Turn)
    ensures !turn.Halted? && (turn.Continue? ==> turn.state.fee <= s.fee)
  {
    if Usage(s.elements) + |bytes| <= MEMORY_MAX then Continue(s.(elements := s.elements + [bytes])) else Failed
  }

  lemma PutFits(s: State, bytes: Bytes)
    requires Usage(s.elements) + |bytes| <= MEMORY_MAX
    ensures Put(s, bytes) == Continue(s.(elements := s.elements + [bytes]))
  {
  }

  // What the stack holds after pushing a result that is dropped without an error when it does not fit.
  ghost function WithIfFits(rest: seq<Bytes>, result: Bytes): seq<Bytes> {
    if Usage(rest) + |result| <= MEMORY_MAX then rest + [result] else rest
  }

  ghost function Offer(s: State, bytes: Bytes): (turn: Turn)
    ensures !turn.Halted? && (turn.Continue? ==> turn.state.fee <= s.fee)
  {
    Continue(s.(elements := WithIfFits(s.elements, bytes)))
  }

  // The state after popping one element, paid or not.
  ghost function Drop(op: OpCode, s: State): State {
    if s.elements == [] then s
    else s.(elements := s.elements[..|s.elements| - 1],
            fee := if Payable(s.fee, PopCost(op, Top(s))) then s.fee - PopCost(op, Top(s)) else s.fee)
  }

  // The first of k popped numbers that is paid for and empty is a slice panic.
  ghost predicate EmptyNumber(op: OpCode, s: State, k: nat)
    decreases k
  {
    k > 0 && s.elements != []
    && ((Payable(s.fee, PopCost(op, Top(s))) && Top(s) == []) || EmptyNumber(op, Drop(op, s), k - 1))
  }

  lemma TakeOne(op: OpCode, s: State)
    ensures Take(op, s, 1)
      == if s.elements != [] && Payable(s.fee, PopCost(op, Top(s))) then Some(Drop(op, s)) else None
  {
    hide PopCost, Payable;
    if s.elements != [] {
      var popped := Operands(s.elements, 1);
      assert popped[..0] == [] && popped[0] == Top(s);
      assert Afford(op, s.fee, popped[..0]) == Some(s.fee);
    }
  }

  // Elements are taken one by one.
  lemma TakeMore(op: OpCode, s: State, k: nat)
    ensures Take(op, s, k + 1) == match Take(op, s, k) case Some(t) => Take(op, t, 1) case None => None
  {
    hide PopCost, Payable;
    if k < |s.elements| {
      var more, fewer := Operands(s.elements, k + 1), Operands(s.elements, k);
      assert more[..k] == fewer;
      if Take(op, s, k).Some? {
        var t := Take(op, s, k).value;
        TakeOne(op, t);
        assert t.elements[..|t.elements| - 1] == s.elements[..|s.elements| - (k + 1)];
      }
    }
  }

  // Popping does not look at the position.
  lemma TakeAt(op: OpCode, s: State, k: nat, pc: nat)
    ensures Take(op, s.(pc := pc), k) == match Take(op, s, k) case Some(t) => Some(t.(pc := pc)) case None => None
  {
  }

  lemma EmptyAt(op: OpCode, s: State, pc: nat)
    ensures EmptyNumber(op, s.(pc := pc), 1) == EmptyNumber(op, s, 1)
  {
  }

  lemma {:induction false} TakeFails(op: OpCode, s: State, j: nat, k: nat)
    requires j <= k && Take(op, s, j).None?
    ensures Take(op, s, k).None?
  {
    if j < k {
      TakeFails(op, s, j, k - 1);
      TakeMore(op, s, k - 1);
    }
  }

  // Two elements, one after the other.
  lemma TakeTwo(op: OpCode, s: State)
    ensures var t := Drop(op, s);
      && (EmptyNumber(op, s, 2) <==> EmptyNumber(op, s, 1) || EmptyNumber(op, t, 1))
      && Take(op, s, 2) == (if Take(op, s, 1).Some? && Take(op, t, 1).Some? then Some(Drop(op, t)) else None)
      && (Take(op, s, 1).Some? ==> s.elements != [] && Top(s) == s.elements[|s.elements| - 1])
      && (Take(op, s, 1).Some? && Take(op, t, 1).Some? ==>
          |s.elements| >= 2 && t.elements != [] && Top(t) == s.elements[|s.elements| - 2]
          && Drop(op, t).elements == s.elements[..|s.elements| - 2])
  {
    hide PopCost, Payable, Take;
    TakeMore(op, s, 1);
    TakeOne(op, s);
    TakeOne(op, Drop(op, s));
  }

  lemma UsageSnoc(elements: seq<Bytes>, e: Bytes)
    ensures Usage(elements + [e]) == Usage(elements) + |e|
  {
    UsageConcat(elements, [e]);
    UsageOne(e);
  }

  lemma TakeNone(op: OpCode, s: State)
    ensures Take(op, s, 0) == Some(s)
  {
    assert s.elements[..|s.elements|] == s.elements;
  }

  // -------------------- stack and numbers --------------------

  ghost function PushTurn(code: Bytes, s: State): (turn: Turn)
    ensures !turn.Halted? && (turn.Continue? ==> turn.state.fee <= s.fee)
  {
    if s.pc + 1 < |code| && s.pc + 2 + code[s.pc] < |code|
    then Put(s.(pc := s.pc + 2 + code[s.pc]), code[s.pc + 1..s.pc + 2 + code[s.pc]]) else Failed
  }

  ghost function DupTurn(s: State): (turn: Turn)
    ensures !turn.Halted? && (turn.Continue? ==> turn.state.fee <= s.fee)
  {
    match Take(DUP, s, 1)
    case Some(t) => Put(t.(elements := s.elements), Top(s))
    case None => Failed
  }

  // Brings the element `code[pc] + 1` below the top to the top, if there is one.
  ghost function RollTurn(code: Bytes, s: State): (turn: Turn)
    ensures !turn.Halted? && (turn.Continue? ==> turn.state.fee <= s.fee)
  {
    if s.pc < |code| && code[s.pc] < |s.elements| then
      var index := |s.elements| - code[s.pc] - 2;
      Continue(s.(pc := s.pc + 1,
                  elements := if index == -1 then s.elements
                              else s.elements[..index] + s.elements[index + 1..] + [s.elements[index]]))
    else Failed
  }

  ghost function PopTurn(s: State): (turn: Turn)
    ensures !turn.Halted? && (turn.Continue? ==> turn.state.fee <= s.fee)
  {
    match Take(POP, s, 1)
    case Some(t) => Continue(t)
    case None => Failed
  }

  // The two numbers on top, left below right.
  ghost function Numbers(elements: seq<Bytes>): (Number, Number)
    requires |elements| >= 2
  {
    (SignedBigIntConversion(elements[|elements| - 2]), SignedBigIntConversion(elements[|elements| - 1]))
  }

  ghost function ArithmeticTurn(op: OpCode, s: State): (turn: Turn)
    requires op in {ADD, SUB, MULT, DIV, MOD}
    ensures !turn.Halted? && (turn.Continue? ==> turn.state.fee <= s.fee)
  {
    if EmptyNumber(op, s, 2) then Panics
    else match Take(op, s, 2)
      case Some(t) =>
        var (left, right) := Numbers(s.elements);
        if left.Number? && right.Number? && (op in {DIV, MOD} ==> right.n != 0)
        then Put(t, SignedByteArrayConversion(Calculate(op, left.n, right.n))) else Failed
      case None => Failed
  }

  ghost function NegTurn(s: State): (turn: Turn)
    ensures !turn.Halted? && (turn.Continue? ==> turn.state.fee <= s.fee)
  {
    if EmptyNumber(NEG, s, 1) then Panics
    else match Take(NEG, s, 1)
      case Some(t) =>
        var tos := SignedBigIntConversion(Top(s));
        if tos.Number? then Offer(t, SignedByteArrayConversion(0 - tos.n)) else Failed
      case None => Failed
  }

  ghost function EqualityTurn(op: OpCode, s: State): (turn: Turn)
    ensures !turn.Halted? && (turn.Continue? ==> turn.state.fee <= s.fee)
  {
    match Take(op, s, 2)
    case Some(t) =>
      var n := |s.elements|;
      Offer(t, Bool((Value(s.elements[n - 2]) == Value(s.elements[n - 1])) == (op == EQ)))
    case None => Failed
  }

  ghost function ComparisonTurn(op: OpCode, s: State): (turn: Turn)
    requires op in {LT, GT, LTE, GTE}
    ensures !turn.Halted? && (turn.Continue? ==> turn.state.fee <= s.fee)
  {
    if EmptyNumber(op, s, 2) then Panics
    else match Take(op, s, 2)
      case Some(t) =>
        var (left, right) := Numbers(s.elements);
        if left.Number? && right.Number? then Offer(t, Bool(Compare(op, left.n, right.n))) else Failed
      case None => Failed
  }

  ghost function ShiftTurn(op: OpCode, code: Bytes, s: State): (turn: Turn)
    ensures !turn.Halted? && (turn.Continue? ==> turn.state.fee <= s.fee)
  {
    if EmptyNumber(op, s, 1) then Panics
    else match Take(op, s, 1)
      case Some(t) =>
        var tos := SignedBigIntConversion(Top(s));
        if tos.Number? && s.pc < |code| && Pow(2, code[s.pc]) > 0
        then
          var factor := Pow(2, code[s.pc]);
          Put(t.(pc := s.pc + 1),
              SignedByteArrayConversion(if op == SHIFTL then tos.n * factor else tos.n / factor))
        else Failed
      case None => Failed
  }

  // -------------------- control --------------------

  ghost function NopTurn(code: Bytes, s: State): (turn: Turn)
    ensures !turn.Halted? && (turn.Continue? ==> turn.state.fee <= s.fee)
  {
    if s.pc < |code| then Continue(s.(pc := s.pc + 1)) else Failed
  }

  // The two bytes at the position, as an address.
  ghost function Label(code: Bytes, pc: nat): nat
    requires pc + 2 < |code|
  {
    Value(code[pc..pc + 2])
  }

  ghost function JmpTurn(code: Bytes, s: State): (turn: Turn)
    ensures !turn.Halted? && (turn.Continue? ==> turn.state.fee <= s.fee)
  {
    if s.pc + 2 < |code| then Continue(s.(pc := Label(code, s.pc))) else Failed
  }

  ghost function JmpIfTurn(code: Bytes, s: State): (turn: Turn)
    ensures !turn.Halted? && (turn.Continue? ==> turn.state.fee <= s.fee)
  {
    match Take(JMPIF, s, 1)
    case Some(t) =>
      if s.pc + 2 >= |code| then Failed
      else if Top(s) == [] then Panics
      else Continue(t.(pc := if Top(s)[0] == 1 then Label(code, s.pc) else s.pc + 2))
    case None => Failed
  }

  // The frame of a call holds the top n elements, the topmost under the highest index.
  ghost function FrameOf(returnAddress: nat, elements: seq<Bytes>, n: nat): Frame
    requires n <= |elements|
  {
    Frame(returnAddress, ArgumentsFrom(elements[|elements| - n..], 0))
  }

  // The arguments from index k on.
  ghost function ArgumentsFrom(args: seq<Bytes>, k: nat): map<nat, int> {
    map i: nat | i < |args| && k <= i :: Value(args[i])
  }

  // j of n arguments are popped into the frame.
  ghost predicate Loading(op: OpCode, s: State, t: State, frame: Frame, n: nat, j: nat) {
    && j <= n && j <= |s.elements| && Take(op, s, j) == Some(t)
    && (n <= |s.elements| ==> frame.variables == ArgumentsFrom(s.elements[|s.elements| - n..], n - j))
  }

  lemma LoadingStarts(op: OpCode, s: State, frame: Frame, n: nat)
    requires frame.variables == map[]
    ensures Loading(op, s, s, frame, n, 0)
  {
    hide Take;
    TakeNone(op, s);
    if n <= |s.elements| {
      OneMoreArgument(s.elements[|s.elements| - n..], n);
    }
  }

  lemma LoadingGoesOn(op: OpCode, s: State, t: State, frame: Frame, n: nat, j: nat)
    requires Loading(op, s, t, frame, n, j) && j < n
    ensures Take(op, t, 1).Some? ==>
      && t.elements != []
      && Loading(op, s, Take(op, t, 1).value, frame.(variables := frame.variables[n - 1 - j := Value(Top(t))]), n,
                 j + 1)
    ensures Take(op, t, 1).None? ==> Take(op, s, n).None?
  {
    hide Value, PopCost, Payable, ArgumentsFrom, Take;
    TakeMore(op, s, j);
    TakeOne(op, t);
    if Take(op, t, 1).None? {
      TakeFails(op, s, j + 1, n);
    } else if n <= |s.elements| {
      var args := s.elements[|s.elements| - n..];
      OneMoreArgument(args, n - j);
      assert Top(t) == args[n - 1 - j];
    }
  }

  lemma LoadingEnds(op: OpCode, s: State, t: State, frame: Frame, n: nat)
    requires Loading(op, s, t, frame, n, n)
    ensures n <= |s.elements| && Take(op, s, n) == Some(t) && frame == FrameOf(frame.returnAddress, s.elements, n)
  {
    hide Take;
  }

  lemma OneMoreArgument(args: seq<Bytes>, k: nat)
    ensures k >= |args| ==> ArgumentsFrom(args, k) == map[]
    ensures 0 < k <= |args| ==> ArgumentsFrom(args, k - 1) == ArgumentsFrom(args, k)[k - 1 := Value(args[k - 1])]
  {
    hide Value;
  }

  ghost function EnterTurn(op: OpCode, code: Bytes, s: State, address: nat, args: nat): (turn: Turn)
    ensures !turn.Halted? && (turn.Continue? ==> turn.state.fee <= s.fee)
  {
    match Take(op, s, args)
    case Some(t) =>
      if 0 < address <= |code|
      then Continue(t.(pc := address, callStack := s.callStack + [FrameOf(s.pc, s.elements, args)])) else Failed
    case None => Failed
  }

  ghost function CallTurn(code: Bytes, s: State): (turn: Turn)
    ensures !turn.Halted? && (turn.Continue? ==> turn.state.fee <= s.fee)
  {
    if s.pc + 2 < |code| then EnterTurn(CALL, code, s.(pc := s.pc + 3), Label(code, s.pc), code[s.pc + 2]) else Failed
  }

  ghost function CallIfTurn(code: Bytes, s: State): (turn: Turn)
    ensures !turn.Halted? && (turn.Continue? ==> turn.state.fee <= s.fee)
  {
    match Take(CALLIF, s, 1)
    case Some(t) =>
      if s.pc + 2 >= |code| then Failed
      else if Top(s) == [] then Panics
      else if Top(s)[0] != 1 then Continue(t.(pc := s.pc + 3))
      else EnterTurn(CALLIF, code, t.(pc := s.pc + 3), Label(code, s.pc), code[s.pc + 2])
    case None => Failed
  }

  // A stub in the source: only the 37 argument bytes are skipped.
  ghost function CallExtTurn(code: Bytes, s: State): (turn: Turn)
    ensures !turn.Halted? && (turn.Continue? ==> turn.state.fee <= s.fee)
  {
    if s.pc + 36 < |code| then Continue(s.(pc := s.pc + 37)) else Failed
  }

  ghost function RetTurn(s: State): (turn: Turn)
    ensures !turn.Halted? && (turn.Continue? ==> turn.state.fee <= s.fee)
  {
    var n := |s.callStack|;
    if n > 0 then Continue(s.(pc := s.callStack[n - 1].returnAddress, callStack := s.callStack[..n - 1])) else Failed
  }

  // -------------------- data --------------------

  ghost function SizeTurn(s: State): (turn: Turn)
    ensures !turn.Halted? && (turn.Continue? ==> turn.state.fee <= s.fee)
  {
    match Take(SIZE, s, 1)
    case Some(t) => Put(t, FixedBigEndian(|Top(s)|, 8))
    case None => Failed
  }

  ghost function SStoreTurn(code: Bytes, s: State): (turn: Turn)
    ensures !turn.Halted? && (turn.Continue? ==> turn.state.fee <= s.fee)
  {
    match Take(SSTORE, s, 1)
    case Some(t) =>
      if s.pc < |code| && code[s.pc] < |s.variables|
      then Continue(t.(pc := s.pc + 1, variables := s.variables[code[s.pc] := Top(s)])) else Failed
    case None => Failed
  }

  ghost function StoreTurn(code: Bytes, s: State): (turn: Turn)
    ensures !turn.Halted? && (turn.Continue? ==> turn.state.fee <= s.fee)
  {
    if EmptyNumber(STORE, s, 1) then Panics
    else match Take(STORE, s, 1)
      case Some(t) =>
        var value, n := SignedBigIntConversion(Top(s)), |s.callStack| - 1;
        if value.Number? && s.pc < |code| && n >= 0 then
          var frame := s.callStack[n];
          Continue(t.(pc := s.pc + 1,
                      callStack := s.callStack[n := frame.(variables := frame.variables[code[s.pc] := value.n])]))
        else Failed
      case None => Failed
  }

  ghost function SLoadTurn(code: Bytes, s: State): (turn: Turn)
    ensures !turn.Halted? && (turn.Continue? ==> turn.state.fee <= s.fee)
  {
    if s.pc < |code| && code[s.pc] < |s.variables| then Put(s.(pc := s.pc + 1), s.variables[code[s.pc]]) else Failed
  }

  ghost function LoadTurn(code: Bytes, s: State): (turn: Turn)
    ensures !turn.Halted? && (turn.Continue? ==> turn.state.fee <= s.fee)
  {
    if s.pc < |code| && s.callStack != [] then
      var i, frame := code[s.pc], s.callStack[|s.callStack| - 1];
      Put(s.(pc := s.pc + 1), SignedByteArrayConversion(if i in frame.variables then frame.variables[i] else 0))
    else Failed
  }

  // The parameters of the transaction data from position i on: a length byte and one byte more than it says.
  ghost function Parameters(data: Bytes, i: nat): Option<seq<Bytes>>
    decreases |data| - i
  {
    if i >= |data| then Some([])
    else if |data| - i - 1 <= data[i] then None
    else match Parameters(data, i + data[i] + 2)
      case Some(rest) => Some([data[i + 1..i + data[i] + 2]] + rest)
      case None => None
  }

  ghost function CallDataTurn(data: Bytes, s: State): (turn: Turn)
    ensures !turn.Halted? && (turn.Continue? ==> turn.state.fee <= s.fee)
  {
    match Parameters(data, 0)
    case Some(ps) =>
      if Usage(s.elements) + Usage(ps) <= MEMORY_MAX then Continue(s.(elements := s.elements + ps)) else Failed
    case None => Failed
  }

  // The library goes on after each of the first k operands.
  ghost predicate Answers(env: Env, op: OpCode, operands: seq<Bytes>) {
    && env.library(op, operands).Computed?
    && forall j :: 0 <= j <= |operands| ==> env.library(op, operands[..j]).Computed?
  }

  // One more operand, or none.
  lemma OperandTaken(op: OpCode, s: State, k: nat, t: State)
    requires k <= |s.elements| && Take(op, s, k) == Some(t)
    ensures Take(op, s, k + 1) == Take(op, t, 1)
    ensures Take(op, t, 1).Some? ==>
      && k < |s.elements| && t.elements != []
      && Operands(s.elements, k + 1) == Operands(s.elements, k) + [Top(t)]
  {
    hide PopCost, Payable, Afford;
    TakeMore(op, s, k);
    TakeOne(op, t);
  }

  // The first k operands, popped, paid for and answered.
  ghost predicate Popping(env: Env, op: OpCode, s: State, t: State, args: seq<Bytes>, k: nat) {
    && k <= |s.elements| && k <= OperandCount(op) && args == Operands(s.elements, k)
    && Take(op, s, k) == Some(t) && AnswersBelow(env, op, s.elements, k)
  }

  // Popping has failed for one of the first k operands, with an answer on those before it.
  ghost predicate PoppingFailed(env: Env, op: OpCode, s: State, k: nat) {
    exists j: nat :: j < k && FailsAfter(env, op, s, j)
  }

  ghost predicate FailsAfter(env: Env, op: OpCode, s: State, j: nat) {
    && j <= |s.elements| && j < OperandCount(op) && AnswersBelow(env, op, s.elements, j + 1)
    && Take(op, s, j + 1).None?
  }

  lemma PoppingStarts(env: Env, op: OpCode, s: State)
    ensures Popping(env, op, s, s, [], 0)
    ensures op in {ARRAPPEND, CHECKSIG} ==> OperandCount(op) == 2
  {
    hide Take;
    TakeNone(op, s);
    NoOperands(env, op, s.elements);
  }

  lemma PoppingGoesOn(env: Env, op: OpCode, s: State, t: State, args: seq<Bytes>, k: nat)
    requires Popping(env, op, s, t, args, k) && k < OperandCount(op) && env.library(op, args).Computed?
    ensures Take(op, t, 1).Some? ==>
      t.elements != [] && Popping(env, op, s, Take(op, t, 1).value, args + [Top(t)], k + 1)
    ensures Take(op, t, 1).None? ==> PoppingFailed(env, op, s, k + 1)
  {
    hide Take, Operands, AnswersBelow;
    AnswersFurther(env, op, s.elements, k);
    OperandTaken(op, s, k, t);
    if Take(op, t, 1).None? {
      assert FailsAfter(env, op, s, k);
    }
  }

  lemma PoppingFailsOn(env: Env, op: OpCode, s: State, k: nat)
    requires PoppingFailed(env, op, s, k)
    ensures PoppingFailed(env, op, s, k + 1)
    ensures Take(op, s, OperandCount(op)).None? && !LibraryPanics(env, op, s)
  {
    hide Take, LibraryPanics, AnswersBelow;
    var j: nat :| j < k && FailsAfter(env, op, s, j);
    NotTaken(env, op, s, j);
  }

  lemma PoppingUnanswered(env: Env, op: OpCode, s: State, t: State, args: seq<Bytes>, k: nat)
    requires Popping(env, op, s, t, args, k) && !env.library(op, args).Computed?
    ensures !LibraryGoesOn(env, op, s) && (LibraryPanics(env, op, s) <==> env.library(op, args).Panic?)
  {
    hide Take, LibraryPanics, AnswersBelow;
    NotAnswered(env, op, s, k);
  }

  lemma NotGoingOn(env: Env, op: OpCode, s: State)
    requires Take(op, s, OperandCount(op)).None?
    ensures !LibraryGoesOn(env, op, s)
  {
  }

  lemma GoingOn(env: Env, op: OpCode, s: State)
    requires LibraryGoesOn(env, op, s)
    ensures OperandCount(op) <= |s.elements| && env.library(op, Operands(s.elements, OperandCount(op))).Computed?
  {
  }

  lemma PoppingAnswered(env: Env, op: OpCode, s: State, t: State, args: seq<Bytes>)
    requires Popping(env, op, s, t, args, OperandCount(op)) && env.library(op, args).Computed?
    ensures LibraryGoesOn(env, op, s) && !LibraryPanics(env, op, s)
    ensures args == Operands(s.elements, OperandCount(op)) && Take(op, s, OperandCount(op)) == Some(t)
  {
    hide Take, LibraryPanics, AnswersBelow, Answers, Operands, OperandCount;
    AnswersFurther(env, op, s.elements, OperandCount(op));
    Answered(env, op, s);
  }

  // The library answers on fewer than j operands.
  ghost predicate AnswersBelow(env: Env, op: OpCode, elements: seq<Bytes>, j: nat)
    requires j <= |elements| + 1
  {
    forall i :: 0 <= i < j ==> env.library(op, Operands(elements, i)).Computed?
  }

  lemma NoOperands(env: Env, op: OpCode, elements: seq<Bytes>)
    ensures Operands(elements, 0) == [] && AnswersBelow(env, op, elements, 0)
  {
  }

  lemma AnswersFurther(env: Env, op: OpCode, elements: seq<Bytes>, j: nat)
    requires j <= |elements|
    ensures AnswersBelow(env, op, elements, j) && env.library(op, Operands(elements, j)).Computed? ==>
      AnswersBelow(env, op, elements, j + 1)
  {
    hide Operands;
  }

  // The library panics on the first j operands, all of them popped and paid for, after answering before.
  ghost predicate PanicsAfter(env: Env, op: OpCode, s: State, j: nat)
    requires j <= |s.elements|
  {
    Take(op, s, j).Some? && env.library(op, Operands(s.elements, j)).Panic? && AnswersBelow(env, op, s.elements, j)
  }

  ghost predicate LibraryPanics(env: Env, op: OpCode, s: State) {
    exists j: nat :: j <= OperandCount(op) && j <= |s.elements| && PanicsAfter(env, op, s, j)
  }

  // All operands are there and paid for, and the library answers throughout.
  ghost predicate LibraryGoesOn(env: Env, op: OpCode, s: State) {
    && OperandCount(op) <= |s.elements| && Take(op, s, OperandCount(op)).Some?
    && Answers(env, op, Operands(s.elements, OperandCount(op)))
  }

  // A pop that fails after j operands ends the instruction.
  lemma NotTaken(env: Env, op: OpCode, s: State, j: nat)
    requires j <= |s.elements| && AnswersBelow(env, op, s.elements, j + 1) && Take(op, s, j + 1).None?
    requires j < OperandCount(op)
    ensures Take(op, s, OperandCount(op)).None? && !LibraryPanics(env, op, s)
  {
    hide Take, Operands;
    TakeFails(op, s, j + 1, OperandCount(op));
    forall i: nat | i <= OperandCount(op) && i <= |s.elements| && PanicsAfter(env, op, s, i) ensures false {
      if i > j {
        TakeFails(op, s, j + 1, i);
      }
    }
  }

  // So does a library that does not answer on j operands.
  lemma NotAnswered(env: Env, op: OpCode, s: State, j: nat)
    requires j <= |s.elements| && AnswersBelow(env, op, s.elements, j) && Take(op, s, j).Some?
    requires j <= OperandCount(op) && !env.library(op, Operands(s.elements, j)).Computed?
    ensures OperandCount(op) <= |s.elements| ==> !Answers(env, op, Operands(s.elements, OperandCount(op)))
    ensures LibraryPanics(env, op, s) <==> env.library(op, Operands(s.elements, j)).Panic?
  {
    hide Take;
    if OperandCount(op) <= |s.elements| {
      assert Operands(s.elements, OperandCount(op))[..j] == Operands(s.elements, j);
    }
    forall i: nat | i <= OperandCount(op) && i <= |s.elements| && PanicsAfter(env, op, s, i) ensures i == j {
    }
    if env.library(op, Operands(s.elements, j)).Panic? {
      assert PanicsAfter(env, op, s, j);
    }
  }

  lemma Answered(env: Env, op: OpCode, s: State)
    requires OperandCount(op) <= |s.elements| && AnswersBelow(env, op, s.elements, OperandCount(op) + 1)
    ensures Answers(env, op, Operands(s.elements, OperandCount(op))) && !LibraryPanics(env, op, s)
  {
    hide Take;
    var operands := Operands(s.elements, OperandCount(op));
    forall j | 0 <= j <= |operands| ensures env.library(op, operands[..j]).Computed? {
      assert operands[..j] == Operands(s.elements, j);
    }
  }

  ghost function LibraryTurn(env: Env, op: OpCode, s: State): (turn: Turn)
    ensures !turn.Halted? && (turn.Continue? ==> turn.state.fee <= s.fee)
  {
    if LibraryPanics(env, op, s) then Panics
    else if !LibraryGoesOn(env, op, s) then Failed
    else
      var t := Take(op, s, OperandCount(op)).value;
      var answer := env.library(op, Operands(s.elements, OperandCount(op)));
      if op in {MAPHASKEY, NEWARR, CHECKSIG} then Offer(t, answer.bytes) else Put(t, answer.bytes)
  }

  // -------------------- the switch --------------------

  ghost function NumbersTurn(code: Bytes, op: OpCode, s: State): (turn: Turn)
    requires OnNumbers(op)
    ensures !turn.Halted? && (turn.Continue? ==> turn.state.fee <= s.fee)
  {
    match op
    case PUSH => PushTurn(code, s)
    case DUP => DupTurn(s)
    case ROLL => RollTurn(code, s)
    case POP => PopTurn(s)
    case ADD | SUB | MULT | DIV | MOD => ArithmeticTurn(op, s)
    case NEG => NegTurn(s)
    case EQ | NEQ => EqualityTurn(op, s)
    case LT | GT | LTE | GTE => ComparisonTurn(op, s)
    case SHIFTL | SHIFTR => ShiftTurn(op, code, s)
  }

  ghost function ControlTurn(code: Bytes, op: OpCode, s: State): (turn: Turn)
    requires OnControl(op)
    ensures !turn.Halted? && (turn.Continue? ==> turn.state.fee <= s.fee)
  {
    match op
    case NOP => NopTurn(code, s)
    case JMP => JmpTurn(code, s)
    case JMPIF => JmpIfTurn(code, s)
    case CALL => CallTurn(code, s)
    case CALLIF => CallIfTurn(code, s)
    case CALLEXT => CallExtTurn(code, s)
    case RET => RetTurn(s)
  }

  ghost function DataTurn(env: Env, code: Bytes, op: OpCode, s: State): (turn: Turn)
    ensures !turn.Halted? && (turn.Continue? ==> turn.state.fee <= s.fee)
  {
    if op == SIZE then SizeTurn(s)
    else if op == STORE then StoreTurn(code, s)
    else if op == SSTORE then SStoreTurn(code, s)
    else if op == LOAD then LoadTurn(code, s)
    else if op == SLOAD then SLoadTurn(code, s)
    else if op in {ADDRESS, ISSUER, BALANCE, CALLER, CALLVAL} then Put(s, env.context.Field(op))
    else if op == CALLDATA then CallDataTurn(env.context.data, s)
    else LibraryTurn(env, op, s)
  }

  ghost function Instruction(env: Env, code: Bytes, op: OpCode, s: State): (turn: Turn)
    ensures (turn.Halted? <==> op == HALT) && (op == ERRHALT ==> turn.Failed?)
    ensures turn.Continue? ==> turn.state.fee <= s.fee && op != HALT && op != ERRHALT
  {
    if OnNumbers(op) then NumbersTurn(code, op, s)
    else if OnControl(op) then ControlTurn(code, op, s)
    else if op == ERRHALT then Failed
    else if op == HALT then Halted(s)
    else DataTurn(env, code, op, s)
  }

  // The instruction with the byte code, if there is one.
  function Decoded(byteCode: uint8): Option<OpCode> {
    if |OP_CODES| <= byteCode then None else Some(OP_CODES[byteCode])
  }

  // An instruction with its price, after its byte code was fetched.
  ghost function Charged(env: Env, code: Bytes, op: OpCode, s: State): (turn: Turn)
    ensures turn.Continue? ==> turn.state.fee < s.fee
  {
    if s.fee < GasPrice(op) then Failed else Instruction(env, code, op, s.(fee := s.fee - GasPrice(op)))
  }

  // One turn of the loop: fetch, pay, execute.
  ghost function Step(env: Env, code: Bytes, s: State): (turn: Turn)
    ensures turn.Continue? ==> turn.state.fee < s.fee
  {
    if s.pc >= |code| || Decoded(code[s.pc]).None? then Failed
    else Charged(env, code, Decoded(code[s.pc]).value, s.(pc := s.pc + 1))
  }

  // The whole run of a contract.
  ghost function Run(env: Env, code: Bytes, s: State): (turn: Turn)
    ensures !turn.Continue?
    decreases s.fee
  {
    match Step(env, code, s)
    case Continue(t) => Run(env, code, t)
    case stop => stop
  }

  // Exec: the contract and the fee of the context, and a limit on the code.
  ghost function Started(env: Env, s: State): (turn: Turn)
    ensures !turn.Continue?
  {
    if |env.context.contract| > 100000 then Failed
    else Run(env, env.context.contract, s.(fee := env.context.fee))
  }
}
