/** The line-number program: a byte-coded machine that emits line rows
    (section 6.2 of DWARF 5). */
module LinePrograms {
  import opened Prelude
  import opened ByteArrays
  import opened Leb128
  import opened LineTables
  import opened Arithmetic

  /** What a unit's header says, once its file table has been read. */
  datatype Header = Header(minInst: nat, maxOps: nat, defaultIsStmt: bool, lineBase: int, lineRange: nat,
                           opcodeBase: Byte, standardLengths: seq<nat>, firstFile: nat, fileNames: seq<string>)

  datatype State = State(address: nat, opIndex: nat, file: nat, line: int, column: nat, isStmt: bool, endSequence: bool)

  function Initial(h: Header): State {
    State(0, 0, if h.firstFile != 0 then h.firstFile else 1, 1, 0, h.defaultIsStmt, false)
  }

  function Decimal(n: nat): string { if n < 10 then ["0123456789"[n]] else Decimal(n / 10) + ["0123456789"[n % 10]] }

  function FileAt(h: Header, index: nat): string {
    if 0 <= index - h.firstFile < |h.fileNames| then h.fileNames[index - h.firstFile]
    else "<file " + Decimal(index) + ">"
  }

  function Row(h: Header, s: State): LineRow { LineRow(s.address, FileAt(h, s.file), s.line, s.isStmt, s.endSequence) }

  function Advance(h: Header, s: State, operationAdvance: nat): State {
    if h.maxOps <= 1 then s.(address := s.address + h.minInst * operationAdvance)
    else
      var total := s.opIndex + operationAdvance;
      s.(address := s.address + h.minInst * (total / h.maxOps), opIndex := total % h.maxOps)
  }

  /** The machine between opcodes: registers, rows emitted, cursor. */
  datatype Exec = Exec(state: State, rows: seq<LineRow>, offset: nat)

  function SkipUlebs(data: seq<Byte>, offset: nat, n: nat): (r: Result<nat, Fault>)
    ensures r.Ok? ==> r.value >= offset
    decreases n
  {
    if n == 0 then Ok(offset)
    else
      match UlebAt(data, offset)
      case Err(e) => Err(e)
      case Ok((_, next)) => SkipUlebs(data, next, n - 1)
  }

  function Special(h: Header, m: Exec, opcode: Byte): Exec
    requires opcode >= h.opcodeBase && h.lineRange > 0
  {
    var adjusted := opcode - h.opcodeBase;
    var s := Advance(h, m.state, adjusted / h.lineRange);
    var s' := s.(line := s.line + h.lineBase + adjusted % h.lineRange);
    Exec(s', m.rows + [Row(h, s')], m.offset + 1)
  }

  function Extended(h: Header, data: seq<Byte>, m: Exec): (r: Result<Exec, Fault>)
    ensures r.Ok? ==> r.value.offset > m.offset
  {
    match UlebAt(data, m.offset + 1)
    case Err(e) => Err(e)
    case Ok((length, start)) =>
      var subEnd := start + length;
      if length > 0 && start >= |data| then Err(IndexError)
      else
        var sub := if length > 0 then data[start] else 0;
        if sub == 1 then
          Ok(Exec(Initial(h), m.rows + [Row(h, m.state.(endSequence := true))], subEnd))
        else if sub == 2 then
          Ok(Exec(m.state.(address := Value(UpTo(data, start + 1, length - 1)), opIndex := 0), m.rows, subEnd))
        else Ok(m.(offset := subEnd))
  }

  function Standard(h: Header, data: seq<Byte>, m: Exec, opcode: Byte): (r: Result<Exec, Fault>)
    requires 0 < opcode < h.opcodeBase
    ensures r.Ok? ==> r.value.offset > m.offset
  {
    var next := m.(offset := m.offset + 1);
    var s := m.state;
    if opcode == 1 then Ok(next.(rows := m.rows + [Row(h, s)]))
    else if opcode == 2 then
      match UlebAt(data, m.offset + 1)
      case Err(e) => Err(e)
      case Ok((n, after)) => Ok(Exec(Advance(h, s, n), m.rows, after))
    else if opcode == 3 then
      match SlebAt(data, m.offset + 1)
      case Err(e) => Err(e)
      case Ok((z, after)) => Ok(Exec(s.(line := s.line + z), m.rows, after))
    else if opcode == 4 then
      match UlebAt(data, m.offset + 1)
      case Err(e) => Err(e)
      case Ok((n, after)) => Ok(Exec(s.(file := n), m.rows, after))
    else if opcode == 5 then
      match UlebAt(data, m.offset + 1)
      case Err(e) => Err(e)
      case Ok((n, after)) => Ok(Exec(s.(column := n), m.rows, after))
    else if opcode == 6 then Ok(next.(state := s.(isStmt := !s.isStmt)))
    else if opcode == 7 then Ok(next)
    else if opcode == 8 then
      if h.lineRange == 0 then Err(ZeroDivisionError)
      else Ok(next.(state := Advance(h, s, (255 - h.opcodeBase) / h.lineRange)))
    else if opcode == 9 then
      Ok(Exec(s.(address := s.address + Value(UpTo(data, m.offset + 1, 2)), opIndex := 0), m.rows, m.offset + 3))
    else if opcode == 10 || opcode == 11 then Ok(next)
    else if opcode == 12 then
      match UlebAt(data, m.offset + 1)
      case Err(e) => Err(e)
      case Ok((_, after)) => Ok(m.(offset := after))
    else
      var operands := if opcode - 1 < |h.standardLengths| then h.standardLengths[opcode - 1] else 0;
      match SkipUlebs(data, m.offset + 1, operands)
      case Err(e) => Err(e)
      case Ok(after) => Ok(m.(offset := after))
  }

  /** One opcode. A fault leaves the rows emitted before it in place. */
  function Step(h: Header, data: seq<Byte>, m: Exec): (r: Result<Exec, Fault>)
    ensures r.Ok? ==> r.value.offset > m.offset
  {
    if m.offset >= |data| then Err(IndexError)
    else
      var opcode := data[m.offset];
      if opcode >= h.opcodeBase then
        if h.lineRange == 0 then Err(ZeroDivisionError) else Ok(Special(h, m, opcode))
      else if opcode == 0 then Extended(h, data, m)
      else Standard(h, data, m, opcode)
  }

  /** Opcodes until the unit's end; each moves the cursor, so the loop ends. */
  function Execute(h: Header, data: seq<Byte>, end: nat, m: Exec): (Exec, Option<Fault>)
    decreases if end > m.offset then end - m.offset else 0
  {
    if m.offset >= end then (m, None)
    else
      match Step(h, data, m)
      case Err(f) => (m, Some(f))
      case Ok(m') => Execute(h, data, end, m')
  }

  // ----- the opcode loop

  method ReadWidth(reader: Reader, count: nat) returns (value: nat)
    modifies reader
    ensures value == Value(UpTo(reader.data, old(reader.offset), count)) && reader.offset == old(reader.offset) + count
  {
    value := Value(UpTo(reader.data, reader.offset, count));
    reader.offset := reader.offset + count;
  }

  method SkipOperands(reader: Reader, n: nat) returns (fault: Option<Fault>)
    modifies reader
    ensures match SkipUlebs(reader.data, old(reader.offset), n)
            case Ok(after) => fault == None && reader.offset == after
            case Err(f) => fault == Some(f)
  {
    for i := 0 to n
      invariant SkipUlebs(reader.data, reader.offset, n - i) == SkipUlebs(reader.data, old(reader.offset), n)
    {
      var r := reader.Uleb();
      if r.Err? { return Some(r.error); }
    }
    fault := None;
  }

  ghost predicate Became(r: Result<Exec, Fault>, state: State, rows: seq<LineRow>, offset: nat, fault: Option<Fault>) {
    match r
    case Ok(m) => fault == None && m == Exec(state, rows, offset)
    case Err(f) => fault == Some(f)
  }

  method DoExtended(reader: Reader, h: Header, state: State, rows: seq<LineRow>, ghost m: Exec)
    returns (state': State, rows': seq<LineRow>, fault: Option<Fault>)
    requires m == Exec(state, rows, m.offset) && reader.offset == m.offset + 1
    modifies reader
    ensures Became(Extended(h, reader.data, m), state', rows', reader.offset, fault)
    ensures fault.Some? ==> rows' == rows
  {
    state', rows', fault := state, rows, None;
    var length := reader.Uleb();
    if length.Err? { fault := Some(length.error); return; }
    var subEnd := reader.offset + length.value;
    var sub := 0;
    if length.value > 0 {
      var first := reader.U8();
      if first.Err? { fault := Some(first.error); return; }
      sub := first.value;
    }
    if sub == 1 {
      state' := state'.(endSequence := true);
      rows' := rows' + [Row(h, state')];
      state' := Initial(h);
    } else if sub == 2 {
      var address := ReadWidth(reader, subEnd - reader.offset);
      state' := state'.(address := address, opIndex := 0);
    }
    reader.offset := subEnd;
  }

  method DoStandard(reader: Reader, h: Header, opcode: Byte, state: State, rows: seq<LineRow>, ghost m: Exec)
    returns (state': State, rows': seq<LineRow>, fault: Option<Fault>)
    requires 0 < opcode < h.opcodeBase
    requires m == Exec(state, rows, m.offset) && reader.offset == m.offset + 1
    modifies reader
    ensures Became(Standard(h, reader.data, m, opcode), state', rows', reader.offset, fault)
    ensures fault.Some? ==> rows' == rows
  {
    state', rows', fault := state, rows, None;
    if opcode == 1 {
      rows' := rows' + [Row(h, state')];
    } else if opcode == 2 || opcode == 4 || opcode == 5 || opcode == 12 {
      var n := reader.Uleb();
      if n.Err? { fault := Some(n.error); return; }
      if opcode == 2 { state' := Advance(h, state', n.value); }
      else if opcode == 4 { state' := state'.(file := n.value); }
      else if opcode == 5 { state' := state'.(column := n.value); }
    } else if opcode == 3 {
      var z := reader.Sleb();
      if z.Err? { fault := Some(z.error); return; }
      state' := state'.(line := state'.line + z.value);
    } else if opcode == 6 {
      state' := state'.(isStmt := !state'.isStmt);
    } else if opcode == 7 || opcode == 10 || opcode == 11 {
    } else if opcode == 8 {
      if h.lineRange == 0 { fault := Some(ZeroDivisionError); return; }
      state' := Advance(h, state', (255 - h.opcodeBase) / h.lineRange);
    } else if opcode == 9 {
      var delta := ReadWidth(reader, 2);
      state' := state'.(address := state'.address + delta, opIndex := 0);
    } else {
      fault := SkipOperands(reader, if opcode - 1 < |h.standardLengths| then h.standardLengths[opcode - 1] else 0);
    }
  }

  method DoOpcode(reader: Reader, h: Header, state: State, rows: seq<LineRow>, ghost m: Exec)
    returns (state': State, rows': seq<LineRow>, fault: Option<Fault>)
    requires m == Exec(state, rows, reader.offset)
    modifies reader
    ensures Became(Step(h, reader.data, m), state', rows', reader.offset, fault)
    ensures fault.Some? ==> rows' == rows
  {
    state', rows', fault := state, rows, None;
    var op := reader.U8();
    if op.Err? { fault := Some(op.error); return; }
    var opcode: Byte := op.value;
    if opcode >= h.opcodeBase {
      if h.lineRange == 0 { fault := Some(ZeroDivisionError); return; }
      var adjusted := opcode - h.opcodeBase;
      state' := Advance(h, state', adjusted / h.lineRange);
      state' := state'.(line := state'.line + h.lineBase + adjusted % h.lineRange);
      rows' := rows' + [Row(h, state')];
    } else if opcode == 0 {
      state', rows', fault := DoExtended(reader, h, state, rows, m);
    } else {
      state', rows', fault := DoStandard(reader, h, opcode, state, rows, m);
    }
  }

  /** Run one program. The rows it emits, up to a fault if there is one, are
      those of the machine on values. */
  method RunProgram(reader: Reader, h: Header, end: nat, rows: seq<LineRow>)
    returns (rows': seq<LineRow>, fault: Option<Fault>)
    modifies reader
    ensures var (m, f) := Execute(h, reader.data, end, Exec(Initial(h), rows, old(reader.offset)));
            rows' == m.rows && fault == f
  {
    hide Step;
    ghost var goal := Execute(h, reader.data, end, Exec(Initial(h), rows, reader.offset));
    var state := Initial(h);
    rows' := rows;
    while reader.offset < end
      invariant Execute(h, reader.data, end, Exec(state, rows', reader.offset)) == goal
      decreases end - reader.offset
    {
      ghost var m := Exec(state, rows', reader.offset);
      state, rows', fault := DoOpcode(reader, h, state, rows', m);
      if fault.Some? { return; }
    }
    fault := None;
  }

  // ----- faults

  /** Division by zero is the one fault that depends on the header: it happens
      exactly at a special opcode, or at a constant advance, with line_range 0. */
  lemma ZeroDivisionIff(h: Header, data: seq<Byte>, m: Exec)
    ensures Step(h, data, m) == Err(ZeroDivisionError) <==>
              m.offset < |data| && h.lineRange == 0
              && (data[m.offset] >= h.opcodeBase || data[m.offset] == 8)
    ensures Step(h, data, m).Err? ==> Step(h, data, m).error in {IndexError, ZeroDivisionError}
  {
    hide UlebAt, SlebAt, SkipUlebs, Advance, Row;
    if m.offset < |data| && data[m.offset] < h.opcodeBase {
      LebFaults(data, m.offset + 1);
      if data[m.offset] > 12 {
        SkipFaults(data, m.offset + 1,
                   if data[m.offset] - 1 < |h.standardLengths| then h.standardLengths[data[m.offset] - 1] else 0);
      }
    }
  }

  lemma {:induction false} SkipFaults(data: seq<Byte>, offset: nat, n: nat)
    ensures SkipUlebs(data, offset, n).Err? ==> SkipUlebs(data, offset, n) == Err(IndexError)
    decreases n
  {
    if n > 0 {
      LebFaults(data, offset);
      if UlebAt(data, offset).Ok? { SkipFaults(data, UlebAt(data, offset).value.1, n - 1); }
    }
  }

  /** With a positive line_range a program only ever ends at its end or by
      running out of bytes. */
  lemma {:induction false} PositiveRangeIsSafe(h: Header, data: seq<Byte>, end: nat, m: Exec)
    requires h.lineRange > 0
    ensures Execute(h, data, end, m).1 in {None, Some(IndexError)}
    decreases if end > m.offset then end - m.offset else 0
  {
    hide Step;
    ZeroDivisionIff(h, data, m);
    if m.offset < end && Step(h, data, m).Ok? { PositiveRangeIsSafe(h, data, end, Step(h, data, m).value); }
  }

  // ----- when a program divides by zero

  /** Where the opcode at an offset ends. Registers play no part in it. */
  function EndOf(h: Header, data: seq<Byte>, offset: nat): (r: Result<nat, Fault>)
    requires offset < |data|
    ensures r.Ok? ==> r.value > offset
  {
    var opcode := data[offset];
    if opcode >= h.opcodeBase then Ok(offset + 1)
    else if opcode == 0 then
      match UlebAt(data, offset + 1)
      case Err(e) => Err(e)
      case Ok((length, start)) => if length > 0 && start >= |data| then Err(IndexError) else Ok(start + length)
    else if opcode == 2 || opcode == 4 || opcode == 5 || opcode == 12 then
      match UlebAt(data, offset + 1)
      case Err(e) => Err(e)
      case Ok((_, after)) => Ok(after)
    else if opcode == 3 then
      match SlebAt(data, offset + 1)
      case Err(e) => Err(e)
      case Ok((_, after)) => Ok(after)
    else if opcode == 9 then Ok(offset + 3)
    else if opcode > 12 then
      SkipUlebs(data, offset + 1, if opcode - 1 < |h.standardLengths| then h.standardLengths[opcode - 1] else 0)
    else Ok(offset + 1)
  }

  /** Walking from opcode to opcode meets one that divides by line_range. */
  predicate Divides(h: Header, data: seq<Byte>, end: nat, offset: nat)
    decreases if end > offset then end - offset else 0
  {
    && offset < end && offset < |data|
    && (data[offset] >= h.opcodeBase || data[offset] == 8
        || (EndOf(h, data, offset).Ok? && Divides(h, data, end, EndOf(h, data, offset).value)))
  }

  /** Short of dividing by zero, an opcode moves the cursor to its end, or faults
      where its end cannot be found. */
  lemma StepEnds(h: Header, data: seq<Byte>, m: Exec)
    requires m.offset < |data| && Step(h, data, m) != Err(ZeroDivisionError)
    ensures match Step(h, data, m)
            case Err(f) => EndOf(h, data, m.offset) == Err(f)
            case Ok(m') => EndOf(h, data, m.offset) == Ok(m'.offset)
  {
    hide UlebAt, SlebAt, SkipUlebs, Row, Advance, Initial;
  }

  /** A program under a zero line_range divides by it exactly when its opcodes,
      by their lengths alone, lead to one that does. */
  lemma {:induction false} DividesIff(h: Header, data: seq<Byte>, end: nat, m: Exec)
    requires h.lineRange == 0
    ensures Execute(h, data, end, m).1 == Some(ZeroDivisionError) <==> Divides(h, data, end, m.offset)
    decreases if end > m.offset then end - m.offset else 0
  {
    ZeroDivisionIff(h, data, m);
    hide Step, EndOf;
    if m.offset < end && m.offset < |data| && Step(h, data, m) != Err(ZeroDivisionError) {
      StepEnds(h, data, m);
      if Step(h, data, m).Ok? { DividesIff(h, data, end, Step(h, data, m).value); }
    } else if m.offset < end && m.offset >= |data| {
      PastTheEnd(h, data, m);
    }
  }

  lemma PastTheEnd(h: Header, data: seq<Byte>, m: Exec)
    requires m.offset >= |data|
    ensures Step(h, data, m) == Err(IndexError)
  {
  }

  /** Whatever line_range is, a program has no other fault. */
  lemma {:induction false} ExecuteFaults(h: Header, data: seq<Byte>, end: nat, m: Exec)
    ensures Execute(h, data, end, m).1 in {None, Some(IndexError), Some(ZeroDivisionError)}
    decreases if end > m.offset then end - m.offset else 0
  {
    if m.offset < end {
      hide Step;
      ZeroDivisionIff(h, data, m);
      if Step(h, data, m).Ok? { ExecuteFaults(h, data, end, Step(h, data, m).value); }
    }
  }

  // ----- address advances

  /** n operations on: with one operation to an instruction the address grows by
      that many instructions; otherwise by the q whole ones that op index and
      operations make up, and what is left over is the new op index. */
  ghost predicate Reaches(h: Header, s: State, n: nat, address: nat, opIndex: nat) {
    if h.maxOps <= 1 then address == s.address + h.minInst * n && opIndex == s.opIndex
    else
      && opIndex < h.maxOps
      && exists q: nat :: opIndex + h.maxOps * q == s.opIndex + n && address == s.address + h.minInst * q
  }

  /** An advance reaches it, and touches nothing else. */
  lemma AdvanceReaches(h: Header, s: State, n: nat)
    ensures var t := Advance(h, s, n);
            && Reaches(h, s, n, t.address, t.opIndex)
            && t == s.(address := t.address, opIndex := t.opIndex)
  {
    if h.maxOps > 1 {
      var total := s.opIndex + n;
      DivMod(total, h.maxOps);
      var q := total / h.maxOps;
      assert total % h.maxOps + h.maxOps * q == s.opIndex + n;
    }
  }

  lemma ReachesOne(h: Header, s: State, n: nat, a: nat, i: nat, a': nat, i': nat)
    requires Reaches(h, s, n, a, i) && Reaches(h, s, n, a', i')
    ensures a == a' && i == i'
  {
    if h.maxOps > 1 {
      var q: nat :| i + h.maxOps * q == s.opIndex + n && a == s.address + h.minInst * q;
      var q': nat :| i' + h.maxOps * q' == s.opIndex + n && a' == s.address + h.minInst * q';
      QuotientIs(s.opIndex + n, q, i, h.maxOps);
      QuotientIs(s.opIndex + n, q', i', h.maxOps);
    }
  }

  lemma AdvanceTwice(h: Header, s: State, a: nat, b: nat)
    ensures Advance(h, Advance(h, s, a), b) == Advance(h, s, a + b)
  {
    if h.maxOps <= 1 {
      Spread(h.minInst, a, b);
    } else {
      var t := s.opIndex + a;
      DivideTwice(t, b, h.maxOps);
      Spread(h.minInst, t / h.maxOps, (t % h.maxOps + b) / h.maxOps);
    }
  }

  lemma Spread(k: nat, a: nat, b: nat)
    ensures k * (a + b) == k * a + k * b
  {
  }

  /** Carrying in two goes is carrying once. */
  lemma DivideTwice(t: nat, b: nat, d: nat)
    requires d > 0
    ensures t / d + (t % d + b) / d == (t + b) / d
    ensures (t % d + b) % d == (t + b) % d
  {
    DivMod(t, d);
    DivMod(t % d + b, d);
    Carry(t, b, t / d, (t % d + b) / d, t % d, (t % d + b) % d, d);
  }

  lemma DivMod(n: nat, d: nat)
    requires d > 0
    ensures n == (n / d) * d + n % d && n % d < d
  {
  }

  lemma Carry(t: nat, b: nat, q: nat, q': nat, r: nat, r': nat, d: nat)
    requires r' < d && t == q * d + r && r + b == q' * d + r'
    ensures (t + b) / d == q + q' && (t + b) % d == r'
  {
    assert (q + q') * d == q * d + q' * d;
    QuotientIs(t + b, q + q', r', d);
  }

  /** The advance an opcode makes, if it is an advancing one. */
  datatype Advancing = BySpecial(opcode: Byte) | ByUleb(n: nat) | ByConst

  /** The header makes the opcode what it is meant to be. */
  predicate Allowed(h: Header, a: Advancing) {
    match a
    case BySpecial(opcode) => opcode >= h.opcodeBase && h.lineRange > 0
    case ByUleb(_) => 2 < h.opcodeBase
    case ByConst => 8 < h.opcodeBase && h.lineRange > 0
  }

  function Amount(h: Header, a: Advancing): nat
    requires Allowed(h, a)
  {
    match a
    case BySpecial(opcode) => (opcode - h.opcodeBase) / h.lineRange
    case ByUleb(n) => n
    case ByConst => (255 - h.opcodeBase) / h.lineRange
  }

  function Code(a: Advancing): (r: seq<Byte>)
    ensures r != []
  {
    match a
    case BySpecial(opcode) => [opcode]
    case ByUleb(n) => [2] + EncodeUleb(n)
    case ByConst => [8]
  }

  function CodeAll(list: seq<Advancing>): seq<Byte> { if list == [] then [] else Code(list[0]) + CodeAll(list[1..]) }

  function Sum(h: Header, list: seq<Advancing>): nat
    requires forall i :: 0 <= i < |list| ==> Allowed(h, list[i])
  {
    if list == [] then 0 else Amount(h, list[0]) + Sum(h, list[1..])
  }

  /** One advancing opcode, read from its bytes, makes its advance. */
  lemma AdvancingStep(h: Header, pre: seq<Byte>, a: Advancing, post: seq<Byte>, m: Exec)
    requires Allowed(h, a) && m.offset == |pre|
    ensures var r := Step(h, pre + Code(a) + post, m);
            && r.Ok? && r.value.offset == |pre| + |Code(a)|
            && Reaches(h, m.state, Amount(h, a), r.value.state.address, r.value.state.opIndex)
  {
    AdvanceReaches(h, m.state, Amount(h, a));
    hide Reaches, Advance;
    var data := pre + Code(a) + post;
    assert data[|pre|] == Code(a)[0];
    match a
    case BySpecial(opcode) =>
      hide Standard, Extended;
    case ByUleb(n) =>
      hide Extended, Special;
      UlebStep(h, pre, n, post, m);
    case ByConst =>
      hide Extended, Special, UlebAt, SlebAt, SkipUlebs;
  }

  lemma UlebStep(h: Header, pre: seq<Byte>, n: nat, post: seq<Byte>, m: Exec)
    requires h.opcodeBase > 2 && m.offset == |pre|
    ensures Standard(h, pre + ([2] + EncodeUleb(n)) + post, m, 2)
         == Ok(Exec(Advance(h, m.state, n), m.rows, |pre| + 1 + |EncodeUleb(n)|))
  {
    hide Advance, SlebAt, SkipUlebs;
    assert pre + ([2] + EncodeUleb(n)) + post == (pre + [2]) + EncodeUleb(n) + post;
    UlebRoundTrip(pre + [2], n, post);
  }

  /** Any run of special, advance_pc and const_add_pc opcodes, executed from
      their bytes, reaches the address and op index of one advance by their sum,
      several operations to an instruction or not. */
  lemma {:induction false} AdvancesAdd(h: Header, pre: seq<Byte>, list: seq<Advancing>, post: seq<Byte>, m: Exec)
    requires forall i :: 0 <= i < |list| ==> Allowed(h, list[i])
    requires m.offset == |pre| && Carried(h, m.state)
    ensures var (m', f) := Execute(h, pre + CodeAll(list) + post, |pre| + |CodeAll(list)|, m);
            && f == None && m'.offset == |pre| + |CodeAll(list)|
            && Reaches(h, m.state, Sum(h, list), m'.state.address, m'.state.opIndex)
    decreases |list|
  {
    hide Step, Code, Amount, Reaches;
    if list == [] {
      ReachesHere(h, m.state);
    } else {
      var code, tail := Code(list[0]), CodeAll(list[1..]);
      var data := pre + CodeAll(list) + post;
      assert data == pre + code + (tail + post) && data == (pre + code) + tail + post;
      AdvancingStep(h, pre, list[0], tail + post, m);
      var next := Step(h, data, m).value;
      ReachesCarries(h, m.state, Amount(h, list[0]), next.state);
      AdvancesAdd(h, pre + code, list[1..], post, next);
      var end := Execute(h, data, |pre| + |CodeAll(list)|, m).0.state;
      ReachesTwice(h, m.state, Amount(h, list[0]), next.state, Sum(h, list[1..]), end.address, end.opIndex);
    }
  }

  /** The op index stays below the operations in an instruction. */
  predicate Carried(h: Header, s: State) { h.maxOps <= 1 || s.opIndex < h.maxOps }

  lemma ReachesHere(h: Header, s: State)
    requires Carried(h, s)
    ensures Reaches(h, s, 0, s.address, s.opIndex)
  {
    assert s.opIndex + h.maxOps * 0 == s.opIndex + 0 && s.address == s.address + h.minInst * 0;
  }

  lemma ReachesCarries(h: Header, s: State, n: nat, t: State)
    requires Carried(h, s) && Reaches(h, s, n, t.address, t.opIndex)
    ensures Carried(h, t)
  {
  }

  lemma ReachesTwice(h: Header, s: State, n: nat, t: State, m: nat, address: nat, opIndex: nat)
    requires Reaches(h, s, n, t.address, t.opIndex) && Reaches(h, t, m, address, opIndex)
    ensures Reaches(h, s, n + m, address, opIndex)
  {
    if h.maxOps <= 1 {
      Spread(h.minInst, n, m);
    } else {
      var q: nat :| t.opIndex + h.maxOps * q == s.opIndex + n && t.address == s.address + h.minInst * q;
      var r: nat :| opIndex + h.maxOps * r == t.opIndex + m && address == t.address + h.minInst * r;
      Spread(h.maxOps, q, r);
      Spread(h.minInst, q, r);
      assert opIndex + h.maxOps * (q + r) == s.opIndex + (n + m);
    }
  }

  /** Every state a program reaches has its op index in range. */
  lemma StepCarries(h: Header, data: seq<Byte>, m: Exec)
    requires Carried(h, m.state)
    ensures Carried(h, Initial(h))
    ensures Step(h, data, m).Ok? ==> Carried(h, Step(h, data, m).value.state)
  {
  }
}
