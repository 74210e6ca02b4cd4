/** Reading a line-number program is the inverse of writing one: every opcode of
    section 6.2.5 of DWARF 5, from its bytes, does what it stands for. */
module LineAssembly {
  import opened Prelude
  import opened ByteArrays
  import opened Leb128
  import opened LineTables
  import P = LinePrograms

  /** Instructions as an assembler names them. */
  datatype Op =
    | Special(opcode: Byte)
    | Copy
    | AdvancePc(n: nat)
    | AdvanceLine(z: int)
    | SetFile(n: nat)
    | SetColumn(n: nat)
    | NegateStmt
    | SetBasicBlock
    | ConstAddPc
    | FixedAdvancePc(n: nat)
    | SetPrologueEnd
    | SetEpilogueBegin
    | SetIsa(n: nat)
    | Newer(opcode: Byte, operands: seq<nat>)
    | EndSequence
    | SetAddress(address: nat, width: nat)
    | Vendor(sub: Byte, payload: seq<Byte>)

  /** The opcode byte of anything but a special opcode. */
  function Number(op: Op): Byte {
    match op
    case Special(opcode) => opcode
    case Copy => 1
    case AdvancePc(_) => 2
    case AdvanceLine(_) => 3
    case SetFile(_) => 4
    case SetColumn(_) => 5
    case NegateStmt => 6
    case SetBasicBlock => 7
    case ConstAddPc => 8
    case FixedAdvancePc(_) => 9
    case SetPrologueEnd => 10
    case SetEpilogueBegin => 11
    case SetIsa(_) => 12
    case Newer(opcode, _) => opcode
    case EndSequence => 0
    case SetAddress(_, _) => 0
    case Vendor(_, _) => 0
  }

  /** What an assembler may write for a unit with this header: standard opcodes
      the header leaves standard, and nothing that divides by a zero line_range. */
  predicate Fits(h: P.Header, op: Op) {
    && (op.Special? <==> Number(op) >= h.opcodeBase)
    && (op.Special? || op.ConstAddPc? ==> h.lineRange > 0)
    && match op
       case FixedAdvancePc(n) => n < Limit(2)
       case Newer(opcode, operands) =>
         opcode > 12 && |operands| == if opcode - 1 < |h.standardLengths| then h.standardLengths[opcode - 1] else 0
       case SetAddress(address, width) => address < Limit(width)
       case Vendor(sub, _) => sub != 1 && sub != 2
       case _ => true
  }

  predicate AllFit(h: P.Header, ops: seq<Op>) { forall i :: 0 <= i < |ops| ==> Fits(h, ops[i]) }

  function Operands(ns: seq<nat>): seq<Byte> { if ns == [] then [] else EncodeUleb(ns[0]) + Operands(ns[1..]) }

  /** What follows the opcode byte. */
  function Arguments(op: Op): seq<Byte> {
    match op
    case AdvancePc(n) => EncodeUleb(n)
    case AdvanceLine(z) => EncodeSleb(z)
    case SetFile(n) => EncodeUleb(n)
    case SetColumn(n) => EncodeUleb(n)
    case FixedAdvancePc(n) => Word(n, 2)
    case SetIsa(n) => EncodeUleb(n)
    case Newer(_, operands) => Operands(operands)
    case EndSequence => EncodeUleb(1) + [1]
    case SetAddress(address, width) => EncodeUleb(width + 1) + ([2] + Word(address, width))
    case Vendor(sub, payload) => EncodeUleb(|payload| + 1) + ([sub] + payload)
    case _ => []
  }

  function Assemble(op: Op): (r: seq<Byte>)
    ensures r != []
  {
    [Number(op)] + Arguments(op)
  }

  function AssembleAll(ops: seq<Op>): seq<Byte> { if ops == [] then [] else Assemble(ops[0]) + AssembleAll(ops[1..]) }

  /** Registers afterwards, and the row emitted, if any. */
  function Meaning(h: P.Header, s: P.State, op: Op): (P.State, seq<LineRow>)
    requires Fits(h, op)
  {
    match op
    case Special(opcode) =>
      var adjusted := opcode - h.opcodeBase;
      var moved := P.Advance(h, s, adjusted / h.lineRange);
      var s' := moved.(line := moved.line + h.lineBase + adjusted % h.lineRange);
      (s', [P.Row(h, s')])
    case Copy => (s, [P.Row(h, s)])
    case AdvancePc(n) => (P.Advance(h, s, n), [])
    case AdvanceLine(z) => (s.(line := s.line + z), [])
    case SetFile(n) => (s.(file := n), [])
    case SetColumn(n) => (s.(column := n), [])
    case NegateStmt => (s.(isStmt := !s.isStmt), [])
    case ConstAddPc => (P.Advance(h, s, (255 - h.opcodeBase) / h.lineRange), [])
    case FixedAdvancePc(n) => (s.(address := s.address + n, opIndex := 0), [])
    case EndSequence => (P.Initial(h), [P.Row(h, s.(endSequence := true))])
    case SetAddress(address, _) => (s.(address := address, opIndex := 0), [])
    case SetBasicBlock => (s, [])
    case SetPrologueEnd => (s, [])
    case SetEpilogueBegin => (s, [])
    case SetIsa(_) => (s, [])
    case Newer(_, _) => (s, [])
    case Vendor(_, _) => (s, [])
  }

  function MeaningAll(h: P.Header, s: P.State, ops: seq<Op>): (P.State, seq<LineRow>)
    requires AllFit(h, ops)
    decreases |ops|
  {
    if ops == [] then (s, [])
    else
      var (s1, rows) := Meaning(h, s, ops[0]);
      var (s2, more) := MeaningAll(h, s1, ops[1..]);
      (s2, rows + more)
  }

  lemma {:induction false} OperandsSkip(pre: seq<Byte>, ns: seq<nat>, post: seq<Byte>)
    ensures P.SkipUlebs(pre + Operands(ns) + post, |pre|, |ns|) == Ok(|pre| + |Operands(ns)|)
    decreases |ns|
  {
    hide UlebAt, EncodeUleb;
    if ns != [] {
      var first, rest := EncodeUleb(ns[0]), Operands(ns[1..]);
      assert pre + Operands(ns) + post == pre + first + (rest + post);
      assert pre + Operands(ns) + post == (pre + first) + rest + post;
      UlebRoundTrip(pre, ns[0], rest + post);
      OperandsSkip(pre + first, ns[1..], post);
    }
  }

  lemma Piece(pre: seq<Byte>, xs: seq<Byte>, post: seq<Byte>)
    ensures UpTo(pre + xs + post, |pre|, |xs|) == xs
  {
  }

  ghost predicate DoesIt(h: P.Header, data: seq<Byte>, m: P.Exec, op: Op)
    requires Fits(h, op)
  {
    P.Step(h, data, m) ==
      Ok(P.Exec(Meaning(h, m.state, op).0, m.rows + Meaning(h, m.state, op).1, m.offset + |Assemble(op)|))
  }

  function Inner(op: Op): (r: seq<Byte>)
    requires op.EndSequence? || op.SetAddress? || op.Vendor?
    ensures r != []
  {
    match op
    case SetAddress(address, width) => [2] + Word(address, width)
    case Vendor(sub, payload) => [sub] + payload
    case _ => [1]
  }

  /** The extended opcodes: a length, then a sub-opcode and a payload. */
  lemma ExtendedPieces(pre: seq<Byte>, length: seq<Byte>, inner: seq<Byte>, post: seq<Byte>)
    requires inner != [] && length == EncodeUleb(|inner|)
    ensures var data, start := pre + ([0] + length + inner) + post, |pre| + 1 + |length|;
            && data[|pre|] == 0 && UlebAt(data, |pre| + 1) == Ok((|inner|, start))
            && start < |data| && data[start] == inner[0] && UpTo(data, start + 1, |inner| - 1) == inner[1..]
  {
    hide UlebAt, EncodeUleb;
    var data := pre + ([0] + length + inner) + post;
    assert data == (pre + [0]) + length + (inner + post);
    UlebRoundTrip(pre + [0], |inner|, inner + post);
    assert data == (pre + [0] + length + [inner[0]]) + inner[1..] + post;
    Piece(pre + [0] + length + [inner[0]], inner[1..], post);
  }

  lemma ExtendedMeans(h: P.Header, data: seq<Byte>, op: Op, m: P.Exec, start: nat)
    requires Fits(h, op)
    requires op.EndSequence? || op.SetAddress? || op.Vendor?
    requires start < |data| && start + |Inner(op)| == m.offset + |Assemble(op)| && m.offset < |data|
    requires data[m.offset] == 0 && UlebAt(data, m.offset + 1) == Ok((|Inner(op)|, start))
    requires data[start] == Inner(op)[0] && UpTo(data, start + 1, |Inner(op)| - 1) == Inner(op)[1..]
    ensures DoesIt(h, data, m, op)
  {
    hide P.Row, P.Initial, Word, Value, UpTo, UlebAt, EncodeUleb, Limit, Assemble;
    if op.SetAddress? {
      assert Inner(op)[1..] == Word(op.address, op.width);
      ValueOfWord(op.address, op.width);
    }
    assert m.rows + [] == m.rows;
  }

  /** Where an opcode's byte and its arguments lie. */
  lemma Layout(pre: seq<Byte>, op: Op, post: seq<Byte>)
    ensures var data := pre + Assemble(op) + post;
            && |pre| < |data| && data[|pre|] == Number(op) && |Assemble(op)| == 1 + |Arguments(op)|
            && data == (pre + [Number(op)]) + Arguments(op) + post
  {
    hide Number, Arguments;
  }

  lemma ExtendedStep(h: P.Header, pre: seq<Byte>, op: Op, post: seq<Byte>, m: P.Exec)
    requires Fits(h, op) && m.offset == |pre|
    requires op.EndSequence? || op.SetAddress? || op.Vendor?
    ensures DoesIt(h, pre + Assemble(op) + post, m, op)
  {
    hide DoesIt, Fits, Inner, Assemble, UlebAt, UpTo, EncodeUleb;
    var inner := Inner(op);
    var length := EncodeUleb(|inner|);
    AssembledExtended(op);
    ExtendedPieces(pre, length, inner, post);
    ExtendedMeans(h, pre + Assemble(op) + post, op, m, |pre| + 1 + |length|);
  }

  lemma AssembledExtended(op: Op)
    requires op.EndSequence? || op.SetAddress? || op.Vendor?
    ensures Assemble(op) == [0] + EncodeUleb(|Inner(op)|) + Inner(op)
  {
    hide EncodeUleb, Word;
  }

  predicate TakesNumber(op: Op) { op.AdvancePc? || op.SetFile? || op.SetColumn? || op.SetIsa? }

  lemma NumberMeans(h: P.Header, data: seq<Byte>, op: Op, m: P.Exec)
    requires TakesNumber(op) && Fits(h, op)
    requires m.offset < |data| && data[m.offset] == Number(op)
    requires UlebAt(data, m.offset + 1) == Ok((op.n, m.offset + |Assemble(op)|))
    ensures DoesIt(h, data, m, op)
  {
    hide P.Row, P.Advance, UlebAt, Assemble;
    assert m.rows + [] == m.rows;
  }

  lemma NumberStep(h: P.Header, pre: seq<Byte>, op: Op, post: seq<Byte>, m: P.Exec)
    requires TakesNumber(op) && Fits(h, op) && m.offset == |pre|
    ensures DoesIt(h, pre + Assemble(op) + post, m, op)
  {
    hide DoesIt, UlebAt, EncodeUleb, Assemble, Number, Fits;
    Layout(pre, op, post);
    UlebRoundTrip(pre + [Number(op)], op.n, post);
    NumberMeans(h, pre + Assemble(op) + post, op, m);
  }

  lemma LineMeans(h: P.Header, data: seq<Byte>, z: int, m: P.Exec)
    requires Fits(h, AdvanceLine(z)) && m.offset < |data| && data[m.offset] == 3
    requires SlebAt(data, m.offset + 1) == Ok((z, m.offset + |Assemble(AdvanceLine(z))|))
    ensures DoesIt(h, data, m, AdvanceLine(z))
  {
    hide P.Row, P.Advance, P.Special, P.Extended, P.SkipUlebs, SlebAt, UlebAt, Assemble;
    assert m.rows + [] == m.rows;
  }

  lemma LineStep(h: P.Header, pre: seq<Byte>, z: int, post: seq<Byte>, m: P.Exec)
    requires Fits(h, AdvanceLine(z)) && m.offset == |pre|
    ensures DoesIt(h, pre + Assemble(AdvanceLine(z)) + post, m, AdvanceLine(z))
  {
    hide DoesIt, SlebAt, EncodeSleb, Assemble, Fits;
    Layout(pre, AdvanceLine(z), post);
    SlebRoundTrip(pre + [3], z, post);
    LineMeans(h, pre + Assemble(AdvanceLine(z)) + post, z, m);
  }

  lemma PlainStep(h: P.Header, pre: seq<Byte>, op: Op, post: seq<Byte>, m: P.Exec)
    requires Fits(h, op) && m.offset == |pre| && Arguments(op) == []
    requires !op.Newer? && !op.EndSequence? && !op.SetAddress? && !op.Vendor? && !TakesNumber(op)
    requires !op.AdvanceLine? && !op.FixedAdvancePc?
    ensures DoesIt(h, pre + Assemble(op) + post, m, op)
  {
    hide P.Row, P.Advance, P.Extended, P.SkipUlebs, UlebAt, SlebAt, Arguments, Assemble;
    Layout(pre, op, post);
    assert m.rows + [] == m.rows;
  }

  lemma FixedStep(h: P.Header, pre: seq<Byte>, n: nat, post: seq<Byte>, m: P.Exec)
    requires Fits(h, FixedAdvancePc(n)) && m.offset == |pre|
    ensures DoesIt(h, pre + Assemble(FixedAdvancePc(n)) + post, m, FixedAdvancePc(n))
  {
    hide P.Row, P.Advance, UlebAt, Word, Value, Limit, Assemble;
    Layout(pre, FixedAdvancePc(n), post);
    Piece(pre + [9], Word(n, 2), post);
    ValueOfWord(n, 2);
    assert m.rows + [] == m.rows;
  }

  lemma NewerStep(h: P.Header, pre: seq<Byte>, op: Op, post: seq<Byte>, m: P.Exec)
    requires Fits(h, op) && m.offset == |pre| && op.Newer?
    ensures DoesIt(h, pre + Assemble(op) + post, m, op)
  {
    hide P.Row, P.Advance, UlebAt, Word, Operands, P.SkipUlebs, Assemble;
    Layout(pre, op, post);
    OperandsSkip(pre + [op.opcode], op.operands, post);
    assert m.rows + [] == m.rows;
  }

  /** One opcode, whatever surrounds its bytes. */
  lemma OpDoes(h: P.Header, pre: seq<Byte>, op: Op, post: seq<Byte>, m: P.Exec)
    requires Fits(h, op) && m.offset == |pre|
    ensures DoesIt(h, pre + Assemble(op) + post, m, op)
  {
    hide DoesIt, EncodeUleb, EncodeSleb, Word, Fits, Number;
    if op.EndSequence? || op.SetAddress? || op.Vendor? {
      ExtendedStep(h, pre, op, post, m);
    } else if TakesNumber(op) {
      NumberStep(h, pre, op, post, m);
    } else if op.AdvanceLine? {
      LineStep(h, pre, op.z, post, m);
    } else if op.FixedAdvancePc? {
      FixedStep(h, pre, op.n, post, m);
    } else if op.Newer? {
      NewerStep(h, pre, op, post, m);
    } else {
      PlainStep(h, pre, op, post, m);
    }
  }

  lemma {:induction false} AssembledExecutes(h: P.Header, pre: seq<Byte>, ops: seq<Op>, post: seq<Byte>, m: P.Exec)
    requires AllFit(h, ops) && m.offset == |pre|
    ensures P.Execute(h, pre + AssembleAll(ops) + post, |pre| + |AssembleAll(ops)|, m) ==
            (P.Exec(MeaningAll(h, m.state, ops).0, m.rows + MeaningAll(h, m.state, ops).1, |pre| + |AssembleAll(ops)|),
             None)
    decreases |ops|
  {
    hide P.Step, Assemble, Meaning, Fits;
    if ops == [] {
      assert m.rows + [] == m.rows;
    } else {
      var code, tail := Assemble(ops[0]), AssembleAll(ops[1..]);
      var data := pre + AssembleAll(ops) + post;
      assert data == pre + code + (tail + post) && data == (pre + code) + tail + post;
      OpDoes(h, pre, ops[0], tail + post, m);
      var (s, rows) := Meaning(h, m.state, ops[0]);
      var next := P.Exec(s, m.rows + rows, |pre| + |code|);
      assert P.Step(h, data, m) == Ok(next);
      AssembledExecutes(h, pre + code, ops[1..], post, next);
      var more := MeaningAll(h, s, ops[1..]).1;
      assert (m.rows + rows) + more == m.rows + (rows + more);
    }
  }

  // ----- what opcodes mean, written out

  ghost predicate Moved(h: P.Header, s: P.State, n: nat, t: P.State) {
    t == s.(address := t.address, opIndex := t.opIndex) && P.Reaches(h, s, n, t.address, t.opIndex)
  }

  function DigitValue(c: char): int { c as int - '0' as int }

  function NumeralValue(digits: string): int {
    if digits == "" then 0 else 10 * NumeralValue(digits[..|digits| - 1]) + DigitValue(digits[|digits| - 1])
  }

  /** Decimal digits of n, without leading zeros. */
  predicate Numeral(digits: string, n: nat) {
    && digits != "" && (forall i :: 0 <= i < |digits| ==> '0' <= digits[i] <= '9')
    && (digits[0] == '0' ==> digits == "0")
    && NumeralValue(digits) == n
  }

  lemma {:induction false} DecimalIsNumeral(n: nat)
    ensures Numeral(P.Decimal(n), n) && (n > 0 ==> P.Decimal(n)[0] != '0')
  {
    var d := P.Decimal(n);
    if n < 10 {
      assert d[..0] == "";
    } else {
      DecimalIsNumeral(n / 10);
      assert d[..|d| - 1] == P.Decimal(n / 10);
    }
  }

  /** The row of a state: a file of the table, numbered from one before version 5,
      or a name made of the number where the table has none. */
  ghost predicate RowOf(h: P.Header, s: P.State, r: LineRow) {
    && r.address == s.address && r.line == s.line && r.isStmt == s.isStmt && r.endSequence == s.endSequence
    && if h.firstFile <= s.file < h.firstFile + |h.fileNames| then r.file == h.fileNames[s.file - h.firstFile]
       else exists digits: string :: Numeral(digits, s.file) && r.file == "<file " + digits + ">"
  }

  lemma RowIs(h: P.Header, s: P.State)
    ensures RowOf(h, s, P.Row(h, s))
  {
    DecimalIsNumeral(s.file);
    hide P.Decimal, Numeral;
  }

  /** The registers at the start of a sequence. */
  predicate Started(h: P.Header, t: P.State) {
    && t.address == t.opIndex == t.column == 0 && t.line == 1 && t.isStmt == h.defaultIsStmt && !t.endSequence
    && t.file == if h.firstFile == 0 then 1 else h.firstFile
  }

  /** One row, of this state. */
  ghost predicate OneRow(h: P.Header, s: P.State, rows: seq<LineRow>) { |rows| == 1 && RowOf(h, s, rows[0]) }

  /** Registers and rows after an instruction. A special opcode is a number of
      operations times line_range and a line offset below it, above opcode_base. */
  ghost predicate Means(h: P.Header, s: P.State, op: Op, t: P.State, rows: seq<LineRow>) {
    match op
    case Special(opcode) => SpecialMeans(h, s, opcode, t, rows)
    case Copy => t == s && OneRow(h, s, rows)
    case AdvancePc(n) => Moved(h, s, n, t) && rows == []
    case AdvanceLine(z) => t == s.(line := s.line + z) && rows == []
    case SetFile(n) => t == s.(file := n) && rows == []
    case SetColumn(n) => t == s.(column := n) && rows == []
    case NegateStmt => t == s.(isStmt := !s.isStmt) && rows == []
    case ConstAddPc => rows == [] && exists n, r :: MadeOf(h, 255, n, r) && Moved(h, s, n, t)
    case FixedAdvancePc(n) => t == s.(address := s.address + n, opIndex := 0) && rows == []
    case EndSequence => Started(h, t) && OneRow(h, s.(endSequence := true), rows)
    case SetAddress(address, _) => t == s.(address := address, opIndex := 0) && rows == []
    case _ => t == s && rows == []
  }

  /** n operations and r lines, as one number above opcode_base. */
  predicate MadeOf(h: P.Header, opcode: nat, n: nat, r: nat) {
    r < h.lineRange && h.opcodeBase + n * h.lineRange + r == opcode
  }

  ghost predicate SpecialMeans(h: P.Header, s: P.State, opcode: Byte, t: P.State, rows: seq<LineRow>) {
    exists n, r ::
      && MadeOf(h, opcode, n, r)
      && Moved(h, s, n, t.(line := s.line)) && t.line == s.line + h.lineBase + r && OneRow(h, t, rows)
  }

  ghost predicate MeansAll(h: P.Header, s: P.State, ops: seq<Op>, t: P.State, rows: seq<LineRow>)
    decreases |ops|
  {
    if ops == [] then t == s && rows == []
    else exists mid, k ::
      && 0 <= k <= |rows|
      && Means(h, s, ops[0], mid, rows[..k])
      && MeansAll(h, mid, ops[1..], t, rows[k..])
  }

  lemma Splits(a: nat, d: nat)
    requires d > 0
    ensures a % d < d && (a / d) * d + a % d == a
  {
  }

  lemma MeaningMeans(h: P.Header, s: P.State, op: Op)
    requires Fits(h, op)
    ensures Means(h, s, op, Meaning(h, s, op).0, Meaning(h, s, op).1)
  {
    hide P.Row, P.Advance, RowOf, P.Reaches;
    var (t, rows) := Meaning(h, s, op);
    if op.Special? {
      var adjusted := op.opcode - h.opcodeBase;
      Splits(adjusted, h.lineRange);
      P.AdvanceReaches(h, s, adjusted / h.lineRange);
      RowIs(h, t);
      assert SpecialMeans(h, s, op.opcode, t, rows) by {
        var n, r := adjusted / h.lineRange, adjusted % h.lineRange;
        assert MadeOf(h, op.opcode, n, r);
        assert Moved(h, s, n, t.(line := s.line));
      }
    } else if op.ConstAddPc? {
      ConstMeans(h, s, t);
    } else if op.AdvancePc? {
      P.AdvanceReaches(h, s, op.n);
    } else if op.Copy? {
      RowIs(h, s);
    } else if op.EndSequence? {
      RowIs(h, s.(endSequence := true));
    }
  }

  lemma ConstMeans(h: P.Header, s: P.State, t: P.State)
    requires h.lineRange > 0 && t == P.Advance(h, s, (255 - h.opcodeBase) / h.lineRange)
    ensures Means(h, s, ConstAddPc, t, [])
  {
    hide P.Advance, P.Reaches;
    var adjusted: nat := 255 - h.opcodeBase;
    Splits(adjusted, h.lineRange);
    P.AdvanceReaches(h, s, adjusted / h.lineRange);
    var n, r := adjusted / h.lineRange, adjusted % h.lineRange;
    assert MadeOf(h, 255, n, r) && Moved(h, s, n, t);
  }

  lemma {:induction false} MeaningAllMeans(h: P.Header, s: P.State, ops: seq<Op>)
    requires AllFit(h, ops)
    ensures MeansAll(h, s, ops, MeaningAll(h, s, ops).0, MeaningAll(h, s, ops).1)
    decreases |ops|
  {
    hide Meaning, Means, Fits;
    if ops != [] {
      var (s1, first) := Meaning(h, s, ops[0]);
      MeaningMeans(h, s, ops[0]);
      MeaningAllMeans(h, s1, ops[1..]);
      var (t, rows) := MeaningAll(h, s, ops);
      var more := MeaningAll(h, s1, ops[1..]).1;
      assert rows == first + more && rows[..|first|] == first && rows[|first|..] == more;
    }
  }

  /** One opcode, whatever surrounds its bytes, does what it means. */
  lemma OpStep(h: P.Header, pre: seq<Byte>, op: Op, post: seq<Byte>, m: P.Exec)
    requires Fits(h, op) && m.offset == |pre|
    ensures exists t, rows ::
              && Means(h, m.state, op, t, rows)
              && P.Step(h, pre + Assemble(op) + post, m) == Ok(P.Exec(t, m.rows + rows, |pre| + |Assemble(op)|))
  {
    hide Means, Meaning, P.Step, Assemble, Fits;
    OpDoes(h, pre, op, post, m);
    MeaningMeans(h, m.state, op);
    var (t, rows) := Meaning(h, m.state, op);
    assert P.Step(h, pre + Assemble(op) + post, m) == Ok(P.Exec(t, m.rows + rows, |pre| + |Assemble(op)|));
  }

  /** Whatever program is written, reading its bytes ends in the registers it
      means, emits exactly its rows, and stops exactly at its end. */
  lemma AssembledRuns(h: P.Header, pre: seq<Byte>, ops: seq<Op>, post: seq<Byte>, m: P.Exec)
    requires AllFit(h, ops) && m.offset == |pre|
    ensures exists t, rows ::
              && MeansAll(h, m.state, ops, t, rows)
              && P.Execute(h, pre + AssembleAll(ops) + post, |pre| + |AssembleAll(ops)|, m)
                 == (P.Exec(t, m.rows + rows, |pre| + |AssembleAll(ops)|), None)
  {
    hide MeansAll, MeaningAll, P.Execute, AssembleAll, AllFit;
    AssembledExecutes(h, pre, ops, post, m);
    MeaningAllMeans(h, m.state, ops);
    var (t, rows) := MeaningAll(h, m.state, ops);
    assert P.Execute(h, pre + AssembleAll(ops) + post, |pre| + |AssembleAll(ops)|, m)
        == (P.Exec(t, m.rows + rows, |pre| + |AssembleAll(ops)|), None);
  }

  /** A program starts at the registers of a sequence. */
  lemma StartsFresh(h: P.Header)
    ensures Started(h, P.Initial(h))
  {
  }

  /** A program cut off behind any of its opcodes still emits the rows of those
      before the cut, and ends for lack of bytes. */
  lemma {:induction false} CutOffRuns(h: P.Header, pre: seq<Byte>, ops: seq<Op>, m: P.Exec, end: nat)
    requires AllFit(h, ops) && m.offset == |pre| && end > |pre| + |AssembleAll(ops)|
    ensures P.Execute(h, pre + AssembleAll(ops), end, m) ==
            (P.Exec(MeaningAll(h, m.state, ops).0, m.rows + MeaningAll(h, m.state, ops).1, |pre| + |AssembleAll(ops)|),
             Some(IndexError))
    decreases |ops|
  {
    hide P.Step, Assemble, Meaning, Fits;
    if ops == [] {
      assert pre + AssembleAll(ops) == pre && m.rows + [] == m.rows;
      P.PastTheEnd(h, pre, m);
    } else {
      var code, tail := Assemble(ops[0]), AssembleAll(ops[1..]);
      var data := pre + AssembleAll(ops);
      assert data == pre + code + tail && data == (pre + code) + tail;
      OpDoes(h, pre, ops[0], tail, m);
      var (s, rows) := Meaning(h, m.state, ops[0]);
      var next := P.Exec(s, m.rows + rows, |pre| + |code|);
      assert P.Step(h, data, m) == Ok(next);
      CutOffRuns(h, pre + code, ops[1..], next, end);
      var more := MeaningAll(h, s, ops[1..]).1;
      assert (m.rows + rows) + more == m.rows + (rows + more);
    }
  }

  /** Its rows are those its opcodes mean. */
  lemma CutOffMeans(h: P.Header, pre: seq<Byte>, ops: seq<Op>, m: P.Exec, end: nat)
    requires AllFit(h, ops) && m.offset == |pre| && end > |pre| + |AssembleAll(ops)|
    ensures exists t, rows ::
              && MeansAll(h, m.state, ops, t, rows)
              && P.Execute(h, pre + AssembleAll(ops), end, m)
                 == (P.Exec(t, m.rows + rows, |pre| + |AssembleAll(ops)|), Some(IndexError))
  {
    hide MeansAll, MeaningAll, P.Execute, AssembleAll, AllFit;
    CutOffRuns(h, pre, ops, m, end);
    MeaningAllMeans(h, m.state, ops);
    var (t, rows) := MeaningAll(h, m.state, ops);
    assert P.Execute(h, pre + AssembleAll(ops), end, m)
        == (P.Exec(t, m.rows + rows, |pre| + |AssembleAll(ops)|), Some(IndexError));
  }
}
