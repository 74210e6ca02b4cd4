/** Every line-number program of a section, unit after unit. */
module LineUnits {
  import opened Prelude
  import opened ByteArrays
  import opened Leb128
  import opened LineTables
  import opened FileTables
  import P = LinePrograms

  /** A unit as its length field frames it. */
  datatype Unit = Unit(start: nat, body: nat, end: nat, offsetSize: nat)

  const LONG_FORMAT: nat := 0xFFFF_FFFF

  function LongAt(data: seq<Byte>, offset: nat): bool { Le(data, offset, 4) == LONG_FORMAT }

  /** The next unit, or None where the section ends or stops making sense. */
  function UnitAt(data: seq<Byte>, offset: nat): (u: Option<Unit>)
    ensures u.Some? ==> u.value.start == offset < u.value.body < u.value.end <= |data|
  {
    if offset + 4 > |data| then None
    else
      var long := LongAt(data, offset);
      var length := if long then Le(data, offset + 4, 8) else Le(data, offset, 4);
      var body := if long then offset + 12 else offset + 4;
      if length == 0 || body + length > |data| then None
      else Some(Unit(offset, body, body + length, if long then 8 else 4))
  }

  /** The units of a section. Only length fields are looked at. */
  function Units(data: seq<Byte>, offset: nat): (r: seq<Unit>)
    decreases |data| - offset
  {
    match UnitAt(data, offset)
    case None => []
    case Some(u) => [u] + Units(data, u.end)
  }

  // ----- headers

  function Signed(b: Byte): int {
    var value: int := b;
    if value > 127 then value - 256 else value
  }

  function Lengths(data: seq<Byte>, offset: nat, n: nat): seq<nat>
    requires offset + n <= |data|
  {
    data[offset..offset + n]
  }

  /** The fixed part of a header. */
  datatype Fields = Fields(version: nat, header: P.Header, program: nat, table: nat)

  /** The fixed part, where the program starts and where the file table does.
      Multi-byte fields never fault; single bytes past the end do. */
  function FieldsAt(data: seq<Byte>, u: Unit): Result<Fields, Fault> {
    var version := Le(data, u.body, 2);
    var skip := if version >= 5 then 2 else 0;
    var fields := u.body + 2 + skip + u.offsetSize;
    var ops := if version >= 4 then 1 else 0;
    var lengths := fields + 5 + ops;
    if lengths > |data| then Err(IndexError)
    else
      var opcodeBase := data[lengths - 1];
      var count := if opcodeBase > 0 then opcodeBase - 1 else 0;
      if lengths + count > |data| then Err(IndexError)
      else
        Ok(Fields(version,
                  P.Header(data[fields], if ops > 0 then data[fields + 1] else 1, data[fields + 1 + ops] != 0,
                           Signed(data[fields + 2 + ops]), data[fields + 3 + ops], opcodeBase,
                           Lengths(data, lengths, count), if version >= 5 then 0 else 1, []),
                  fields + Le(data, fields - u.offsetSize, u.offsetSize), lengths + count))
  }

  /** A file name as a row shows it. */
  function Shown(d: Datum): string {
    match d
    case Text(t) => t
    case Raw(b) => seq(|b|, i requires 0 <= i < |b| => b[i] as char)
    case Number(_) => ""
  }

  function AllShown(names: seq<Datum>): seq<string> {
    seq(|names|, i requires 0 <= i < |names| => Shown(names[i]))
  }

  function CompDir(src: Sources, u: Unit): string { if u.start in src.compDirs then src.compDirs[u.start] else "" }

  function TableOfUnit(data: seq<Byte>, u: Unit, src: Sources, f: Fields): Result<seq<Datum>, Fault> {
    TableAt(src, data, f.version, f.table, u.offsetSize, CompDir(src, u))
  }

  /** A header with its file table, and where its program starts. */
  function HeaderAt(data: seq<Byte>, u: Unit, src: Sources): Result<(P.Header, nat), Fault> {
    match FieldsAt(data, u)
    case Err(f) => Err(f)
    case Ok(fields) =>
      match TableOfUnit(data, u, src, fields)
      case Err(f) => Err(f)
      case Ok(names) => Ok((fields.header.(fileNames := AllShown(names)), fields.program))
  }

  /** The rows a unit adds, and the fault that cut it short, if any. */
  function UnitRows(data: seq<Byte>, u: Unit, src: Sources): (seq<LineRow>, Option<Fault>) {
    match HeaderAt(data, u, src)
    case Err(f) => ([], Some(f))
    case Ok((h, start)) =>
      var (m, f) := P.Execute(h, data, u.end, P.Exec(P.Initial(h), [], start));
      (m.rows, f)
  }

  /** The faults of a unit that cost only what it had left. */
  predicate Caught(f: Fault) { f == IndexError || f == ValueError }

  /** The rows of units in turn. Any other fault costs the whole table. */
  function Gather(data: seq<Byte>, units: seq<Unit>, src: Sources): Result<seq<LineRow>, Fault> {
    if units == [] then Ok([])
    else
      match Gather(data, units[..|units| - 1], src)
      case Err(f) => Err(f)
      case Ok(rows) =>
        var (more, fault) := UnitRows(data, units[|units| - 1], src);
        if fault.Some? && !Caught(fault.value) then Err(fault.value) else Ok(rows + more)
  }

  // ----- the parser

  lemma {:induction false} RowsAppend(h: P.Header, data: seq<Byte>, end: nat, m: P.Exec, before: seq<LineRow>)
    ensures var (a, f) := P.Execute(h, data, end, m);
            P.Execute(h, data, end, m.(rows := before + m.rows)) == (a.(rows := before + a.rows), f)
    decreases if end > m.offset then end - m.offset else 0
  {
    if m.offset < end {
      StepAppends(h, data, m, before);
      hide P.Step;
      if P.Step(h, data, m).Ok? { RowsAppend(h, data, end, P.Step(h, data, m).value, before); }
    }
  }

  lemma StepAppends(h: P.Header, data: seq<Byte>, m: P.Exec, before: seq<LineRow>)
    ensures P.Step(h, data, m.(rows := before + m.rows)) ==
              match P.Step(h, data, m)
              case Err(f) => Err(f)
              case Ok(a) => Ok(a.(rows := before + a.rows))
  {
    hide UlebAt, SlebAt, P.SkipUlebs, P.Extended, P.Standard, P.Special, P.Row, P.Advance;
    if m.offset < |data| {
      var opcode := data[m.offset];
      if opcode >= h.opcodeBase {
        if h.lineRange > 0 { SpecialAppends(h, m, opcode, before); }
      } else if opcode == 0 {
        ExtendedAppends(h, data, m, before);
      } else {
        StandardAppends(h, data, m, opcode, before);
      }
    }
  }

  function After(before: seq<LineRow>, r: Result<P.Exec, Fault>): Result<P.Exec, Fault> {
    match r
    case Err(f) => Err(f)
    case Ok(a) => Ok(a.(rows := before + a.rows))
  }

  lemma SpecialAppends(h: P.Header, m: P.Exec, opcode: Byte, before: seq<LineRow>)
    requires opcode >= h.opcodeBase && h.lineRange > 0
    ensures P.Special(h, m.(rows := before + m.rows), opcode) ==
            P.Special(h, m, opcode).(rows := before + P.Special(h, m, opcode).rows)
  {
    hide P.Row, P.Advance;
    var adjusted := opcode - h.opcodeBase;
    var s := P.Advance(h, m.state, adjusted / h.lineRange);
    Regroup(before, m.rows, [P.Row(h, s.(line := s.line + h.lineBase + adjusted % h.lineRange))]);
  }

  lemma ExtendedAppends(h: P.Header, data: seq<Byte>, m: P.Exec, before: seq<LineRow>)
    ensures P.Extended(h, data, m.(rows := before + m.rows)) == After(before, P.Extended(h, data, m))
  {
    hide UlebAt, P.Row;
    Regroup(before, m.rows, [P.Row(h, m.state.(endSequence := true))]);
  }

  lemma StandardAppends(h: P.Header, data: seq<Byte>, m: P.Exec, opcode: Byte, before: seq<LineRow>)
    requires 0 < opcode < h.opcodeBase
    ensures P.Standard(h, data, m.(rows := before + m.rows), opcode) == After(before, P.Standard(h, data, m, opcode))
  {
    hide UlebAt, SlebAt, P.SkipUlebs, P.Row, P.Advance;
    Regroup(before, m.rows, [P.Row(h, m.state)]);
  }

  method ReadFileTable(reader: Reader, u: Unit, src: Sources, f: Fields) returns (r: Result<seq<Datum>, Fault>)
    requires reader.offset == f.table
    modifies reader
    ensures r == TableOfUnit(reader.data, u, src, f)
  {
    hide Table5At, Table2At;
    if f.version >= 5 {
      r := ReadTable5(reader, src, u.offsetSize, CompDir(src, u));
    } else {
      r := ReadTable2(reader, src, CompDir(src, u));
    }
  }

  method ParseOneProgram(reader: Reader, u: Unit, src: Sources, rows: seq<LineRow>)
    returns (rows': seq<LineRow>, fault: Option<Fault>)
    modifies reader
    ensures (rows', fault) == (rows + UnitRows(reader.data, u, src).0, UnitRows(reader.data, u, src).1)
  {
    hide FieldsAt, TableOfUnit, AllShown, P.Execute, P.Initial;
    assert rows + [] == rows;
    var fields := FieldsAt(reader.data, u);
    if fields.Err? { return rows, Some(fields.error); }
    reader.offset := fields.value.table;
    var names := ReadFileTable(reader, u, src, fields.value);
    if names.Err? { return rows, Some(names.error); }
    var h, start := fields.value.header.(fileNames := AllShown(names.value)), fields.value.program;
    reader.offset := start;
    RowsAppend(h, reader.data, u.end, P.Exec(P.Initial(h), [], start), rows);
    rows', fault := P.RunProgram(reader, h, u.end, rows);
  }

  /** Every unit is visited where the one before declared its end, whatever its
      bytes did to the program that read them. */
  method ParseLineTable(data: seq<Byte>, src: Sources) returns (r: Result<LineTable, Fault>)
    ensures match Gather(data, Units(data, 0), src)
            case Err(f) => r == Err(f)
            case Ok(rows) => r == Ok(TableOf(rows))
  {
    hide UnitAt, UnitRows, TableOf;
    var rows: seq<LineRow> := [];
    var reader := new Reader(data, 0);
    ghost var done: seq<Unit> := [];
    assert done + Units(data, 0) == Units(data, 0);
    while UnitAt(data, reader.offset).Some?
      invariant reader.data == data
      invariant done + Units(data, reader.offset) == Units(data, 0)
      invariant Gather(data, done, src) == Ok(rows)
      decreases |data| - reader.offset
    {
      var u := UnitAt(data, reader.offset).value;
      assert (done + [u])[..|done|] == done;
      assert done + ([u] + Units(data, u.end)) == (done + [u]) + Units(data, u.end);
      var fault;
      ghost var before := rows;
      rows, fault := ParseOneProgram(reader, u, src, rows);
      done := done + [u];
      if fault.Some? && !Caught(fault.value) {
        GatherFails(data, done, Units(data, u.end), src);
        return Err(fault.value);
      }
      reader.offset := u.end;
    }
    assert done + [] == done;
    r := Ok(TableOf(rows));
  }

  lemma {:induction false} GatherFails(data: seq<Byte>, units: seq<Unit>, rest: seq<Unit>, src: Sources)
    requires Gather(data, units, src).Err?
    ensures Gather(data, units + rest, src) == Gather(data, units, src)
    decreases |rest|
  {
    if rest == [] {
      assert units + rest == units;
    } else {
      GatherFails(data, units, rest[..|rest| - 1], src);
      assert (units + rest)[..|units + rest| - 1] == units + rest[..|rest| - 1];
    }
  }

  // ----- what the units depend on

  ghost predicate InBody(units: seq<Unit>, i: nat) {
    exists k :: 0 <= k < |units| && units[k].body <= i < units[k].end
  }

  /** Two sections alike outside the bodies of the first one's units. */
  ghost predicate SameOutside(data: seq<Byte>, other: seq<Byte>, units: seq<Unit>, from: nat) {
    |data| == |other| && forall i :: from <= i < |data| && !InBody(units, i) ==> data[i] == other[i]
  }

  ghost predicate UnitFrom(u: Unit, offset: nat, length: nat) {
    offset <= u.start < u.body < u.end <= length
  }

  lemma {:induction false} UnitsAscend(data: seq<Byte>, offset: nat, k: nat)
    requires k < |Units(data, offset)|
    ensures UnitFrom(Units(data, offset)[k], offset, |data|)
    decreases |data| - offset
  {
    if k > 0 { UnitsAscend(data, UnitAt(data, offset).value.end, k - 1); }
  }

  lemma UpToSame(data: seq<Byte>, other: seq<Byte>, offset: nat, count: nat)
    requires |data| == |other| && forall i :: offset <= i < offset + count && i < |data| ==> data[i] == other[i]
    ensures UpTo(data, offset, count) == UpTo(other, offset, count)
  {
  }

  /** Whatever is written into the bodies, the same units are visited, at the
      same places and with the same ends. */
  lemma {:induction false} UnitsIgnoreBodies(data: seq<Byte>, other: seq<Byte>, offset: nat)
    requires SameOutside(data, other, Units(data, offset), offset)
    ensures Units(other, offset) == Units(data, offset)
    decreases |data| - offset
  {
    var units := Units(data, offset);
    if UnitAt(data, offset).Some? {
      var u := UnitAt(data, offset).value;
      var rest := Units(data, u.end);
      assert forall k :: 1 <= k < |units| ==> units[k] == rest[k - 1];
      forall i | offset <= i < u.body ensures data[i] == other[i] {
        forall k | 0 <= k < |units| ensures !(units[k].body <= i < units[k].end) {
          if k > 0 { UnitsAscend(data, u.end, k - 1); }
        }
        assert !InBody(units, i);
      }
      HeadSame(data, other, offset, u.body);
      forall i | u.end <= i < |data| && !InBody(Units(data, u.end), i) ensures data[i] == other[i] {
        assert !InBody(units, i);
      }
      UnitsIgnoreBodies(data, other, u.end);
    } else {
      forall i | offset <= i < |data| ensures data[i] == other[i] { assert !InBody(units, i); }
      HeadSame(data, other, offset, |data|);
    }
  }

  lemma HeadSame(data: seq<Byte>, other: seq<Byte>, offset: nat, body: nat)
    requires |data| == |other| && body <= |data| && forall i :: offset <= i < body ==> data[i] == other[i]
    requires match UnitAt(data, offset) case Some(u) => body == u.body case None => body == |data|
    ensures UnitAt(other, offset) == UnitAt(data, offset)
  {
    if offset + 4 <= |data| {
      UpToSame(data, other, offset, 4);
      if LongAt(data, offset) { UpToSame(data, other, offset + 4, 8); }
    }
  }

  /** The unit's header can be read, its line_range is zero, and its opcodes lead
      to one that divides by it. */
  ghost predicate DividesByZero(data: seq<Byte>, u: Unit, src: Sources) {
    match HeaderAt(data, u, src)
    case Err(_) => false
    case Ok((h, start)) => h.lineRange == 0 && P.Divides(h, data, u.end, start)
  }

  /** The unit's file table reaches an entry that mixes kinds. */
  ghost predicate MixesKinds(data: seq<Byte>, u: Unit, src: Sources) {
    match FieldsAt(data, u)
    case Err(_) => false
    case Ok(f) => f.version >= 5 && TableClashes(src, data, f.table, u.offsetSize, CompDir(src, u))
  }

  lemma HeaderFaults(data: seq<Byte>, u: Unit, src: Sources)
    ensures var r := HeaderAt(data, u, src);
            && (r == Err(TypeError) <==> MixesKinds(data, u, src))
            && (r.Err? ==> r.error in {IndexError, ValueError, TypeError})
  {
    hide TableAt, TableClashes, Le;
    if FieldsAt(data, u).Ok? {
      var f := FieldsAt(data, u).value;
      TableTypeErrorIff(src, data, f.version, f.table, u.offsetSize, CompDir(src, u));
    }
  }

  /** A unit raises what the parser does not catch if and only if its file table
      mixes kinds or its program divides by zero, and then just that. */
  lemma UnitLostIff(data: seq<Byte>, u: Unit, src: Sources)
    ensures var fault := UnitRows(data, u, src).1;
            && (fault == Some(ZeroDivisionError) <==> DividesByZero(data, u, src))
            && (fault == Some(TypeError) <==> MixesKinds(data, u, src))
            && (fault.Some? ==> fault.value in {IndexError, ValueError, TypeError, ZeroDivisionError})
  {
    hide HeaderAt, P.Execute, P.Divides, P.Initial, MixesKinds;
    HeaderFaults(data, u, src);
    if HeaderAt(data, u, src).Ok? {
      var (h, start) := HeaderAt(data, u, src).value;
      var m := P.Exec(P.Initial(h), [], start);
      P.ExecuteFaults(h, data, u.end, m);
      if h.lineRange == 0 { P.DividesIff(h, data, u.end, m); } else { P.PositiveRangeIsSafe(h, data, u.end, m); }
    }
  }

  ghost predicate Loses(data: seq<Byte>, u: Unit, src: Sources) {
    DividesByZero(data, u, src) || MixesKinds(data, u, src)
  }

  /** The whole table is lost if and only if some unit divides by zero or has a
      file table that mixes kinds. */
  lemma {:induction false} TableLostIff(data: seq<Byte>, units: seq<Unit>, src: Sources)
    ensures Gather(data, units, src).Err? <==> exists k :: 0 <= k < |units| && Loses(data, units[k], src)
    ensures Gather(data, units, src).Err? ==> Gather(data, units, src).error in {TypeError, ZeroDivisionError}
  {
    hide UnitRows, DividesByZero, MixesKinds;
    if units != [] {
      var n := |units| - 1;
      TableLostIff(data, units[..n], src);
      UnitLostIff(data, units[n], src);
      if k: nat :| k < |units| && Loses(data, units[k], src) {
        if k < n { assert units[..n][k] == units[k]; }
      }
    }
  }

  /** A header of version 5 that can be read declares text paths and number
      indices, and no readable header a line_range of zero. */
  ghost predicate Ordinary(data: seq<Byte>, u: Unit, src: Sources) {
    && (HeaderAt(data, u, src).Ok? ==> HeaderAt(data, u, src).value.0.lineRange > 0)
    && (FieldsAt(data, u).Ok? && FieldsAt(data, u).value.version >= 5 ==>
          var lists := ListsAt(src, data, FieldsAt(data, u).value.table, u.offsetSize);
          lists.Ok? ==> DeclaredAs(lists.value.dirFormat, PATH, TextKind) && Plain(lists.value.format))
  }

  /** So without a zero line_range among the readable headers, and without a file
      table that mixes kinds, the table is built. */
  lemma PositiveRangesParse(data: seq<Byte>, units: seq<Unit>, src: Sources)
    requires forall k :: 0 <= k < |units| && HeaderAt(data, units[k], src).Ok? ==>
               HeaderAt(data, units[k], src).value.0.lineRange > 0
    requires forall k :: 0 <= k < |units| ==> !MixesKinds(data, units[k], src)
    ensures Gather(data, units, src).Ok?
  {
    hide HeaderAt, Gather, MixesKinds;
    TableLostIff(data, units, src);
  }

  /** In particular from ordinary units the table is built, whatever else is wrong with them. */
  lemma OrdinaryUnitsParse(data: seq<Byte>, units: seq<Unit>, src: Sources)
    requires forall k :: 0 <= k < |units| ==> Ordinary(data, units[k], src)
    ensures Gather(data, units, src).Ok?
  {
    hide Gather, Ordinary, Loses;
    TableLostIff(data, units, src);
    forall k | 0 <= k < |units| ensures !Loses(data, units[k], src) { OrdinaryKept(data, units[k], src); }
  }

  lemma OrdinaryKept(data: seq<Byte>, u: Unit, src: Sources)
    requires Ordinary(data, u, src)
    ensures !Loses(data, u, src)
  {
    hide FieldsAt, HeaderAt, ListsAt, ReachesClash, DeclaredAs, Plain, P.Divides;
    var f := FieldsAt(data, u);
    if f.Ok? && f.value.version >= 5 && ListsAt(src, data, f.value.table, u.offsetSize).Ok? {
      FormsDecide(src, data, f.value.table, u.offsetSize, CompDir(src, u));
    }
  }

  // ----- sections that are lost

  /** A version 2 unit: empty directory and file lists, opcode_base 1 and one
      special opcode. */
  function OneOpcode(lineRange: Byte): (r: seq<Byte>)
    ensures |r| == 18
  {
    [14, 0, 0, 0, 2, 0, 7, 0, 0, 0, 1, 1, 0, lineRange, 1, 0, 0, 1]
  }

  /** A version 5 unit with line_range 1, no directories, and one file entry of one
      content type and form. */
  function OneEntry(contentType: Byte, form: Byte): (r: seq<Byte>)
    ensures |r| == 25
  {
    [21, 0, 0, 0, 5, 0, 4, 0, 13, 0, 0, 0, 1, 1, 1, 0, 1, 1, 0, 0, 1, contentType, form, 1, 7]
  }

  ghost predicate Holds(data: seq<Byte>, o: nat, part: seq<Byte>) {
    o + |part| <= |data| && forall i :: 0 <= i < |part| ==> data[o + i] == part[i]
  }

  function Two(low: nat, high: nat): nat { low + 256 * high }

  lemma LeTwo(data: seq<Byte>, o: nat)
    requires o + 2 <= |data|
    ensures Le(data, o, 2) == Two(data[o], data[o + 1])
  {
    TwoBytes(data[o], data[o + 1]);
    assert UpTo(data, o, 2) == [data[o]] + [data[o + 1]];
  }

  lemma ValueCons(b: Byte, bytes: seq<Byte>)
    ensures Value([b] + bytes) == Two(b, Value(bytes))
  {
    assert ([b] + bytes)[1..] == bytes;
  }

  lemma TwoBytes(a: Byte, b: Byte)
    ensures Value([a] + [b]) == Two(a, b)
  {
    ValueCons(a, [b]);
    ValueCons(b, []);
    assert [b] + [] == [b];
  }

  lemma LeFour(data: seq<Byte>, o: nat)
    requires o + 4 <= |data|
    ensures Le(data, o, 4) == Two(data[o], Two(data[o + 1], Two(data[o + 2], data[o + 3])))
  {
    var tail := [data[o + 2]] + [data[o + 3]];
    TwoBytes(data[o + 2], data[o + 3]);
    ValueCons(data[o + 1], tail);
    ValueCons(data[o], [data[o + 1]] + tail);
    assert UpTo(data, o, 4) == [data[o]] + ([data[o + 1]] + tail);
  }

  lemma UnitHeld(data: seq<Byte>, o: nat, part: seq<Byte>)
    requires Holds(data, o, part) && |part| > 4 && part[0] == |part| - 4 && part[1] == part[2] == part[3] == 0
    ensures UnitAt(data, o) == Some(Unit(o, o + 4, o + |part|, 4))
  {
    hide Le;
    LeFour(data, o);
    assert data[o] == part[0] && data[o + 1] == part[1] && data[o + 2] == part[2] && data[o + 3] == part[3];
  }

  lemma HeaderHeld(data: seq<Byte>, o: nat, lineRange: Byte, src: Sources)
    requires Holds(data, o, OneOpcode(lineRange))
    ensures HeaderAt(data, Unit(o, o + 4, o + 18, 4), src)
         == Ok((P.Header(1, 1, true, 0, lineRange, 1, [], 1, []), o + 17))
  {
    hide Table2At;
    FieldsHeld(data, o, lineRange);
    assert data[o + 15] == OneOpcode(lineRange)[15] == 0 && data[o + 16] == OneOpcode(lineRange)[16] == 0;
    NoFiles(src, data, o + 15, CompDir(src, Unit(o, o + 4, o + 18, 4)));
    assert AllShown([]) == [];
  }

  lemma NoFiles(src: Sources, data: seq<Byte>, o: nat, compDir: string)
    requires o + 1 < |data| && data[o] == data[o + 1] == 0
    ensures Table2At(src, data, o, compDir) == Ok([])
  {
  }

  lemma FieldsHeld(data: seq<Byte>, o: nat, lineRange: Byte)
    requires Holds(data, o, OneOpcode(lineRange))
    ensures FieldsAt(data, Unit(o, o + 4, o + 18, 4))
         == Ok(Fields(2, P.Header(1, 1, true, 0, lineRange, 1, [], 1, []), o + 17, o + 15))
  {
    hide Le;
    LeTwo(data, o + 4);
    LeFour(data, o + 6);
    var part := OneOpcode(lineRange);
    assert data[o + 4] == part[4] == 2 && data[o + 5] == part[5] == 0;
    assert data[o + 6] == part[6] == 7 && data[o + 7] == part[7] == 0;
    assert data[o + 8] == part[8] == 0 && data[o + 9] == part[9] == 0;
    assert data[o + 10] == part[10] == 1 && data[o + 11] == part[11] == 1 && data[o + 12] == part[12] == 0;
    assert data[o + 13] == part[13] == lineRange && data[o + 14] == part[14] == 1;
    assert Lengths(data, o + 15, 0) == [];
  }

  lemma FieldsOfEntry(data: seq<Byte>, o: nat, contentType: Byte, form: Byte)
    requires Holds(data, o, OneEntry(contentType, form))
    ensures FieldsAt(data, Unit(o, o + 4, o + 25, 4))
         == Ok(Fields(5, P.Header(1, 1, true, 0, 1, 1, [], 0, []), o + 25, o + 18))
  {
    hide Le;
    LeTwo(data, o + 4);
    LeFour(data, o + 8);
    var part := OneEntry(contentType, form);
    assert data[o + 4] == part[4] == 5 && data[o + 5] == part[5] == 0;
    assert data[o + 8] == part[8] == 13 && data[o + 9] == part[9] == 0;
    assert data[o + 10] == part[10] == 0 && data[o + 11] == part[11] == 0;
    assert data[o + 12] == part[12] == 1 && data[o + 13] == part[13] == 1 && data[o + 14] == part[14] == 1;
    assert data[o + 15] == part[15] == 0 && data[o + 16] == part[16] == 1 && data[o + 17] == part[17] == 1;
    assert Lengths(data, o + 18, 0) == [];
  }

  /** Alone, the unit with line_range 1 gives its row. */
  lemma GoodUnit(data: seq<Byte>, o: nat, src: Sources)
    requires Holds(data, o, OneOpcode(1))
    ensures exists row :: UnitRows(data, Unit(o, o + 4, o + 18, 4), src) == ([row], None)
  {
    hide HeaderAt, Le, P.Row, P.Advance;
    HeaderHeld(data, o, 1, src);
    var h := P.Header(1, 1, true, 0, 1, 1, [], 1, []);
    var m := P.Exec(P.Initial(h), [], o + 17);
    assert data[o + 17] == OneOpcode(1)[17] == 1;
    var next := P.Step(h, data, m).value;
    assert next == P.Special(h, m, 1) && next.offset == o + 18 && |next.rows| == 1;
    assert P.Execute(h, data, o + 18, next) == (next, None);
    assert next.rows == [next.rows[0]];
  }

  /** The same unit with line_range 0 divides by it. */
  lemma BadUnit(data: seq<Byte>, o: nat, src: Sources)
    requires Holds(data, o, OneOpcode(0))
    ensures Loses(data, Unit(o, o + 4, o + 18, 4), src)
  {
    hide HeaderAt, MixesKinds;
    HeaderHeld(data, o, 0, src);
    assert data[o + 17] == OneOpcode(0)[17] == 1;
  }

  /** A path of form data1, or a directory index of form string, mixes kinds. */
  lemma AbsurdUnit(data: seq<Byte>, o: nat, contentType: Byte, form: Byte, src: Sources)
    requires Holds(data, o, OneEntry(contentType, form)) && (contentType, form) in {(1, 0x0B), (2, 0x08)}
    ensures Loses(data, Unit(o, o + 4, o + 25, 4), src)
  {
    hide FieldsAt, ListsAt, ReachesClash, DividesByZero, EndOfString, StringAt;
    FieldsOfEntry(data, o, contentType, form);
    var part := OneEntry(contentType, form);
    assert data[o + 18] == part[18] == 0 && data[o + 19] == part[19] == 0 && data[o + 20] == part[20] == 1;
    assert data[o + 21] == part[21] == contentType && data[o + 22] == part[22] == form && data[o + 23] == part[23] == 1;
    OneEntryLists(src, data, o + 18, contentType, form, 4);
    OneEntryAbsurd(src, data, o + 24, contentType, form, 4);
    FormsDecide(src, data, o + 18, 4, CompDir(src, Unit(o, o + 4, o + 25, 4)));
  }

  lemma Joined2(data: seq<Byte>, a: seq<Byte>, b: seq<Byte>)
    requires data == a + b
    ensures Holds(data, 0, a) && Holds(data, |a|, b)
  {
  }

  /** A good unit of one row and one that loses the table: the row is read, and
      then lost. */
  ghost predicate RowLost(data: seq<Byte>, fault: Fault, src: Sources) {
    && |Units(data, 0)| == 2
    && (exists row :: Gather(data, Units(data, 0)[..1], src) == Ok([row]))
    && Gather(data, Units(data, 0), src) == Err(fault)
  }

  lemma BesideGood(data: seq<Byte>, part: seq<Byte>, src: Sources) returns (fault: Fault)
    requires data == OneOpcode(1) + part
    requires |part| > 4 && part[0] == |part| - 4 && part[1] == part[2] == part[3] == 0
    requires Loses(data, Unit(18, 22, 18 + |part|, 4), src)
    ensures RowLost(data, fault, src) && UnitRows(data, Unit(18, 22, 18 + |part|, 4), src).1 == Some(fault)
  {
    hide OneOpcode, UnitAt, UnitRows, Loses, HeaderAt, DividesByZero, MixesKinds;
    var a, b := Unit(0, 4, 18, 4), Unit(18, 22, 18 + |part|, 4);
    Joined2(data, OneOpcode(1), part);
    FirstUnit(data);
    UnitHeld(data, 18, part);
    assert UnitAt(data, |data|) == None by { NoUnit(data); }
    assert Units(data, 18) == [b] + Units(data, |data|) == [b];
    assert Units(data, 0) == [a] + Units(data, 18) == [a, b];
    GoodUnit(data, 0, src);
    var row :| UnitRows(data, a, src) == ([row], None);
    assert [a][..0] == [] && [a, b][..1] == [a] && [] + [row] == [row];
    assert Gather(data, [a], src) == Ok([row]);
    UnitFault(data, b, src);
    fault := UnitRows(data, b, src).1.value;
    assert Gather(data, [a, b], src) == Err(fault);
  }

  lemma FirstUnit(data: seq<Byte>)
    requires Holds(data, 0, OneOpcode(1))
    ensures UnitAt(data, 0) == Some(Unit(0, 4, 18, 4))
  {
    UnitHeld(data, 0, OneOpcode(1));
  }

  lemma UnitFault(data: seq<Byte>, u: Unit, src: Sources)
    requires Loses(data, u, src)
    ensures UnitRows(data, u, src).1.Some? && !Caught(UnitRows(data, u, src).1.value)
  {
    hide UnitRows, DividesByZero, MixesKinds;
    UnitLostIff(data, u, src);
  }

  /** Beside a unit whose line_range is zero. */
  lemma GoodRowsLost(src: Sources)
    ensures RowLost(OneOpcode(1) + OneOpcode(0), ZeroDivisionError, src)
  {
    hide *;
    var data := OneOpcode(1) + OneOpcode(0);
    Joined2(data, OneOpcode(1), OneOpcode(0));
    Heads(0, 0);
    BadUnit(data, 18, src);
    var fault := BesideGood(data, OneOpcode(0), src);
    OldTable(data, src);
    UnitLostIff(data, Unit(18, 22, 36, 4), src);
    LostMeans(data, Unit(18, 22, 36, 4), src);
  }

  lemma LostMeans(data: seq<Byte>, u: Unit, src: Sources)
    ensures Loses(data, u, src) <==> DividesByZero(data, u, src) || MixesKinds(data, u, src)
  {
    hide DividesByZero, MixesKinds;
  }

  lemma Heads(contentType: Byte, form: Byte)
    ensures var part := OneOpcode(0); |part| == 18 && part[0] == 14 && part[1] == part[2] == part[3] == 0
    ensures var part := OneEntry(contentType, form); |part| == 25 && part[0] == 21 && part[1] == part[2] == part[3] == 0
    ensures |OneOpcode(1)| == 18
  {
  }

  lemma OldTable(data: seq<Byte>, src: Sources)
    requires Holds(data, 18, OneOpcode(0))
    ensures !MixesKinds(data, Unit(18, 22, 36, 4), src)
  {
    hide FieldsAt;
    FieldsHeld(data, 18, 0);
  }

  lemma PositiveRange(data: seq<Byte>, contentType: Byte, form: Byte, src: Sources)
    requires Holds(data, 18, OneEntry(contentType, form))
    ensures !DividesByZero(data, Unit(18, 22, 43, 4), src)
  {
    hide FieldsAt, TableOfUnit;
    FieldsOfEntry(data, 18, contentType, form);
  }

  /** And, with no zero line_range anywhere, beside one whose file entry has a
      path of form data1 or a directory index of form string. */
  lemma GoodRowsLostByForm(contentType: Byte, form: Byte, src: Sources)
    requires (contentType, form) in {(1, 0x0B), (2, 0x08)}
    ensures RowLost(OneOpcode(1) + OneEntry(contentType, form), TypeError, src)
  {
    hide *;
    var data := OneOpcode(1) + OneEntry(contentType, form);
    Joined2(data, OneOpcode(1), OneEntry(contentType, form));
    Heads(contentType, form);
    AbsurdUnit(data, 18, contentType, form, src);
    var fault := BesideGood(data, OneEntry(contentType, form), src);
    PositiveRange(data, contentType, form, src);
    UnitLostIff(data, Unit(18, 22, 43, 4), src);
    LostMeans(data, Unit(18, 22, 43, 4), src);
  }

  lemma NoUnit(data: seq<Byte>)
    ensures UnitAt(data, |data|) == None
  {
  }
}
