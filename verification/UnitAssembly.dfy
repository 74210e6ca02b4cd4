/** Reading a unit is the inverse of writing one: its length, its header, and
    where its file table and its program begin (section 6.2.4 of DWARF 5). */
module UnitAssembly {
  import opened Prelude
  import opened ByteArrays
  import opened Leb128
  import opened LineTables
  import opened FileTables
  import P = LinePrograms
  import opened LineAssembly
  import opened LineUnits

  /** What an assembler says of a unit. */
  datatype Head = Head(version: nat, long: bool, addressSize: Byte, segmentSize: Byte, minInst: Byte, maxOps: Byte,
                       isStmt: Byte, lineBase: int, lineRange: Byte, opcodeBase: Byte, lengths: seq<Byte>)

  predicate WellMade(head: Head) {
    && head.version < Limit(2) && -128 <= head.lineBase < 128
    && |head.lengths| == if head.opcodeBase > 0 then head.opcodeBase - 1 else 0
  }

  function SignedByte(z: int): Byte
    requires -128 <= z < 128
  {
    if z < 0 then z + 256 else z
  }

  function OffsetSize(head: Head): nat { if head.long then 8 else 4 }

  /** Everything between the header_length field and the file table. */
  function Middle(head: Head): seq<Byte>
    requires WellMade(head)
  {
    [head.minInst] + (if head.version >= 4 then [head.maxOps] else [])
    + [head.isStmt, SignedByte(head.lineBase), head.lineRange, head.opcodeBase] + head.lengths
  }

  function Front(head: Head): seq<Byte>
    requires WellMade(head)
  {
    Word(head.version, 2) + if head.version >= 5 then [head.addressSize, head.segmentSize] else []
  }

  /** The unit's bytes behind its length field. */
  function UnitBody(head: Head, table: seq<Byte>, program: seq<Byte>): seq<Byte>
    requires WellMade(head)
  {
    Front(head) + Word(|Middle(head)| + |table|, OffsetSize(head)) + Middle(head) + table + program
  }

  function LengthField(head: Head, length: nat): seq<Byte> {
    if head.long then Word(LONG_FORMAT, 4) + Word(length, 8) else Word(length, 4)
  }

  function UnitBytes(head: Head, table: seq<Byte>, program: seq<Byte>): seq<Byte>
    requires WellMade(head)
  {
    LengthField(head, |UnitBody(head, table, program)|) + UnitBody(head, table, program)
  }

  /** Lengths that their fields hold; short ones that are not the long mark. */
  predicate LengthsFit(head: Head, table: seq<Byte>, program: seq<Byte>)
    requires WellMade(head)
  {
    var length := |UnitBody(head, table, program)|;
    && |Middle(head)| + |table| < Limit(OffsetSize(head))
    && if head.long then length < Limit(8) else length < LONG_FORMAT
  }

  lemma LeWord(pre: seq<Byte>, x: nat, width: nat, post: seq<Byte>)
    requires x < Limit(width)
    ensures Le(pre + Word(x, width) + post, |pre|, width) == x
  {
    Piece(pre, Word(x, width), post);
    ValueOfWord(x, width);
  }

  lemma FourBytes()
    ensures Limit(4) == 0x1_0000_0000
  {
  }

  /** A unit is found where it was put, with its declared end. */
  lemma UnitFound(head: Head, pre: seq<Byte>, table: seq<Byte>, program: seq<Byte>, post: seq<Byte>)
    requires WellMade(head) && LengthsFit(head, table, program)
    ensures var (o, size) := (|pre|, |UnitBytes(head, table, program)|);
            UnitAt(pre + UnitBytes(head, table, program) + post, o)
            == Some(Unit(o, o + (if head.long then 12 else 4), o + size, OffsetSize(head)))
  {
    hide UnitBody, Le, Limit, Word;
    var body := UnitBody(head, table, program);
    BodyNotEmpty(head, table, program);
    var data := pre + UnitBytes(head, table, program) + post;
    FourBytes();
    if head.long {
      assert data == pre + Word(LONG_FORMAT, 4) + (Word(|body|, 8) + body + post);
      LeWord(pre, LONG_FORMAT, 4, Word(|body|, 8) + body + post);
      assert data == (pre + Word(LONG_FORMAT, 4)) + Word(|body|, 8) + (body + post);
      LeWord(pre + Word(LONG_FORMAT, 4), |body|, 8, body + post);
    } else {
      assert data == pre + Word(|body|, 4) + (body + post);
      LeWord(pre, |body|, 4, body + post);
    }
  }

  lemma BodyNotEmpty(head: Head, table: seq<Byte>, program: seq<Byte>)
    requires WellMade(head)
    ensures |UnitBody(head, table, program)| > 0
  {
  }

  /** The header as written: the fields on their own bytes, line_base signed,
      max_ops from version 4 on, files numbered from zero from version 5 on. */
  function HeaderOf(head: Head): P.Header
    requires WellMade(head)
  {
    P.Header(head.minInst, if head.version >= 4 then head.maxOps
             else 1, head.isStmt != 0, head.lineBase, head.lineRange,
             head.opcodeBase, head.lengths, if head.version >= 5 then 0 else 1, [])
  }

  ghost predicate Laid(data: seq<Byte>, at: nat, part: seq<Byte>) {
    at + |part| <= |data| && forall i :: 0 <= i < |part| ==> data[at + i] == part[i]
  }

  lemma LaidPiece(pre: seq<Byte>, part: seq<Byte>, post: seq<Byte>)
    ensures Laid(pre + part + post, |pre|, part)
  {
  }

  lemma FieldsLaid(head: Head, data: seq<Byte>, u: Unit, at: nat, length: nat)
    requires WellMade(head) && u.offsetSize == OffsetSize(head)
    requires Le(data, u.body, 2) == head.version && at == u.body + |Front(head)| + OffsetSize(head)
    requires Le(data, at - OffsetSize(head), OffsetSize(head)) == length
    requires Laid(data, at, Middle(head))
    ensures FieldsAt(data, u) == Ok(Fields(head.version, HeaderOf(head), at + length, at + |Middle(head)|))
  {
    hide Le, Word, Laid;
    FrontSize(head);
    var middle, ops := Middle(head), if head.version >= 4 then 1 else 0;
    MiddleBytes(head);
    LaidAt(data, at, middle, 0);
    LaidAt(data, at, middle, ops);
    LaidAt(data, at, middle, 1 + ops);
    LaidAt(data, at, middle, 2 + ops);
    LaidAt(data, at, middle, 3 + ops);
    LaidAt(data, at, middle, 4 + ops);
    LaidLengths(data, at, middle, 5 + ops, head.lengths);
    SignBack(head.lineBase);
  }

  lemma LaidAt(data: seq<Byte>, at: nat, part: seq<Byte>, i: nat)
    requires Laid(data, at, part) && i < |part|
    ensures at + |part| <= |data| && data[at + i] == part[i]
  {
  }

  lemma LaidLengths(data: seq<Byte>, at: nat, part: seq<Byte>, i: nat, lengths: seq<Byte>)
    requires Laid(data, at, part) && i + |lengths| == |part| && part[i..] == lengths
    ensures at + i + |lengths| <= |data| && Lengths(data, at + i, |lengths|) == lengths
  {
    forall k | 0 <= k < |lengths| ensures data[at + i + k] == lengths[k] {
      assert part[i..][k] == part[i + k];
      assert data[at + (i + k)] == part[i + k];
    }
  }

  lemma SignBack(z: int)
    requires -128 <= z < 128
    ensures Signed(SignedByte(z)) == z
  {
  }

  lemma FrontSize(head: Head)
    requires WellMade(head)
    ensures |Front(head)| == 2 + if head.version >= 5 then 2 else 0
  {
  }

  lemma MiddleBytes(head: Head)
    requires WellMade(head)
    ensures var (m, ops) := (Middle(head), if head.version >= 4 then 1 else 0);
            && |m| == 5 + ops + |head.lengths| && m[0] == head.minInst && (ops == 1 ==> m[1] == head.maxOps)
            && m[1 + ops] == head.isStmt && m[2 + ops] == SignedByte(head.lineBase) && m[3 + ops] == head.lineRange
            && m[4 + ops] == head.opcodeBase && m[5 + ops..] == head.lengths
  {
  }

  /** Its fields are read back, and table and program found where they begin. */
  lemma FieldsFound(head: Head, pre: seq<Byte>, table: seq<Byte>, program: seq<Byte>, post: seq<Byte>, u: Unit)
    requires WellMade(head) && LengthsFit(head, table, program)
    requires u.body == |pre| && u.offsetSize == OffsetSize(head)
    ensures var data := pre + UnitBody(head, table, program) + post;
            var at := |pre| + |Front(head)| + OffsetSize(head) + |Middle(head)|;
            FieldsAt(data, u) == Ok(Fields(head.version, HeaderOf(head), at + |table|, at))
  {
    hide *;
    var data := pre + UnitBody(head, table, program) + post;
    var length := Word(|Middle(head)| + |table|, OffsetSize(head));
    LengthFits(head, table, program);
    var rest := (if head.version >= 5 then [head.addressSize, head.segmentSize] else []) + length + Middle(head)
                + table + program + post;
    BodySplits(head, pre, table, program, post);
    LeWord(pre, head.version, 2, rest);
    LeWord(pre + Front(head), |Middle(head)| + |table|, OffsetSize(head), Middle(head) + table + program + post);
    LaidPiece(pre + Front(head) + length, Middle(head), table + program + post);
    FieldsLaid(head, data, u, |pre| + |Front(head)| + OffsetSize(head), |Middle(head)| + |table|);
  }

  lemma BodySplits(head: Head, pre: seq<Byte>, table: seq<Byte>, program: seq<Byte>, post: seq<Byte>)
    requires WellMade(head)
    ensures var data := pre + UnitBody(head, table, program) + post;
            var length := Word(|Middle(head)| + |table|, OffsetSize(head));
            && data == pre + Word(head.version, 2)
                       + ((if head.version >= 5 then [head.addressSize, head.segmentSize] else [])
                          + length + Middle(head) + table + program + post)
            && data == (pre + Front(head)) + length + (Middle(head) + table + program + post)
            && data == (pre + Front(head) + length) + Middle(head) + (table + program + post)
            && |length| == OffsetSize(head)
  {
    hide Middle, Word;
  }

  lemma LengthFits(head: Head, table: seq<Byte>, program: seq<Byte>)
    requires WellMade(head) && LengthsFit(head, table, program)
    ensures |Middle(head)| + |table| < Limit(OffsetSize(head)) && head.version < Limit(2)
  {
  }

  // ----- the whole unit

  /** Names as rows show them; text is shown as it is. */
  lemma ShownAre(names: seq<Datum>)
    ensures |AllShown(names)| == |names|
    ensures forall i :: 0 <= i < |names| && names[i].Text? ==> AllShown(names)[i] == names[i].text
  {
  }

  /** A unit's registers, read with the names its file table gave. */
  function HeaderWith(head: Head, names: seq<Datum>): P.Header
    requires WellMade(head)
  {
    HeaderOf(head).(fileNames := AllShown(names))
  }

  /** A row shows a path that is text as it is, and one that is bytes byte by byte. */
  lemma NamesShown(head: Head, names: seq<Datum>, i: nat)
    requires WellMade(head) && i < |names|
    ensures var shown := HeaderWith(head, names).fileNames;
            && |shown| == |names|
            && (names[i].Text? ==> shown[i] == names[i].text)
            && (names[i].Raw? ==>
                  && |shown[i]| == |names[i].bytes|
                  && forall k :: 0 <= k < |shown[i]| ==> shown[i][k] as int == names[i].bytes[k])
  {
  }

  /** A written unit, wherever it lies, gives the rows its program means. */
  lemma UnitRuns(head: Head, pre: seq<Byte>, table: seq<Byte>, ops: seq<Op>, post: seq<Byte>, src: Sources, u: Unit,
                 names: seq<Datum>)
    requires WellMade(head) && LengthsFit(head, table, AssembleAll(ops))
    requires u.body == |pre| && u.end == |pre| + |UnitBody(head, table, AssembleAll(ops))|
    requires u.offsetSize == OffsetSize(head)
    requires var data := pre + UnitBody(head, table, AssembleAll(ops)) + post;
             TableAt(src, data, head.version, |pre| + |Front(head)| + OffsetSize(head) + |Middle(head)|,
                     OffsetSize(head),
                     if u.start in src.compDirs then src.compDirs[u.start] else "") == Ok(names)
    requires AllFit(HeaderWith(head, names), ops)
    ensures var (h, data) := (HeaderWith(head, names), pre + UnitBody(head, table, AssembleAll(ops)) + post);
            UnitRows(data, u, src).1 == None && ProgramRows(h, ops, UnitRows(data, u, src).0)
  {
    hide *;
    var (h, program) := (HeaderWith(head, names), AssembleAll(ops));
    var data := pre + UnitBody(head, table, program) + post;
    var at := |pre| + |Front(head)| + OffsetSize(head) + |Middle(head)|;
    FieldsFound(head, pre, table, program, post, u);
    ProgramLast(head, pre, table, program, post);
    var front := pre + Front(head) + Word(|Middle(head)| + |table|, OffsetSize(head)) + Middle(head) + table;
    RowsRun(head, data, table, u, src, names, at, |front|);
    StartsFresh(h);
    var m := P.Exec(P.Initial(h), [], |front|);
    ExecParts(m, P.Initial(h), [], |front|);
    AssembledRuns(h, front, ops, post, m);
    var t, rows :| MeansAll(h, m.state, ops, t, rows)
      && P.Execute(h, front + program + post, |front| + |program|, m)
         == (P.Exec(t, m.rows + rows, |front| + |program|), None);
    ExecParts(P.Exec(t, m.rows + rows, |front| + |program|), t, m.rows + rows, |front| + |program|);
    assert [] + rows == rows;
    assert UnitRows(data, u, src) == (rows, None);
    FromFresh(h, ops, P.Initial(h), t, rows);
  }

  /** The rows a program means from the start of a sequence on. */
  ghost predicate ProgramRows(h: P.Header, ops: seq<Op>, rows: seq<LineRow>) {
    exists s, t :: Started(h, s) && MeansAll(h, s, ops, t, rows)
  }

  lemma FromFresh(h: P.Header, ops: seq<Op>, s: P.State, t: P.State, rows: seq<LineRow>)
    requires Started(h, s) && MeansAll(h, s, ops, t, rows)
    ensures ProgramRows(h, ops, rows)
  {
    hide Started, MeansAll;
  }

  lemma ExecParts(m: P.Exec, s: P.State, rows: seq<LineRow>, offset: nat)
    requires m == P.Exec(s, rows, offset)
    ensures m.state == s && m.rows == rows && m.offset == offset
  {
  }

  lemma RowsRun(head: Head, data: seq<Byte>, table: seq<Byte>, u: Unit, src: Sources, names: seq<Datum>, at: nat,
                start: nat)
    requires WellMade(head) && u.offsetSize == OffsetSize(head) && start == at + |table|
    requires FieldsAt(data, u) == Ok(Fields(head.version, HeaderOf(head), at + |table|, at))
    requires TableAt(src, data, head.version, at, OffsetSize(head),
                     if u.start in src.compDirs then src.compDirs[u.start] else "") == Ok(names)
    ensures var h := HeaderWith(head, names);
            var (m, f) := P.Execute(h, data, u.end, P.Exec(P.Initial(h), [], start));
            UnitRows(data, u, src) == (m.rows, f)
  {
    hide FieldsAt, TableAt, P.Execute, P.Initial, HeaderOf, AllShown;
  }

  lemma ProgramLast(head: Head, pre: seq<Byte>, table: seq<Byte>, program: seq<Byte>, post: seq<Byte>)
    requires WellMade(head)
    ensures var front := pre + Front(head) + Word(|Middle(head)| + |table|, OffsetSize(head)) + Middle(head) + table;
            && pre + UnitBody(head, table, program) + post == front + program + post
            && |front| == |pre| + |Front(head)| + OffsetSize(head) + |Middle(head)| + |table|
            && |front| + |program| == |pre| + |UnitBody(head, table, program)|
  {
    hide Front, Middle, Word;
  }

  // ----- a section

  /** The rows of every unit, in order. */
  function RowsOfAll(data: seq<Byte>, units: seq<Unit>, src: Sources): seq<LineRow> {
    if units == [] then [] else UnitRows(data, units[0], src).0 + RowsOfAll(data, units[1..], src)
  }

  lemma {:induction false} RowsSnoc(data: seq<Byte>, units: seq<Unit>, u: Unit, src: Sources)
    ensures RowsOfAll(data, units + [u], src) == RowsOfAll(data, units, src) + UnitRows(data, u, src).0
  {
    hide UnitRows;
    if units == [] {
      assert [u][1..] == [] && [] + [u] == [u];
      assert RowsOfAll(data, [u], src) == UnitRows(data, u, src).0 + RowsOfAll(data, [], src);
    } else {
      RowsSnoc(data, units[1..], u, src);
      assert (units + [u])[1..] == units[1..] + [u];
      Regroup(UnitRows(data, units[0], src).0, RowsOfAll(data, units[1..], src), UnitRows(data, u, src).0);
    }
  }

  /** A table that is built holds the rows of its units, in their order. */
  lemma {:induction false} GatherJoins(data: seq<Byte>, units: seq<Unit>, src: Sources)
    requires Gather(data, units, src).Ok?
    ensures Gather(data, units, src).value == RowsOfAll(data, units, src)
  {
    hide UnitRows;
    if units != [] {
      var n := |units| - 1;
      GatherJoins(data, units[..n], src);
      RowsSnoc(data, units[..n], units[n], src);
      assert units == units[..n] + [units[n]];
    }
  }
}
