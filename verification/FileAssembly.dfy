/** Reading a file table is the inverse of writing one, form by form and entry by
    entry, before version 5 and from then on. */
module FileAssembly {
  import opened Prelude
  import opened ByteArrays
  import opened Leb128
  import opened FileTables

  // ----- forms

  /** A value as a producer may write it. */
  datatype Written =
    | InPlace(bytes: seq<Byte>)
    | InLineStr(offset: nat)
    | InStrings(offset: nat)
    | Fixed(form: nat, n: nat)
    | Counted(form: nat, n: nat)
    | Sdata(z: int)
    | Sixteen(bytes: seq<Byte>)
    | Block(bytes: seq<Byte>)

  /** The bytes of a fixed-size form; none for the others. */
  function Width(form: nat): nat {
    match form
    case 0x0B => 1
    case 0x25 => 1
    case 0x05 => 2
    case 0x26 => 2
    case 0x27 => 3
    case 0x06 => 4
    case 0x28 => 4
    case 0x07 => 8
    case _ => 0
  }

  function FormOf(w: Written): nat {
    match w
    case InPlace(_) => 0x08
    case InLineStr(_) => 0x1F
    case InStrings(_) => 0x0E
    case Fixed(form, _) => form
    case Counted(form, _) => form
    case Sdata(_) => 0x0D
    case Sixteen(_) => 0x1E
    case Block(_) => 0x09
  }

  predicate NoNul(bytes: seq<Byte>) { forall i :: 0 <= i < |bytes| ==> bytes[i] != 0 }

  predicate Writable(w: Written, offsetSize: nat) {
    match w
    case InPlace(bytes) => NoNul(bytes)
    case InLineStr(offset) => offset < Limit(offsetSize)
    case InStrings(offset) => offset < Limit(offsetSize)
    case Fixed(form, n) => Width(form) > 0 && n < Limit(Width(form))
    case Counted(form, _) => form in {0x0F, 0x1A, 0x22, 0x23}
    case Sdata(_) => true
    case Sixteen(bytes) => |bytes| == 16
    case Block(_) => true
  }

  function BytesOf(w: Written, offsetSize: nat): seq<Byte> {
    match w
    case InPlace(bytes) => bytes + [0]
    case InLineStr(offset) => Word(offset, offsetSize)
    case InStrings(offset) => Word(offset, offsetSize)
    case Fixed(form, n) => Word(n, Width(form))
    case Counted(_, n) => EncodeUleb(n)
    case Sdata(z) => EncodeSleb(z)
    case Sixteen(bytes) => bytes
    case Block(bytes) => EncodeUleb(|bytes|) + bytes
  }

  /** A string of a section: from its offset to the next zero, or to the end. */
  ghost predicate StringIn(section: seq<Byte>, offset: nat, s: seq<Byte>) {
    if offset > |section| then s == []
    else
      && offset + |s| <= |section| && section[offset..offset + |s|] == s && NoNul(s)
      && (offset + |s| < |section| ==> section[offset + |s|] == 0)
  }

  lemma {:induction false} StringAtIs(section: seq<Byte>, offset: nat)
    ensures StringIn(section, offset, StringAt(section, offset))
    decreases |section| - offset
  {
    hide StringIn;
    if offset < |section| && section[offset] != 0 {
      StringAtIs(section, offset + 1);
      StringFrom(section, offset, StringAt(section, offset + 1));
      assert StringAt(section, offset) == [section[offset]] + StringAt(section, offset + 1);
    } else {
      NothingIn(section, offset);
    }
  }

  lemma NothingIn(section: seq<Byte>, offset: nat)
    requires offset < |section| ==> section[offset] == 0
    ensures StringIn(section, offset, [])
  {
  }

  lemma StringFrom(section: seq<Byte>, offset: nat, rest: seq<Byte>)
    requires offset < |section| && section[offset] != 0 && StringIn(section, offset + 1, rest)
    ensures StringIn(section, offset, [section[offset]] + rest)
  {
    var s := [section[offset]] + rest;
    assert section[offset..offset + |s|] == [section[offset]] + section[offset + 1..offset + 1 + |rest|];
  }

  /** What it stands for. */
  ghost predicate ValueOf(src: Sources, w: Written, d: Datum) {
    match w
    case InPlace(bytes) => d == Text(src.decode(bytes))
    case InLineStr(offset) => exists s :: StringIn(src.lineStr, offset, s) && d == Text(src.decode(s))
    case InStrings(offset) => exists s :: StringIn(src.strings, offset, s) && d == Text(src.decode(s))
    case Fixed(_, n) => d == Number(n)
    case Counted(_, n) => d == Number(n)
    case Sdata(z) => d == Number(z)
    case Sixteen(bytes) => d == Raw(bytes)
    case Block(bytes) => d == Raw(bytes)
  }

  lemma Piece(pre: seq<Byte>, part: seq<Byte>, post: seq<Byte>)
    ensures UpTo(pre + part + post, |pre|, |part|) == part
  {
  }

  lemma LeWord(pre: seq<Byte>, x: nat, width: nat, post: seq<Byte>)
    requires x < Limit(width)
    ensures Le(pre + Word(x, width) + post, |pre|, width) == x
  {
    hide Word, Limit;
    Piece(pre, Word(x, width), post);
    ValueOfWord(x, width);
  }

  /** A string ends at its zero. */
  lemma {:induction false} StringRead(pre: seq<Byte>, bytes: seq<Byte>, post: seq<Byte>)
    requires NoNul(bytes)
    ensures EndOfString(pre + (bytes + [0]) + post, |pre|) == |pre| + |bytes|
    ensures StringAt(pre + (bytes + [0]) + post, |pre|) == bytes
    decreases |bytes|
  {
    var data := pre + (bytes + [0]) + post;
    if bytes == [] {
      assert data[|pre|] == 0;
    } else {
      assert data[|pre|] == bytes[0] != 0;
      assert data == (pre + [bytes[0]]) + (bytes[1..] + [0]) + post;
      StringRead(pre + [bytes[0]], bytes[1..], post);
    }
    assert data[|pre|..|pre| + |bytes|] == bytes;
  }

  lemma FixedRead(src: Sources, pre: seq<Byte>, form: nat, n: nat, post: seq<Byte>, offsetSize: nat)
    requires Width(form) > 0 && n < Limit(Width(form))
    ensures FormAt(src, pre + Word(n, Width(form)) + post, |pre|, form, offsetSize)
         == Ok((Number(n), |pre| + Width(form)))
  {
    hide Word, Limit, Le, StringAt, EndOfString, UlebAt, SlebAt, UpTo;
    LeWord(pre, n, Width(form), post);
    assert |pre| < |pre + Word(n, Width(form)) + post|;
  }

  lemma NumberRead(src: Sources, pre: seq<Byte>, w: Written, post: seq<Byte>, offsetSize: nat)
    requires Writable(w, offsetSize) && (w.Counted? || w.Sdata? || w.Block?)
    ensures var r := FormAt(src, pre + BytesOf(w, offsetSize) + post, |pre|, FormOf(w), offsetSize);
            r.Ok? && ValueOf(src, w, r.value.0) && r.value.1 == |pre| + |BytesOf(w, offsetSize)|
  {
    hide Word, Limit, Le, StringAt, EndOfString, UlebAt, SlebAt, UpTo, EncodeUleb, EncodeSleb;
    match w
    case Counted(_, n) => UlebRoundTrip(pre, n, post);
    case Sdata(z) => SlebRoundTrip(pre, z, post);
    case Block(bytes) =>
      var length := EncodeUleb(|bytes|);
      assert pre + (length + bytes) + post == pre + length + (bytes + post) == (pre + length) + bytes + post;
      UlebRoundTrip(pre, |bytes|, bytes + post);
      Piece(pre + length, bytes, post);
  }

  /** Every form gives back its value and consumes exactly its bytes. */
  lemma FormRead(src: Sources, pre: seq<Byte>, w: Written, post: seq<Byte>, offsetSize: nat)
    requires Writable(w, offsetSize)
    ensures var r := FormAt(src, pre + BytesOf(w, offsetSize) + post, |pre|, FormOf(w), offsetSize);
            r.Ok? && ValueOf(src, w, r.value.0) && r.value.1 == |pre| + |BytesOf(w, offsetSize)|
  {
    hide Word, Limit, Le, StringAt, EndOfString, UlebAt, SlebAt, UpTo, EncodeUleb, EncodeSleb, StringIn;
    match w
    case InPlace(bytes) => StringRead(pre, bytes, post);
    case InLineStr(offset) =>
      LeWord(pre, offset, offsetSize, post);
      StringAtIs(src.lineStr, offset);
    case InStrings(offset) =>
      LeWord(pre, offset, offsetSize, post);
      StringAtIs(src.strings, offset);
    case Fixed(form, n) => FixedRead(src, pre, form, n, post, offsetSize);
    case Sixteen(bytes) => Piece(pre, bytes, post);
    case _ => NumberRead(src, pre, w, post, offsetSize);
  }

  // ----- entries

  /** The values of one entry, each with its content type. */
  type Values = seq<(nat, Written)>

  function FormatOf(values: Values): (r: Format)
    ensures |r| == |values| && forall i :: 0 <= i < |r| ==> r[i] == (values[i].0, FormOf(values[i].1))
  {
    seq(|values|, i requires 0 <= i < |values| => (values[i].0, FormOf(values[i].1)))
  }

  predicate AllWritable(values: Values, offsetSize: nat) { forall i :: 0 <= i < |values| ==> Writable(values[i].1,
    offsetSize) }

  function EntryBytes(values: Values, offsetSize: nat): seq<Byte> {
    if values == [] then [] else BytesOf(values[0].1, offsetSize) + EntryBytes(values[1..], offsetSize)
  }

  /** Its path and directory index, the last of each if given more than once. */
  ghost predicate EntryOf(src: Sources, values: Values, before: Entry, e: Entry)
    decreases |values|
  {
    if values == [] then e == before
    else exists d :: ValueOf(src, values[0].1, d)
                     && EntryOf(src, values[1..], Entry(if values[0].0 == 1 then Some(d) else before.path,
                                                        if values[0].0 == 2 then Some(d) else before.index), e)
  }

  lemma {:induction false} EntryRead(src: Sources, pre: seq<Byte>, values: Values, post: seq<Byte>, offsetSize: nat,
                                     before: Entry)
    requires AllWritable(values, offsetSize)
    ensures var r := EntryAt(src, pre + EntryBytes(values, offsetSize) + post, |pre|, FormatOf(values), offsetSize,
                             before);
            r.Ok? && EntryOf(src, values, before, r.value.0) && r.value.1 == |pre| + |EntryBytes(values, offsetSize)|
    decreases |values|
  {
    hide FormAt, ValueOf, BytesOf, Writable;
    if values != [] {
      var first, rest := BytesOf(values[0].1, offsetSize), EntryBytes(values[1..], offsetSize);
      var data := pre + EntryBytes(values, offsetSize) + post;
      assert data == pre + first + (rest + post) && data == (pre + first) + rest + post;
      FormRead(src, pre, values[0].1, rest + post, offsetSize);
      assert FormatOf(values)[1..] == FormatOf(values[1..]);
      var d := FormAt(src, data, |pre|, FormOf(values[0].1), offsetSize).value.0;
      EntryRead(src, pre + first, values[1..], post, offsetSize, Noted(before, values[0].0, d));
    }
  }

  /** A list of entries of one format. */
  predicate Uniform(list: seq<Values>, format: Format, offsetSize: nat) {
    forall i :: 0 <= i < |list| ==> FormatOf(list[i]) == format && AllWritable(list[i], offsetSize)
  }

  function ListBytes(list: seq<Values>, offsetSize: nat): seq<Byte> {
    if list == [] then [] else EntryBytes(list[0], offsetSize) + ListBytes(list[1..], offsetSize)
  }

  ghost predicate EntriesOf(src: Sources, list: seq<Values>, es: seq<Entry>) {
    |es| == |list| && forall i :: 0 <= i < |list| ==> EntryOf(src, list[i], Entry(None, None), es[i])
  }

  /** The path of a directory entry, or the empty text. */
  function PathsOf(es: seq<Entry>): (r: seq<Datum>)
    ensures |r| == |es|
    ensures forall i :: 0 <= i < |r| ==> r[i] == if es[i].path.Some? then es[i].path.value else Text("")
  {
    seq(|es|, i requires 0 <= i < |es| => if es[i].path.Some? then es[i].path.value else Text(""))
  }

  lemma EntriesCons(src: Sources, list: seq<Values>, e: Entry, es: seq<Entry>)
    requires list != [] && EntryOf(src, list[0], Entry(None, None), e) && EntriesOf(src, list[1..], es)
    ensures EntriesOf(src, list, [e] + es)
  {
    hide EntryOf;
    forall i | 0 <= i < |list| ensures EntryOf(src, list[i], Entry(None, None), ([e] + es)[i]) {
      if i > 0 { assert list[i] == list[1..][i - 1] && ([e] + es)[i] == es[i - 1]; }
    }
  }

  lemma PathsCons(read: seq<Datum>, e: Entry, es: seq<Entry>)
    ensures read + [NameOf(e)] + PathsOf(es) == read + PathsOf([e] + es)
    ensures read + PathsOf([]) == read
  {
  }

  lemma NoEntries(src: Sources)
    ensures EntriesOf(src, [], [])
  {
  }

  lemma UniformFirst(list: seq<Values>, format: Format, offsetSize: nat)
    requires Uniform(list, format, offsetSize) && list != []
    ensures FormatOf(list[0]) == format && AllWritable(list[0], offsetSize) && Uniform(list[1..], format, offsetSize)
  {
    hide FormatOf, AllWritable;
  }

  lemma ListSplits(pre: seq<Byte>, list: seq<Values>, post: seq<Byte>, offsetSize: nat)
    ensures list == [] ==> ListBytes(list, offsetSize) == []
    ensures list != [] ==>
              var (data, first, rest) := (pre + ListBytes(list, offsetSize) + post, EntryBytes(list[0], offsetSize),
                                          ListBytes(list[1..], offsetSize));
              && data == pre + first + (rest + post) && data == (pre + first) + rest + post
              && |ListBytes(list, offsetSize)| == |first| + |rest|
  {
    hide EntryBytes;
  }

  lemma DirectoriesStep(src: Sources, data: seq<Byte>, offset: nat, format: Format, offsetSize: nat, n: nat,
                        read: seq<Datum>)
    ensures n == 0 ==> DirectoriesAt(src, data, offset, format, offsetSize, n, read) == Ok((read, offset))
    ensures n > 0 && EntryAt(src, data, offset, format, offsetSize, BLANK).Ok? ==>
              var (e, next) := EntryAt(src, data, offset, format, offsetSize, BLANK).value;
              DirectoriesAt(src, data, offset, format, offsetSize, n, read)
              == DirectoriesAt(src, data, next, format, offsetSize, n - 1, read + [NameOf(e)])
  {
    hide EntryAt;
  }

  lemma {:induction false} DirectoriesRead(src: Sources, pre: seq<Byte>, list: seq<Values>, format: Format,
                                           post: seq<Byte>, offsetSize: nat, read: seq<Datum>)
    returns (es: seq<Entry>)
    requires Uniform(list, format, offsetSize)
    ensures EntriesOf(src, list, es)
    ensures DirectoriesAt(src, pre + ListBytes(list, offsetSize) + post, |pre|, format, offsetSize, |list|, read)
         == Ok((read + PathsOf(es), |pre| + |ListBytes(list, offsetSize)|))
    decreases |list|
  {
    hide *;
    var data := pre + ListBytes(list, offsetSize) + post;
    ListSplits(pre, list, post, offsetSize);
    DirectoriesStep(src, data, |pre|, format, offsetSize, |list|, read);
    if list == [] {
      es := [];
      NoEntries(src);
      PathsCons(read, Entry(None, None), []);
    } else {
      var first, rest := EntryBytes(list[0], offsetSize), ListBytes(list[1..], offsetSize);
      UniformFirst(list, format, offsetSize);
      EntryRead(src, pre, list[0], rest + post, offsetSize, Entry(None, None));
      BlankIs();
      var e := EntryAt(src, data, |pre|, format, offsetSize, BLANK).value.0;
      var more := DirectoriesRead(src, pre + first, list[1..], format, post, offsetSize, read + [NameOf(e)]);
      EntriesCons(src, list, e, more);
      PathsCons(read, e, more);
      es := [e] + more;
    }
  }

  lemma BlankIs()
    ensures BLANK == Entry(None, None)
  {
  }

  /** Every file in turn, or the first that cannot be named. */
  function Files(src: Sources, directories: seq<Datum>, compDir: string, es: seq<Entry>): Result<seq<Datum>, Fault> {
    if es == [] then Ok([])
    else
      match FileOf(src, directories, compDir, es[0])
      case Err(f) => Err(f)
      case Ok(file) =>
        match Files(src, directories, compDir, es[1..])
        case Err(f) => Err(f)
        case Ok(rest) => Ok([file] + rest)
  }

  lemma FilesStep(src: Sources, data: seq<Byte>, offset: nat, format: Format, offsetSize: nat, n: nat,
                  directories: seq<Datum>, compDir: string, read: seq<Datum>)
    ensures n == 0 ==> FilesAt(src, data, offset, format, offsetSize, n, directories, compDir, read) == Ok(read)
    ensures n > 0 && EntryAt(src, data, offset, format, offsetSize, BLANK).Ok? ==>
              var (e, next) := EntryAt(src, data, offset, format, offsetSize, BLANK).value;
              FilesAt(src, data, offset, format, offsetSize, n, directories, compDir, read)
              == match FileOf(src, directories, compDir, e)
                 case Err(f) => Err(f)
                 case Ok(file) =>
                   FilesAt(src, data, next, format, offsetSize, n - 1, directories, compDir, read + [file])
  {
    hide EntryAt, FileOf;
  }

  lemma FilesCons(src: Sources, directories: seq<Datum>, compDir: string, e: Entry, es: seq<Entry>, read: seq<Datum>)
    ensures Files(src, directories, compDir, []) == Ok([]) && read + [] == read
    ensures var (file, more, all) := (FileOf(src, directories, compDir, e), Files(src, directories, compDir, es),
                                      Files(src, directories, compDir, [e] + es));
            && (file.Err? ==> all == Err(file.error))
            && (file.Ok? && more.Err? ==> all == more)
            && (file.Ok? && more.Ok? ==> all.Ok? && read + [file.value] + more.value == read + all.value)
  {
    hide FileOf;
    assert ([e] + es)[1..] == es;
  }

  lemma {:induction false} FilesRead(src: Sources, pre: seq<Byte>, list: seq<Values>, format: Format, post: seq<Byte>,
                                     offsetSize: nat, directories: seq<Datum>, compDir: string, read: seq<Datum>)
    returns (es: seq<Entry>)
    requires Uniform(list, format, offsetSize)
    ensures EntriesOf(src, list, es)
    ensures var r := FilesAt(src, pre + ListBytes(list, offsetSize) + post, |pre|, format, offsetSize, |list|,
                             directories, compDir, read);
            var all := Files(src, directories, compDir, es);
            if all.Err? then r == all else r == Ok(read + all.value)
    decreases |list|
  {
    hide *;
    var data := pre + ListBytes(list, offsetSize) + post;
    ListSplits(pre, list, post, offsetSize);
    FilesStep(src, data, |pre|, format, offsetSize, |list|, directories, compDir, read);
    if list == [] {
      es := [];
      NoEntries(src);
      FilesCons(src, directories, compDir, Entry(None, None), [], read);
    } else {
      var first, rest := EntryBytes(list[0], offsetSize), ListBytes(list[1..], offsetSize);
      UniformFirst(list, format, offsetSize);
      EntryRead(src, pre, list[0], rest + post, offsetSize, Entry(None, None));
      BlankIs();
      var e := EntryAt(src, data, |pre|, format, offsetSize, BLANK).value.0;
      var file := FileOf(src, directories, compDir, e);
      var more := FilesRead(src, pre + first, list[1..], format, post, offsetSize, directories, compDir,
                            read + if file.Ok? then [file.value] else []);
      EntriesCons(src, list, e, more);
      FilesCons(src, directories, compDir, e, more, read);
      es := [e] + more;
    }
  }

  // ----- the version 5 table

  function PairBytes(format: Format): seq<Byte> {
    if format == [] then []
    else EncodeUleb(format[0].0) + EncodeUleb(format[0].1) + PairBytes(format[1..])
  }

  function FormatBytes(format: Format): seq<Byte>
    requires |format| < 256
  {
    [|format|] + PairBytes(format)
  }

  lemma {:induction false} PairsRead(pre: seq<Byte>, format: Format, post: seq<Byte>, read: Format)
    ensures PairsAt(pre + PairBytes(format) + post, |pre|, |format|, read)
            == Ok((read + format, |pre| + |PairBytes(format)|))
    decreases |format|
  {
    hide UlebAt, EncodeUleb;
    if format == [] {
      assert read + format == read;
    } else {
      var (a, b, rest) := (EncodeUleb(format[0].0), EncodeUleb(format[0].1), PairBytes(format[1..]));
      var data := pre + PairBytes(format) + post;
      assert data == pre + a + (b + rest + post) && data == (pre + a) + b + (rest + post);
      assert data == (pre + a + b) + rest + post;
      UlebRoundTrip(pre, format[0].0, b + rest + post);
      UlebRoundTrip(pre + a, format[0].1, rest + post);
      PairsRead(pre + a + b, format[1..], post, read + [format[0]]);
      assert read + [format[0]] + format[1..] == read + format;
    }
  }

  lemma FormatRead(pre: seq<Byte>, format: Format, post: seq<Byte>)
    requires |format| < 256
    ensures FormatAt(pre + FormatBytes(format) + post, |pre|) == Ok((format, |pre| + |FormatBytes(format)|))
  {
    hide PairsAt, PairBytes;
    var data := pre + FormatBytes(format) + post;
    assert data == (pre + [|format|]) + PairBytes(format) + post && data[|pre|] == |format|;
    PairsRead(pre + [|format|], format, post, []);
    assert [] + format == format;
  }

  /** A table as a producer lays it out. */
  datatype Table = Table(dirFormat: Format, directories: seq<Values>, fileFormat: Format, files: seq<Values>)

  predicate WellLaid(t: Table, offsetSize: nat) {
    && |t.dirFormat| < 256 && |t.fileFormat| < 256
    && Uniform(t.directories, t.dirFormat, offsetSize) && Uniform(t.files, t.fileFormat, offsetSize)
  }

  function TableBytes(t: Table, offsetSize: nat): seq<Byte>
    requires WellLaid(t, offsetSize)
  {
    FormatBytes(t.dirFormat) + EncodeUleb(|t.directories|) + ListBytes(t.directories, offsetSize)
    + FormatBytes(t.fileFormat) + EncodeUleb(|t.files|) + ListBytes(t.files, offsetSize)
  }

  /** Reading a version 5 table gives the names its entries make, in order, or the
      fault of the first that makes none. */
  lemma Table5Read(src: Sources, pre: seq<Byte>, t: Table, post: seq<Byte>, offsetSize: nat, compDir: string)
    returns (ds: seq<Entry>, es: seq<Entry>)
    requires WellLaid(t, offsetSize)
    ensures EntriesOf(src, t.directories, ds) && EntriesOf(src, t.files, es)
    ensures Table5At(src, pre + TableBytes(t, offsetSize) + post, |pre|, offsetSize, compDir)
         == Files(src, PathsOf(ds), compDir, es)
  {
    hide FormatAt, FormatBytes, UlebAt, EncodeUleb, DirectoriesAt, FilesAt, ListBytes, EntriesOf, Files, Uniform;
    var (a, b, c) := (FormatBytes(t.dirFormat), EncodeUleb(|t.directories|), ListBytes(t.directories, offsetSize));
    var (d, e, f) := (FormatBytes(t.fileFormat), EncodeUleb(|t.files|), ListBytes(t.files, offsetSize));
    Regrouped(pre, a, b, c, d, e, f, post);
    FormatRead(pre, t.dirFormat, b + c + d + e + f + post);
    UlebRoundTrip(pre + a, |t.directories|, c + d + e + f + post);
    ds := DirectoriesRead(src, pre + a + b, t.directories, t.dirFormat, d + e + f + post, offsetSize, []);
    assert [] + PathsOf(ds) == PathsOf(ds);
    FormatRead(pre + a + b + c, t.fileFormat, e + f + post);
    UlebRoundTrip(pre + a + b + c + d, |t.files|, f + post);
    es := FilesRead(src, pre + a + b + c + d + e, t.files, t.fileFormat, post, offsetSize, PathsOf(ds), compDir, []);
    if Files(src, PathsOf(ds), compDir, es).Ok? {
      assert [] + Files(src, PathsOf(ds), compDir, es).value == Files(src, PathsOf(ds), compDir, es).value;
    }
  }

  lemma Regrouped(pre: seq<Byte>, a: seq<Byte>, b: seq<Byte>, c: seq<Byte>, d: seq<Byte>, e: seq<Byte>, f: seq<Byte>,
                  post: seq<Byte>)
    ensures var data := pre + (a + b + c + d + e + f) + post;
            && data == pre + a + (b + c + d + e + f + post)
            && data == (pre + a) + b + (c + d + e + f + post)
            && data == (pre + a + b) + c + (d + e + f + post)
            && data == (pre + a + b + c) + d + (e + f + post)
            && data == (pre + a + b + c + d) + e + (f + post)
            && data == (pre + a + b + c + d + e) + f + post
  {
  }

  // ----- the table of earlier versions

  /** A file entry: its name and the number of its directory. */
  datatype OldFile = OldFile(name: seq<Byte>, directory: nat, modified: nat, length: nat)

  predicate Named(name: seq<Byte>) { name != [] && NoNul(name) }

  function NameBytes(names: seq<seq<Byte>>): seq<Byte> {
    if names == [] then [0] else (names[0] + [0]) + NameBytes(names[1..])
  }

  function OldFileBytes(files: seq<OldFile>): seq<Byte> {
    if files == [] then [0]
    else (files[0].name + [0]) + EncodeUleb(files[0].directory) + EncodeUleb(files[0].modified)
         + EncodeUleb(files[0].length) + OldFileBytes(files[1..])
  }

  function Texts(src: Sources, names: seq<seq<Byte>>): (r: seq<Datum>)
    ensures |r| == |names| && forall i :: 0 <= i < |r| ==> r[i] == Text(src.decode(names[i]))
  {
    seq(|names|, i requires 0 <= i < |names| => Text(src.decode(names[i])))
  }

  lemma IncludesEnd(src: Sources, data: seq<Byte>, offset: nat, read: seq<Datum>)
    requires StringAt(data, offset) == []
    ensures IncludesAt(src, data, offset, read) == (read, EndOfString(data, offset) + 1)
  {
    hide StringAt, EndOfString;
  }

  lemma IncludesMore(src: Sources, data: seq<Byte>, offset: nat, read: seq<Datum>, name: seq<Byte>, next: nat)
    requires StringAt(data, offset) == name != [] && EndOfString(data, offset) + 1 == next
    ensures IncludesAt(src, data, offset, read) == IncludesAt(src, data, next, read + [Text(src.decode(name))])
  {
    hide StringAt, EndOfString;
  }

  lemma TextsCons(src: Sources, names: seq<seq<Byte>>, read: seq<Datum>)
    ensures names == [] ==> read + Texts(src, names) == read
    ensures names != [] ==> read + [Text(src.decode(names[0]))] + Texts(src, names[1..]) == read + Texts(src, names)
  {
  }

  lemma NamesSplit(pre: seq<Byte>, names: seq<seq<Byte>>, post: seq<Byte>)
    ensures names == [] ==> NameBytes(names) == [0] == [] + [0]
    ensures names != [] ==>
              var (data, first, rest) := (pre + NameBytes(names) + post, names[0] + [0], NameBytes(names[1..]));
              && data == pre + first + (rest + post) && data == (pre + first) + rest + post
              && |NameBytes(names)| == |names[0]| + 1 + |rest| && |pre + first| == |pre| + |names[0]| + 1
  {
    if names != [] {
      var first, rest := names[0] + [0], NameBytes(names[1..]);
      assert NameBytes(names) == first + rest;
      JoinedApart(pre, first, rest, post);
    }
  }

  lemma JoinedApart(pre: seq<Byte>, first: seq<Byte>, rest: seq<Byte>, post: seq<Byte>)
    ensures pre + (first + rest) + post == pre + first + (rest + post) == (pre + first) + rest + post
  {
  }

  lemma {:induction false} IncludesRead(src: Sources, pre: seq<Byte>, names: seq<seq<Byte>>, post: seq<Byte>,
                                        read: seq<Datum>)
    requires forall i :: 0 <= i < |names| ==> Named(names[i])
    ensures IncludesAt(src, pre + NameBytes(names) + post, |pre|, read)
         == (read + Texts(src, names), |pre| + |NameBytes(names)|)
    decreases |names|
  {
    hide StringAt, EndOfString, IncludesAt, NameBytes, Texts, NoNul;
    NamesSplit(pre, names, post);
    TextsCons(src, names, read);
    var data := pre + NameBytes(names) + post;
    if names == [] {
      NothingHidden();
      StringRead(pre, [], post);
      IncludesEnd(src, data, |pre|, read);
    } else {
      StringRead(pre, names[0], NameBytes(names[1..]) + post);
      IncludesMore(src, data, |pre|, read, names[0], |pre| + |names[0]| + 1);
      IncludesRead(src, pre + (names[0] + [0]), names[1..], post, read + [Text(src.decode(names[0]))]);
    }
  }

  lemma NothingHidden()
    ensures NoNul([])
  {
  }

  /** Each file's full path, under the directory its number picks. */
  ghost predicate OldPaths(src: Sources, directories: seq<Datum>, compDir: string, files: seq<OldFile>,
                           paths: seq<Datum>) {
    && |paths| == |files|
    && forall i :: 0 <= i < |files| ==>
         FullPath(src, if files[i].directory < |directories| then directories[files[i].directory] else Text(""),
                  Text(src.decode(files[i].name)), Text(compDir)) == Ok(paths[i])
  }

  lemma OldPathsCons(src: Sources, directories: seq<Datum>, compDir: string, files: seq<OldFile>, path: Datum,
                     more: seq<Datum>)
    requires files != [] && OldPaths(src, directories, compDir, files[1..], more)
    requires FullPath(src, if files[0].directory < |directories| then directories[files[0].directory] else Text(""),
                      Text(src.decode(files[0].name)), Text(compDir)) == Ok(path)
    ensures OldPaths(src, directories, compDir, files, [path] + more)
  {
    hide FullPath;
    var paths := [path] + more;
    forall i | 0 < i < |files| ensures paths[i] == more[i - 1] && files[i] == files[1..][i - 1] { }
  }

  lemma NoOldPaths(src: Sources, directories: seq<Datum>, compDir: string)
    ensures OldPaths(src, directories, compDir, [], [])
  {
  }

  lemma OldBytes(files: seq<OldFile>)
    ensures files == [] ==> OldFileBytes(files) == [] + [0]
    ensures files != [] ==>
              OldFileBytes(files) == (files[0].name + [0]) + EncodeUleb(files[0].directory)
                                     + EncodeUleb(files[0].modified) + EncodeUleb(files[0].length)
                                     + OldFileBytes(files[1..])
  {
    hide EncodeUleb;
  }

  lemma Files2Ends(src: Sources, data: seq<Byte>, offset: nat, directories: seq<Datum>, compDir: string,
                   read: seq<Datum>)
    requires StringAt(data, offset) == []
    ensures Files2At(src, data, offset, directories, compDir, read) == Ok(read)
  {
    hide StringAt, EndOfString;
  }

  lemma Files2Step(src: Sources, data: seq<Byte>, offset: nat, directories: seq<Datum>, compDir: string,
                   read: seq<Datum>,
                   name: seq<Byte>, index: nat, o1: nat, o2: nat, o3: nat, x: nat, y: nat)
    requires StringAt(data, offset) == name != []
    requires UlebAt(data, EndOfString(data, offset) + 1) == Ok((index, o1))
    requires UlebAt(data, o1) == Ok((x, o2)) && UlebAt(data, o2) == Ok((y, o3))
    requires forall d :: d in directories ==> d.Text?
    ensures var r := FullPath(src, if index < |directories| then directories[index] else Text(""),
                              Text(src.decode(name)), Text(compDir));
            && r.Ok?
            && Files2At(src, data, offset, directories, compDir, read)
               == Files2At(src, data, o3, directories, compDir, read + [r.value])
  {
    hide StringAt, EndOfString, UlebAt, FullPath;
    FullPathIff(src, DirectoryOf(directories, index), Text(src.decode(name)), Text(compDir));
  }

  lemma {:induction false} OldFilesRead(src: Sources, pre: seq<Byte>, files: seq<OldFile>, post: seq<Byte>,
                                        directories: seq<Datum>, compDir: string, read: seq<Datum>)
    returns (paths: seq<Datum>)
    requires forall i :: 0 <= i < |files| ==> Named(files[i].name)
    requires forall d :: d in directories ==> d.Text?
    ensures OldPaths(src, directories, compDir, files, paths)
    ensures Files2At(src, pre + OldFileBytes(files) + post, |pre|, directories, compDir, read) == Ok(read + paths)
    decreases |files|
  {
    hide *;
    var data := pre + OldFileBytes(files) + post;
    OldBytes(files);
    if files == [] {
      NothingHidden();
      StringRead(pre, [], post);
      Files2Ends(src, data, |pre|, directories, compDir, read);
      NoOldPaths(src, directories, compDir);
      paths := [];
      assert read + paths == read;
    } else {
      var (n, a, b, c) := (files[0].name + [0], EncodeUleb(files[0].directory), EncodeUleb(files[0].modified),
                           EncodeUleb(files[0].length));
      var rest := OldFileBytes(files[1..]);
      OldRegrouped(pre, n, a, b, c, rest, post);
      IsNamed(files[0].name);
      StringRead(pre, files[0].name, a + b + c + rest + post);
      UlebRoundTrip(pre + n, files[0].directory, b + c + rest + post);
      UlebRoundTrip(pre + n + a, files[0].modified, c + rest + post);
      UlebRoundTrip(pre + n + a + b, files[0].length, rest + post);
      Files2Step(src, data, |pre|, directories, compDir, read, files[0].name, files[0].directory,
                 |pre + n + a|, |pre + n + a + b|, |pre + n + a + b + c|, files[0].modified, files[0].length);
      var under := if files[0].directory < |directories| then directories[files[0].directory] else Text("");
      var path := FullPath(src, under, Text(src.decode(files[0].name)), Text(compDir)).value;
      var more := OldFilesRead(src, pre + n + a + b + c, files[1..], post, directories, compDir, read + [path]);
      OldPathsCons(src, directories, compDir, files, path, more);
      paths := [path] + more;
      assert read + [path] + more == read + paths;
    }
  }

  lemma IsNamed(name: seq<Byte>)
    requires Named(name)
    ensures name != [] && NoNul(name)
  {
  }

  lemma OldRegrouped(pre: seq<Byte>, n: seq<Byte>, a: seq<Byte>, b: seq<Byte>, c: seq<Byte>, rest: seq<Byte>,
                     post: seq<Byte>)
    ensures var data := pre + (n + a + b + c + rest) + post;
            && data == pre + n + (a + b + c + rest + post)
            && data == (pre + n) + a + (b + c + rest + post)
            && data == (pre + n + a) + b + (c + rest + post)
            && data == (pre + n + a + b) + c + (rest + post)
            && data == (pre + n + a + b + c) + rest + post
  {
  }

  /** Reading a table of an earlier version gives the full paths of its files, the
      compilation directory being number zero. */
  lemma Table2Read(src: Sources, pre: seq<Byte>, names: seq<seq<Byte>>, files: seq<OldFile>, post: seq<Byte>,
                   compDir: string)
    returns (paths: seq<Datum>)
    requires forall i :: 0 <= i < |names| ==> Named(names[i])
    requires forall i :: 0 <= i < |files| ==> Named(files[i].name)
    ensures OldPaths(src, [Text(compDir)] + Texts(src, names), compDir, files, paths)
    ensures Table2At(src, pre + (NameBytes(names) + OldFileBytes(files)) + post, |pre|, compDir) == Ok(paths)
  {
    hide IncludesAt, Files2At, NameBytes, OldFileBytes, OldPaths;
    var data := pre + (NameBytes(names) + OldFileBytes(files)) + post;
    assert data == pre + NameBytes(names) + (OldFileBytes(files) + post);
    IncludesRead(src, pre, names, OldFileBytes(files) + post, [Text(compDir)]);
    assert data == (pre + NameBytes(names)) + OldFileBytes(files) + post;
    paths := OldFilesRead(src, pre + NameBytes(names), files, post, [Text(compDir)] + Texts(src, names), compDir, []);
    assert [] + paths == paths;
  }

  // ----- paths

  /** One path under another: a slash between, unless there is one or nothing. */
  function Below(directory: string, name: string): string {
    if directory == "" || directory[|directory| - 1] == '/' then directory + name else directory + "/" + name
  }

  predicate Rooted(path: string) { path != "" && path[0] == '/' }

  /** A text name is whole if rooted or with a drive; otherwise it goes under its
      directory, and if that is not rooted either, under the compilation directory;
      what was put together is normalised. */
  lemma TextPath(src: Sources, directory: string, name: string, compDir: string)
    ensures var path := if directory == "" then name else Below(directory, name);
            FullPath(src, Text(directory), Text(name), Text(compDir)) ==
            if Rooted(name) || (|name| > 2 && name[1] == ':') then Ok(Text(name))
            else if Rooted(path) || compDir == "" then Ok(if path == "" then Text(name) else src.normpath(Text(path)))
            else Ok(src.normpath(Text(Below(compDir, path))))
  {
  }

  /** So is a bytes name, but for drives. */
  lemma RawPath(src: Sources, directory: seq<Byte>, name: seq<Byte>)
    ensures var path := if directory == [] then name
                        else if directory[|directory| - 1] == 0x2F then directory + name else directory + [0x2F] + name;
            FullPath(src, Raw(directory), Raw(name), Raw([])) ==
            if name != [] && name[0] == 0x2F then Ok(Raw(name))
            else Ok(if path == [] then Raw(name) else src.normpath(Raw(path)))
  {
  }

  /** A file of version 5 goes under the directory its number picks, or none, and
      under the given compilation directory, or else the table's first. */
  lemma FilePath(src: Sources, directories: seq<Datum>, compDir: string, e: Entry, i: int)
    requires e.index == Some(Number(i)) || (e.index == None && i == 0)
    ensures FileOf(src, directories, compDir, e) ==
            FullPath(src, if 0 <= i < |directories| then directories[i] else Text(""),
                     if e.path.Some? then e.path.value else Text(""),
                     if compDir != "" then Text(compDir) else if |directories| > 0 then directories[0] else Text(""))
  {
    hide FullPath;
  }
}
