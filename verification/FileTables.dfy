/** The file table in a unit's header: two lists of strings before version 5, and
    from then on entries of whatever forms the header declares (section 6.2.4 of
    DWARF 5). */
module FileTables {
  import opened Prelude
  import opened ByteArrays
  import opened Leb128

  /** What a form can hold. */
  datatype Datum = Text(text: string) | Raw(bytes: seq<Byte>) | Number(number: int)

  /** The other string sections, the compilation directories by unit, and what the
      language's library makes of bytes and of paths. */
  datatype Sources = Sources(lineStr: seq<Byte>, strings: seq<Byte>, compDirs: map<nat, string>,
                             decode: seq<Byte> -> string, normpath: Datum -> Datum)

  // ----- paths

  predicate Truthy(d: Datum) {
    match d
    case Text(t) => t != ""
    case Raw(b) => b != []
    case Number(n) => n != 0
  }

  predicate Absolute(d: Datum) {
    match d
    case Text(t) => t != "" && t[0] == '/'
    case Raw(b) => b != [] && b[0] == 0x2F
    case Number(_) => false
  }

  predicate Alike(a: Datum, b: Datum) { (a.Text? && b.Text?) || (a.Raw? && b.Raw?) }

  /** A path under a directory; an absolute one stands alone. */
  function Under<T(==)>(directory: seq<T>, path: seq<T>, slash: T): seq<T> {
    if path != [] && path[0] == slash then path
    else if directory == [] || directory[|directory| - 1] == slash then directory + path
    else directory + [slash] + path
  }

  /** Text and bytes do not mix, and numbers are no paths. */
  function Joined(a: Datum, b: Datum): Result<Datum, Fault> {
    if a.Text? && b.Text? then Ok(Text(Under(a.text, b.text, '/')))
    else if a.Raw? && b.Raw? then Ok(Raw(Under(a.bytes, b.bytes, 0x2F)))
    else Err(TypeError)
  }

  /** A name that needs no directory. */
  predicate Whole(name: Datum) { Absolute(name) || (name.Text? && |name.text| > 2 && name.text[1] == ':') }

  function FullPath(src: Sources, directory: Datum, name: Datum, compDir: Datum): Result<Datum, Fault> {
    if name.Number? then Err(TypeError)
    else if Whole(name) then Ok(name)
    else
      var path := if Truthy(directory) then Joined(directory, name) else Ok(name);
      if path.Err? then path
      else if Absolute(path.value) || !Truthy(compDir) then
        Ok(if Truthy(path.value) then src.normpath(path.value) else name)
      else
        var full := Joined(compDir, path.value);
        if full.Err? then full else Ok(src.normpath(full.value))
  }

  /** The kinds of a relative name and of a directory it is put under differ. */
  predicate Clash(directory: Datum, name: Datum, compDir: Datum) {
    name.Number?
    || (!Whole(name)
        && ((Truthy(directory) && !Alike(directory, name))
            || (!Absolute(directory) && Truthy(compDir) && !Alike(compDir, name))))
  }

  /** And that is exactly when no path can be built. */
  lemma FullPathIff(src: Sources, directory: Datum, name: Datum, compDir: Datum)
    ensures FullPath(src, directory, name, compDir).Err? <==> Clash(directory, name, compDir)
    ensures FullPath(src, directory, name, compDir).Err? ==> FullPath(src, directory, name, compDir) == Err(TypeError)
  {
  }

  // ----- strings and forms

  function Le(data: seq<Byte>, offset: nat, count: nat): nat { Value(UpTo(data, offset, count)) }

  /** Where the string that starts at an offset ends. */
  function EndOfString(data: seq<Byte>, offset: nat): (r: nat)
    ensures r <= |data| && (offset <= |data| ==> offset <= r)
    decreases |data| - offset
  {
    if offset >= |data| then |data| else if data[offset] == 0 then offset else EndOfString(data, offset + 1)
  }

  function StringAt(data: seq<Byte>, offset: nat): seq<Byte> {
    if offset > |data| then [] else data[offset..EndOfString(data, offset)]
  }

  function NumberAt(data: seq<Byte>, offset: nat, width: nat): Result<(Datum, nat), Fault> {
    Ok((Number(Le(data, offset, width)), offset + width))
  }

  /** The value of a form and the offset after it. Only single bytes and LEB128
      numbers can run off the end. */
  function FormAt(src: Sources, data: seq<Byte>, offset: nat, form: nat, offsetSize: nat): Result<(Datum, nat), Fault> {
    if form == 0x08 then Ok((Text(src.decode(StringAt(data, offset))), EndOfString(data, offset) + 1))
    else if form == 0x1F then
      Ok((Text(src.decode(StringAt(src.lineStr, Le(data, offset, offsetSize)))), offset + offsetSize))
    else if form == 0x0E then
      Ok((Text(src.decode(StringAt(src.strings, Le(data, offset, offsetSize)))), offset + offsetSize))
    else if form == 0x0B || form == 0x25 then
      if offset >= |data| then Err(IndexError) else NumberAt(data, offset, 1)
    else if form == 0x05 || form == 0x26 then NumberAt(data, offset, 2)
    else if form == 0x27 then NumberAt(data, offset, 3)
    else if form == 0x06 || form == 0x28 then NumberAt(data, offset, 4)
    else if form == 0x07 then NumberAt(data, offset, 8)
    else if form == 0x1E then Ok((Raw(UpTo(data, offset, 16)), offset + 16))
    else if form == 0x0F || form == 0x1A || form == 0x22 || form == 0x23 then
      match UlebAt(data, offset)
      case Err(f) => Err(f)
      case Ok((n, next)) => Ok((Number(n), next))
    else if form == 0x0D then
      match SlebAt(data, offset)
      case Err(f) => Err(f)
      case Ok((z, next)) => Ok((Number(z), next))
    else if form == 0x09 then
      match UlebAt(data, offset)
      case Err(f) => Err(f)
      case Ok((n, next)) => Ok((Raw(UpTo(data, next, n)), next + n))
    else Err(ValueError)
  }

  /** What an entry says of its path and directory index; later values win. */
  datatype Entry = Entry(path: Option<Datum>, index: Option<Datum>)

  const BLANK := Entry(None, None)
  const PATH: nat := 1
  const DIRECTORY_INDEX: nat := 2

  /** Pairs of content type and form. */
  type Format = seq<(nat, nat)>

  function Noted(e: Entry, contentType: nat, d: Datum): Entry {
    if contentType == PATH then e.(path := Some(d))
    else if contentType == DIRECTORY_INDEX then e.(index := Some(d))
    else e
  }

  function EntryAt(src: Sources, data: seq<Byte>, offset: nat, format: Format, offsetSize: nat, e: Entry)
    : Result<(Entry, nat), Fault>
    decreases |format|
  {
    if format == [] then Ok((e, offset))
    else
      match FormAt(src, data, offset, format[0].1, offsetSize)
      case Err(f) => Err(f)
      case Ok((d, next)) => EntryAt(src, data, next, format[1..], offsetSize, Noted(e, format[0].0, d))
  }

  function PairsAt(data: seq<Byte>, offset: nat, n: nat, read: Format): Result<(Format, nat), Fault>
    decreases n
  {
    if n == 0 then Ok((read, offset))
    else
      match UlebAt(data, offset)
      case Err(f) => Err(f)
      case Ok((contentType, middle)) =>
        match UlebAt(data, middle)
        case Err(f) => Err(f)
        case Ok((form, next)) => PairsAt(data, next, n - 1, read + [(contentType, form)])
  }

  function FormatAt(data: seq<Byte>, offset: nat): Result<(Format, nat), Fault> {
    if offset >= |data| then Err(IndexError) else PairsAt(data, offset + 1, data[offset], [])
  }

  // ----- the tables

  function OrElse(given: Option<Datum>, otherwise: Datum): Datum { if given.Some? then given.value else otherwise }

  function DirectoriesAt(src: Sources, data: seq<Byte>, offset: nat, format: Format, offsetSize: nat, n: nat,
                         read: seq<Datum>): Result<(seq<Datum>, nat), Fault>
    decreases n
  {
    if n == 0 then Ok((read, offset))
    else
      match EntryAt(src, data, offset, format, offsetSize, BLANK)
      case Err(f) => Err(f)
      case Ok((e, next)) =>
        DirectoriesAt(src, data, next, format, offsetSize, n - 1, read + [OrElse(e.path, Text(""))])
  }

  function NameOf(e: Entry): Datum { OrElse(e.path, Text("")) }

  function IndexOf(e: Entry): Datum { OrElse(e.index, Number(0)) }

  function DirectoryOf(directories: seq<Datum>, index: int): Datum {
    if 0 <= index < |directories| then directories[index] else Text("")
  }

  function Fallback(directories: seq<Datum>, compDir: string): Datum {
    if compDir != "" then Text(compDir) else if directories != [] then directories[0] else Text("")
  }

  /** Comparing anything but a number with a length is a type error. */
  function FileOf(src: Sources, directories: seq<Datum>, compDir: string, e: Entry): Result<Datum, Fault> {
    if !IndexOf(e).Number? then Err(TypeError)
    else
      FullPath(src, DirectoryOf(directories, IndexOf(e).number), NameOf(e), Fallback(directories, compDir))
  }

  function FilesAt(src: Sources, data: seq<Byte>, offset: nat, format: Format, offsetSize: nat, n: nat,
                   directories: seq<Datum>, compDir: string, read: seq<Datum>): Result<seq<Datum>, Fault>
    decreases n
  {
    if n == 0 then Ok(read)
    else
      match EntryAt(src, data, offset, format, offsetSize, BLANK)
      case Err(f) => Err(f)
      case Ok((e, next)) =>
        match FileOf(src, directories, compDir, e)
        case Err(f) => Err(f)
        case Ok(file) =>
          FilesAt(src, data, next, format, offsetSize, n - 1, directories, compDir, read + [file])
  }

  /** Everything before the file entries: directories and their format, the
      entries' format and number, and where they begin. */
  datatype Lists = Lists(dirFormat: Format, directories: seq<Datum>, format: Format, count: nat, start: nat)

  function ListsAt(src: Sources, data: seq<Byte>, offset: nat, offsetSize: nat): Result<Lists, Fault> {
    match FormatAt(data, offset)
    case Err(f) => Err(f)
    case Ok((dirFormat, o1)) =>
      match UlebAt(data, o1)
      case Err(f) => Err(f)
      case Ok((dirCount, o2)) =>
        match DirectoriesAt(src, data, o2, dirFormat, offsetSize, dirCount, [])
        case Err(f) => Err(f)
        case Ok((directories, o3)) =>
          match FormatAt(data, o3)
          case Err(f) => Err(f)
          case Ok((format, o4)) =>
            match UlebAt(data, o4)
            case Err(f) => Err(f)
            case Ok((count, start)) => Ok(Lists(dirFormat, directories, format, count, start))
  }

  function Table5At(src: Sources, data: seq<Byte>, offset: nat, offsetSize: nat,
                    compDir: string): Result<seq<Datum>, Fault>
  {
    match ListsAt(src, data, offset, offsetSize)
    case Err(f) => Err(f)
    case Ok(lists) =>
      FilesAt(src, data, lists.start, lists.format, offsetSize, lists.count, lists.directories, compDir, [])
  }

  // ----- before version 5

  function IncludesAt(src: Sources, data: seq<Byte>, offset: nat, read: seq<Datum>): (seq<Datum>, nat)
    decreases |data| - offset
  {
    var name, next := StringAt(data, offset), EndOfString(data, offset) + 1;
    if name == [] then (read, next) else IncludesAt(src, data, next, read + [Text(src.decode(name))])
  }

  function Files2At(src: Sources, data: seq<Byte>, offset: nat, directories: seq<Datum>, compDir: string,
                    read: seq<Datum>)
    : Result<seq<Datum>, Fault>
    decreases |data| - offset
  {
    var name, next := StringAt(data, offset), EndOfString(data, offset) + 1;
    if name == [] then Ok(read)
    else
      match UlebAt(data, next)
      case Err(f) => Err(f)
      case Ok((index, o1)) =>
        match UlebAt(data, o1)
        case Err(f) => Err(f)
        case Ok((_, o2)) =>
          match UlebAt(data, o2)
          case Err(f) => Err(f)
          case Ok((_, o3)) =>
            match FullPath(src, DirectoryOf(directories, index), Text(src.decode(name)), Text(compDir))
            case Err(f) => Err(f)
            case Ok(file) => Files2At(src, data, o3, directories, compDir, read + [file])
  }

  function Table2At(src: Sources, data: seq<Byte>, offset: nat, compDir: string): Result<seq<Datum>, Fault> {
    var (directories, next) := IncludesAt(src, data, offset, [Text(compDir)]);
    Files2At(src, data, next, directories, compDir, [])
  }

  /** The table of a unit of some version. */
  function TableAt(src: Sources, data: seq<Byte>, version: nat, offset: nat, offsetSize: nat, compDir: string)
    : Result<seq<Datum>, Fault>
  {
    if version >= 5 then Table5At(src, data, offset, offsetSize, compDir) else Table2At(src, data, offset, compDir)
  }

  // ----- reading them

  /** A string that is not empty ends further on. */
  lemma Advances(data: seq<Byte>, offset: nat)
    ensures StringAt(data, offset) != [] ==> offset < EndOfString(data, offset) <= |data|
  {
  }

  method Cstr(reader: Reader) returns (s: seq<Byte>)
    modifies reader
    ensures s == StringAt(reader.data, old(reader.offset))
    ensures reader.offset == EndOfString(reader.data, old(reader.offset)) + 1
  {
    s := StringAt(reader.data, reader.offset);
    reader.offset := EndOfString(reader.data, reader.offset) + 1;
  }

  ghost predicate Gave<T>(r: Result<(T, nat), Fault>, given: Result<T, Fault>, offset: nat) {
    match r
    case Ok((value, next)) => given == Ok(value) && offset == next
    case Err(f) => given == Err(f)
  }

  method ReadForm(reader: Reader, src: Sources, form: nat, offsetSize: nat) returns (r: Result<Datum, Fault>)
    modifies reader
    ensures Gave(FormAt(src, reader.data, old(reader.offset), form, offsetSize), r, reader.offset)
  {
    hide EndOfString, StringAt, Le, UlebAt, SlebAt, UpTo;
    if form == 0x08 {
      var s := Cstr(reader);
      return Ok(Text(src.decode(s)));
    } else if form == 0x1F || form == 0x0E {
      var o := Le(reader.data, reader.offset, offsetSize);
      reader.offset := reader.offset + offsetSize;
      return Ok(Text(src.decode(StringAt(if form == 0x1F then src.lineStr else src.strings, o))));
    } else if form == 0x1E {
      r := Ok(Raw(UpTo(reader.data, reader.offset, 16)));
      reader.offset := reader.offset + 16;
    } else if form == 0x0F || form == 0x1A || form == 0x22 || form == 0x23 || form == 0x09 {
      var n := reader.Uleb();
      if n.Err? { return Err(n.error); }
      if form != 0x09 { return Ok(Number(n.value)); }
      r := Ok(Raw(UpTo(reader.data, reader.offset, n.value)));
      reader.offset := reader.offset + n.value;
    } else if form == 0x0D {
      var z := reader.Sleb();
      if z.Err? { return Err(z.error); }
      return Ok(Number(z.value));
    } else if form == 0x0B || form == 0x25 {
      if reader.offset >= |reader.data| { return Err(IndexError); }
      r := ReadNumber(reader, 1);
    } else if form == 0x05 || form == 0x26 {
      r := ReadNumber(reader, 2);
    } else if form == 0x27 {
      r := ReadNumber(reader, 3);
    } else if form == 0x06 || form == 0x28 {
      r := ReadNumber(reader, 4);
    } else if form == 0x07 {
      r := ReadNumber(reader, 8);
    } else {
      r := Err(ValueError);
    }
  }

  method ReadNumber(reader: Reader, width: nat) returns (r: Result<Datum, Fault>)
    modifies reader
    ensures Gave(NumberAt(reader.data, old(reader.offset), width), r, reader.offset)
  {
    r := Ok(Number(Le(reader.data, reader.offset, width)));
    reader.offset := reader.offset + width;
  }

  method ReadEntryFormat(reader: Reader) returns (r: Result<Format, Fault>)
    modifies reader
    ensures Gave(FormatAt(reader.data, old(reader.offset)), r, reader.offset)
  {
    hide UlebAt;
    var count := reader.U8();
    if count.Err? { return Err(count.error); }
    var format: Format := [];
    for i := 0 to count.value
      invariant PairsAt(reader.data, reader.offset, count.value - i, format)
                == FormatAt(reader.data, old(reader.offset))
    {
      var contentType := reader.Uleb();
      if contentType.Err? { return Err(contentType.error); }
      var form := reader.Uleb();
      if form.Err? { return Err(form.error); }
      format := format + [(contentType.value, form.value)];
    }
    r := Ok(format);
  }

  method ReadEntry(reader: Reader, src: Sources, format: Format, offsetSize: nat) returns (r: Result<Entry, Fault>)
    modifies reader
    ensures Gave(EntryAt(src, reader.data, old(reader.offset), format, offsetSize, BLANK), r, reader.offset)
  {
    hide FormAt;
    var e := BLANK;
    assert format[0..] == format;
    for i := 0 to |format|
      invariant EntryAt(src, reader.data, reader.offset, format[i..], offsetSize, e)
             == EntryAt(src, reader.data, old(reader.offset), format, offsetSize, BLANK)
    {
      assert format[i..][1..] == format[i + 1..];
      var d := ReadForm(reader, src, format[i].1, offsetSize);
      if d.Err? { return Err(d.error); }
      e := Noted(e, format[i].0, d.value);
    }
    r := Ok(e);
  }

  method ReadDirectories(reader: Reader, src: Sources, format: Format, offsetSize: nat, n: nat)
    returns (r: Result<seq<Datum>, Fault>)
    modifies reader
    ensures Gave(DirectoriesAt(src, reader.data, old(reader.offset), format, offsetSize, n, []), r, reader.offset)
  {
    hide EntryAt;
    var directories: seq<Datum> := [];
    for i := 0 to n
      invariant DirectoriesAt(src, reader.data, reader.offset, format, offsetSize, n - i, directories)
             == DirectoriesAt(src, reader.data, old(reader.offset), format, offsetSize, n, [])
    {
      var e := ReadEntry(reader, src, format, offsetSize);
      if e.Err? { return Err(e.error); }
      directories := directories + [NameOf(e.value)];
    }
    r := Ok(directories);
  }

  /** The version 5 table. */
  method ReadTable5(reader: Reader, src: Sources, offsetSize: nat, compDir: string)
    returns (r: Result<seq<Datum>, Fault>)
    modifies reader
    ensures r == Table5At(src, reader.data, old(reader.offset), offsetSize, compDir)
  {
    hide EntryAt, UlebAt, FormatAt, DirectoriesAt, FileOf;
    var dirFormat := ReadEntryFormat(reader);
    if dirFormat.Err? { return Err(dirFormat.error); }
    var dirCount := reader.Uleb();
    if dirCount.Err? { return Err(dirCount.error); }
    var directories := ReadDirectories(reader, src, dirFormat.value, offsetSize, dirCount.value);
    if directories.Err? { return Err(directories.error); }
    var format := ReadEntryFormat(reader);
    if format.Err? { return Err(format.error); }
    var count := reader.Uleb();
    if count.Err? { return Err(count.error); }
    var files: seq<Datum> := [];
    for i := 0 to count.value
      invariant FilesAt(src, reader.data, reader.offset, format.value, offsetSize, count.value - i, directories.value,
                        compDir, files)
             == Table5At(src, reader.data, old(reader.offset), offsetSize, compDir)
    {
      var e := ReadEntry(reader, src, format.value, offsetSize);
      if e.Err? { return Err(e.error); }
      var file := FileOf(src, directories.value, compDir, e.value);
      if file.Err? { return Err(file.error); }
      files := files + [file.value];
    }
    r := Ok(files);
  }

  /** The table of versions before 5. */
  method ReadTable2(reader: Reader, src: Sources, compDir: string) returns (r: Result<seq<Datum>, Fault>)
    modifies reader
    ensures r == Table2At(src, reader.data, old(reader.offset), compDir)
  {
    hide StringAt, EndOfString, UlebAt, FullPath;
    ghost var start := reader.offset;
    var directories := [Text(compDir)];
    while true
      invariant IncludesAt(src, reader.data, reader.offset, directories)
             == IncludesAt(src, reader.data, start, [Text(compDir)])
      decreases |reader.data| - reader.offset
    {
      Advances(reader.data, reader.offset);
      var name := Cstr(reader);
      if name == [] { break; }
      directories := directories + [Text(src.decode(name))];
    }
    assert IncludesAt(src, reader.data, start, [Text(compDir)]) == (directories, reader.offset);
    var files: seq<Datum> := [];
    while true
      invariant Files2At(src, reader.data, reader.offset, directories, compDir, files)
             == Table2At(src, reader.data, start, compDir)
      decreases |reader.data| - reader.offset
    {
      Advances(reader.data, reader.offset);
      var name := Cstr(reader);
      if name == [] { break; }
      var index := reader.Uleb();
      if index.Err? { return Err(index.error); }
      var modified := reader.Uleb();
      if modified.Err? { return Err(modified.error); }
      var length := reader.Uleb();
      if length.Err? { return Err(length.error); }
      var file := FullPath(src, DirectoryOf(directories, index.value), Text(src.decode(name)), Text(compDir));
      if file.Err? { return Err(file.error); }
      files := files + [file.value];
    }
    r := Ok(files);
  }

  // ----- when a table raises what its reader does not catch

  lemma {:induction false} FormFaults(src: Sources, data: seq<Byte>, offset: nat, format: Format, offsetSize: nat,
                                      e: Entry)
    ensures var r := EntryAt(src, data, offset, format, offsetSize, e); r.Err? ==> r.error in {IndexError, ValueError}
    decreases |format|
  {
    if format != [] {
      LebFaults(data, offset);
      var r := FormAt(src, data, offset, format[0].1, offsetSize);
      if r.Ok? { FormFaults(src, data, r.value.1, format[1..], offsetSize, Noted(e, format[0].0, r.value.0)); }
    }
  }

  /** The entry at place k of a list, if it and those before it can be read. */
  function NthAt(src: Sources, data: seq<Byte>, offset: nat, format: Format, offsetSize: nat,
                 k: nat): Result<Entry, Fault>
    decreases k
  {
    match EntryAt(src, data, offset, format, offsetSize, BLANK)
    case Err(f) => Err(f)
    case Ok((e, next)) => if k == 0 then Ok(e) else NthAt(src, data, next, format, offsetSize, k - 1)
  }

  /** An entry whose index is no number, or whose path is none or of another kind
      than a directory it is put under. */
  predicate EntryClashes(directories: seq<Datum>, compDir: string, e: Entry) {
    !IndexOf(e).Number?
    || Clash(DirectoryOf(directories, IndexOf(e).number), NameOf(e), Fallback(directories, compDir))
  }

  lemma FileOfIff(src: Sources, directories: seq<Datum>, compDir: string, e: Entry)
    ensures FileOf(src, directories, compDir, e).Err? <==> EntryClashes(directories, compDir, e)
    ensures FileOf(src, directories, compDir, e).Err? ==> FileOf(src, directories, compDir, e) == Err(TypeError)
  {
    hide FullPath, Clash;
    if IndexOf(e).Number? {
      FullPathIff(src, DirectoryOf(directories, IndexOf(e).number), NameOf(e), Fallback(directories, compDir));
    }
  }

  /** Some entry that is reached clashes. */
  ghost predicate ReachesClash(src: Sources, data: seq<Byte>, offset: nat, format: Format, offsetSize: nat, n: nat,
                               directories: seq<Datum>, compDir: string)
  {
    exists k :: 0 <= k < n && ClashAt(src, data, offset, format, offsetSize, k, directories, compDir)
  }

  ghost predicate ClashAt(src: Sources, data: seq<Byte>, offset: nat, format: Format, offsetSize: nat, k: nat,
                          directories: seq<Datum>, compDir: string)
  {
    var e := NthAt(src, data, offset, format, offsetSize, k);
    e.Ok? && EntryClashes(directories, compDir, e.value)
  }

  lemma ClashLater(src: Sources, data: seq<Byte>, offset: nat, format: Format, offsetSize: nat, k: nat,
                   directories: seq<Datum>, compDir: string)
    ensures ClashAt(src, data, offset, format, offsetSize, k, directories, compDir) <==>
              var first := EntryAt(src, data, offset, format, offsetSize, BLANK);
              && first.Ok?
              && if k == 0 then EntryClashes(directories, compDir, first.value.0)
                 else ClashAt(src, data, first.value.1, format, offsetSize, k - 1, directories, compDir)
  {
    hide EntryAt, EntryClashes;
  }

  lemma ReachesNext(src: Sources, data: seq<Byte>, offset: nat, format: Format, offsetSize: nat, n: nat,
                    directories: seq<Datum>, compDir: string)
    requires n > 0
    ensures ReachesClash(src, data, offset, format, offsetSize, n, directories, compDir) <==>
              var first := EntryAt(src, data, offset, format, offsetSize, BLANK);
              && first.Ok?
              && (EntryClashes(directories, compDir, first.value.0)
                  || ReachesClash(src, data, first.value.1, format, offsetSize, n - 1, directories, compDir))
  {
    hide EntryAt, EntryClashes, ClashAt;
    var first := EntryAt(src, data, offset, format, offsetSize, BLANK);
    ClashLater(src, data, offset, format, offsetSize, 0, directories, compDir);
    if k :| 0 <= k < n && ClashAt(src, data, offset, format, offsetSize, k, directories, compDir) {
      ClashLater(src, data, offset, format, offsetSize, k, directories, compDir);
    }
    if first.Ok? {
      if k :| 0 <= k < n - 1 && ClashAt(src, data, first.value.1, format, offsetSize, k, directories, compDir) {
        ClashLater(src, data, offset, format, offsetSize, k + 1, directories, compDir);
        assert k + 1 - 1 == k;
      }
    }
  }

  /** The entries of a table fail by their types if and only if one that clashes is
      reached; every other fault is one the parser catches. */
  lemma {:induction false} FilesClashIff(src: Sources, data: seq<Byte>, offset: nat, format: Format, offsetSize: nat,
                                         n: nat, directories: seq<Datum>, compDir: string, read: seq<Datum>)
    ensures var r := FilesAt(src, data, offset, format, offsetSize, n, directories, compDir, read);
            && (r == Err(TypeError) <==> ReachesClash(src, data, offset, format, offsetSize, n, directories, compDir))
            && (r.Err? ==> r.error in {IndexError, ValueError, TypeError})
    decreases n
  {
    hide EntryAt, EntryClashes, FileOf, ReachesClash;
    if n == 0 {
      NothingReached(src, data, offset, format, offsetSize, directories, compDir);
    } else {
      var first := EntryAt(src, data, offset, format, offsetSize, BLANK);
      FormFaults(src, data, offset, format, offsetSize, BLANK);
      ReachesNext(src, data, offset, format, offsetSize, n, directories, compDir);
      if first.Ok? {
        var (e, next) := first.value;
        FileOfIff(src, directories, compDir, e);
        var file := FileOf(src, directories, compDir, e);
        if file.Ok? {
          FilesClashIff(src, data, next, format, offsetSize, n - 1, directories, compDir, read + [file.value]);
        }
      }
    }
  }

  lemma NothingReached(src: Sources, data: seq<Byte>, offset: nat, format: Format, offsetSize: nat,
                       directories: seq<Datum>, compDir: string)
    ensures !ReachesClash(src, data, offset, format, offsetSize, 0, directories, compDir)
  {
  }

  lemma {:induction false} DirectoryFaults(src: Sources, data: seq<Byte>, offset: nat, format: Format, offsetSize: nat,
                                           n: nat, read: seq<Datum>)
    ensures var r := DirectoriesAt(src, data, offset, format, offsetSize, n, read);
            r.Err? ==> r.error in {IndexError, ValueError}
    decreases n
  {
    if n > 0 {
      hide EntryAt;
      FormFaults(src, data, offset, format, offsetSize, BLANK);
      var first := EntryAt(src, data, offset, format, offsetSize, BLANK);
      if first.Ok? {
        DirectoryFaults(src, data, first.value.1, format, offsetSize, n - 1,
                        read + [OrElse(first.value.0.path, Text(""))]);
      }
    }
  }

  lemma {:induction false} PairFaults(data: seq<Byte>, offset: nat, n: nat, read: Format)
    ensures PairsAt(data, offset, n, read).Err? ==> PairsAt(data, offset, n, read) == Err(IndexError)
    decreases n
  {
    if n > 0 {
      hide UlebAt;
      LebFaults(data, offset);
      var a := UlebAt(data, offset);
      if a.Ok? {
        LebFaults(data, a.value.1);
        var b := UlebAt(data, a.value.1);
        if b.Ok? { PairFaults(data, b.value.1, n - 1, read + [(a.value.0, b.value.0)]); }
      }
    }
  }

  lemma ListFaults(src: Sources, data: seq<Byte>, offset: nat, offsetSize: nat)
    ensures var r := ListsAt(src, data, offset, offsetSize); r.Err? ==> r.error in {IndexError, ValueError}
  {
    hide UlebAt, PairsAt, DirectoriesAt;
    forall o: nat, n: nat ensures PairsAt(data, o, n, []).Err? ==> PairsAt(data, o, n, []) == Err(IndexError) {
      PairFaults(data, o, n, []);
    }
    forall o: nat ensures UlebAt(data, o).Err? ==> UlebAt(data, o) == Err(IndexError) { LebFaults(data, o); }
    var f := FormatAt(data, offset);
    if f.Ok? {
      var c := UlebAt(data, f.value.1);
      if c.Ok? { DirectoryFaults(src, data, c.value.1, f.value.0, offsetSize, c.value.0, []); }
    }
  }

  /** A version 5 table whose entries reach one that clashes. */
  ghost predicate TableClashes(src: Sources, data: seq<Byte>, offset: nat, offsetSize: nat, compDir: string) {
    match ListsAt(src, data, offset, offsetSize)
    case Err(_) => false
    case Ok(l) => ReachesClash(src, data, l.start, l.format, offsetSize, l.count, l.directories, compDir)
  }

  lemma {:induction false} Files2Faults(src: Sources, data: seq<Byte>, offset: nat, directories: seq<Datum>,
                                        compDir: string, read: seq<Datum>)
    requires forall d :: d in directories ==> d.Text?
    ensures var r := Files2At(src, data, offset, directories, compDir, read); r.Err? ==> r == Err(IndexError)
    decreases |data| - offset
  {
    hide UlebAt, FullPath, StringAt, EndOfString;
    var name, next := StringAt(data, offset), EndOfString(data, offset) + 1;
    if name != [] {
      Advances(data, offset);
      forall o: nat ensures UlebAt(data, o).Err? ==> UlebAt(data, o) == Err(IndexError) { LebFaults(data, o); }
      var a := UlebAt(data, next);
      if a.Err? { return; }
      var b := UlebAt(data, a.value.1);
      if b.Err? { return; }
      var c := UlebAt(data, b.value.1);
      if c.Err? { return; }
      FullPathIff(src, DirectoryOf(directories, a.value.0), Text(src.decode(name)), Text(compDir));
      var file := FullPath(src, DirectoryOf(directories, a.value.0), Text(src.decode(name)), Text(compDir));
      Files2Faults(src, data, c.value.1, directories, compDir, read + [file.value]);
    }
  }

  lemma {:induction false} IncludesText(src: Sources, data: seq<Byte>, offset: nat, read: seq<Datum>)
    requires forall d :: d in read ==> d.Text?
    ensures forall d :: d in IncludesAt(src, data, offset, read).0 ==> d.Text?
    decreases |data| - offset
  {
    hide StringAt, EndOfString;
    Advances(data, offset);
    var name := StringAt(data, offset);
    if name != [] { IncludesText(src, data, EndOfString(data, offset) + 1, read + [Text(src.decode(name))]); }
  }

  /** A table raises a type error if and only if it is one of version 5 that
      reaches a clash, and otherwise nothing the parser does not catch. */
  lemma TableTypeErrorIff(src: Sources, data: seq<Byte>, version: nat, offset: nat, offsetSize: nat, compDir: string)
    ensures var r := TableAt(src, data, version, offset, offsetSize, compDir);
            && (r == Err(TypeError) <==> version >= 5 && TableClashes(src, data, offset, offsetSize, compDir))
            && (r.Err? ==> r.error in {IndexError, ValueError, TypeError})
  {
    hide ListsAt, FilesAt, Files2At, IncludesAt, ReachesClash;
    if version >= 5 {
      ListFaults(src, data, offset, offsetSize);
      var lists := ListsAt(src, data, offset, offsetSize);
      if lists.Ok? {
        var l := lists.value;
        FilesClashIff(src, data, l.start, l.format, offsetSize, l.count, l.directories, compDir, []);
      }
    } else {
      IncludesText(src, data, offset, [Text(compDir)]);
      var (directories, next) := IncludesAt(src, data, offset, [Text(compDir)]);
      Files2Faults(src, data, next, directories, compDir, []);
    }
  }

  // ----- and what the declared forms say about it

  datatype Kind = TextKind | RawKind | NumberKind

  function KindOf(form: nat): Kind {
    if form == 0x08 || form == 0x1F || form == 0x0E then TextKind
    else if form == 0x1E || form == 0x09 then RawKind
    else NumberKind
  }

  predicate Is(d: Datum, kind: Kind) {
    match kind
    case TextKind => d.Text?
    case RawKind => d.Raw?
    case NumberKind => d.Number?
  }

  lemma FormKind(src: Sources, data: seq<Byte>, offset: nat, form: nat, offsetSize: nat)
    ensures var r := FormAt(src, data, offset, form, offsetSize); r.Ok? ==> Is(r.value.0, KindOf(form))
  {
    hide UlebAt, SlebAt, EndOfString, StringAt, Le;
  }

  /** The form a format declares for a content type; the last one, if several. */
  function Declared(format: Format, contentType: nat): Option<nat> {
    if format == [] then None
    else
      var later := Declared(format[1..], contentType);
      if later.Some? then later else if format[0].0 == contentType then Some(format[0].1) else None
  }

  predicate Fits(given: Option<Datum>, format: Format, contentType: nat, before: Option<Datum>) {
    var form := Declared(format, contentType);
    if form.None? then given == before else given.Some? && Is(given.value, KindOf(form.value))
  }

  /** An entry has the kinds its format declares, and nothing else. */
  lemma {:induction false} EntryKinds(src: Sources, data: seq<Byte>, offset: nat, format: Format, offsetSize: nat,
                                      e: Entry)
    ensures var r := EntryAt(src, data, offset, format, offsetSize, e);
            r.Ok? ==>
              && Fits(r.value.0.path, format, PATH, e.path)
              && Fits(r.value.0.index, format, DIRECTORY_INDEX, e.index)
    decreases |format|
  {
    hide FormAt, KindOf, Is;
    if format != [] {
      FormKind(src, data, offset, format[0].1, offsetSize);
      var r := FormAt(src, data, offset, format[0].1, offsetSize);
      if r.Ok? { EntryKinds(src, data, r.value.1, format[1..], offsetSize, Noted(e, format[0].0, r.value.0)); }
    }
  }

  predicate DeclaredAs(format: Format, contentType: nat, kind: Kind) {
    var form := Declared(format, contentType);
    form.None? || KindOf(form.value) == kind
  }

  /** Paths are text and indices numbers, as far as they are declared. */
  predicate Plain(format: Format) {
    DeclaredAs(format, PATH, TextKind) && DeclaredAs(format, DIRECTORY_INDEX, NumberKind)
  }

  /** Paths are numbers, or indices are not. */
  predicate Absurd(format: Format) {
    || (Declared(format, PATH).Some? && KindOf(Declared(format, PATH).value) == NumberKind)
    || !DeclaredAs(format, DIRECTORY_INDEX, NumberKind)
  }

  lemma PlainEntry(src: Sources, data: seq<Byte>, offset: nat, format: Format, offsetSize: nat, directories: seq<Datum>,
                   compDir: string)
    requires EntryAt(src, data, offset, format, offsetSize, BLANK).Ok?
    ensures var e := EntryAt(src, data, offset, format, offsetSize, BLANK).value.0;
            && (Plain(format) && (forall d :: d in directories ==> d.Text?) ==> !EntryClashes(directories, compDir, e))
            && (Absurd(format) ==> EntryClashes(directories, compDir, e))
  {
    hide EntryAt, Declared, KindOf;
    EntryKinds(src, data, offset, format, offsetSize, BLANK);
  }

  lemma {:induction false} PlainNever(src: Sources, data: seq<Byte>, offset: nat, format: Format, offsetSize: nat,
                                      n: nat, directories: seq<Datum>, compDir: string)
    requires Plain(format) && forall d :: d in directories ==> d.Text?
    ensures !ReachesClash(src, data, offset, format, offsetSize, n, directories, compDir)
    decreases n
  {
    hide EntryAt, EntryClashes, ReachesClash, Plain;
    if n == 0 {
      NothingReached(src, data, offset, format, offsetSize, directories, compDir);
    } else {
      ReachesNext(src, data, offset, format, offsetSize, n, directories, compDir);
      var first := EntryAt(src, data, offset, format, offsetSize, BLANK);
      if first.Ok? {
        PlainEntry(src, data, offset, format, offsetSize, directories, compDir);
        PlainNever(src, data, first.value.1, format, offsetSize, n - 1, directories, compDir);
      }
    }
  }

  lemma {:induction false} DirectoriesText(src: Sources, data: seq<Byte>, offset: nat, format: Format, offsetSize: nat,
                                           n: nat, read: seq<Datum>)
    requires DeclaredAs(format, PATH, TextKind) && forall d :: d in read ==> d.Text?
    ensures var r := DirectoriesAt(src, data, offset, format, offsetSize, n, read);
            r.Ok? ==> forall d :: d in r.value.0 ==> d.Text?
    decreases n
  {
    hide EntryAt, Declared, KindOf;
    if n > 0 {
      var first := EntryAt(src, data, offset, format, offsetSize, BLANK);
      if first.Ok? {
        EntryKinds(src, data, offset, format, offsetSize, BLANK);
        DirectoriesText(src, data, first.value.1, format, offsetSize, n - 1,
                        read + [OrElse(first.value.0.path, Text(""))]);
      }
    }
  }

  /** What the declared forms decide before any entry is read: with text paths and
      number indices a table never clashes; with number paths, or indices that are
      none, it does if there is an entry at all that can be read. */
  lemma FormsDecide(src: Sources, data: seq<Byte>, offset: nat, offsetSize: nat, compDir: string)
    requires ListsAt(src, data, offset, offsetSize).Ok?
    ensures var l := ListsAt(src, data, offset, offsetSize).value;
            && (DeclaredAs(l.dirFormat, PATH, TextKind) && Plain(l.format) ==>
                  !TableClashes(src, data, offset, offsetSize, compDir))
            && (Absurd(l.format) ==>
                  (TableClashes(src, data, offset, offsetSize, compDir) <==>
                     l.count > 0 && EntryAt(src, data, l.start, l.format, offsetSize, BLANK).Ok?))
  {
    hide EntryAt, EntryClashes, ReachesClash, Plain, Absurd, DeclaredAs, UlebAt, PairsAt;
    var l := ListsAt(src, data, offset, offsetSize).value;
    if DeclaredAs(l.dirFormat, PATH, TextKind) && Plain(l.format) {
      var f := FormatAt(data, offset).value;
      var c := UlebAt(data, f.1).value;
      DirectoriesText(src, data, c.1, f.0, offsetSize, c.0, []);
      PlainNever(src, data, l.start, l.format, offsetSize, l.count, l.directories, compDir);
    }
    if l.count == 0 {
      NothingReached(src, data, l.start, l.format, offsetSize, l.directories, compDir);
    } else {
      ReachesNext(src, data, l.start, l.format, offsetSize, l.count, l.directories, compDir);
      if EntryAt(src, data, l.start, l.format, offsetSize, BLANK).Ok? {
        PlainEntry(src, data, l.start, l.format, offsetSize, l.directories, compDir);
      }
    }
  }

  // ----- tables with one entry

  lemma OneEntryLists(src: Sources, data: seq<Byte>, o: nat, contentType: Byte, form: Byte, offsetSize: nat)
    requires o + 6 <= |data| && contentType < 128 && form < 128
    requires data[o] == data[o + 1] == 0 && data[o + 2] == 1
    requires data[o + 3] == contentType && data[o + 4] == form && data[o + 5] == 1
    ensures ListsAt(src, data, o, offsetSize) == Ok(Lists([], [], [(contentType, form)], 1, o + 6))
  {
    assert FormatAt(data, o) == Ok(([], o + 1));
    assert UlebAt(data, o + 1) == Ok((0, o + 2));
    assert UlebAt(data, o + 3) == Ok((contentType, o + 4)) && UlebAt(data, o + 4) == Ok((form, o + 5));
    assert [] + [(contentType as nat, form as nat)] == [(contentType, form)];
    assert FormatAt(data, o + 2) == Ok(([(contentType, form)], o + 5));
    assert UlebAt(data, o + 5) == Ok((1, o + 6));
  }

  lemma OneEntryAbsurd(src: Sources, data: seq<Byte>, o: nat, contentType: nat, form: nat, offsetSize: nat)
    requires o < |data| && (contentType, form) in {(PATH, 0x0B), (DIRECTORY_INDEX, 0x08)}
    ensures Absurd([(contentType, form)])
    ensures EntryAt(src, data, o, [(contentType, form)], offsetSize, BLANK).Ok?
  {
    assert [(contentType, form)][1..] == [];
    assert Declared([], contentType) == None;
    assert Declared([(contentType, form)], contentType) == Some(form);
  }
}
