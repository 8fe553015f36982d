/**
 Ordinary and delay-load imports of a PE file, read from its bytes without loading it.

 The operations follow `imports`: `Unpack*` and `Offset` compute, `ReadSections`, `ReadName`, `ReadTable` and
 `ReadImports` loop. Each loop is tied to a recursive function, and each function to a declarative
 predicate about the bytes (`HasHeader`, `MapsTo`, `NameAt`, `Lists`, `Describes`).
 */
module PeImports {
  import opened Wrappers
  import opened Bytes

  datatype PeError =
    | NoDosSignature
    | NoPeSignature
    | Truncated
    | UnsupportedOptionalHeader
    | InvalidHeaderBounds
    | TruncatedSection
    | NotFileBacked
    | InvalidName
    | UnterminatedName
    | InvalidDirectory
    | UnknownDelayAttributes
    | UnterminatedDirectory

  /** A section's address range and where its bytes start in the file. */
  datatype Section = Section(start: nat, length: nat, raw: nat)

  /** What the headers decide: `directories` is the file position of the data-directory array. */
  datatype Header = Header(directories: nat, count: nat, imageBase: nat, headerSize: nat, sections: seq<Section>)

  /** The two descriptor tables that name other libraries. */
  datatype Table = Ordinary | Delay {
    function Index(): nat {
      match this case Ordinary => 1 case Delay => 13
    }

    function Width(): nat {
      match this case Ordinary => 20 case Delay => 32
    }

    /** Where descriptor `k` starts, relative to the first. */
    function Position(k: nat): nat {
      match this case Ordinary => 20 * k case Delay => 32 * k
    }
  }

  // ---------------------------------------------------------------- bounds-checked reads

  function Unpack16(data: seq<Byte>, at: nat): Result<nat, PeError> {
    if at + 2 > |data| then Err(Truncated) else Ok(U16(data, at))
  }

  function Unpack32(data: seq<Byte>, at: nat): Result<nat, PeError> {
    if at + 4 > |data| then Err(Truncated) else Ok(U32(data, at))
  }

  function Unpack64(data: seq<Byte>, at: nat): Result<nat, PeError> {
    if at + 8 > |data| then Err(Truncated) else Ok(U64(data, at))
  }

  // ---------------------------------------------------------------- headers

  /** Where the section table is, and the header fields read before it. */
  datatype Preamble = Preamble(table: nat, sections: nat, directories: nat, count: nat, imageBase: nat, headerSize: nat)

  function ReadPreamble(data: seq<Byte>): Result<Preamble, PeError> {
    if !(|data| >= 2 && data[0] == 0x4d && data[1] == 0x5a) then Err(NoDosSignature) else
    var pe :- Unpack32(data, 0x3c);
    if !(pe + 4 <= |data| && data[pe..pe + 4] == [0x50, 0x45, 0, 0]) then Err(NoPeSignature) else
    var sections :- Unpack16(data, pe + 6);
    var optionalSize :- Unpack16(data, pe + 20);
    var optional := pe + 24;
    var magic :- Unpack16(data, optional);
    if magic != 0x10b && magic != 0x20b then Err(UnsupportedOptionalHeader) else
    var directoryOffset := if magic == 0x10b then 96 else 112;
    var countOffset := if magic == 0x10b then 92 else 108;
    var imageBase :- if magic == 0x10b then Unpack32(data, optional + 28) else Unpack64(data, optional + 24);
    var count :- Unpack32(data, optional + countOffset);
    if sections == 0 || optionalSize < directoryOffset || count > (optionalSize - directoryOffset) / 8 then
      Err(InvalidHeaderBounds)
    else
      var headerSize :- Unpack32(data, optional + 60);
      Ok(Preamble(optional + optionalSize, sections, optional + directoryOffset, count, imageBase, headerSize))
  }

  /** The section-table entry at file position `at`; it must be backed by the file. */
  function ReadSection(data: seq<Byte>, at: nat): Result<Section, PeError> {
    if at + 24 > |data| then Err(Truncated)
    else if U32(data, at + 20) + U32(data, at + 16) > |data| then Err(TruncatedSection)
    else Ok(Section(U32(data, at + 12), U32(data, at + 16), U32(data, at + 20)))
  }

  /** The next `n` sections of the table, from file position `at`. */
  function SectionsFrom(data: seq<Byte>, at: nat, n: nat): Result<seq<Section>, PeError>
    decreases n
  {
    if n == 0 then Ok([]) else
    var section :- ReadSection(data, at);
    var rest :- SectionsFrom(data, at + 40, n - 1);
    Ok([section] + rest)
  }

  method ReadSections(data: seq<Byte>, table: nat, n: nat) returns (r: Result<seq<Section>, PeError>)
    ensures r == SectionsFrom(data, table, n)
  {
    var ranges: seq<Section> := [];
    assert forall rest: seq<Section> :: [] + rest == rest;
    for index := 0 to n
      invariant SectionsFrom(data, table, n) ==
                match SectionsFrom(data, table + index * 40, n - index)
                case Err(e) => Err(e)
                case Ok(rest) => Ok(ranges + rest)
    {
      var section := ReadSection(data, table + index * 40);
      if section.Err? {
        return Err(section.error);
      }
      ghost var rest := SectionsFrom(data, table + index * 40 + 40, n - index - 1);
      assert rest.Ok? ==> ranges + ([section.value] + rest.value) == (ranges + [section.value]) + rest.value;
      ranges := ranges + [section.value];
    }
    assert ranges + [] == ranges;
    return Ok(ranges);
  }

  function HeaderOf(data: seq<Byte>): Result<Header, PeError> {
    var p :- ReadPreamble(data);
    var sections :- SectionsFrom(data, p.table, p.sections);
    Ok(Header(p.directories, p.count, p.imageBase, p.headerSize, sections))
  }

  ghost predicate SectionAt(data: seq<Byte>, at: nat, s: Section) {
    && at + 24 <= |data|
    && s.start == U32(data, at + 12) && s.length == U32(data, at + 16) && s.raw == U32(data, at + 20)
    && s.raw + s.length <= |data|
  }

  /** The file's bytes say `h`: signatures, one of the two optional-header layouts, and every section in the file. */
  ghost predicate HasHeader(data: seq<Byte>, h: Header) {
    && |data| >= 0x40 && data[0] == 0x4d && data[1] == 0x5a
    && var pe := U32(data, 0x3c);
    && pe + 120 <= |data| && data[pe..pe + 4] == [0x50, 0x45, 0, 0]
    && var optional, optionalSize, wide := pe + 24, U16(data, pe + 20), U16(data, pe + 24) == 0x20b;
    && (wide || U16(data, optional) == 0x10b)
    && (wide ==> optional + 112 <= |data|)
    && h.directories == optional + (if wide then 112 else 96)
    && h.imageBase == (if wide then U64(data, optional + 24) else U32(data, optional + 28))
    && h.count == U32(data, optional + (if wide then 108 else 92))
    && h.headerSize == U32(data, optional + 60)
    && h.directories + 8 * h.count <= optional + optionalSize
    && |h.sections| == U16(data, pe + 6) > 0
    && forall i | 0 <= i < |h.sections| :: SectionAt(data, optional + optionalSize + i * 40, h.sections[i])
  }

  /** Every section's bytes are in the file. */
  ghost predicate FileBacked(data: seq<Byte>, sections: seq<Section>) {
    forall i | 0 <= i < |sections| :: sections[i].raw + sections[i].length <= |data|
  }

  lemma SectionExact(data: seq<Byte>, at: nat, s: Section)
    ensures ReadSection(data, at) == Ok(s) <==> SectionAt(data, at, s)
  {
  }

  lemma {:induction false} SectionsExact(data: seq<Byte>, at: nat, n: nat, s: seq<Section>)
    ensures SectionsFrom(data, at, n) == Ok(s) <==>
            |s| == n && forall i | 0 <= i < |s| :: SectionAt(data, at + i * 40, s[i])
    decreases n
  {
    hide SectionAt, ReadSection;
    if n > 0 && s != [] {
      SectionExact(data, at, s[0]);
      SectionsExact(data, at + 40, n - 1, s[1..]);
      assert s == [s[0]] + s[1..];
      assert forall i | 1 <= i < |s| :: s[i] == s[1..][i - 1] && at + i * 40 == at + 40 + (i - 1) * 40;
      assert forall i | 0 <= i < |s| - 1 :: at + 40 + i * 40 == at + (i + 1) * 40;
    }
  }

  /** The header reader accepts exactly the files whose bytes say the header it returns. */
  lemma HeaderExact(data: seq<Byte>, h: Header)
    ensures HeaderOf(data) == Ok(h) <==> HasHeader(data, h)
  {
    match ReadPreamble(data)
    case Err(_) =>
    case Ok(p) =>
      SectionsExact(data, p.table, p.sections, h.sections);
  }

  lemma HeaderFileBacked(data: seq<Byte>)
    ensures HeaderOf(data).Ok? ==> FileBacked(data, HeaderOf(data).value.sections)
  {
    if HeaderOf(data).Ok? {
      HeaderExact(data, HeaderOf(data).value);
    }
  }

  method ReadHeader(data: seq<Byte>) returns (r: Result<Header, PeError>)
    ensures r == HeaderOf(data)
    ensures r.Ok? ==> FileBacked(data, r.value.sections)
  {
    HeaderFileBacked(data);
    var p :- ReadPreamble(data);
    var sections :- ReadSections(data, p.table, p.sections);
    return Ok(Header(p.directories, p.count, p.imageBase, p.headerSize, sections));
  }

  // ---------------------------------------------------------------- addresses

  function FirstSection(sections: seq<Section>, rva: int, size: nat): Result<nat, PeError> {
    if sections == [] then Err(NotFileBacked)
    else if sections[0].start <= rva && rva + size <= sections[0].start + sections[0].length then
      Ok(sections[0].raw + rva - sections[0].start)
    else FirstSection(sections[1..], rva, size)
  }

  /** The file position of `size` bytes at address `rva`, which a delay import may have made negative. */
  function Offset(data: seq<Byte>, h: Header, rva: int, size: nat): Result<nat, PeError> {
    if 0 <= rva < h.headerSize && rva + size <= h.headerSize && rva + size <= |data| then Ok(rva)
    else FirstSection(h.sections, rva, size)
  }

  ghost predicate InHeaders(data: seq<Byte>, h: Header, rva: int, size: nat) {
    0 <= rva < h.headerSize && rva + size <= h.headerSize && rva + size <= |data|
  }

  ghost predicate Covers(s: Section, rva: int, size: nat) {
    s.start <= rva && rva + size <= s.start + s.length
  }

  /** `size` bytes at `rva` are file bytes at `at`: headers map to themselves and win, then the first section wins. */
  ghost predicate MapsTo(data: seq<Byte>, h: Header, rva: int, size: nat, at: int) {
    if InHeaders(data, h, rva, size) then at == rva else
    exists i | 0 <= i < |h.sections| :: && Covers(h.sections[i], rva, size)
                                        && at == h.sections[i].raw + rva - h.sections[i].start
                                        && forall j | 0 <= j < i :: !Covers(h.sections[j], rva, size)
  }

  lemma {:induction false} FirstSectionExact(sections: seq<Section>, rva: int, size: nat)
    ensures match FirstSection(sections, rva, size)
            case Ok(at) => exists i | 0 <= i < |sections| :: && Covers(sections[i], rva, size)
                                                             && at == sections[i].raw + rva - sections[i].start
                                                             && forall j | 0 <= j < i :: !Covers(sections[j], rva, size)
            case Err(e) => e == NotFileBacked && forall i | 0 <= i < |sections| :: !Covers(sections[i], rva, size)
  {
    if sections != [] && !Covers(sections[0], rva, size) {
      var rest := sections[1..];
      FirstSectionExact(rest, rva, size);
      assert forall i | 1 <= i < |sections| :: sections[i] == rest[i - 1];
      if FirstSection(rest, rva, size).Ok? {
        var i :| 0 <= i < |rest| && Covers(rest[i], rva, size)
                 && FirstSection(rest, rva, size).value == rest[i].raw + rva - rest[i].start
                 && forall j | 0 <= j < i :: !Covers(rest[j], rva, size);
        assert Covers(sections[i + 1], rva, size);
      }
    }
  }

  lemma OffsetExact(data: seq<Byte>, h: Header, rva: int, size: nat, at: int)
    ensures (Offset(data, h, rva, size).Ok? && Offset(data, h, rva, size).value == at) <==> MapsTo(data, h, rva, size, at)
  {
    FirstSectionExact(h.sections, rva, size);
  }

  /** Every position `Offset` hands out for a well-formed header has all its bytes in the file. */
  lemma OffsetInFile(data: seq<Byte>, h: Header, rva: int, size: nat)
    requires FileBacked(data, h.sections)
    ensures Offset(data, h, rva, size).Ok? ==> Offset(data, h, rva, size).value + size <= |data|
    ensures Offset(data, h, rva, size).Err? ==> Offset(data, h, rva, size).error == NotFileBacked
  {
    FirstSectionExact(h.sections, rva, size);
  }

  // ---------------------------------------------------------------- names

  const MAX_NAME: int := 260

  predicate Printable(name: seq<Byte>) {
    forall i | 0 <= i < |name| :: 32 <= name[i] <= 126
  }

  /** The name whose first `|value|` bytes at `rva` have been collected. */
  function NameFrom(data: seq<Byte>, h: Header, rva: int, value: seq<Byte>): Result<seq<Byte>, PeError>
    requires FileBacked(data, h.sections) && |value| <= MAX_NAME
    decreases MAX_NAME - |value|
  {
    if |value| == MAX_NAME then Err(UnterminatedName) else
    var at :- Offset(data, h, rva + |value|, 1);
    OffsetInFile(data, h, rva + |value|, 1);
    if data[at] != 0 then NameFrom(data, h, rva, value + [data[at]])
    else if value == [] || !Printable(value) then Err(InvalidName)
    else Ok(value)
  }

  method ReadName(data: seq<Byte>, h: Header, rva: int) returns (r: Result<seq<Byte>, PeError>)
    requires FileBacked(data, h.sections)
    ensures r == NameFrom(data, h, rva, [])
  {
    var value: seq<Byte> := [];
    for index := 0 to MAX_NAME
      invariant |value| == index
      invariant NameFrom(data, h, rva, []) == NameFrom(data, h, rva, value)
    {
      var at := Offset(data, h, rva + index, 1);
      if at.Err? {
        return Err(at.error);
      }
      OffsetInFile(data, h, rva + index, 1);
      var byte := data[at.value];
      if byte == 0 {
        if value == [] || !Printable(value) {
          return Err(InvalidName);
        }
        return Ok(value);
      }
      value := value + [byte];
    }
    return Err(UnterminatedName);
  }

  /** Address `rva` maps to the file byte `b`. */
  ghost predicate ByteAt(data: seq<Byte>, h: Header, rva: int, b: Byte) {
    exists at | 0 <= at < |data| :: MapsTo(data, h, rva, 1, at) && data[at] == b
  }

  /** A name of 1 to 259 printable bytes and its zero terminator lie at `rva`. */
  ghost predicate NameAt(data: seq<Byte>, h: Header, rva: int, name: seq<Byte>) {
    && 0 < |name| < MAX_NAME && Printable(name)
    && (forall i | 0 <= i < |name| :: ByteAt(data, h, rva + i, name[i]))
    && ByteAt(data, h, rva + |name|, 0)
  }

  lemma ByteAtOffset(data: seq<Byte>, h: Header, rva: int, b: Byte)
    requires FileBacked(data, h.sections)
    ensures var at := Offset(data, h, rva, 1);
            ByteAt(data, h, rva, b) <==> at.Ok? && at.value < |data| && data[at.value] == b
  {
    OffsetInFile(data, h, rva, 1);
    var at := Offset(data, h, rva, 1);
    if at.Ok? {
      OffsetExact(data, h, rva, 1, at.value);
    }
    forall x {
      OffsetExact(data, h, rva, 1, x);
    }
  }

  lemma {:induction false} NameSound(data: seq<Byte>, h: Header, rva: int, value: seq<Byte>)
    requires FileBacked(data, h.sections) && |value| <= MAX_NAME
    requires forall i | 0 <= i < |value| :: ByteAt(data, h, rva + i, value[i])
    ensures NameFrom(data, h, rva, value).Ok? ==> NameAt(data, h, rva, NameFrom(data, h, rva, value).value)
    decreases MAX_NAME - |value|
  {
    if |value| < MAX_NAME && Offset(data, h, rva + |value|, 1).Ok? {
      OffsetInFile(data, h, rva + |value|, 1);
      var b := data[Offset(data, h, rva + |value|, 1).value];
      ByteAtOffset(data, h, rva + |value|, b);
      if b != 0 {
        NameSound(data, h, rva, value + [b]);
      }
    }
  }

  lemma {:induction false} NameComplete(data: seq<Byte>, h: Header, rva: int, name: seq<Byte>, k: nat)
    requires FileBacked(data, h.sections) && NameAt(data, h, rva, name) && k <= |name|
    ensures NameFrom(data, h, rva, name[..k]) == Ok(name)
    decreases |name| - k
  {
    hide Offset, FileBacked, ByteAt;
    OffsetInFile(data, h, rva + k, 1);
    if k < |name| {
      ByteAtOffset(data, h, rva + k, name[k]);
      NameComplete(data, h, rva, name, k + 1);
      assert name[..k] + [name[k]] == name[..k + 1];
    } else {
      ByteAtOffset(data, h, rva + k, 0);
      assert name[..k] == name;
    }
  }

  /** The name reader returns `name` exactly when `name` and its terminator are the mapped bytes at `rva`. */
  lemma NameExact(data: seq<Byte>, h: Header, rva: int, name: seq<Byte>)
    requires FileBacked(data, h.sections)
    ensures NameFrom(data, h, rva, []) == Ok(name) <==> NameAt(data, h, rva, name)
  {
    NameSound(data, h, rva, []);
    if NameAt(data, h, rva, name) {
      NameComplete(data, h, rva, name, 0);
      assert name[..0] == [];
    }
  }

  // ---------------------------------------------------------------- descriptor tables

  /** `width` bytes of the file at `at` are all zero. */
  predicate ZeroAt(data: seq<Byte>, at: nat, width: nat)
    requires at + width <= |data|
  {
    forall i | at <= i < at + width :: data[i] == 0
  }

  /** The address of the name in the descriptor at file position `at`. */
  function NameAddress(data: seq<Byte>, h: Header, t: Table, at: nat): Result<int, PeError>
    requires at + t.Width() <= |data|
  {
    match t
    case Ordinary => Ok(U32(data, at + 12))
    case Delay =>
      var attributes, address := U32(data, at), U32(data, at + 4);
      if attributes > 1 then Err(UnknownDelayAttributes)
      else if attributes == 0 then Ok(address - h.imageBase)
      else Ok(address)
  }

  /** Descriptor `k` of the table at `rva`: the name it gives, or none when it is the all-zero terminator. */
  function Entry(data: seq<Byte>, h: Header, t: Table, rva: nat, k: nat): Result<Option<seq<Byte>>, PeError>
    requires FileBacked(data, h.sections)
  {
    var at :- Offset(data, h, rva + t.Position(k), t.Width());
    OffsetInFile(data, h, rva + t.Position(k), t.Width());
    if ZeroAt(data, at, t.Width()) then Ok(None) else
    var address :- NameAddress(data, h, t, at);
    var name :- NameFrom(data, h, address, []);
    Ok(Some(name))
  }

  /** The names of descriptors `k` onwards of a table at `rva` with `size` declared bytes. */
  function NamesFrom(data: seq<Byte>, h: Header, t: Table, rva: nat, size: nat, k: nat): Result<set<seq<Byte>>, PeError>
    requires FileBacked(data, h.sections)
    decreases size - t.Position(k)
  {
    if t.Position(k + 1) > size then Err(UnterminatedDirectory) else
    var entry :- Entry(data, h, t, rva, k);
    if entry.None? then Ok({}) else
    var rest :- NamesFrom(data, h, t, rva, size, k + 1);
    Ok({entry.value} + rest)
  }

  method ReadEntry(data: seq<Byte>, h: Header, t: Table, rva: nat, position: nat, ghost k: nat)
    returns (r: Result<Option<seq<Byte>>, PeError>)
    requires FileBacked(data, h.sections) && position == t.Position(k)
    ensures r == Entry(data, h, t, rva, k)
  {
    OffsetInFile(data, h, rva + position, t.Width());
    var at :- Offset(data, h, rva + position, t.Width());
    if ZeroAt(data, at, t.Width()) {
      return Ok(None);
    }
    var address :- NameAddress(data, h, t, at);
    var name :- ReadName(data, h, address);
    return Ok(Some(name));
  }

  method ReadTable(data: seq<Byte>, h: Header, t: Table, rva: nat, size: nat, known: set<seq<Byte>>)
    returns (r: Result<set<seq<Byte>>, PeError>)
    requires FileBacked(data, h.sections)
    ensures r == match NamesFrom(data, h, t, rva, size, 0) case Err(e) => Err(e) case Ok(names) => Ok(known + names)
  {
    hide Entry, FileBacked;
    var result, position, width := known, 0, t.Width();
    ghost var k := 0;
    while position < size - width + 1
      invariant position == t.Position(k)
      invariant (match NamesFrom(data, h, t, rva, size, 0) case Err(e) => Err(e) case Ok(names) => Ok(known + names)) ==
                match NamesFrom(data, h, t, rva, size, k) case Err(e) => Err(e) case Ok(names) => Ok(result + names)
    {
      var entry :- ReadEntry(data, h, t, rva, position, k);
      if entry.None? {
        assert result + {} == result;
        return Ok(result);
      }
      ghost var rest := NamesFrom(data, h, t, rva, size, k + 1);
      assert rest.Ok? ==> result + ({entry.value} + rest.value) == (result + {entry.value}) + rest.value;
      result, position := result + {entry.value}, position + width;
      k := k + 1;
    }
    return Err(UnterminatedDirectory);
  }

  /** Descriptor `k` of the table lies at file position `at`. */
  ghost predicate DescriptorAt(data: seq<Byte>, h: Header, t: Table, rva: nat, k: nat, at: nat) {
    at + t.Width() <= |data| && MapsTo(data, h, rva + t.Position(k), t.Width(), at)
  }

  /** The descriptor at `at` names `name`, by address or, for a version-0 delay import, by image address. */
  ghost predicate Named(data: seq<Byte>, h: Header, t: Table, at: nat, name: seq<Byte>)
    requires at + t.Width() <= |data|
  {
    match t
    case Ordinary => NameAt(data, h, U32(data, at + 12), name)
    case Delay => || (U32(data, at) == 1 && NameAt(data, h, U32(data, at + 4), name))
                  || (U32(data, at) == 0 && NameAt(data, h, U32(data, at + 4) - h.imageBase, name))
  }

  /** Descriptor `k` is not all zero and names `name`. */
  ghost predicate Names(data: seq<Byte>, h: Header, t: Table, rva: nat, k: nat, name: seq<Byte>) {
    exists at: nat | DescriptorAt(data, h, t, rva, k, at) :: !ZeroAt(data, at, t.Width()) && Named(data, h, t, at, name)
  }

  ghost predicate Terminates(data: seq<Byte>, h: Header, t: Table, rva: nat, k: nat) {
    exists at: nat | DescriptorAt(data, h, t, rva, k, at) :: ZeroAt(data, at, t.Width())
  }

  /** The table lists `list` and then its first all-zero descriptor, inside `size` bytes. */
  ghost predicate Lists(data: seq<Byte>, h: Header, t: Table, rva: nat, size: nat, list: seq<seq<Byte>>) {
    && t.Position(|list| + 1) <= size
    && (forall i | 0 <= i < |list| :: Names(data, h, t, rva, i, list[i]))
    && Terminates(data, h, t, rva, |list|)
  }

  function Elements<T>(list: seq<T>): set<T> {
    set x | x in list
  }

  lemma DescriptorExact(data: seq<Byte>, h: Header, t: Table, rva: nat, k: nat, at: nat)
    requires FileBacked(data, h.sections)
    ensures DescriptorAt(data, h, t, rva, k, at) <==> Offset(data, h, rva + t.Position(k), t.Width()) == Ok(at)
  {
    OffsetInFile(data, h, rva + t.Position(k), t.Width());
    OffsetExact(data, h, rva + t.Position(k), t.Width(), at);
  }

  /** `Entry` says what the mapped bytes say. */
  lemma EntryExact(data: seq<Byte>, h: Header, t: Table, rva: nat, k: nat, name: seq<Byte>)
    requires FileBacked(data, h.sections)
    ensures Entry(data, h, t, rva, k) == Ok(Some(name)) <==> Names(data, h, t, rva, k, name)
    ensures Entry(data, h, t, rva, k) == Ok(None) <==> Terminates(data, h, t, rva, k)
  {
    hide NameAt, NameFrom, MapsTo, FirstSection, FileBacked, Printable;
    forall at: nat
      ensures DescriptorAt(data, h, t, rva, k, at) <==> Offset(data, h, rva + t.Position(k), t.Width()) == Ok(at)
    {
      DescriptorExact(data, h, t, rva, k, at);
    }
    match Offset(data, h, rva + t.Position(k), t.Width())
    case Err(_) =>
    case Ok(at) =>
      OffsetInFile(data, h, rva + t.Position(k), t.Width());
      assert DescriptorAt(data, h, t, rva, k, at);
      assert Names(data, h, t, rva, k, name) <==> !ZeroAt(data, at, t.Width()) && Named(data, h, t, at, name);
      match NameAddress(data, h, t, at)
      case Err(_) =>
      case Ok(address) =>
        NameExact(data, h, address, name);
        assert Named(data, h, t, at, name) <==> NameAt(data, h, address, name);
  }

  /** The same list, told by `Entry` from descriptor `k`. */
  ghost predicate Entries(data: seq<Byte>, h: Header, t: Table, rva: nat, size: nat, k: nat, list: seq<seq<Byte>>)
    requires FileBacked(data, h.sections)
  {
    && t.Position(k + |list| + 1) <= size
    && (forall i | 0 <= i < |list| :: Entry(data, h, t, rva, k + i) == Ok(Some(list[i])))
    && Entry(data, h, t, rva, k + |list|) == Ok(None)
  }

  lemma EntriesAreLists(data: seq<Byte>, h: Header, t: Table, rva: nat, size: nat, list: seq<seq<Byte>>)
    requires FileBacked(data, h.sections)
    ensures Entries(data, h, t, rva, size, 0, list) <==> Lists(data, h, t, rva, size, list)
  {
    forall i | 0 <= i < |list|
      ensures Entry(data, h, t, rva, 0 + i) == Ok(Some(list[i])) <==> Names(data, h, t, rva, i, list[i])
    {
      EntryExact(data, h, t, rva, i, list[i]);
    }
    EntryExact(data, h, t, rva, |list|, []);
  }

  lemma {:induction false} TableSound(data: seq<Byte>, h: Header, t: Table, rva: nat, size: nat, k: nat)
    returns (list: seq<seq<Byte>>)
    requires FileBacked(data, h.sections) && NamesFrom(data, h, t, rva, size, k).Ok?
    ensures Entries(data, h, t, rva, size, k, list)
    ensures Elements(list) == NamesFrom(data, h, t, rva, size, k).value
    decreases size - t.Position(k)
  {
    hide Entry, FileBacked;
    var entry := Entry(data, h, t, rva, k).value;
    if entry.None? {
      list := [];
    } else {
      var rest := TableSound(data, h, t, rva, size, k + 1);
      list := [entry.value] + rest;
      assert forall i | 1 <= i < |list| :: list[i] == rest[i - 1] && k + i == k + 1 + (i - 1);
    }
  }

  lemma ElementsOf<T>(list: seq<T>)
    requires list != []
    ensures Elements(list) == {list[0]} + Elements(list[1..])
  {
  }

  lemma {:induction false} TableComplete(data: seq<Byte>, h: Header, t: Table, rva: nat, size: nat, k: nat, list: seq<seq<Byte>>)
    requires FileBacked(data, h.sections) && Entries(data, h, t, rva, size, k, list)
    ensures NamesFrom(data, h, t, rva, size, k) == Ok(Elements(list))
    decreases |list|
  {
    hide Entry; hide FileBacked;
    if list == [] {
      assert Elements(list) == {};
    } else {
      var rest := list[1..];
      assert Entry(data, h, t, rva, k + 0) == Ok(Some(list[0]));
      assert forall i | 0 <= i < |rest| :: rest[i] == list[i + 1] && k + 1 + i == k + (i + 1);
      TableComplete(data, h, t, rva, size, k + 1, rest);
      ElementsOf(list);
    }
  }

  // ---------------------------------------------------------------- the whole file

  /** One table's names: none when the directory is absent or empty. */
  function TableNames(data: seq<Byte>, h: Header, t: Table): Result<set<seq<Byte>>, PeError>
    requires FileBacked(data, h.sections)
  {
    if h.count <= t.Index() then Ok({})
    else if h.directories + t.Index() * 8 + 8 > |data| then Err(Truncated)
    else
      var rva, size := U32(data, h.directories + t.Index() * 8), U32(data, h.directories + t.Index() * 8 + 4);
      if rva == 0 && size == 0 then Ok({})
      else if rva == 0 || size < t.Width() then Err(InvalidDirectory)
      else NamesFrom(data, h, t, rva, size, 0)
  }

  function Imports(data: seq<Byte>): Result<set<seq<Byte>>, PeError> {
    var h :- HeaderOf(data);
    HeaderFileBacked(data);
    var ordinary :- TableNames(data, h, Ordinary);
    var delayed :- TableNames(data, h, Delay);
    Ok(ordinary + delayed)
  }

  /** One turn of the loop over the two tables: table `t`'s names join `result`. */
  method AddTable(data: seq<Byte>, h: Header, t: Table, known: set<seq<Byte>>) returns (r: Result<set<seq<Byte>>, PeError>)
    requires FileBacked(data, h.sections)
    ensures r == match TableNames(data, h, t) case Err(e) => Err(e) case Ok(names) => Ok(known + names)
  {
    assert known + {} == known;
    if h.count <= t.Index() {
      return Ok(known);
    }
    var rva := Unpack32(data, h.directories + t.Index() * 8);
    var size := Unpack32(data, h.directories + t.Index() * 8 + 4);
    if rva.Err? || size.Err? {
      return Err(Truncated);
    }
    if rva.value == 0 && size.value == 0 {
      return Ok(known);
    }
    if rva.value == 0 || size.value < t.Width() {
      return Err(InvalidDirectory);
    }
    r := ReadTable(data, h, t, rva.value, size.value, known);
  }

  method ReadImports(data: seq<Byte>) returns (r: Result<set<seq<Byte>>, PeError>)
    ensures r == Imports(data)
  {
    var h :- ReadHeader(data);
    var result :- AddTable(data, h, Ordinary, {});
    assert result == TableNames(data, h, Ordinary).value;
    r := AddTable(data, h, Delay, result);
  }

  /** Directory `t` is absent, empty, or lists exactly `names` before its terminator. */
  ghost predicate TableHolds(data: seq<Byte>, h: Header, t: Table, names: set<seq<Byte>>) {
    if h.count <= t.Index() then names == {} else
    && h.directories + t.Index() * 8 + 8 <= |data|
    && var rva, size := U32(data, h.directories + t.Index() * 8), U32(data, h.directories + t.Index() * 8 + 4);
    if rva == 0 && size == 0 then names == {} else
    rva > 0 && exists list :: Lists(data, h, t, rva, size, list) && names == Elements(list)
  }

  /** The file is a well-formed image whose two tables together name exactly `names`. */
  ghost predicate Describes(data: seq<Byte>, names: set<seq<Byte>>) {
    exists h, ordinary, delayed ::
      && HasHeader(data, h)
      && TableHolds(data, h, Ordinary, ordinary) && TableHolds(data, h, Delay, delayed)
      && names == ordinary + delayed
  }

  lemma TableExact(data: seq<Byte>, h: Header, t: Table, names: set<seq<Byte>>)
    requires FileBacked(data, h.sections)
    ensures TableNames(data, h, t) == Ok(names) <==> TableHolds(data, h, t, names)
  {
    hide NamesFrom, Entries, FileBacked, U32;
    if h.count > t.Index() && h.directories + t.Index() * 8 + 8 <= |data| {
      var rva, size := U32(data, h.directories + t.Index() * 8), U32(data, h.directories + t.Index() * 8 + 4);
      if rva > 0 {
        if NamesFrom(data, h, t, rva, size, 0).Ok? {
          var list := TableSound(data, h, t, rva, size, 0);
          EntriesAreLists(data, h, t, rva, size, list);
        }
        forall list | Lists(data, h, t, rva, size, list)
          ensures NamesFrom(data, h, t, rva, size, 0) == Ok(Elements(list)) && size >= t.Width()
        {
          EntriesAreLists(data, h, t, rva, size, list);
          TableComplete(data, h, t, rva, size, 0, list);
        }
      }
    }
  }

  /**
   For every byte string: the parser succeeds with `names` exactly when the file describes `names`, and reports an
   error for every other file.
   */
  lemma ImportsExact(data: seq<Byte>, names: set<seq<Byte>>)
    ensures Imports(data) == Ok(names) <==> Describes(data, names)
  {
    if Imports(data) == Ok(names) {
      var h := HeaderOf(data).value;
      HeaderExact(data, h);
      TableExact(data, h, Ordinary, TableNames(data, h, Ordinary).value);
      TableExact(data, h, Delay, TableNames(data, h, Delay).value);
    }
    if Describes(data, names) {
      var h, ordinary, delayed :| HasHeader(data, h) && TableHolds(data, h, Ordinary, ordinary)
                                  && TableHolds(data, h, Delay, delayed) && names == ordinary + delayed;
      HeaderExact(data, h);
      TableExact(data, h, Ordinary, ordinary);
      TableExact(data, h, Delay, delayed);
    }
  }
}
