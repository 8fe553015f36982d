/**
 The inverse of the import reader: an image laid out from lists of import names, the way the regression
 fixture lays one out. Headers fill the first 512 bytes; one file-backed section follows them and holds the
 ordinary descriptors, the delay descriptors (each table with its terminator) and one slot for each name.
 */
module PeWriter {
  import opened Wrappers
  import opened Bytes
  import opened PeImports

  /** A delay import, addressed by RVA or, in the older form, by image address. */
  datatype DelayImport = DelayImport(name: seq<Byte>, byImageAddress: bool)

  const HEADERS: int := 512
  const PE: int := 0x80
  const OPTIONAL: int := 0x98
  const SLOT: int := 260

  datatype Image = Image(wide: bool, imageBase: nat, rva: nat, ordinary: seq<seq<Byte>>, delayed: seq<DelayImport>) {

    function DelayStart(): nat {
      20 * (|ordinary| + 1)
    }

    function NameStart(): nat {
      DelayStart() + 32 * (|delayed| + 1)
    }

    function Body(): nat {
      NameStart() + SLOT * (|ordinary| + |delayed|)
    }

    function DelayedNames(): (names: seq<seq<Byte>>)
      ensures |names| == |delayed|
    {
      seq(|delayed|, i requires 0 <= i < |delayed| => delayed[i].name)
    }

    function Names(): seq<seq<Byte>> {
      ordinary + DelayedNames()
    }

    /** The address of the slot of name `k`. */
    function NameAddress(k: nat): nat {
      rva + NameStart() + SLOT * k
    }

    function Directories(): nat {
      OPTIONAL + if wide then 112 else 96
    }

    function SectionHeader(): nat {
      OPTIONAL + if wide then 240 else 224
    }

    /** The section lies beyond the headers and every written field fits its width. */
    ghost predicate Valid() {
      && HEADERS <= rva && rva + Body() < TWO_32
      && imageBase < (if wide then TWO_64 else TWO_32)
      && (forall i | 0 <= i < |Names()| :: 0 < |Names()[i]| < SLOT && Printable(Names()[i]))
      && (forall i | 0 <= i < |delayed| :: delayed[i].byImageAddress ==> rva + Body() + imageBase < TWO_32)
    }

    /** The header the image is meant to have. */
    function Header(): PeImports.Header {
      PeImports.Header(Directories(), 16, imageBase, HEADERS, [Section(rva, Body(), HEADERS)])
    }

    function HeaderByte(i: nat): Byte
      requires Valid() && i < HEADERS
    {
      if i < 2 then [0x4d, 0x5a][i]
      else if 0x3c <= i < 0x40 then Le32(PE)[i - 0x3c]
      else if PE <= i < PE + 4 then [0x50, 0x45, 0, 0][i - PE]
      else if i == PE + 6 then 1
      else if i == PE + 20 then (if wide then 240 else 224)
      else if OPTIONAL <= i < OPTIONAL + 2 then [0x0b, if wide then 2 else 1][i - OPTIONAL]
      else if wide && OPTIONAL + 24 <= i < OPTIONAL + 32 then Le64(imageBase)[i - OPTIONAL - 24]
      else if !wide && OPTIONAL + 28 <= i < OPTIONAL + 32 then Le32(imageBase)[i - OPTIONAL - 28]
      else if OPTIONAL + 60 <= i < OPTIONAL + 64 then Le32(HEADERS)[i - OPTIONAL - 60]
      else if i == Directories() - 4 then 16
      else if Directories() + 8 <= i < Directories() + 12 then Le32(rva)[i - Directories() - 8]
      else if Directories() + 12 <= i < Directories() + 16 then Le32(DelayStart())[i - Directories() - 12]
      else if Directories() + 104 <= i < Directories() + 108 then Le32(rva + DelayStart())[i - Directories() - 104]
      else if Directories() + 108 <= i < Directories() + 112 then
        Le32(NameStart() - DelayStart())[i - Directories() - 108]
      else if SectionHeader() + 8 <= i < SectionHeader() + 12 then Le32(Body())[i - SectionHeader() - 8]
      else if SectionHeader() + 12 <= i < SectionHeader() + 16 then Le32(rva)[i - SectionHeader() - 12]
      else if SectionHeader() + 16 <= i < SectionHeader() + 20 then Le32(Body())[i - SectionHeader() - 16]
      else if SectionHeader() + 20 <= i < SectionHeader() + 24 then Le32(HEADERS)[i - SectionHeader() - 20]
      else 0
    }

    /** Byte `f` of ordinary descriptor `k`; the last descriptor is all zero. */
    function OrdinaryByte(k: nat, f: nat): Byte
      requires Valid() && k <= |ordinary| && f < 20
    {
      if k < |ordinary| && 12 <= f < 16 then Le32(NameAddress(k))[f - 12] else 0
    }

    function DelayedAddress(k: nat): nat
      requires k < |delayed|
    {
      NameAddress(|ordinary| + k) + if delayed[k].byImageAddress then imageBase else 0
    }

    /** Byte `f` of delay descriptor `k`; the last descriptor is all zero. */
    function DelayedByte(k: nat, f: nat): Byte
      requires Valid() && k <= |delayed| && f < 32
    {
      if k < |delayed| && f == 0 then (if delayed[k].byImageAddress then 0 else 1)
      else if k < |delayed| && 4 <= f < 8 then Le32(DelayedAddress(k))[f - 4]
      else 0
    }

    function NameByte(k: nat, f: nat): Byte
      requires k < |Names()|
    {
      if f < |Names()[k]| then Names()[k][f] else 0
    }

    function BodyByte(b: nat): Byte
      requires Valid() && b < Body()
    {
      if b < DelayStart() then OrdinaryByte(b / 20, b % 20)
      else if b < NameStart() then DelayedByte((b - DelayStart()) / 32, (b - DelayStart()) % 32)
      else NameByte((b - NameStart()) / SLOT, (b - NameStart()) % SLOT)
    }

    function ByteOf(i: nat): Byte
      requires Valid() && i < HEADERS + Body()
    {
      if i < HEADERS then HeaderByte(i) else BodyByte(i - HEADERS)
    }

    function Write(): (data: seq<Byte>)
      requires Valid()
      ensures |data| == HEADERS + Body()
    {
      seq<Byte>(HEADERS + Body(), i requires 0 <= i < HEADERS + Body() => ByteOf(i))
    }
  }

  lemma HeaderRegion(image: Image, at: nat, n: nat, bytes: seq<Byte>)
    requires image.Valid() && at + n <= HEADERS && |bytes| == n
    requires forall i | 0 <= i < n :: image.HeaderByte(at + i) == bytes[i]
    ensures image.Write()[at..at + n] == bytes
  {
  }

  lemma HeaderField(image: Image, at: nat, n: nat)
    requires image.Valid() && at + 4 <= HEADERS && n < TWO_32
    requires forall i | 0 <= i < 4 :: image.HeaderByte(at + i) == Le32(n)[i]
    ensures U32(image.Write(), at) == n
  {
    HeaderRegion(image, at, 4, Le32(n));
    ReadBack32(image.Write(), at, n);
  }

  lemma ImageBaseReadBack(image: Image)
    requires image.Valid()
    ensures image.wide ==> U64(image.Write(), OPTIONAL + 24) == image.imageBase
    ensures !image.wide ==> U32(image.Write(), OPTIONAL + 28) == image.imageBase
  {
  }

  lemma SectionReadBack(image: Image)
    requires image.Valid()
    ensures SectionAt(image.Write(), image.SectionHeader(), image.Header().sections[0])
  {
  }

  lemma OrdinaryDirectoryReadBack(image: Image)
    requires image.Valid()
    ensures U32(image.Write(), image.Directories() + 8) == image.rva
    ensures U32(image.Write(), image.Directories() + 12) == image.DelayStart()
  {
  }

  lemma DelayDirectoryReadBack(image: Image)
    requires image.Valid()
    ensures U32(image.Write(), image.Directories() + 104) == image.rva + image.DelayStart()
    ensures U32(image.Write(), image.Directories() + 108) == image.NameStart() - image.DelayStart()
  {
  }

  lemma SignaturesReadBack(image: Image)
    requires image.Valid()
    ensures var data := image.Write();
            && data[0] == 0x4d && data[1] == 0x5a
            && U32(data, 0x3c) == PE && data[PE..PE + 4] == [0x50, 0x45, 0, 0]
            && U16(data, PE + 6) == 1 && U16(data, PE + 20) == (if image.wide then 240 else 224)
            && U16(data, OPTIONAL) == (if image.wide then 0x20b else 0x10b)
  {
  }

  lemma WrittenHeader(image: Image)
    requires image.Valid()
    ensures HasHeader(image.Write(), image.Header())
  {
    SignaturesReadBack(image);
    ImageBaseReadBack(image);
    HeaderField(image, OPTIONAL + 60, HEADERS);
    HeaderField(image, image.Directories() - 4, 16);
    SectionReadBack(image);
  }

  /** The section maps address `rva + b` to the file byte `HEADERS + b`. */
  lemma BodyMapping(image: Image, b: nat, size: nat)
    requires image.Valid() && b + size <= image.Body()
    ensures MapsTo(image.Write(), image.Header(), image.rva + b, size, HEADERS + b)
  {
    assert Covers(image.Header().sections[0], image.rva + b, size);
  }

  lemma BodyAt(image: Image, b: nat)
    requires image.Valid() && b < image.Body()
    ensures image.Write()[HEADERS + b] == image.BodyByte(b)
  {
  }

  lemma WrittenNameByte(image: Image, k: nat, f: nat)
    requires image.Valid() && k < |image.Names()| && f < SLOT
    ensures ByteAt(image.Write(), image.Header(), image.NameAddress(k) + f, image.NameByte(k, f))
  {
    var b := image.NameStart() + SLOT * k + f;
    BodyMapping(image, b, 1);
    assert (b - image.NameStart()) / SLOT == k && (b - image.NameStart()) % SLOT == f;
    BodyAt(image, b);
    assert image.NameAddress(k) + f == image.rva + b;
  }

  lemma WrittenName(image: Image, k: nat)
    requires image.Valid() && k < |image.Names()|
    ensures NameAt(image.Write(), image.Header(), image.NameAddress(k), image.Names()[k])
  {
    hide ByteAt;
    var name := image.Names()[k];
    forall f | 0 <= f < |name|
      ensures ByteAt(image.Write(), image.Header(), image.NameAddress(k) + f, name[f])
    {
      WrittenNameByte(image, k, f);
    }
    WrittenNameByte(image, k, |name|);
  }

  lemma OrdinaryBytes(image: Image, k: nat)
    requires image.Valid() && k <= |image.ordinary|
    ensures forall f | 0 <= f < 20 :: image.Write()[HEADERS + 20 * k + f] == image.OrdinaryByte(k, f)
  {
    forall f | 0 <= f < 20
      ensures image.Write()[HEADERS + 20 * k + f] == image.OrdinaryByte(k, f)
    {
      BodyAt(image, 20 * k + f);
      assert (20 * k + f) / 20 == k && (20 * k + f) % 20 == f;
    }
  }

  lemma DelayedBytes(image: Image, k: nat)
    requires image.Valid() && k <= |image.delayed|
    ensures forall f | 0 <= f < 32 :: image.Write()[HEADERS + image.DelayStart() + 32 * k + f] == image.DelayedByte(k, f)
  {
    forall f | 0 <= f < 32
      ensures image.Write()[HEADERS + image.DelayStart() + 32 * k + f] == image.DelayedByte(k, f)
    {
      var b := image.DelayStart() + 32 * k + f;
      BodyAt(image, b);
      assert (b - image.DelayStart()) / 32 == k && (b - image.DelayStart()) % 32 == f;
    }
  }

  lemma NonZero(data: seq<Byte>, at: nat, n: nat)
    requires at + 4 <= |data| && U32(data, at) == n > 0
    ensures exists i | at <= i < at + 4 :: data[i] != 0
  {
  }

  lemma AddressFits(image: Image, k: nat)
    requires image.Valid() && k < |image.ordinary|
    ensures image.NameAddress(k) < TWO_32 && HEADERS + 20 * k + 20 <= |image.Write()|
  {
    hide Image.Write;
  }

  lemma OrdinaryField(image: Image, k: nat)
    requires image.Valid() && k < |image.ordinary|
    ensures U32(image.Write(), HEADERS + 20 * k + 12) == image.NameAddress(k)
  {
    hide Image.Write, Image.Valid, U32, Le32;
    AddressFits(image, k);
    OrdinaryBytes(image, k);
    hide Image.NameAddress, Image.NameStart;
    var data, at, n := image.Write(), HEADERS + 20 * k, image.NameAddress(k);
    assert data[at + 12] == image.OrdinaryByte(k, 12) && data[at + 13] == image.OrdinaryByte(k, 13);
    assert data[at + 14] == image.OrdinaryByte(k, 14) && data[at + 15] == image.OrdinaryByte(k, 15);
    ReadBackBytes(data, at + 12, n);
  }

  lemma WrittenOrdinary(image: Image, k: nat)
    requires image.Valid() && k < |image.ordinary|
    ensures PeImports.Names(image.Write(), image.Header(), Ordinary, image.rva, k, image.ordinary[k])
  {
    hide NameAt, MapsTo, Image.Write, Image.Valid;
    var data, at := image.Write(), HEADERS + 20 * k;
    OrdinaryField(image, k);
    BodyMapping(image, 20 * k, 20);
    assert DescriptorAt(data, image.Header(), Ordinary, image.rva, k, at);
    NonZero(data, at + 12, image.NameAddress(k));
    WrittenName(image, k);
    assert Named(data, image.Header(), Ordinary, at, image.ordinary[k]);
  }

  lemma SmallU32(data: seq<Byte>, at: nat)
    requires at + 4 <= |data| && data[at + 1] == 0 && data[at + 2] == 0 && data[at + 3] == 0
    ensures U32(data, at) == data[at] as int
  {
  }

  lemma AttributeBytes(image: Image, k: nat)
    requires image.Valid() && k < |image.delayed|
    ensures image.DelayedByte(k, 0) == if image.delayed[k].byImageAddress then 0 else 1
    ensures image.DelayedByte(k, 1) == image.DelayedByte(k, 2) == image.DelayedByte(k, 3) == 0
  {
    hide Le32, Image.Valid;
  }

  lemma DelayedAttributes(image: Image, k: nat)
    requires image.Valid() && k < |image.delayed|
    ensures U32(image.Write(), HEADERS + image.DelayStart() + 32 * k) == if image.delayed[k].byImageAddress then 0 else 1
  {
    hide Image.Write, Image.Valid, U32, Image.DelayStart, Image.DelayedByte;
    DelayedBytes(image, k);
    DelayedFits(image, k);
    AttributeBytes(image, k);
    var data, at := image.Write(), HEADERS + image.DelayStart() + 32 * k;
    assert data[at + 0] == image.DelayedByte(k, 0) && data[at + 1] == image.DelayedByte(k, 1);
    assert data[at + 2] == image.DelayedByte(k, 2) && data[at + 3] == image.DelayedByte(k, 3);
    SmallU32(data, at);
  }

  lemma DelayedFits(image: Image, k: nat)
    requires image.Valid() && k < |image.delayed|
    ensures image.DelayedAddress(k) < TWO_32 && HEADERS + image.DelayStart() + 32 * k + 32 <= |image.Write()|
  {
    hide Image.Write;
  }

  lemma DelayedField(image: Image, k: nat)
    requires image.Valid() && k < |image.delayed|
    ensures U32(image.Write(), HEADERS + image.DelayStart() + 32 * k + 4) == image.DelayedAddress(k)
  {
    hide Image.Write, Image.Valid, U32, Le32;
    DelayedFits(image, k);
    DelayedBytes(image, k);
    hide Image.NameAddress, Image.NameStart, Image.DelayedAddress;
    var data, at := image.Write(), HEADERS + image.DelayStart() + 32 * k;
    assert data[at + 4] == image.DelayedByte(k, 4) && data[at + 5] == image.DelayedByte(k, 5);
    assert data[at + 6] == image.DelayedByte(k, 6) && data[at + 7] == image.DelayedByte(k, 7);
    ReadBackBytes(data, at + 4, image.DelayedAddress(k));
  }

  lemma WrittenDelayed(image: Image, k: nat)
    requires image.Valid() && k < |image.delayed|
    ensures PeImports.Names(image.Write(), image.Header(), Delay, image.rva + image.DelayStart(), k, image.delayed[k].name)
  {
    hide NameAt, MapsTo, Image.Write, Image.Valid;
    var data, at := image.Write(), HEADERS + image.DelayStart() + 32 * k;
    DelayedAttributes(image, k);
    DelayedField(image, k);
    BodyMapping(image, image.DelayStart() + 32 * k, 32);
    assert DescriptorAt(data, image.Header(), Delay, image.rva + image.DelayStart(), k, at);
    NonZero(data, at + 4, image.DelayedAddress(k));
    WrittenName(image, |image.ordinary| + k);
    assert image.Names()[|image.ordinary| + k] == image.delayed[k].name;
    assert Named(data, image.Header(), Delay, at, image.delayed[k].name);
  }

  lemma WrittenTerminators(image: Image)
    requires image.Valid()
    ensures Terminates(image.Write(), image.Header(), Ordinary, image.rva, |image.ordinary|)
    ensures Terminates(image.Write(), image.Header(), Delay, image.rva + image.DelayStart(), |image.delayed|)
  {
    var data, n, m := image.Write(), |image.ordinary|, |image.delayed|;
    OrdinaryBytes(image, n);
    BodyMapping(image, 20 * n, 20);
    var at := HEADERS + 20 * n;
    assert ZeroAt(data, at, 20) by {
      forall i | at <= i < at + 20
        ensures data[i] == 0
      {
        assert data[HEADERS + 20 * n + (i - at)] == image.OrdinaryByte(n, i - at);
      }
    }
    assert DescriptorAt(data, image.Header(), Ordinary, image.rva, n, at);
    DelayedBytes(image, m);
    BodyMapping(image, image.DelayStart() + 32 * m, 32);
    var dat := HEADERS + image.DelayStart() + 32 * m;
    assert ZeroAt(data, dat, 32) by {
      forall i | dat <= i < dat + 32
        ensures data[i] == 0
      {
        assert data[HEADERS + image.DelayStart() + 32 * m + (i - dat)] == image.DelayedByte(m, i - dat);
      }
    }
    assert DescriptorAt(data, image.Header(), Delay, image.rva + image.DelayStart(), m, dat);
  }

  lemma ListedTable(data: seq<Byte>, h: PeImports.Header, t: Table, rva: nat, size: nat, list: seq<seq<Byte>>)
    requires h.count > t.Index() && h.directories + t.Index() * 8 + 8 <= |data|
    requires U32(data, h.directories + t.Index() * 8) == rva > 0
    requires U32(data, h.directories + t.Index() * 8 + 4) == size
    requires Lists(data, h, t, rva, size, list)
    ensures TableHolds(data, h, t, Elements(list))
  {
  }

  lemma WrittenOrdinaryTable(image: Image)
    requires image.Valid()
    ensures TableHolds(image.Write(), image.Header(), Ordinary, Elements(image.ordinary))
  {
    assert image.rva >= HEADERS;
    hide PeImports.Names, Terminates, Image.Valid, Image.Write, U32;
    OrdinaryDirectoryReadBack(image);
    WrittenTerminators(image);
    forall k | 0 <= k < |image.ordinary| {
      WrittenOrdinary(image, k);
    }
    ListedTable(image.Write(), image.Header(), Ordinary, image.rva, image.DelayStart(), image.ordinary);
  }

  lemma WrittenDelayTable(image: Image)
    requires image.Valid()
    ensures TableHolds(image.Write(), image.Header(), Delay, Elements(image.DelayedNames()))
  {
    hide PeImports.Names, Terminates, Image.Valid, Image.Write, U32;
    DelayDirectoryReadBack(image);
    WrittenTerminators(image);
    forall k | 0 <= k < |image.delayed| {
      WrittenDelayed(image, k);
    }
    ListedTable(image.Write(), image.Header(), Delay, image.rva + image.DelayStart(),
                image.NameStart() - image.DelayStart(), image.DelayedNames());
  }

  /**
   The reader undoes the writer: for both optional-header layouts, any image base, and any lists of ordinary and
   delay imports in either addressing form, it returns exactly the written names.
   */
  lemma RoundTrip(image: Image)
    requires image.Valid()
    ensures Imports(image.Write()) == Ok(Elements(image.Names()))
  {
    hide HasHeader, TableHolds, Imports, Image.Valid, Image.Write;
    WrittenHeader(image);
    WrittenOrdinaryTable(image);
    WrittenDelayTable(image);
    assert Elements(image.Names()) == Elements(image.ordinary) + Elements(image.DelayedNames());
    ImportsExact(image.Write(), Elements(image.Names()));
  }
}
