/**
 The packaging guard: no staged Windows binary may import a versioned VC++ runtime library, ordinarily or by
 delay load. Finding the binaries on disk is not modelled; the guard gets their bytes.
 */
module RuntimeAudit {
  import opened Wrappers
  import opened Bytes
  import opened PeImports
  import PeWriter

  /** `binary` is the position, in the sorted list of payloads, of the one that is reported. */
  datatype AuditError = NoBinaries | Malformed(binary: nat, error: PeError) | RuntimeImport(binary: nat)

  // "vcruntime", "msvcp", "msvcr", "concrt", "vcomp" and ".dll" in lower case
  const VC_PREFIXES: seq<seq<Byte>> := [[118, 99, 114, 117, 110, 116, 105, 109, 101], [109, 115, 118, 99, 112],
                                        [109, 115, 118, 99, 114], [99, 111, 110, 99, 114, 116], [118, 99, 111, 109, 112]]
  const DLL: seq<Byte> := [46, 100, 108, 108]

  function Lower(name: seq<Byte>): (low: seq<Byte>)
    ensures |low| == |name|
  {
    seq(|name|, i requires 0 <= i < |name| => if 65 <= name[i] <= 90 then name[i] + 32 else name[i])
  }

  /** `name` is a family prefix, a digit, anything without a path separator, and the DLL extension. */
  predicate HasShape(name: seq<Byte>, prefix: seq<Byte>) {
    && |name| >= |prefix| + 1 + |DLL|
    && prefix <= name && 48 <= name[|prefix|] <= 57
    && name[|name| - |DLL|..] == DLL
    && forall i | |prefix| < i < |name| - |DLL| :: name[i] != 47 && name[i] != 92
  }

  /** The whole name matches the versioned-runtime pattern, in any letter case. */
  predicate IsVcRuntime(name: seq<Byte>) {
    exists k | 0 <= k < |VC_PREFIXES| :: HasShape(Lower(name), VC_PREFIXES[k])
  }

  /** The same byte, or one ASCII letter in both cases. */
  predicate SameLetter(x: Byte, y: Byte) {
    x == y || (65 <= x <= 90 && y == x + 32) || (65 <= y <= 90 && x == y + 32)
  }

  ghost predicate SameButCase(a: seq<Byte>, b: seq<Byte>) {
    |a| == |b| && forall i | 0 <= i < |a| :: SameLetter(a[i], b[i])
  }

  /** Letter case never decides whether a name is a versioned runtime. */
  lemma CaseInsensitive(a: seq<Byte>, b: seq<Byte>)
    requires SameButCase(a, b)
    ensures IsVcRuntime(a) <==> IsVcRuntime(b)
  {
    assert Lower(a) == Lower(b);
  }

  /** The bytes of an ASCII text. */
  function Ascii(text: string): (bytes: seq<Byte>)
    ensures |bytes| == |text|
    ensures forall i | 0 <= i < |text| && text[i] as int < 256 :: bytes[i] == text[i] as int
  {
    seq<Byte>(|text|, i requires 0 <= i < |text| => if text[i] as int < 256 then text[i] as int else 0)
  }

  /** One of the five runtime families, in any letter case. */
  ghost predicate IsFamily(text: seq<Byte>) {
    || SameButCase(text, Ascii("vcruntime")) || SameButCase(text, Ascii("msvcp")) || SameButCase(text, Ascii("msvcr"))
    || SameButCase(text, Ascii("concrt")) || SameButCase(text, Ascii("vcomp"))
  }

  /** `name` consists of a family, a digit, a middle without path separators, and the extension in any case. */
  ghost predicate SplitsInto(name: seq<Byte>, family: seq<Byte>, digit: Byte, middle: seq<Byte>, extension: seq<Byte>) {
    && name == family + [digit] + middle + extension
    && IsFamily(family) && 48 <= digit <= 57 && SameButCase(extension, Ascii(".dll"))
    && forall i | 0 <= i < |middle| :: middle[i] != 47 && middle[i] != 92
  }

  lemma FamilyPrefixes(text: seq<Byte>)
    ensures IsFamily(text) <==> Lower(text) in VC_PREFIXES
    ensures SameButCase(text, Ascii(".dll")) <==> Lower(text) == DLL
  {
    LowerOf(text, Ascii("vcruntime"), VC_PREFIXES[0]);
    LowerOf(text, Ascii("msvcp"), VC_PREFIXES[1]);
    LowerOf(text, Ascii("msvcr"), VC_PREFIXES[2]);
    LowerOf(text, Ascii("concrt"), VC_PREFIXES[3]);
    LowerOf(text, Ascii("vcomp"), VC_PREFIXES[4]);
    LowerOf(text, Ascii(".dll"), DLL);
  }

  lemma LowerOf(text: seq<Byte>, ascii: seq<Byte>, low: seq<Byte>)
    requires ascii == low && forall i | 0 <= i < |low| :: !(65 <= low[i] <= 90)
    ensures SameButCase(text, ascii) <==> Lower(text) == low
  {
    if Lower(text) == low {
      assert forall i | 0 <= i < |text| :: Lower(text)[i] == low[i];
    }
  }

  lemma LowerSlice(name: seq<Byte>, i: nat, j: nat)
    requires i <= j <= |name|
    ensures Lower(name[i..j]) == Lower(name)[i..j]
  {
  }

  /** Lowering changes letters into letters only. */
  lemma LowerKeeps(name: seq<Byte>, i: nat)
    requires i < |name|
    ensures 48 <= Lower(name)[i] <= 57 <==> 48 <= name[i] <= 57
    ensures Lower(name)[i] == 47 <==> name[i] == 47
    ensures Lower(name)[i] == 92 <==> name[i] == 92
    ensures 48 <= name[i] <= 57 ==> Lower(name)[i] == name[i]
  {
  }

  lemma ShapeSplits(name: seq<Byte>, prefix: seq<Byte>)
    returns (family: seq<Byte>, digit: Byte, middle: seq<Byte>, extension: seq<Byte>)
    requires HasShape(Lower(name), prefix) && prefix in VC_PREFIXES
    ensures SplitsInto(name, family, digit, middle, extension)
  {
    hide IsFamily, SameButCase, Lower, Ascii;
    var low, m, n := Lower(name), |prefix|, |name|;
    family, digit, middle, extension := name[..m], name[m], name[m + 1..n - 4], name[n - 4..];
    LowerSlice(name, 0, m);
    LowerSlice(name, n - 4, n);
    assert name[0..m] == family && name[n - 4..n] == extension && low[n - 4..n] == DLL && low[0..m] == prefix;
    FamilyPrefixes(family);
    FamilyPrefixes(extension);
    LowerKeeps(name, m);
    forall i | 0 <= i < |middle|
      ensures middle[i] != 47 && middle[i] != 92
    {
      LowerKeeps(name, m + 1 + i);
      assert low[m + 1 + i] != 47 && low[m + 1 + i] != 92;
    }
    assert name == family + [digit] + middle + extension;
  }

  lemma SplitHasShape(name: seq<Byte>, family: seq<Byte>, digit: Byte, middle: seq<Byte>, extension: seq<Byte>)
    requires SplitsInto(name, family, digit, middle, extension)
    ensures Lower(family) in VC_PREFIXES && HasShape(Lower(name), Lower(family))
  {
    hide IsFamily, SameButCase, Lower, Ascii;
    var low, m, n := Lower(name), |family|, |name|;
    FamilyPrefixes(family);
    FamilyPrefixes(extension);
    assert |extension| == |Lower(extension)| == 4;
    assert family == name[..m] && extension == name[n - 4..] && name[m] == digit;
    LowerSlice(name, 0, m);
    LowerSlice(name, n - 4, n);
    LowerKeeps(name, m);
    assert name[n - 4..n] == extension && low[n - 4..n] == low[n - 4..];
    assert low[..m] == Lower(family) && low[n - 4..] == DLL;
    forall i | m < i < n - 4
      ensures low[i] != 47 && low[i] != 92
    {
      LowerKeeps(name, i);
      assert name[i] == middle[i - m - 1];
    }
  }

  /**
   A name is a versioned runtime exactly when it splits into a family in any letter case, a digit, a middle without
   path separators, and the extension in any letter case.
   */
  lemma RuntimeExact(name: seq<Byte>)
    ensures IsVcRuntime(name) <==>
            exists family, digit, middle, extension :: SplitsInto(name, family, digit, middle, extension)
  {
    hide HasShape, SplitsInto, Lower;
    if IsVcRuntime(name) {
      var k :| 0 <= k < |VC_PREFIXES| && HasShape(Lower(name), VC_PREFIXES[k]);
      var family, digit, middle, extension := ShapeSplits(name, VC_PREFIXES[k]);
    }
    if family, digit, middle, extension :| SplitsInto(name, family, digit, middle, extension) {
      SplitHasShape(name, family, digit, middle, extension);
      ShapeIsRuntime(name, Lower(family));
    }
  }

  lemma ShapeIsRuntime(name: seq<Byte>, prefix: seq<Byte>)
    requires prefix in VC_PREFIXES && HasShape(Lower(name), prefix)
    ensures IsVcRuntime(name)
  {
    hide HasShape, Lower;
    var k :| 0 <= k < |VC_PREFIXES| && VC_PREFIXES[k] == prefix;
  }

  lemma SplitIsRuntime(name: seq<Byte>, family: seq<Byte>, digit: Byte, middle: seq<Byte>, extension: seq<Byte>)
    requires SplitsInto(name, family, digit, middle, extension)
    ensures IsVcRuntime(name)
  {
    hide SplitsInto, HasShape;
    RuntimeExact(name);
  }

  /** The runtime the guard exists for is caught, in capitals too. */
  lemma RuntimeCaught()
    ensures IsVcRuntime(Ascii("VCRUNTIME140.dll"))
  {
    var name := Ascii("VCRUNTIME140.dll");
    hide IsVcRuntime;
    assert name[..9] == Ascii("VCRUNTIME") && name[12..] == Ascii(".dll");
    assert name == name[..9] + [49] + name[10..12] + name[12..];
    SplitIsRuntime(name, name[..9], 49, name[10..12], name[12..]);
  }

  /** The C libraries that Windows itself ships are not versioned runtimes. */
  lemma SystemLibrariesPass()
    ensures !IsVcRuntime(Ascii("msvcrt.dll")) && !IsVcRuntime(Ascii("ucrtbase.dll"))
  {
    NoDigit(Ascii("msvcrt.dll"));
    NoDigit(Ascii("ucrtbase.dll"));
  }

  lemma NoDigit(name: seq<Byte>)
    requires |name| >= 10 && forall i | i in {5, 6, 9} :: !(48 <= name[i] <= 57)
    ensures !IsVcRuntime(name)
  {
    LowerKeeps(name, 5);
    LowerKeeps(name, 6);
    LowerKeeps(name, 9);
    hide Lower;
  }

  /** The binary is well formed and none of the names it imports is a versioned runtime. */
  ghost predicate Clean(data: seq<Byte>) {
    exists names :: Describes(data, names) && forall name | name in names :: !IsVcRuntime(name)
  }

  lemma CleanExact(data: seq<Byte>)
    ensures Clean(data) <==> Imports(data).Ok? && forall name | name in Imports(data).value :: !IsVcRuntime(name)
  {
    hide IsVcRuntime, Imports, Describes;
    if Imports(data).Ok? {
      ImportsExact(data, Imports(data).value);
    }
    forall names | Describes(data, names)
      ensures Imports(data) == Ok(names)
    {
      ImportsExact(data, names);
    }
  }

  /**
   The guard passes exactly the nonempty payloads in which every binary is clean; otherwise it names the first
   binary that is not.
   */
  method Audit(binaries: seq<seq<Byte>>) returns (r: Result<seq<set<seq<Byte>>>, AuditError>)
    ensures r.Ok? <==> binaries != [] && forall i | 0 <= i < |binaries| :: Clean(binaries[i])
    ensures r.Ok? ==> |r.value| == |binaries| && forall i | 0 <= i < |binaries| :: Describes(binaries[i], r.value[i])
    ensures r.Err? ==>
              match r.error
              case NoBinaries => binaries == []
              case Malformed(n, e) => && n < |binaries| && Imports(binaries[n]) == Err(e)
                                      && forall i | 0 <= i < n :: Clean(binaries[i])
              case RuntimeImport(n) => && n < |binaries| && !Clean(binaries[n])
                                       && (exists names :: Describes(binaries[n], names))
                                       && forall i | 0 <= i < n :: Clean(binaries[i])
  {
    hide Clean, Describes, Imports, IsVcRuntime;
    if binaries == [] {
      return Err(NoBinaries);
    }
    var report: seq<set<seq<Byte>>> := [];
    for n := 0 to |binaries|
      invariant |report| == n
      invariant forall i | 0 <= i < n :: Clean(binaries[i]) && Describes(binaries[i], report[i])
    {
      var dependencies := ReadImports(binaries[n]);
      CleanExact(binaries[n]);
      if dependencies.Err? {
        return Err(Malformed(n, dependencies.error));
      }
      ImportsExact(binaries[n], dependencies.value);
      if exists name | name in dependencies.value :: IsVcRuntime(name) {
        return Err(RuntimeImport(n));
      }
      report := report + [dependencies.value];
    }
    return Ok(report);
  }

  /** A written image passes the guard exactly when none of the names written into either table is a runtime. */
  lemma WrittenImageVerdict(image: PeWriter.Image)
    requires image.Valid()
    ensures Clean(image.Write()) <==> forall k | 0 <= k < |image.Names()| :: !IsVcRuntime(image.Names()[k])
  {
    hide Imports, Clean, IsVcRuntime, PeWriter.Image.Write, PeWriter.Image.Valid, PeWriter.Image.Names;
    PeWriter.RoundTrip(image);
    CleanExact(image.Write());
    assert Imports(image.Write()).value == Elements(image.Names());
  }
}
