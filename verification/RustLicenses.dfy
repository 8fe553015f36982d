/**
 Staging licence texts for the resolved dependency graph: which packages are reachable, which texts each must
 ship, and the copy, which starts only when everything has been found.

 File contents are digests. A source may change between planning and copying, and any file operation may fail.
 */
module RustLicenses {
  import opened Wrappers

  type Id = string
  type Digest = string

  datatype Failure =
    | MissingNode
    | InvalidDestination
    | BadDeclared
    | MissingText
    | IdentityChanged
    | SourceChanged
    | PinnedTextChanged
    | EmptyRepair
    | Escapes
    | Unreadable
    | ChangedDuringStaging
    | Io

  // ---------------------------------------------------------------- reachability

  /** The dependencies of each resolved node. */
  type Graph = map<Id, seq<Id>>

  /** A chain of dependencies from a workspace member to `x`. */
  ghost predicate Chain(nodes: Graph, members: seq<Id>, path: seq<Id>, x: Id) {
    && path != [] && path[0] in members && path[|path| - 1] == x
    && forall i | 0 <= i < |path| - 1 :: path[i] in nodes && path[i + 1] in nodes[path[i]]
  }

  ghost predicate Reachable(nodes: Graph, members: seq<Id>, x: Id) {
    exists path :: Chain(nodes, members, path, x)
  }

  lemma MemberReachable(nodes: Graph, members: seq<Id>, x: Id)
    requires x in members
    ensures Reachable(nodes, members, x)
  {
    assert Chain(nodes, members, [x], x);
  }

  lemma DependencyReachable(nodes: Graph, members: seq<Id>, x: Id, y: Id)
    requires Reachable(nodes, members, x) && x in nodes && y in nodes[x]
    ensures Reachable(nodes, members, y)
  {
    var path :| Chain(nodes, members, path, x);
    assert Chain(nodes, members, path + [y], y);
  }

  /** A set that holds the members and is closed under dependencies holds everything reachable. */
  lemma {:induction false} ClosedHolds(nodes: Graph, members: seq<Id>, s: set<Id>, path: seq<Id>, x: Id)
    requires forall m | m in members :: m in s
    requires forall a | a in s :: a in nodes && forall b | b in nodes[a] :: b in s
    requires Chain(nodes, members, path, x)
    ensures x in s
  {
    if |path| > 1 {
      var front := path[..|path| - 1];
      assert Chain(nodes, members, front, front[|front| - 1]);
      ClosedHolds(nodes, members, s, front, front[|front| - 1]);
      assert path[|path| - 2] == front[|front| - 1] && path[|path| - 1] in nodes[path[|path| - 2]];
    }
  }

  /** A set between the members and the reachable nodes that is closed under dependencies is the reachable set. */
  lemma ClosedIsReachable(nodes: Graph, members: seq<Id>, s: set<Id>)
    requires forall m | m in members :: m in s
    requires forall a | a in s :: a in nodes && forall b | b in nodes[a] :: b in s
    requires forall x | x in s :: Reachable(nodes, members, x)
    ensures forall x :: x in s <==> Reachable(nodes, members, x)
  {
    forall x | Reachable(nodes, members, x)
      ensures x in s
    {
      var path :| Chain(nodes, members, path, x);
      ClosedHolds(nodes, members, s, path, x);
    }
  }

  /** What is resolved or waiting is reachable; members and the dependencies of what is resolved are one of both. */
  ghost predicate Progress(nodes: Graph, members: seq<Id>, resolved: set<Id>, pending: seq<Id>) {
    && resolved <= nodes.Keys
    && (forall x | x in resolved :: Reachable(nodes, members, x))
    && (forall x | x in pending :: Reachable(nodes, members, x))
    && (forall m | m in members :: m in resolved || m in pending)
    && (forall a | a in resolved :: forall b | b in nodes[a] :: b in resolved || b in pending)
  }

  /** One turn of the worklist. */
  lemma ProgressKept(nodes: Graph, members: seq<Id>, resolved: set<Id>, rest: seq<Id>, node: Id)
    requires Progress(nodes, members, resolved, rest + [node])
    ensures Reachable(nodes, members, node)
    ensures node in resolved ==> Progress(nodes, members, resolved, rest)
    ensures node !in resolved && node in nodes ==> Progress(nodes, members, resolved + {node}, rest + nodes[node])
  {
    hide Reachable;
    assert (rest + [node])[|rest|] == node;
    if node in nodes {
      forall b | b in nodes[node] {
        DependencyReachable(nodes, members, node, b);
      }
    }
  }

  /**
   The worklist. It succeeds with exactly the nodes reachable from the workspace members, and fails exactly when
   a reachable one is not in the graph.
   */
  method Resolve(nodes: Graph, members: seq<Id>) returns (r: Result<set<Id>, Failure>)
    ensures r.Ok? ==> forall x :: x in r.value <==> Reachable(nodes, members, x)
    ensures r.Ok? <==> forall x | Reachable(nodes, members, x) :: x in nodes
    ensures r.Err? ==> r.error == MissingNode
  {
    hide Reachable;
    var resolved: set<Id>, pending := {}, members;
    forall m | m in members {
      MemberReachable(nodes, members, m);
    }
    while pending != []
      invariant Progress(nodes, members, resolved, pending)
      decreases nodes.Keys - resolved, |pending|
    {
      hide Progress;
      var node := pending[|pending| - 1];
      var rest := pending[..|pending| - 1];
      assert pending == rest + [node];
      ProgressKept(nodes, members, resolved, rest, node);
      if node !in resolved {
        if node !in nodes {
          return Err(MissingNode);
        }
        resolved := resolved + {node};
        rest := rest + nodes[node];
      }
      pending := rest;
    }
    ClosedIsReachable(nodes, members, resolved);
    return Ok(resolved);
  }

  // ---------------------------------------------------------------- the texts of one package

  /** A text to ship: its path below the base directory, whether it really lies there, and its digest. */
  datatype Text = Text(relative: string, inside: bool, digest: Digest)

  datatype Declared = Undeclared | Found(text: Text) | Bad

  /** A pinned repair: does it match the package and its source, and its files against their pinned digests. */
  datatype PinnedFile = PinnedFile(text: Text, plain: bool, pinned: Digest)
  datatype Repair = NoRepair | Pinned(identity: bool, source: bool, files: seq<PinnedFile>, provenance: Text)

  /** A package and what the disk holds for it; `found` are the files whose names mark them as licence texts. */
  datatype Package = Package(id: Id, folder: string, fromRegistry: bool, plainFolder: bool,
                             found: seq<Text>, declared: Declared, repair: Repair)

  datatype Origin = FromCrate | PinnedUpstream

  datatype Entry = Entry(folder: string, texts: seq<Text>, origin: Origin)

  function PinnedTexts(files: seq<PinnedFile>): Result<seq<Text>, Failure> {
    if files == [] then Ok([]) else
    if !files[0].plain || files[0].text.digest != files[0].pinned then Err(PinnedTextChanged) else
    var rest :- PinnedTexts(files[1..]);
    Ok([files[0].text] + rest)
  }

  function PackageTexts(p: Package): Result<(seq<Text>, Origin), Failure> {
    if p.declared.Bad? then Err(BadDeclared) else
    var own := p.found + if p.declared.Found? && p.declared.text !in p.found then [p.declared.text] else [];
    if own != [] then Ok((own, FromCrate)) else
    match p.repair
    case NoRepair => Err(MissingText)
    case Pinned(identity, source, files, provenance) =>
      if !identity then Err(IdentityChanged) else
      if !source then Err(SourceChanged) else
      var texts :- PinnedTexts(files);
      if texts == [] then Err(EmptyRepair) else Ok((texts + [provenance], PinnedUpstream))
  }

  /** The repair fits the package, its source and every pinned digest, and holds at least one text. */
  ghost predicate Usable(r: Repair) {
    && r.Pinned? && r.identity && r.source && r.files != []
    && forall i | 0 <= i < |r.files| :: r.files[i].plain && r.files[i].text.digest == r.files[i].pinned
  }

  lemma {:induction false} PinnedTextsExact(files: seq<PinnedFile>)
    ensures PinnedTexts(files).Ok? <==> forall i | 0 <= i < |files| :: files[i].plain && files[i].text.digest == files[i].pinned
    ensures PinnedTexts(files).Ok? ==> |PinnedTexts(files).value| == |files|
                                       && forall i | 0 <= i < |files| :: PinnedTexts(files).value[i] == files[i].text
  {
    if files != [] {
      PinnedTextsExact(files[1..]);
      assert forall i | 1 <= i < |files| :: files[i] == files[1..][i - 1];
    }
  }

  /**
   A package has its texts exactly when its declared licence, if any, is good, and it either carries a text of
   its own or has a usable repair; own texts always win over a repair, and every own or pinned text is included.
   */
  lemma TextsExact(p: Package)
    ensures PackageTexts(p).Ok? <==> !p.declared.Bad? && (p.found != [] || p.declared.Found? || Usable(p.repair))
    ensures PackageTexts(p).Ok? ==>
              var (texts, origin) := PackageTexts(p).value;
              && (origin.FromCrate? <==> p.found != [] || p.declared.Found?)
              && texts != []
              && (origin.FromCrate? ==> forall t :: t in texts <==> t in p.found || p.declared == Found(t))
              && (origin.PinnedUpstream? ==> forall t :: t in texts <==>
                    t == p.repair.provenance || exists f :: f in p.repair.files && f.text == t)
  {
    if p.repair.Pinned? {
      var files := p.repair.files;
      PinnedTextsExact(files);
      if PinnedTexts(files).Ok? {
        var texts := PinnedTexts(files).value;
        forall t
          ensures t in texts <==> exists f :: f in files && f.text == t
        {
          if t in texts {
            var i :| 0 <= i < |texts| && texts[i] == t;
            assert files[i] in files && files[i].text == t;
          }
          if f :| f in files && f.text == t {
            var i :| 0 <= i < |files| && files[i] == f;
            assert texts[i] == t;
          }
        }
      }
    }
  }

  /** Why a package has no texts. */
  lemma TextsRefused(p: Package)
    ensures PackageTexts(p) == Err(BadDeclared) <==> p.declared.Bad?
    ensures var none, r := p.found == [] && p.declared.Undeclared?, p.repair;
            && (PackageTexts(p) == Err(MissingText) <==> none && r.NoRepair?)
            && (PackageTexts(p) == Err(IdentityChanged) <==> none && r.Pinned? && !r.identity)
            && (PackageTexts(p) == Err(SourceChanged) <==> none && r.Pinned? && r.identity && !r.source)
            && (PackageTexts(p) == Err(PinnedTextChanged) <==>
                  && none && r.Pinned? && r.identity && r.source
                  && exists i :: 0 <= i < |r.files| && !(r.files[i].plain && r.files[i].text.digest == r.files[i].pinned))
            && (PackageTexts(p) == Err(EmptyRepair) <==> none && r.Pinned? && r.identity && r.source && r.files == [])
  {
    if p.repair.Pinned? {
      PinnedTextsExact(p.repair.files);
      PinnedFailure(p.repair.files);
      hide PinnedTexts;
    }
  }

  // ---------------------------------------------------------------- plan, then copy

  /** The plan's entry for one package, when it is resolved and not part of the workspace. */
  function PlanPackage(p: Package): Result<Entry, Failure> {
    if !p.plainFolder then Err(InvalidDestination) else
    var texts :- PackageTexts(p);
    if exists t | t in texts.0 :: !t.inside then Err(Escapes) else
    Ok(Entry(p.folder, texts.0, texts.1))
  }

  /**
   A package is planned exactly when its folder name is plain and it has its texts, all inside their base; its entry
   then sends just these texts to its own folder.
   */
  lemma EntryExact(p: Package)
    ensures PlanPackage(p).Ok? <==> p.plainFolder && PackageTexts(p).Ok? && forall t | t in PackageTexts(p).value.0 :: t.inside
    ensures PlanPackage(p).Ok? ==>
              var e := PlanPackage(p).value;
              && e.folder == p.folder && e.texts != [] && (forall t | t in e.texts :: t.inside)
              && (e.origin.FromCrate? <==> p.found != [] || p.declared.Found?)
              && (e.origin.FromCrate? ==> forall t :: t in e.texts <==> t in p.found || p.declared == Found(t))
              && (e.origin.PinnedUpstream? ==> forall t :: t in e.texts <==>
                    t == p.repair.provenance || exists f :: f in p.repair.files && f.text == t)
  {
    TextsExact(p);
    hide PackageTexts;
  }

  function PlanOf(packages: seq<Package>, resolved: set<Id>): Result<seq<Entry>, Failure> {
    if packages == [] then Ok([]) else
    var before :- PlanOf(packages[..|packages| - 1], resolved);
    var p := packages[|packages| - 1];
    if p.id !in resolved || !p.fromRegistry then Ok(before) else
    var entry :- PlanPackage(p);
    Ok(before + [entry])
  }

  lemma {:induction false} PinnedFailure(files: seq<PinnedFile>)
    ensures PinnedTexts(files).Err? ==> PinnedTexts(files).error == PinnedTextChanged
  {
    if files != [] {
      PinnedFailure(files[1..]);
    }
  }

  /** A package that cannot be planned fails for a reason of its own. */
  lemma PlanFailure(p: Package)
    ensures PlanPackage(p).Err? ==> PlanPackage(p).error !in {MissingNode, Unreadable, ChangedDuringStaging, Io}
  {
    if p.repair.Pinned? {
      PinnedFailure(p.repair.files);
    }
  }

  /** Planning came as far as the `i`-th package, which is to be shipped and whose files had to be read. */
  predicate CameTo(packages: seq<Package>, resolved: set<Id>, i: nat) {
    i < |packages| && PlanOf(packages[..i], resolved).Ok? && Shipped(packages[i], resolved) && packages[i].plainFolder
  }

  /** The plan, or the first failure; reading a package's files may fail before either is known. */
  method MakePlan(packages: seq<Package>, resolved: set<Id>) returns (r: Result<seq<Entry>, Failure>)
    ensures r != Err(Unreadable) ==> r == PlanOf(packages, resolved)
    ensures r.Err? ==> r.error !in {MissingNode, ChangedDuringStaging, Io}
    ensures r == Err(Unreadable) ==> exists i: nat :: CameTo(packages, resolved, i)
  {
    var plan: seq<Entry> := [];
    for i := 0 to |packages|
      invariant PlanOf(packages[..i], resolved) == Ok(plan)
      invariant forall j | 0 <= j <= i :: PlanOf(packages[..j], resolved).Ok?
    {
      var p := packages[i];
      assert packages[..i + 1][..i] == packages[..i];
      if p.id in resolved && p.fromRegistry {
        var read: bool := *;
        if p.plainFolder && !read {
          assert CameTo(packages, resolved, i);
          return Err(Unreadable);
        }
        var entry := PlanPackage(p);
        if entry.Err? {
          PlanFails(packages, resolved, i + 1);
          PlanFailure(p);
          return Err(entry.error);
        }
        plan := plan + [entry.value];
      }
    }
    assert packages[..|packages|] == packages;
    return Ok(plan);
  }

  lemma {:induction false} PlanFails(packages: seq<Package>, resolved: set<Id>, n: nat)
    requires n <= |packages| && PlanOf(packages[..n], resolved).Err?
    ensures PlanOf(packages, resolved) == PlanOf(packages[..n], resolved)
    decreases |packages| - n
  {
    if n < |packages| {
      assert packages[..n + 1][..n] == packages[..n];
      PlanFails(packages, resolved, n + 1);
    } else {
      assert packages[..n] == packages;
    }
  }

  /** A target below the destination: a package's folder and a path in it. */
  type Target = (string, string)

  /** The copies of a plan, in order. */
  datatype Copy = Copy(target: Target, digest: Digest)

  function CopiesOf(folder: string, texts: seq<Text>): seq<Copy> {
    if texts == [] then [] else
    CopiesOf(folder, texts[..|texts| - 1]) + [Copy((folder, texts[|texts| - 1].relative), texts[|texts| - 1].digest)]
  }

  function Copies(plan: seq<Entry>): seq<Copy> {
    if plan == [] then [] else
    Copies(plan[..|plan| - 1]) + CopiesOf(plan[|plan| - 1].folder, plan[|plan| - 1].texts)
  }

  lemma {:induction false} CopiesOfExact(folder: string, texts: seq<Text>, copy: Copy)
    ensures copy in CopiesOf(folder, texts) <==> exists t :: t in texts && copy == Copy((folder, t.relative), t.digest)
  {
    if texts != [] {
      var front, last := texts[..|texts| - 1], texts[|texts| - 1];
      assert texts == front + [last];
      CopiesOfExact(folder, front, copy);
      if copy == Copy((folder, last.relative), last.digest) {
        assert last in texts;
      }
      if t :| t in front && copy == Copy((folder, t.relative), t.digest) {
        assert t in texts;
      }
    }
  }

  /** The text is one that some entry of the plan sends to the copy's target. */
  ghost predicate Sends(e: Entry, copy: Copy) {
    exists t :: t in e.texts && copy == Copy((e.folder, t.relative), t.digest)
  }

  /** The copies are exactly the texts of the plan, each to its package's folder. */
  lemma {:induction false} CopiesExact(plan: seq<Entry>, copy: Copy)
    ensures copy in Copies(plan) <==> exists e :: e in plan && Sends(e, copy)
  {
    if plan != [] {
      var front, last := plan[..|plan| - 1], plan[|plan| - 1];
      assert plan == front + [last];
      CopiesExact(front, copy);
      CopiesOfExact(last.folder, last.texts, copy);
      if Sends(last, copy) {
        assert last in plan;
      }
      if e :| e in front && Sends(e, copy) {
        assert e in plan;
      }
    }
  }

  /** The package is resolved and comes from a registry or another source outside the workspace. */
  predicate Shipped(p: Package, resolved: set<Id>) {
    p.id in resolved && p.fromRegistry
  }

  /** The plan exists exactly when every shipped package has an entry, and then holds those entries and no others. */
  lemma {:induction false} PlanExact(packages: seq<Package>, resolved: set<Id>, e: Entry)
    ensures PlanOf(packages, resolved).Ok? <==> forall p | p in packages && Shipped(p, resolved) :: PlanPackage(p).Ok?
    ensures PlanOf(packages, resolved).Ok? ==>
              (e in PlanOf(packages, resolved).value <==>
               exists p :: p in packages && Shipped(p, resolved) && PlanPackage(p) == Ok(e))
  {
    hide PlanPackage;
    if packages != [] {
      var front, last := packages[..|packages| - 1], packages[|packages| - 1];
      assert packages == front + [last];
      PlanExact(front, resolved, e);
      assert last in packages;
      assert forall p | p in front :: p in packages;
    }
  }

  /** The files after the copies: a later copy replaces an earlier one at the same target. */
  function Written(files: map<Target, Digest>, copies: seq<Copy>): map<Target, Digest> {
    if copies == [] then files else
    Written(files, copies[..|copies| - 1])[copies[|copies| - 1].target := copies[|copies| - 1].digest]
  }

  class Destination {
    var files: map<Target, Digest>
    var manifest: Option<seq<Entry>>

    /** Copies one text and checks what arrived; the source may have changed since it was planned. */
    method CopyChecked(copy: Copy) returns (failed: Option<Failure>)
      modifies this`files
      ensures failed.None? ==> files == old(files)[copy.target := copy.digest]
      ensures forall t: Target | t != copy.target :: (t in files <==> t in old(files)) && (t in files ==> files[t] == old(files)[t])
      ensures failed.Some? ==> failed.value in {Io, ChangedDuringStaging}
    {
      if * {
        return Some(Io);
      }
      var arrived: Digest := *;
      files := files[copy.target := arrived];
      if * {
        return Some(Io);
      }
      return if arrived != copy.digest then Some(ChangedDuringStaging) else None;
    }

    method CopyTexts(folder: string, texts: seq<Text>) returns (failed: Option<Failure>)
      modifies this`files
      ensures failed.None? ==> files == Written(old(files), CopiesOf(folder, texts))
      ensures failed.Some? ==> failed.value in {Io, ChangedDuringStaging}
      ensures forall t: Target | t.0 != folder :: (t in files <==> t in old(files)) && (t in files ==> files[t] == old(files)[t])
    {
      for i := 0 to |texts|
        invariant files == Written(old(files), CopiesOf(folder, texts[..i]))
        invariant forall t: Target | t.0 != folder :: (t in files <==> t in old(files)) && (t in files ==> files[t] == old(files)[t])
      {
        var copy := Copy((folder, texts[i].relative), texts[i].digest);
        assert texts[..i + 1][..i] == texts[..i];
        assert CopiesOf(folder, texts[..i + 1]) == CopiesOf(folder, texts[..i]) + [copy];
        assert (CopiesOf(folder, texts[..i]) + [copy])[..|CopiesOf(folder, texts[..i])|] == CopiesOf(folder, texts[..i]);
        failed := CopyChecked(copy);
        if failed.Some? {
          return;
        }
      }
      assert texts[..|texts|] == texts;
      failed := None;
    }

    /**
     The whole staging. A failure before the first copy, also to read what is to be planned, leaves the destination untouched, and the manifest is
     written only when every copy arrived as planned; the files are then exactly those the plan's copies write.
     */
    method Stage(nodes: Graph, members: seq<Id>, packages: seq<Package>) returns (r: Result<seq<Entry>, Failure>)
      modifies this
      ensures r.Ok? ==> && (forall x | Reachable(nodes, members, x) :: x in nodes)
                        && exists resolved :: && (forall x :: x in resolved <==> Reachable(nodes, members, x))
                                              && PlanOf(packages, resolved) == Ok(r.value)
      ensures r.Ok? ==> files == Written(old(files), Copies(r.value)) && manifest == Some(r.value)
      ensures r == Err(MissingNode) <==> exists x :: Reachable(nodes, members, x) && x !in nodes
      ensures r.Err? && r.error !in {MissingNode, Unreadable, ChangedDuringStaging, Io} ==>
                exists resolved :: && (forall x :: x in resolved <==> Reachable(nodes, members, x))
                                   && PlanOf(packages, resolved) == Err(r.error)
      ensures r.Err? ==> manifest == old(manifest)
      ensures r.Err? && r.error !in {Io, ChangedDuringStaging} ==> files == old(files)
    {
      var resolved :- Resolve(nodes, members);
      var plan :- MakePlan(packages, resolved);
      for i := 0 to |plan|
        invariant manifest == old(manifest)
        invariant files == Written(old(files), Copies(plan[..i]))
      {
        assert plan[..i + 1][..i] == plan[..i];
        var failed := CopyTexts(plan[i].folder, plan[i].texts);
        if failed.Some? {
          return Err(failed.value);
        }
        WrittenConcat(old(files), Copies(plan[..i]), CopiesOf(plan[i].folder, plan[i].texts));
      }
      assert plan[..|plan|] == plan;
      if * {
        return Err(Io);
      }
      manifest := Some(plan);
      return Ok(plan);
    }
  }

  lemma {:induction false} WrittenConcat(files: map<Target, Digest>, a: seq<Copy>, b: seq<Copy>)
    ensures Written(files, a + b) == Written(Written(files, a), b)
  {
    if b == [] {
      assert a + b == a;
    } else {
      WrittenConcat(files, a, b[..|b| - 1]);
      assert (a + b)[..|a + b| - 1] == a + b[..|b| - 1];
    }
  }

  // ---------------------------------------------------------------- do the texts keep their planned digests?

  /** Two copies to one target with different contents. */
  ghost predicate Clash(copies: seq<Copy>, i: int, j: int) {
    0 <= i < j < |copies| && copies[i].target == copies[j].target && copies[i].digest != copies[j].digest
  }

  /** After the copies every target holds what each of its copies planned. */
  ghost predicate AllAsPlanned(files: map<Target, Digest>, copies: seq<Copy>) {
    forall i | 0 <= i < |copies| :: copies[i].target in files && files[copies[i].target] == copies[i].digest
  }

  /** Each target ends with what its last copy planned. */
  lemma {:induction false} LastCopyWins(files: map<Target, Digest>, copies: seq<Copy>, i: nat)
    requires i < |copies| && forall j | i < j < |copies| :: copies[j].target != copies[i].target
    ensures copies[i].target in Written(files, copies) && Written(files, copies)[copies[i].target] == copies[i].digest
  {
    if i < |copies| - 1 {
      LastCopyWins(files, copies[..|copies| - 1], i);
    }
  }

  lemma {:induction false} NoClashPlanned(files: map<Target, Digest>, copies: seq<Copy>)
    requires forall i, j :: !Clash(copies, i, j)
    ensures AllAsPlanned(Written(files, copies), copies)
  {
    if copies != [] {
      var front, last := copies[..|copies| - 1], |copies| - 1;
      forall i, j
        ensures !Clash(front, i, j)
      {
        assert !Clash(copies, i, j);
      }
      NoClashPlanned(files, front);
      forall i | 0 <= i < last
        ensures copies[i].target == copies[last].target ==> copies[i].digest == copies[last].digest
      {
        assert !Clash(copies, i, last);
      }
      assert forall i | 0 <= i < last :: front[i] == copies[i];
    }
  }

  /**
   After a successful staging every copied text still has its planned digest exactly when no two copies share a
   target and differ in content: a later package with the same folder and file name silently replaces the first.
   */
  lemma DigestsKeptIff(files: map<Target, Digest>, plan: seq<Entry>)
    ensures AllAsPlanned(Written(files, Copies(plan)), Copies(plan)) <==> forall i, j :: !Clash(Copies(plan), i, j)
  {
    var copies := Copies(plan);
    if forall i, j :: !Clash(copies, i, j) {
      NoClashPlanned(files, copies);
    }
    if AllAsPlanned(Written(files, copies), copies) {
      forall i, j
        ensures !Clash(copies, i, j)
      {
      }
    }
  }

  /** A resolved package with one text of its own. */
  predicate OneText(p: Package, t: Text, resolved: set<Id>) {
    p.id in resolved && p.fromRegistry && p.plainFolder && p.found == [t] && p.declared.Undeclared? && t.inside
  }

  /**
   One name and version from two sources: whenever two resolved packages share a folder and a file name but not
   its content, both are planned, and the first one's text is not what the plan recorded for it.
   */
  lemma SameNameClash(p: Package, q: Package, t: Text, u: Text, resolved: set<Id>, files: map<Target, Digest>)
    requires OneText(p, t, resolved) && OneText(q, u, resolved)
    requires p.id != q.id && p.folder == q.folder && t.relative == u.relative && t.digest != u.digest
    ensures PlanOf([p, q], resolved).Ok?
    ensures var copies := Copies(PlanOf([p, q], resolved).value); !AllAsPlanned(Written(files, copies), copies)
  {
    var plan := [Entry(p.folder, [t], FromCrate), Entry(q.folder, [u], FromCrate)];
    PlannedAlone(p, t, resolved);
    PlannedAlone(q, u, resolved);
    assert [p, q][..1] == [p] && [p][..0] == [];
    assert PlanOf([p, q], resolved) == Ok([plan[0]] + [plan[1]]) && [plan[0]] + [plan[1]] == plan;
    var copies := Copies(plan);
    assert plan[..1] == [plan[0]] && [plan[0]][..0] == [] && [t][..0] == [] && [u][..0] == [];
    assert CopiesOf(p.folder, [t]) == [Copy((p.folder, t.relative), t.digest)];
    assert CopiesOf(q.folder, [u]) == [Copy((q.folder, u.relative), u.digest)];
    assert Copies([plan[0]]) == [] + CopiesOf(p.folder, [t]);
    assert copies == [Copy((p.folder, t.relative), t.digest), Copy((q.folder, u.relative), u.digest)];
    DigestsKeptIff(files, plan);
    assert Clash(copies, 0, 1);
  }

  lemma PlannedAlone(p: Package, t: Text, resolved: set<Id>)
    requires OneText(p, t, resolved)
    ensures PlanPackage(p) == Ok(Entry(p.folder, [t], FromCrate)) && PlanOf([p], resolved) == Ok([Entry(p.folder, [t], FromCrate)])
  {
    assert [t] + [] == [t] && [p][..0] == [];
    assert PlanOf([p][..0], resolved) == Ok([]);
    var e := Entry(p.folder, [t], FromCrate);
    assert [] + [e] == [e];
    assert PlanOf([p], resolved) == Ok([] + [e]);
  }
}
