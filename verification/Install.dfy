/**
 The installer of tools/kaggle_bonsai_job.py: an archive is verified in a temporary directory and then
 published file by file, the manifest last. At every moment a manifest in the destination means a
 whole, verified model, and nothing that was there before has changed.
 */
module Install {
  import opened Common
  import opened FileTree
  import opened Stream

  const MODEL_ID: string := "prism-ml/Ternary-Bonsai-2-27B-gguf"
  const REVISION: string := "6ed5e12bf84b7a63069882c91dd9e9218647d17b"
  const MODEL_FILE: string := "Ternary-Bonsai-2-27B-PTQ1_0.gguf"
  const MODEL_SIZE: int := 5_946_648_928
  const MODEL_DIGEST: string := "53107f530aa52eb00912263ab1ee29bd199261c87cd7b4ad4ca1318c1fe33ee3"
  const MANIFEST_FILE: string := "manifest.json"
  const SUPPORT_LIMIT: int := 1024 * 1024
  const METADATA_LIMIT: int := 2 * 1024 * 1024

  /** The recorded files in the order in which they are verified and published. */
  const RECORDED: seq<string> := ["LICENSE", "NOTICE.txt", "README.md", MODEL_FILE]
  const PUBLISHED: seq<string> := RECORDED + [MANIFEST_FILE]

  datatype Upstream = Upstream(modelId: string, revision: string, modelFile: string, digest: string)

  /** One entry of the manifest: whether it has exactly the two fields, and these. */
  datatype Record = Record(exact: bool, size: int, sha256: Option<string>)

  datatype Manifest = Manifest(schema: int, upstream: Option<Upstream>, files: map<string, Record>)

  /** An archive member with what reading it delivers. */
  datatype Member = Member(name: string, regular: bool, size: int, parts: seq<Content>)

  datatype Tools = Tools(hash: Content -> string, parse: Content -> Option<Manifest>)

  // ----- Acceptable archives -----

  function Limit(name: string): int {
    if name == MODEL_FILE then MODEL_SIZE else METADATA_LIMIT
  }

  function Largest(name: string): int {
    if name == MODEL_FILE then MODEL_SIZE else SUPPORT_LIMIT
  }

  predicate MemberOk(m: Member) {
    m.name in PUBLISHED && m.regular && 0 <= m.size <= Limit(m.name)
  }

  function Named(archive: seq<Member>, name: string): Option<Member> {
    if archive == [] then None
    else if archive[|archive| - 1].name == name then Some(archive[|archive| - 1])
    else Named(archive[..|archive| - 1], name)
  }

  /** Exactly the expected files, each once. */
  ghost predicate Listed(archive: seq<Member>) {
    && (forall i | 0 <= i < |archive| :: MemberOk(archive[i]))
    && (forall i, j | 0 <= i < j < |archive| :: archive[i].name != archive[j].name)
    && (forall n | n in PUBLISHED :: Named(archive, n).Some?)
  }

  function Names(list: seq<string>): set<string> {
    set n | n in list
  }

  /** The manifest is for the pinned model and records exactly the expected files. */
  predicate Pinned(man: Manifest) {
    && man.schema == 1
    && man.upstream == Some(Upstream(MODEL_ID, REVISION, MODEL_FILE, MODEL_DIGEST))
    && man.files.Keys == Names(RECORDED)
    && MODEL_FILE in man.files && man.files[MODEL_FILE] == Record(true, MODEL_SIZE, Some(MODEL_DIGEST))
  }

  predicate EntryOk(tools: Tools, record: Record, member: Member, name: string) {
    && record.exact && record.size == member.size && record.sha256.Some? && IsDigest(record.sha256.value)
    && Sensible(record.size, record.sha256, CHUNK_SIZE, Some(Largest(name)))
    && Delivers(tools.hash, member.parts, record.size, record.sha256, CHUNK_SIZE)
  }

  function FirstRead(parts: seq<Content>): Content {
    if parts == [] then [] else parts[0]
  }

  function ParseBounded(tools: Tools, bytes: Content): Option<Manifest> {
    if |bytes| > METADATA_LIMIT then None else tools.parse(bytes)
  }

  ghost predicate EntriesOk(tools: Tools, man: Manifest, archive: seq<Member>) {
    forall n | n in RECORDED ::
      n in man.files && Named(archive, n).Some? && EntryOk(tools, man.files[n], Named(archive, n).value, n)
  }

  function ManifestBytes(archive: seq<Member>): Content {
    var m := Named(archive, MANIFEST_FILE);
    if m.None? then [] else FirstRead(m.value.parts)
  }

  /** The archive lists exactly the expected files and its manifest is for the pinned model. */
  ghost predicate Readable(tools: Tools, archive: seq<Member>) {
    Listed(archive) && var man := ParseBounded(tools, ManifestBytes(archive)); man.Some? && Pinned(man.value)
  }

  /** The archive holds the pinned model: every recorded file is delivered in its recorded size and digest. */
  ghost predicate Acceptable(tools: Tools, archive: seq<Member>) {
    Readable(tools, archive) && EntriesOk(tools, ParseBounded(tools, ManifestBytes(archive)).value, archive)
  }

  // ----- Safe trees -----

  /** A recorded file is in the directory, with its recorded size and digest. */
  ghost predicate OnDisk(tools: Tools, t: Tree, dir: Path, man: Manifest, name: string) {
    && Child(dir, name) in t && name in man.files
    && Verified(tools.hash, t[Child(dir, name)], man.files[name].size, man.files[name].sha256)
    && man.files[name].sha256.Some?
  }

  /** The directory holds a manifest of the pinned model and everything that it records. */
  ghost predicate Installed(tools: Tools, t: Tree, dest: Path) {
    && Child(dest, MANIFEST_FILE) in t && t[Child(dest, MANIFEST_FILE)].File?
    && var man := tools.parse(t[Child(dest, MANIFEST_FILE)].content);
       man.Some? && Pinned(man.value) && forall n | n in RECORDED :: OnDisk(tools, t, dest, man.value, n)
  }

  /** Whatever was there is unchanged, and a manifest means an installed model. */
  ghost predicate Safe(tools: Tools, before: Tree, dest: Path, t: Tree) {
    Kept(before, t) && (Child(dest, MANIFEST_FILE) in t ==> Installed(tools, t, dest))
  }

  ghost predicate AllSafe(tools: Tools, before: Tree, dest: Path, trace: seq<Tree>, n: nat) {
    n <= |trace| && forall k | n <= k < |trace| :: Safe(tools, before, dest, trace[k])
  }

  /** A path other than the top level exists only in an existing directory. */
  ghost predicate Rooted(t: Tree) {
    forall p | p in t :: p.Root? || p.parent.Root? || p.parent in t
  }

  lemma {:induction false} NothingBelow(t: Tree, top: Path, p: Path)
    requires Rooted(t) && top !in t && !top.Root? && Under(top, p)
    ensures p !in t
  {
    if p != top {
      NothingBelow(t, top, p.parent);
      UnderIsDeeper(top, p.parent);
    }
  }

  // ----- Directories -----

  predicate IsDirectory(node: Node) {
    node.Directory? || (node.Link? && node.toDirectory)
  }

  /** The directory exists or can be made together with its parents. */
  predicate CanMake(t: Tree, p: Path) {
    p.Root? || if p in t then IsDirectory(t[p]) else CanMake(t, p.parent)
  }

  /** Only new directories at or above p. */
  ghost predicate OnlyAbove(before: Tree, t: Tree, p: Path) {
    forall q :: Same(before, t, q) || (q !in before && Under(q, p))
  }

  ghost predicate AllAbove(before: Tree, trace: seq<Tree>, n: nat, p: Path) {
    n <= |trace| && forall k | n <= k < |trace| :: OnlyAbove(before, trace[k], p)
  }

  method MakeDirectories(fs: FileSystem, p: Path) returns (r: Result<()>)
    modifies fs
    ensures old(fs.trace) <= fs.trace && fs.faulty == (old(fs.faulty) || r.Faulted?)
    ensures AllAbove(old(fs.tree), fs.trace, |old(fs.trace)|, p) && OnlyAbove(old(fs.tree), fs.tree, p)
    ensures !r.Faulted? ==> (r.Ok? <==> CanMake(old(fs.tree), p))
    decreases p
  {
    if p.Root? {
      return Ok(());
    }
    if p in fs.tree {
      var node := fs.tree[p];
      return if node.Directory? || (node.Link? && node.toDirectory) then Ok(()) else Refused;
    }
    r := MakeDirectories(fs, p.parent);
    assert p !in fs.tree by {
      assert Same(old(fs.tree), fs.tree, p) || Under(p, p.parent);
      if Under(p, p.parent) {
        UnderIsDeeper(p, p.parent);
      }
    }
    if r.Ok? {
      r := fs.Create(p, Directory);
    }
  }

  // ----- Working in the temporary directory -----

  /** Everything outside the directory is as before. */
  ghost predicate OnlyUnder(before: Tree, t: Tree, top: Path) {
    forall p | !Under(top, p) :: Same(before, t, p)
  }

  ghost predicate AllUnder(before: Tree, trace: seq<Tree>, n: nat, top: Path) {
    n <= |trace| && forall k | n <= k < |trace| :: OnlyUnder(before, trace[k], top)
  }

  lemma StagingStaysInside(hash: Content -> string, before: Tree, now: Tree, trace: seq<Tree>, n: nat, m: nat,
                           top: Path,
                           t: Tree, name: string, size: int, sha: Option<string>)
    requires OnlyUnder(before, now, top) && n <= m <= |trace| && AllUnder(before, trace[..m], n, top)
    requires AllStaged(hash, now, trace, m, top, name, size, sha) && Staged(hash, now, t, top, name, size, sha)
    ensures AllUnder(before, trace, n, top) && OnlyUnder(before, t, top)
  {
    StagedInside(hash, before, now, t, top, name, size, sha);
    forall k | n <= k < |trace| ensures OnlyUnder(before, trace[k], top) {
      if k < m {
        assert trace[k] == trace[..m][k];
      } else {
        StagedInside(hash, before, now, trace[k], top, name, size, sha);
      }
    }
  }

  lemma StagedInside(hash: Content -> string, before: Tree, now: Tree, t: Tree, top: Path, name: string, size: int,
                     sha: Option<string>)
    requires OnlyUnder(before, now, top) && Staged(hash, now, t, top, name, size, sha)
    ensures OnlyUnder(before, t, top)
  {
    forall p | !Under(top, p) ensures Same(before, t, p) {
      assert Under(top, top);
      assert p != Child(top, name) && p != Partial(top, name);
      assert Same(before, now, p) && Same(now, t, p);
    }
  }

  /** The first k recorded files are verified in the directory, and nothing else is in it. */
  ghost predicate StagedTo(tools: Tools, t: Tree, temp: Path, man: Manifest, k: nat)
    requires k <= |RECORDED|
  {
    && (forall j | 0 <= j < k :: OnDisk(tools, t, temp, man, RECORDED[j]))
    && (forall n | Child(temp, n) in t :: n in RECORDED[..k])
  }

  /** The names differ already in their lengths. */
  const LENGTHS: seq<nat> := [7, 10, 9, 32]

  lemma NameLength(k: nat)
    requires k < |RECORDED|
    ensures |RECORDED[k]| == LENGTHS[k] && |MANIFEST_FILE| == 13
  {
    assert |"LICENSE"| == 7 && |"NOTICE.txt"| == 10 && |"README.md"| == 9;
  }

  lemma NamesApart(k: nat)
    requires k < |RECORDED|
    ensures RECORDED[k] !in RECORDED[..k] && RECORDED[k] + ".partial" !in RECORDED[..k]
    ensures RECORDED[k] != MANIFEST_FILE
  {
    NameLength(k);
    forall j | 0 <= j < k ensures RECORDED[j] != RECORDED[k] && RECORDED[j] != RECORDED[k] + ".partial" {
      NameLength(j);
    }
  }

  /** Verifies the recorded files into the empty temporary directory. */
  method StageAll(fs: FileSystem, tools: Tools, man: Manifest, members: map<string, Member>, temp: Path)
    returns (r: Result<()>)
    requires Pinned(man) && (forall n | n in RECORDED :: n in members)
    requires forall n :: Child(temp, n) !in fs.tree
    modifies fs
    ensures old(fs.trace) <= fs.trace && (old(fs.faulty) ==> fs.faulty) && (r.Faulted? ==> fs.faulty)
    ensures AllUnder(old(fs.tree), fs.trace, |old(fs.trace)|, temp) && OnlyUnder(old(fs.tree), fs.tree, temp)
    ensures r.Ok? ==> StagedTo(tools, fs.tree, temp, man, |RECORDED|)
    ensures !fs.faulty ==>
              (r.Ok? <==> forall n | n in RECORDED :: n in man.files && EntryOk(tools, man.files[n], members[n], n))
    ensures temp in old(fs.tree) ==> temp in fs.tree
  {
    hide Pinned, EntryOk, AllStaged, Staged, OnlyUnder, AllUnder, StagedTo;
    RecordedFiles(man);
    ghost var before, n := fs.tree, |fs.trace|;
    NothingStaged(tools, before, fs.trace, temp, man);
    for k := 0 to |RECORDED|
      invariant old(fs.trace) <= fs.trace && (old(fs.faulty) ==> fs.faulty)
      invariant AllUnder(before, fs.trace, n, temp) && OnlyUnder(before, fs.tree, temp)
      invariant StagedTo(tools, fs.tree, temp, man, k)
      invariant forall j | 0 <= j < k :: EntryOk(tools, man.files[RECORDED[j]], members[RECORDED[j]], RECORDED[j])
      invariant temp in before ==> temp in fs.tree
    {
      r := StageOne(fs, tools, man, members[RECORDED[k]], temp, k, before, n);
      if !r.Ok? {
        return r;
      }
    }
    return Ok(());
  }

  lemma RecordedFiles(man: Manifest)
    requires Pinned(man)
    ensures forall k | 0 <= k < |RECORDED| :: RECORDED[k] in man.files
    ensures man.files.Keys == Names(RECORDED)
  {
    forall k | 0 <= k < |RECORDED| ensures RECORDED[k] in man.files {
      var name: string := RECORDED[k];
      assert name in RECORDED;
      assert name in Names(RECORDED);
      assert name in man.files.Keys;
    }
  }

  lemma NothingStaged(tools: Tools, before: Tree, trace: seq<Tree>, temp: Path, man: Manifest)
    requires forall n :: Child(temp, n) !in before
    ensures StagedTo(tools, before, temp, man, 0) && OnlyUnder(before, before, temp)
            && AllUnder(before, trace, |trace|, temp)
  {
  }

  /** Verifies one recorded file. */
  method StageOne(fs: FileSystem, tools: Tools, man: Manifest, member: Member, temp: Path, k: nat, ghost before: Tree,
                  ghost n: nat)
    returns (r: Result<()>)
    requires k < |RECORDED| && RECORDED[k] in man.files && n <= |fs.trace|
    requires AllUnder(before, fs.trace, n, temp) && OnlyUnder(before, fs.tree, temp)
             && StagedTo(tools, fs.tree, temp, man, k)
    modifies fs
    ensures old(fs.trace) <= fs.trace && (old(fs.faulty) ==> fs.faulty) && (r.Faulted? ==> fs.faulty)
    ensures AllUnder(before, fs.trace, n, temp) && OnlyUnder(before, fs.tree, temp)
    ensures r.Ok? ==>
              StagedTo(tools, fs.tree, temp, man, k + 1) && EntryOk(tools, man.files[RECORDED[k]], member, RECORDED[k])
    ensures !fs.faulty && !r.Ok? ==> !EntryOk(tools, man.files[RECORDED[k]], member, RECORDED[k])
    ensures temp in old(fs.tree) ==> temp in fs.tree
  {
    hide AllStaged, Staged, OnlyUnder, AllUnder, StagedTo, Sensible, Delivers, IsDigest, Verified, Body;
    var name := RECORDED[k];
    var record := man.files[name];
    if !record.exact || record.size != member.size || record.sha256.None? || !IsDigest(record.sha256.value) {
      return Refused;
    }
    ghost var now, m := fs.tree, |fs.trace|;
    RoomForNext(tools, now, temp, man, k);
    var receipt :=
          StreamVerified(fs, tools.hash, member.parts, temp, name, record.size, record.sha256, CHUNK_SIZE,
                         Some(Largest(name)));
    assert fs.trace[..m] == old(fs.trace);
    StagingStaysInside(tools.hash, before, now, fs.trace, n, m, temp, fs.tree, name, record.size, record.sha256);
    StagingKeepsDirectory(tools.hash, now, fs.tree, temp, name, record.size, record.sha256);
    match receipt
    case Ok(_) =>
      DeliveredIsVerified(tools.hash, member.parts, record.size, record.sha256, CHUNK_SIZE);
      StagedNext(tools, now, temp, man, k, Body(member.parts));
      return Ok(());
    case Refused => return Refused;
    case Faulted => return Faulted;
  }

  lemma StagingKeepsDirectory(hash: Content -> string, now: Tree, t: Tree, top: Path, name: string, size: int,
                              sha: Option<string>)
    requires Staged(hash, now, t, top, name, size, sha)
    ensures top in now ==> top in t
  {
    assert Depth(top) != Depth(Child(top, name)) && Depth(top) != Depth(Partial(top, name));
    assert Same(now, t, top);
  }

  lemma RoomForNext(tools: Tools, t: Tree, temp: Path, man: Manifest, k: nat)
    requires k < |RECORDED| && StagedTo(tools, t, temp, man, k)
    ensures Child(temp, RECORDED[k]) !in t && Partial(temp, RECORDED[k]) !in t
  {
    hide OnDisk;
    NamesApart(k);
  }

  lemma StagedNext(tools: Tools, t: Tree, temp: Path, man: Manifest, k: nat, c: Content)
    requires k < |RECORDED| && StagedTo(tools, t, temp, man, k) && RECORDED[k] in man.files
             && man.files[RECORDED[k]].sha256.Some?
    requires Verified(tools.hash, File(c), man.files[RECORDED[k]].size, man.files[RECORDED[k]].sha256)
    ensures StagedTo(tools, t[Child(temp, RECORDED[k]) := File(c)], temp, man, k + 1)
  {
    hide Verified;
    var next := t[Child(temp, RECORDED[k]) := File(c)];
    forall j | 0 <= j < k + 1 ensures OnDisk(tools, next, temp, man, RECORDED[j]) {
      assert j < k ==> OnDisk(tools, t, temp, man, RECORDED[j]);
      NamesApart(k);
      assert j < k ==> RECORDED[j] in RECORDED[..k];
    }
    forall n | Child(temp, n) in next ensures n in RECORDED[..k + 1] {
      assert RECORDED[..k + 1] == RECORDED[..k] + [RECORDED[k]];
      assert n == RECORDED[k] || n in RECORDED[..k];
    }
  }

  // ----- Publishing -----

  /** Two directories with nothing in common. */
  ghost predicate Disjoint(temp: Path, dest: Path) {
    temp.Child? && dest.Child? && temp.parent == dest.parent && temp != dest
  }

  lemma {:induction false} DisjointBelow(temp: Path, dest: Path, p: Path)
    requires Disjoint(temp, dest) && Under(dest, p)
    ensures !Under(temp, p)
  {
    if p != dest {
      DisjointBelow(temp, dest, p.parent);
    } else if Under(temp, dest.parent) {
      UnderIsDeeper(temp, dest.parent);
    }
    if p != dest && p == temp {
      UnderIsDeeper(dest, p.parent);
    }
  }

  /**
   The first k files are in the destination, and nothing else is; the others still wait in the temporary
   directory.
   */
  ghost predicate PublishedTo(tools: Tools, t: Tree, temp: Path, dest: Path, man: Manifest, bytes: Content, k: nat)
    requires k <= |RECORDED| + 1
  {
    && (forall j | 0 <= j < |RECORDED| :: OnDisk(tools, t, if j < k then dest else temp, man, RECORDED[j]))
    && (forall n | Child(dest, n) in t :: n in PUBLISHED[..k])
    && (var m := Child(if k <= |RECORDED| then temp else dest, MANIFEST_FILE); m in t && t[m] == File(bytes))
  }

  /**
   While files are published, only the two directories change, and a manifest in the destination means
   an installed model.
   */
  ghost predicate Publishing(tools: Tools, before: Tree, t: Tree, temp: Path, dest: Path) {
    && (forall p | !Under(temp, p) && !Under(dest, p) :: Same(before, t, p))
    && (Child(dest, MANIFEST_FILE) in t ==> Installed(tools, t, dest))
  }

  ghost predicate AllPublishing(tools: Tools, before: Tree, trace: seq<Tree>, n: nat, temp: Path, dest: Path) {
    n <= |trace| && forall k | n <= k < |trace| :: Publishing(tools, before, trace[k], temp, dest)
  }

  lemma PublishedName(k: nat)
    requires k <= |RECORDED|
    ensures k < |PUBLISHED| && PUBLISHED[k] == if k < |RECORDED| then RECORDED[k] else MANIFEST_FILE
    ensures PUBLISHED[k] !in PUBLISHED[..k]
    ensures forall j | 0 <= j < |RECORDED| && j != k :: RECORDED[j] != PUBLISHED[k]
    ensures k < |RECORDED| ==> MANIFEST_FILE !in PUBLISHED[..k + 1]
  {
    forall j | 0 <= j < |RECORDED| ensures |RECORDED[j]| == LENGTHS[j] && |MANIFEST_FILE| == 13 {
      NameLength(j);
    }
    assert forall j | 0 <= j < |RECORDED| :: PUBLISHED[j] == RECORDED[j];
  }

  /** The tree after the k-th link, and after its temporary name is gone. */
  lemma PublishStep(tools: Tools, before: Tree, t: Tree, temp: Path, dest: Path, man: Manifest, bytes: Content, k: nat)
    requires Disjoint(temp, dest) && k <= |RECORDED| && Pinned(man) && tools.parse(bytes) == Some(man)
    requires PublishedTo(tools, t, temp, dest, man, bytes, k) && Publishing(tools, before, t, temp, dest)
    ensures k < |PUBLISHED|
    ensures var source, target := Child(temp, PUBLISHED[k]), Child(dest, PUBLISHED[k]);
            && source in t && target !in t && source != target
            && Publishing(tools, before, t[target := t[source]], temp, dest)
            && Publishing(tools, before, t[target := t[source]] - {source}, temp, dest)
            && PublishedTo(tools, t[target := t[source]] - {source}, temp, dest, man, bytes, k + 1)
  {
    hide Pinned, Under, Installed, Publishing, PublishedTo;
    PublishedName(k);
    LinkKeepsPublished(tools, t, temp, dest, man, bytes, k);
    var source, target := Child(temp, PUBLISHED[k]), Child(dest, PUBLISHED[k]);
    var linked := t[target := t[source]];
    PublishingStep(tools, before, t, temp, dest, man, bytes, k, linked);
    PublishingStep(tools, before, t, temp, dest, man, bytes, k, linked - {source});
  }

  /** All recorded files are in the destination as soon as its manifest is. */
  ghost predicate LinkedTo(tools: Tools, t: Tree, dest: Path, man: Manifest, bytes: Content, k: nat)
    requires k <= |RECORDED|
  {
    && (forall j | 0 <= j < |RECORDED| && j <= k :: OnDisk(tools, t, dest, man, RECORDED[j]))
    && (forall n | Child(dest, n) in t :: n in PUBLISHED[..k + 1])
    && (k == |RECORDED| ==> Child(dest, MANIFEST_FILE) in t && t[Child(dest, MANIFEST_FILE)] == File(bytes))
  }

  lemma LinkKeepsPublished(tools: Tools, t: Tree, temp: Path, dest: Path, man: Manifest, bytes: Content, k: nat)
    requires Disjoint(temp, dest) && k <= |RECORDED| && PublishedTo(tools, t, temp, dest, man, bytes, k)
    ensures k < |PUBLISHED|
    ensures var source, target := Child(temp, PUBLISHED[k]), Child(dest, PUBLISHED[k]);
            && source in t && target !in t && source != target
            && LinkedTo(tools, t[target := t[source]], dest, man, bytes, k)
            && LinkedTo(tools, t[target := t[source]] - {source}, dest, man, bytes, k)
            && PublishedTo(tools, t[target := t[source]] - {source}, temp, dest, man, bytes, k + 1)
  {
    hide Verified;
    PublishedName(k);
    var source, target := Child(temp, PUBLISHED[k]), Child(dest, PUBLISHED[k]);
    assert k < |RECORDED| ==> OnDisk(tools, t, temp, man, RECORDED[k]);
    var linked := t[target := t[source]];
    var moved := linked - {source};
    assert PUBLISHED[..k + 1] == PUBLISHED[..k] + [PUBLISHED[k]];
    forall j | 0 <= j < |RECORDED|
      ensures OnDisk(tools, linked, if j < k + 1 then dest else temp, man, RECORDED[j])
      ensures OnDisk(tools, moved, if j < k + 1 then dest else temp, man, RECORDED[j])
    {
      assert OnDisk(tools, t, if j < k then dest else temp, man, RECORDED[j]);
      assert j != k ==> RECORDED[j] != PUBLISHED[k];
    }
  }

  lemma PublishingStep(tools: Tools, before: Tree, t: Tree, temp: Path, dest: Path, man: Manifest, bytes: Content,
                       k: nat, next: Tree)
    requires k <= |RECORDED| && k < |PUBLISHED| && Pinned(man) && tools.parse(bytes) == Some(man)
    requires Publishing(tools, before, t, temp, dest) && LinkedTo(tools, next, dest, man, bytes, k)
    requires forall p | p != Child(temp, PUBLISHED[k]) && p != Child(dest, PUBLISHED[k]) :: Same(t, next, p)
    ensures Publishing(tools, before, next, temp, dest)
  {
    hide Pinned, OnDisk;
    PublishedName(k);
    assert Under(temp, Child(temp, PUBLISHED[k])) && Under(dest, Child(dest, PUBLISHED[k])) by {
      assert Under(temp, temp) && Under(dest, dest);
    }
    forall p | !Under(temp, p) && !Under(dest, p) ensures Same(before, next, p) {
      assert Same(before, t, p) && Same(t, next, p);
    }
    if Child(dest, MANIFEST_FILE) in next {
      assert MANIFEST_FILE in PUBLISHED[..k + 1];
      assert k == |RECORDED|;
      forall n | n in RECORDED ensures OnDisk(tools, next, dest, man, n) {
        var j :| 0 <= j < |RECORDED| && RECORDED[j] == n;
        assert OnDisk(tools, next, dest, man, RECORDED[j]);
      }
    }
  }

  /** Moves the verified files into the new directory, the manifest last. */
  method PublishAll(fs: FileSystem, tools: Tools, man: Manifest, bytes: Content, temp: Path, dest: Path,
                    ghost before: Tree, ghost n: nat)
    returns (r: Result<()>)
    requires Disjoint(temp, dest) && Pinned(man) && tools.parse(bytes) == Some(man) && n <= |fs.trace|
    requires PublishedTo(tools, fs.tree, temp, dest, man, bytes, 0)
    requires Publishing(tools, before, fs.tree, temp, dest) && AllPublishing(tools, before, fs.trace, n, temp, dest)
    modifies fs
    ensures old(fs.trace) <= fs.trace && (old(fs.faulty) ==> fs.faulty) && (r.Faulted? ==> fs.faulty)
            && (!r.Ok? ==> fs.faulty)
    ensures Publishing(tools, before, fs.tree, temp, dest) && AllPublishing(tools, before, fs.trace, n, temp, dest)
    ensures r.Ok? ==> PublishedTo(tools, fs.tree, temp, dest, man, bytes, |PUBLISHED|)
  {
    hide Pinned, Publishing, PublishedTo, AllPublishing;
    for k := 0 to |PUBLISHED|
      invariant old(fs.trace) <= fs.trace && (old(fs.faulty) ==> fs.faulty)
      invariant Publishing(tools, before, fs.tree, temp, dest) && AllPublishing(tools, before, fs.trace, n, temp, dest)
      invariant PublishedTo(tools, fs.tree, temp, dest, man, bytes, k)
    {
      PublishStep(tools, before, fs.tree, temp, dest, man, bytes, k);
      ghost var t, trace := fs.tree, fs.trace;
      var source, target := Child(temp, PUBLISHED[k]), Child(dest, PUBLISHED[k]);
      ghost var linked := t[target := t[source]];
      AllPublishingMore(tools, before, trace, linked, linked - {source}, n, temp, dest);
      r := PublishNoClobber(fs, source, target);
      if !r.Ok? {
        return r;
      }
    }
    return Ok(());
  }

  lemma AllPublishingMore(tools: Tools, before: Tree, trace: seq<Tree>, t: Tree, u: Tree, n: nat, temp: Path,
                          dest: Path)
    requires AllPublishing(tools, before, trace, n, temp, dest)
    requires Publishing(tools, before, t, temp, dest) && Publishing(tools, before, u, temp, dest)
    ensures AllPublishing(tools, before, trace + [t], n, temp, dest)
            && AllPublishing(tools, before, trace + [t, u], n, temp, dest)
  {
  }

  lemma UnderIsPublishing(tools: Tools, before: Tree, t: Tree, temp: Path, dest: Path)
    requires Disjoint(temp, dest) && OnlyUnder(before, t, temp) && forall n :: Child(dest, n) !in before
    ensures Publishing(tools, before, t, temp, dest) && Same(before, t, dest) && forall n :: Child(dest, n) !in t
  {
    hide Installed;
    DisjointBelow(temp, dest, dest);
    forall n ensures Child(dest, n) !in t {
      assert Under(dest, dest);
      DisjointBelow(temp, dest, Child(dest, n));
      assert Same(before, t, Child(dest, n));
    }
  }

  lemma AllUnderIsPublishing(tools: Tools, before: Tree, trace: seq<Tree>, n: nat, temp: Path, dest: Path)
    requires Disjoint(temp, dest) && AllUnder(before, trace, n, temp) && forall n :: Child(dest, n) !in before
    ensures AllPublishing(tools, before, trace, n, temp, dest)
  {
    hide OnlyUnder, Publishing;
    forall k | n <= k < |trace| ensures Publishing(tools, before, trace[k], temp, dest) {
      UnderIsPublishing(tools, before, trace[k], temp, dest);
    }
  }

  lemma InsideChange(before: Tree, trace: seq<Tree>, n: nat, t: Tree, temp: Path, name: string, node: Node)
    requires OnlyUnder(before, t, temp) && AllUnder(before, trace, n, temp)
    ensures OnlyUnder(before, t[Child(temp, name) := node], temp)
            && AllUnder(before, trace + [t[Child(temp, name) := node]], n, temp)
  {
    assert Under(temp, temp);
  }

  /** Writes the manifest beside the verified files. */
  method WriteManifest(fs: FileSystem, tools: Tools, man: Manifest, bytes: Content, temp: Path, ghost before: Tree,
                       ghost n: nat)
    returns (r: Result<()>)
    requires StagedTo(tools, fs.tree, temp, man, |RECORDED|) && OnlyUnder(before, fs.tree, temp)
             && AllUnder(before, fs.trace, n, temp)
    modifies fs
    ensures old(fs.trace) <= fs.trace && fs.faulty == (old(fs.faulty) || r.Faulted?) && !r.Refused?
    ensures OnlyUnder(before, fs.tree, temp) && AllUnder(before, fs.trace, n, temp)
    ensures r.Ok? ==> fs.tree == old(fs.tree)[Child(temp, MANIFEST_FILE) := File(bytes)]
  {
    hide OnlyUnder, AllUnder, StagedTo;
    NoManifestYet(tools, fs.tree, temp, man);
    InsideChange(before, fs.trace, n, fs.tree, temp, MANIFEST_FILE, File([]));
    r := fs.Create(Child(temp, MANIFEST_FILE), File([]));
    if r.Ok? {
      assert [] + bytes == bytes;
      ghost var t, trace := fs.tree, fs.trace;
      r := fs.Append(Child(temp, MANIFEST_FILE), bytes);
      TornInside(before, t, fs.trace[|trace|], trace, n, temp, bytes);
      if r.Ok? {
        InsideChange(before, trace + [fs.trace[|trace|]], n, t, temp, MANIFEST_FILE, File(bytes));
        assert trace + [fs.trace[|trace|]] + [fs.tree] == fs.trace;
      }
    }
  }

  lemma TornInside(before: Tree, t: Tree, torn: Tree, trace: seq<Tree>, n: nat, temp: Path, bytes: Content)
    requires Child(temp, MANIFEST_FILE) in t && t[Child(temp, MANIFEST_FILE)].File?
    requires Torn(t, torn, Child(temp, MANIFEST_FILE), bytes) && OnlyUnder(before, t, temp)
             && AllUnder(before, trace, n, temp)
    ensures OnlyUnder(before, torn, temp) && AllUnder(before, trace + [torn], n, temp)
  {
    hide OnlyUnder, AllUnder;
    var p := Child(temp, MANIFEST_FILE);
    var m :| 0 <= m <= |bytes| && torn == t[p := File(t[p].content + bytes[..m])];
    InsideChange(before, trace, n, t, temp, MANIFEST_FILE, File(t[p].content + bytes[..m]));
  }

  lemma NoManifestYet(tools: Tools, t: Tree, temp: Path, man: Manifest)
    requires StagedTo(tools, t, temp, man, |RECORDED|)
    ensures Child(temp, MANIFEST_FILE) !in t
  {
    hide OnDisk;
    if Child(temp, MANIFEST_FILE) in t {
      var j :| 0 <= j < |RECORDED| && RECORDED[j] == MANIFEST_FILE;
      NamesApart(j);
    }
  }

  lemma ReadyToPublish(tools: Tools, before: Tree, staged: Tree, temp: Path, dest: Path, man: Manifest, bytes: Content)
    requires Disjoint(temp, dest) && StagedTo(tools, staged, temp, man, |RECORDED|)
    requires OnlyUnder(before, staged[Child(temp, MANIFEST_FILE) := File(bytes)], temp)
    requires forall n :: Child(dest, n) !in before
    ensures var t := staged[Child(temp, MANIFEST_FILE) := File(bytes)][dest := Directory];
            PublishedTo(tools, t, temp, dest, man, bytes, 0) && Publishing(tools, before, t, temp, dest)
  {
    hide Installed, Verified;
    var written := staged[Child(temp, MANIFEST_FILE) := File(bytes)];
    var t := written[dest := Directory];
    UnderIsPublishing(tools, before, written, temp, dest);
    assert Under(dest, dest) && Depth(Child(temp, MANIFEST_FILE)) != Depth(dest);
    forall n ensures Child(dest, n) !in t && Child(dest, n) != dest {
      assert Depth(Child(dest, n)) != Depth(dest);
    }
    forall j | 0 <= j < |RECORDED| ensures OnDisk(tools, t, temp, man, RECORDED[j]) {
      assert OnDisk(tools, staged, temp, man, RECORDED[j]);
      assert Depth(Child(temp, RECORDED[j])) != Depth(dest);
      NamesApart(j);
    }
  }

  /** Everything that happens while the temporary directory exists. */
  method Fill(fs: FileSystem, tools: Tools, man: Manifest, bytes: Content, members: map<string, Member>, temp: Path,
              dest: Path)
    returns (r: Result<()>)
    requires Disjoint(temp, dest) && Pinned(man) && tools.parse(bytes) == Some(man)
             && (forall n | n in RECORDED :: n in members)
    requires dest !in fs.tree && (forall n :: Child(temp, n) !in fs.tree) && (forall n :: Child(dest, n) !in fs.tree)
    modifies fs
    ensures old(fs.trace) <= fs.trace && (old(fs.faulty) ==> fs.faulty) && (r.Faulted? ==> fs.faulty)
    ensures Publishing(tools, old(fs.tree), fs.tree, temp, dest)
    ensures AllPublishing(tools, old(fs.tree), fs.trace, |old(fs.trace)|, temp, dest)
    ensures r.Ok? ==> PublishedTo(tools, fs.tree, temp, dest, man, bytes, |PUBLISHED|)
    ensures !fs.faulty ==>
              (r.Ok? <==> forall n | n in RECORDED :: n in man.files && EntryOk(tools, man.files[n], members[n], n))
    ensures !fs.faulty && !r.Ok? ==> OnlyUnder(old(fs.tree), fs.tree, temp)
  {
    hide Pinned, EntryOk, OnlyUnder, AllUnder, StagedTo, Publishing, AllPublishing, PublishedTo, Under;
    ghost var before, n := fs.tree, |fs.trace|;
    r := StageAll(fs, tools, man, members, temp);
    UnderIsPublishing(tools, before, fs.tree, temp, dest);
    AllUnderIsPublishing(tools, before, fs.trace, n, temp, dest);
    if !r.Ok? {
      return r;
    }
    ghost var staged := fs.tree;
    r := WriteManifest(fs, tools, man, bytes, temp, before, n);
    UnderIsPublishing(tools, before, fs.tree, temp, dest);
    AllUnderIsPublishing(tools, before, fs.trace, n, temp, dest);
    if !r.Ok? {
      return r;
    }
    ReadyToPublish(tools, before, staged, temp, dest, man, bytes);
    ghost var trace := fs.trace;
    r := fs.Create(dest, Directory);
    if !r.Ok? {
      return r;
    }
    AllPublishingMore(tools, before, trace, fs.tree, fs.tree, n, temp, dest);
    r := PublishAll(fs, tools, man, bytes, temp, dest, before, n);
  }

  // ----- Cleaning up -----

  /** Removes the temporary directory with all that is left in it, in any order. */
  method RemoveTree(fs: FileSystem, temp: Path) returns (r: Result<()>)
    modifies fs
    ensures old(fs.trace) <= fs.trace && fs.faulty == (old(fs.faulty) || r.Faulted?) && !r.Refused?
    ensures OnlyUnder(old(fs.tree), fs.tree, temp) && AllUnder(old(fs.tree), fs.trace, |old(fs.trace)|, temp)
    ensures r.Ok? ==> forall p | p in fs.tree :: !Under(temp, p)
  {
    while exists p | p in fs.tree :: Under(temp, p)
      invariant old(fs.trace) <= fs.trace && fs.faulty == old(fs.faulty)
      invariant OnlyUnder(old(fs.tree), fs.tree, temp) && AllUnder(old(fs.tree), fs.trace, |old(fs.trace)|, temp)
      decreases |fs.tree.Keys|
    {
      var p :| p in fs.tree && Under(temp, p);
      ghost var t := fs.tree;
      r := fs.Unlink(p);
      if !r.Ok? {
        return r;
      }
      assert fs.tree.Keys == t.Keys - {p};
    }
    return Ok(());
  }

  // ----- The archive -----

  ghost predicate Indexed(archive: seq<Member>, members: map<string, Member>) {
    forall n :: Named(archive, n) == if n in members then Some(members[n]) else None
  }

  lemma {:induction false} NamedIs(archive: seq<Member>, name: string)
    ensures Named(archive, name).Some? <==> exists i :: 0 <= i < |archive| && archive[i].name == name
  {
    if archive != [] && archive[|archive| - 1].name != name {
      var init := archive[..|archive| - 1];
      NamedIs(init, name);
      if Named(init, name).Some? {
        var i :| 0 <= i < |init| && init[i].name == name;
        assert archive[i].name == name;
      }
    }
  }

  /** Goes through the members; none may be unexpected, repeated, irregular or too large. */
  method CheckMembers(archive: seq<Member>) returns (members: Option<map<string, Member>>)
    ensures members.Some? <==> Listed(archive)
    ensures members.Some? ==> Indexed(archive, members.value) && forall n | n in PUBLISHED :: n in members.value
  {
    hide Named;
    var found: map<string, Member> := map[];
    IndexedNone();
    for k := 0 to |archive|
      invariant Indexed(archive[..k], found)
      invariant forall i | 0 <= i < k :: MemberOk(archive[i])
      invariant forall i, j | 0 <= i < j < k :: archive[i].name != archive[j].name
    {
      var m := archive[k];
      NamedIs(archive[..k], m.name);
      IndexedMore(archive, found, k);
      if m.name !in PUBLISHED || !m.regular {
        return None;
      }
      var limit := if m.name == MODEL_FILE then MODEL_SIZE else METADATA_LIMIT;
      if m.size < 0 || m.size > limit {
        return None;
      }
      if m.name in found {
        var i :| 0 <= i < k && archive[..k][i].name == m.name;
        assert archive[i].name == archive[k].name;
        return None;
      }
      forall i | 0 <= i < k ensures archive[i].name != m.name {
        assert archive[..k][i] == archive[i];
      }
      found := found[m.name := m];
    }
    assert archive[..|archive|] == archive;
    forall n ensures n in found <==> Named(archive, n).Some? {
      assert Named(archive, n) == if n in found then Some(found[n]) else None;
    }
    if forall n | n in PUBLISHED :: n in found {
      return Some(found);
    }
    return None;
  }

  lemma IndexedNone()
    ensures Indexed([], map[])
  {
  }

  lemma IndexedMore(archive: seq<Member>, found: map<string, Member>, k: nat)
    requires k < |archive| && Indexed(archive[..k], found)
    ensures Indexed(archive[..k + 1], found[archive[k].name := archive[k]])
  {
    var more := archive[..k + 1];
    assert more[..|more| - 1] == archive[..k] && more[|more| - 1] == archive[k];
    var next := found[archive[k].name := archive[k]];
    forall n ensures Named(more, n) == if n in next then Some(next[n]) else None {
      assert Named(archive[..k], n) == if n in found then Some(found[n]) else None;
    }
  }

  // ----- Installing -----

  /** Nothing can lie in a directory that is not there. */
  lemma NewDirectories(before: Tree, parent: Path, name: string, t: Tree)
    requires Rooted(before) && Child(parent, name) !in before && OnlyAbove(before, t, parent)
    ensures Child(parent, name) !in t && (forall n :: Child(Child(parent, name), n) !in t)
    ensures forall p | p in before :: !Under(Child(parent, name), p)
    ensures Kept(before, t)
  {
    var top := Child(parent, name);
    forall p | p in before ensures !Under(top, p) {
      if Under(top, p) {
        NothingBelow(before, top, p);
      }
    }
    if Under(top, parent) {
      UnderIsDeeper(top, parent);
    }
    assert Same(before, t, top) || Under(top, parent);
    forall n ensures Child(top, n) !in t {
      assert Under(top, top);
      assert Same(before, t, Child(top, n)) || Under(Child(top, n), parent);
      if Under(Child(top, n), parent) {
        UnderIsDeeper(Child(top, n), parent);
      }
      if Child(top, n) in before {
        NothingBelow(before, top, Child(top, n));
      }
    }
  }

  lemma AboveIsSafe(tools: Tools, before: Tree, trace: seq<Tree>, n: nat, parent: Path, name: string)
    requires Rooted(before) && Child(parent, name) !in before && AllAbove(before, trace, n, parent)
    ensures AllSafe(tools, before, Child(parent, name), trace, n)
  {
    hide OnlyAbove, Installed;
    forall k | n <= k < |trace| ensures Safe(tools, before, Child(parent, name), trace[k]) {
      NewDirectories(before, parent, name, trace[k]);
    }
  }

  /** What was there lies in neither directory, so it outlives their changes. */
  lemma PublishingIsSafe(tools: Tools, before: Tree, now: Tree, t: Tree, temp: Path, dest: Path)
    requires Kept(before, now) && Publishing(tools, now, t, temp, dest)
    requires forall p | p in before :: !Under(temp, p) && !Under(dest, p)
    ensures Safe(tools, before, dest, t)
  {
    hide Installed;
    forall p | p in before ensures Same(before, t, p) {
      assert Same(before, now, p) && Same(now, t, p);
    }
  }

  lemma CleaningIsSafe(tools: Tools, before: Tree, now: Tree, t: Tree, temp: Path, dest: Path)
    requires Disjoint(temp, dest) && Safe(tools, before, dest, now) && OnlyUnder(now, t, temp)
    requires forall p | p in before :: !Under(temp, p)
    ensures Safe(tools, before, dest, t)
    ensures Installed(tools, now, dest) ==> Installed(tools, t, dest) && Same(now, t, Child(dest, MANIFEST_FILE))
  {
    forall p | p in before ensures Same(before, t, p) {
      assert Same(before, now, p) && Same(now, t, p);
    }
    forall n ensures Same(now, t, Child(dest, n)) {
      assert Under(dest, dest);
      DisjointBelow(temp, dest, Child(dest, n));
    }
    if Child(dest, MANIFEST_FILE) in now && Installed(tools, now, dest) {
      var man := tools.parse(now[Child(dest, MANIFEST_FILE)].content).value;
      assert Same(now, t, Child(dest, MANIFEST_FILE));
      forall n | n in RECORDED ensures OnDisk(tools, t, dest, man, n) {
        assert OnDisk(tools, now, dest, man, n) && Same(now, t, Child(dest, n));
      }
    }
    assert Same(now, t, Child(dest, MANIFEST_FILE));
  }

  /** The safety of a run from the safety of its parts. */
  lemma AllPartsSafe(tools: Tools, before: Tree, made: Tree, filled: Tree, trace: seq<Tree>, a: nat, b: nat, c: nat,
                     temp: Path, dest: Path)
    requires a <= b <= c <= |trace| && Disjoint(temp, dest)
    requires AllSafe(tools, before, dest, trace[..b], a)
    requires AllPublishing(tools, made, trace[..c], b, temp, dest) && Publishing(tools, made, filled, temp, dest)
    requires AllUnder(filled, trace, c, temp)
    requires Kept(before, made) && forall p | p in before :: !Under(temp, p) && !Under(dest, p)
    ensures AllSafe(tools, before, dest, trace, a)
  {
    hide Safe, Publishing, OnlyUnder, Kept;
    forall k | a <= k < |trace| ensures Safe(tools, before, dest, trace[k]) {
      if k < b {
        assert trace[k] == trace[..b][k];
      } else if k < c {
        assert trace[k] == trace[..c][k];
        PublishingIsSafe(tools, before, made, trace[k], temp, dest);
      } else {
        PublishingIsSafe(tools, before, made, filled, temp, dest);
        CleaningIsSafe(tools, before, filled, trace[k], temp, dest);
      }
    }
  }

  /** All files published: the model is installed. */
  lemma PublishedIsInstalled(tools: Tools, t: Tree, temp: Path, dest: Path, man: Manifest, bytes: Content)
    requires Pinned(man) && tools.parse(bytes) == Some(man)
             && PublishedTo(tools, t, temp, dest, man, bytes, |PUBLISHED|)
    ensures Installed(tools, t, dest) && t[Child(dest, MANIFEST_FILE)] == File(bytes)
  {
    hide Pinned, OnDisk;
    forall n | n in RECORDED ensures OnDisk(tools, t, dest, man, n) {
      var j :| 0 <= j < |RECORDED| && RECORDED[j] == n;
      assert OnDisk(tools, t, dest, man, RECORDED[j]);
    }
  }

  /** Nothing but new directories on the way to the destination, and the destination itself. */
  ghost predicate Clean(before: Tree, t: Tree, parent: Path, dest: Path) {
    forall p :: Same(before, t, p) || (p !in before && (Under(p, parent) || Under(dest, p)))
  }

  /** Reads and checks the member list and the manifest. */
  method ReadManifest(tools: Tools, archive: seq<Member>) returns (r: Option<(map<string, Member>, Content, Manifest)>)
    ensures r.Some? <==> Readable(tools, archive)
    ensures r.Some? ==>
              && Indexed(archive, r.value.0) && (forall n | n in PUBLISHED :: n in r.value.0)
              && r.value.1 == ManifestBytes(archive) && ParseBounded(tools, r.value.1) == Some(r.value.2)
                && Pinned(r.value.2)
  {
    hide Listed, Pinned, Named;
    var members := CheckMembers(archive);
    if members.None? {
      return None;
    }
    assert MANIFEST_FILE in PUBLISHED by { assert PUBLISHED[|RECORDED|] == MANIFEST_FILE; }
    assert Named(archive, MANIFEST_FILE) == Some(members.value[MANIFEST_FILE]);
    var bytes := FirstRead(members.value[MANIFEST_FILE].parts);
    if |bytes| > METADATA_LIMIT {
      return None;
    }
    var man := tools.parse(bytes);
    if man.None? {
      return None;
    }
    var pinned := CheckManifest(man.value);
    if !pinned {
      return None;
    }
    return Some((members.value, bytes, man.value));
  }

  /** The manifest's checks, one after the other. */
  method CheckManifest(man: Manifest) returns (ok: bool)
    ensures ok <==> Pinned(man)
  {
    if man.schema != 1 {
      return false;
    }
    match man.upstream
    case None => return false;
    case Some(up) =>
      if up.modelId != MODEL_ID || up.revision != REVISION || up.modelFile != MODEL_FILE || up.digest != MODEL_DIGEST {
        return false;
      }
    if man.files.Keys != Names(RECORDED) {
      return false;
    }
    assert MODEL_FILE in Names(RECORDED) by { assert RECORDED[3] == MODEL_FILE; }
    assert MODEL_FILE in man.files.Keys;
    var record := man.files[MODEL_FILE];
    return record.exact && record.size == MODEL_SIZE && record.sha256 == Some(MODEL_DIGEST);
  }

  lemma EntriesFound(tools: Tools, archive: seq<Member>, members: map<string, Member>, man: Manifest)
    requires Indexed(archive, members) && (forall n | n in PUBLISHED :: n in members)
    ensures forall n | n in RECORDED :: n in members
    ensures EntriesOk(tools, man, archive)
            <==> forall n | n in RECORDED :: n in man.files && EntryOk(tools, man.files[n], members[n], n)
  {
    hide EntryOk, Named;
    forall n | n in RECORDED ensures n in members && Named(archive, n) == Some(members[n]) {
      assert n in PUBLISHED;
    }
  }

  lemma NothingInTemp(before: Tree, t: Tree, parent: Path, tempName: string)
    requires Rooted(before) && Child(parent, tempName) !in before && OnlyAbove(before, t, parent)
    ensures forall p | p in t :: !Under(Child(parent, tempName), p)
  {
    var temp := Child(parent, tempName);
    forall p | p in t ensures !Under(temp, p) {
      if Under(temp, p) {
        NothingBelow(before, temp, p);
        assert Same(before, t, p) || Under(p, parent);
        UnderIsDeeper(temp, p);
        UnderIsDeeper(p, parent);
      }
    }
  }

  /** After the cleaning nothing is left but the parents and the destination. */
  lemma Cleaned(tools: Tools, before: Tree, made: Tree, filled: Tree, t: Tree, parent: Path, temp: Path, dest: Path)
    requires OnlyAbove(before, made, parent) && (forall p | p in made :: !Under(temp, p))
    requires Publishing(tools, made[temp := Directory], filled, temp, dest) && OnlyUnder(filled, t, temp)
    requires forall p | p in t :: !Under(temp, p)
    requires forall p | p in before :: !Under(dest, p)
    ensures Clean(before, t, parent, dest)
    ensures OnlyUnder(made[temp := Directory], filled, temp) ==> OnlyAbove(before, t, parent)
  {
    hide Installed;
    assert Under(temp, temp);
    forall p ensures Same(before, t, p) || (p !in before && (Under(p, parent) || Under(dest, p))) {
      assert Same(before, made, p) || (p !in before && Under(p, parent));
      if !Under(temp, p) && !Under(dest, p) {
        assert Same(made[temp := Directory], filled, p) && Same(filled, t, p);
      }
    }
    if OnlyUnder(made[temp := Directory], filled, temp) {
      forall p ensures Same(before, t, p) || (p !in before && Under(p, parent)) {
        assert Same(before, made, p) || (p !in before && Under(p, parent));
        if !Under(temp, p) {
          assert Same(made[temp := Directory], filled, p) && Same(filled, t, p);
        }
      }
    }
  }

  lemma TempIsSafe(tools: Tools, before: Tree, made: Tree, trace: seq<Tree>, a: nat, temp: Path, dest: Path)
    requires Disjoint(temp, dest) && temp !in before && Kept(before, made) && AllSafe(tools, before, dest, trace, a)
    requires forall n :: Child(dest, n) !in made
    ensures AllSafe(tools, before, dest, trace + [made[temp := Directory]], a)
  {
    hide Installed;
    var t := made[temp := Directory];
    assert Depth(temp) != Depth(Child(dest, MANIFEST_FILE));
    forall p | p in before ensures Same(before, t, p) {
      assert Same(before, made, p);
    }
  }

  lemma ReadableEntries(tools: Tools, archive: seq<Member>, man: Manifest)
    requires Readable(tools, archive) && ParseBounded(tools, ManifestBytes(archive)) == Some(man)
    ensures Acceptable(tools, archive) <==> EntriesOk(tools, man, archive)
  {
  }

  /** The part of the installation that works in the temporary directory and removes it in the end. */
  method InstallThrough(fs: FileSystem, tools: Tools, archive: seq<Member>,
                        input: (map<string, Member>, Content, Manifest),
                        parent: Path, name: string, tempName: string, ghost before: Tree, ghost made: Tree,
                        ghost a: nat)
    returns (r: Result<Manifest>)
    requires Rooted(before) && tempName != name && Child(parent, tempName) !in before && Child(parent, name) !in before
    requires OnlyAbove(before, made, parent) && fs.tree == made[Child(parent, tempName) := Directory]
    requires a <= |fs.trace| && AllSafe(tools, before, Child(parent, name), fs.trace, a)
    requires Indexed(archive, input.0) && (forall n | n in PUBLISHED :: n in input.0)
    requires ParseBounded(tools, input.1) == Some(input.2) && Pinned(input.2)
    modifies fs
    ensures old(fs.trace) <= fs.trace && AllSafe(tools, before, Child(parent, name), fs.trace, a)
    ensures Kept(before, fs.tree) && (old(fs.faulty) ==> fs.faulty)
    ensures r.Ok? ==> && Installed(tools, fs.tree, Child(parent, name))
                      && tools.parse(fs.tree[Child(Child(parent, name), MANIFEST_FILE)].content) == Some(r.value)
                      && Clean(before, fs.tree, parent, Child(parent, name))
    ensures !fs.faulty ==> (r.Ok? <==> EntriesOk(tools, input.2, archive))
    ensures !fs.faulty && !r.Ok? ==> OnlyAbove(before, fs.tree, parent)
  {
    hide Rooted, Safe, AllSafe, OnlyAbove, EntriesOk, Installed, Clean, Kept, Pinned, EntryOk, Under, Indexed;
    hide Publishing, AllPublishing, OnlyUnder, AllUnder, PublishedTo;
    var dest, temp := Child(parent, name), Child(parent, tempName);
    var members, bytes, man := input.0, input.1, input.2;
    EntriesFound(tools, archive, members, man);
    ghost var b, start := |fs.trace|, fs.tree;
    WorkspaceReady(before, made, parent, name, tempName);
    var filled := Fill(fs, tools, man, bytes, members, temp, dest);
    ghost var c, full, trace := |fs.trace|, fs.tree, fs.trace;
    var removed := RemoveTree(fs, temp);
    assert fs.trace[..c] == trace && fs.trace[..b] == old(fs.trace);
    AllPartsSafe(tools, before, start, full, fs.trace, a, b, c, temp, dest);
    AfterCleaning(tools, before, start, full, fs.tree, temp, dest);
    if !removed.Ok? {
      return Faulted;
    }
    Cleaned(tools, before, made, full, fs.tree, parent, temp, dest);
    match filled
    case Ok(_) =>
      PublishedIsInstalled(tools, full, temp, dest, man, bytes);
      ManifestKept(tools, full, fs.tree, dest, bytes);
      return Ok(man);
    case Refused => return Refused;
    case Faulted => return Faulted;
  }

  lemma WorkspaceReady(before: Tree, made: Tree, parent: Path, name: string, tempName: string)
    requires Rooted(before) && tempName != name && Child(parent, tempName) !in before && Child(parent, name) !in before
    requires OnlyAbove(before, made, parent)
    ensures var temp, dest, start :=
              Child(parent, tempName), Child(parent, name), made[Child(parent, tempName) := Directory];
            && Disjoint(temp, dest) && Kept(before, start)
            && dest !in start && (forall n :: Child(temp, n) !in start) && (forall n :: Child(dest, n) !in start)
            && (forall p | p in before :: !Under(temp, p) && !Under(dest, p))
            && (forall p | p in made :: !Under(temp, p))
  {
    hide OnlyAbove, Rooted;
    NewDirectories(before, parent, name, made);
    NewDirectories(before, parent, tempName, made);
    NothingInTemp(before, made, parent, tempName);
    var temp := Child(parent, tempName);
    var start := made[temp := Directory];
    forall n ensures Child(temp, n) != temp && Child(Child(parent, name), n) != temp {
      assert Depth(Child(temp, n)) != Depth(temp) && Depth(Child(Child(parent, name), n)) != Depth(temp);
    }
    forall p | p in before ensures Same(before, start, p) {
      assert Same(before, made, p);
    }
  }

  lemma AfterCleaning(tools: Tools, before: Tree, start: Tree, full: Tree, t: Tree, temp: Path, dest: Path)
    requires Disjoint(temp, dest) && Kept(before, start)
             && (forall p | p in before :: !Under(temp, p) && !Under(dest, p))
    requires Publishing(tools, start, full, temp, dest) && OnlyUnder(full, t, temp)
    ensures Kept(before, t)
    ensures Installed(tools, full, dest) ==> Installed(tools, t, dest) && Same(full, t, Child(dest, MANIFEST_FILE))
  {
    hide Installed, Publishing, OnlyUnder, Kept;
    PublishingIsSafe(tools, before, start, full, temp, dest);
    CleaningIsSafe(tools, before, full, t, temp, dest);
    SafeKeeps(tools, before, dest, t);
  }

  lemma SafeKeeps(tools: Tools, before: Tree, dest: Path, t: Tree)
    requires Safe(tools, before, dest, t)
    ensures Kept(before, t)
  {
  }

  lemma ManifestKept(tools: Tools, full: Tree, t: Tree, dest: Path, bytes: Content)
    requires Installed(tools, full, dest) && full[Child(dest, MANIFEST_FILE)] == File(bytes)
    requires Same(full, t, Child(dest, MANIFEST_FILE))
    ensures Child(dest, MANIFEST_FILE) in t && t[Child(dest, MANIFEST_FILE)] == File(bytes)
  {
  }

  /**
   Installs an archive into a new directory. At every recorded moment, of successful, refused and
   failing runs alike, nothing that existed has changed and a manifest in the destination means that
   every recorded file is there in its recorded size and digest, the model in the pinned ones.
   Without a failing operation the archive is installed exactly when it is acceptable and the
   destination is free, and a refused one leaves nothing behind but new parent directories.
   */
  method InstallArchive(fs: FileSystem, tools: Tools, archive: seq<Member>, parent: Path, name: string,
                        tempName: string)
    returns (r: Result<Manifest>)
    requires Rooted(fs.tree) && tempName != name && Child(parent, tempName) !in fs.tree
    modifies fs
    ensures old(fs.trace) <= fs.trace && AllSafe(tools, old(fs.tree), Child(parent, name), fs.trace, |old(fs.trace)|)
    ensures Kept(old(fs.tree), fs.tree)
    ensures r.Ok? ==> && Installed(tools, fs.tree, Child(parent, name))
                      && tools.parse(fs.tree[Child(Child(parent, name), MANIFEST_FILE)].content) == Some(r.value)
                      && Clean(old(fs.tree), fs.tree, parent, Child(parent, name))
    ensures !fs.faulty ==>
              (r.Ok?
               <==> Child(parent, name) !in old(fs.tree) && CanMake(old(fs.tree), parent) && Acceptable(tools, archive))
    ensures !fs.faulty && !r.Ok? ==> OnlyAbove(old(fs.tree), fs.tree, parent)
    ensures ManifestMeansModel(tools, fs.trace, |old(fs.trace)|, Child(parent, name))
    ensures r.Ok? ==> ModelOnDisk(tools, fs.tree, Child(parent, name))
    ensures Acceptable(tools, archive) <==> Genuine(tools, archive)
  {
    AcceptableIsGenuine(tools, archive);
    r := InstallSafely(fs, tools, archive, parent, name, tempName);
    SafeMeansModel(tools, old(fs.tree), fs.trace, |old(fs.trace)|, Child(parent, name));
    if r.Ok? {
      InstalledIsModel(tools, fs.tree, Child(parent, name));
    }
  }

  method InstallSafely(fs: FileSystem, tools: Tools, archive: seq<Member>, parent: Path, name: string,
                       tempName: string)
    returns (r: Result<Manifest>)
    requires Rooted(fs.tree) && tempName != name && Child(parent, tempName) !in fs.tree
    modifies fs
    ensures old(fs.trace) <= fs.trace && AllSafe(tools, old(fs.tree), Child(parent, name), fs.trace, |old(fs.trace)|)
    ensures Kept(old(fs.tree), fs.tree)
    ensures r.Ok? ==> && Installed(tools, fs.tree, Child(parent, name))
                      && tools.parse(fs.tree[Child(Child(parent, name), MANIFEST_FILE)].content) == Some(r.value)
                      && Clean(old(fs.tree), fs.tree, parent, Child(parent, name))
    ensures !fs.faulty ==>
              (r.Ok?
               <==> Child(parent, name) !in old(fs.tree) && CanMake(old(fs.tree), parent) && Acceptable(tools, archive))
    ensures !fs.faulty && !r.Ok? ==> OnlyAbove(old(fs.tree), fs.tree, parent)
  {
    hide Rooted, Safe, AllSafe, OnlyAbove, AllAbove, Readable, EntriesOk, Installed, Clean, Kept, Pinned, EntryOk,
      Under, CanMake, Indexed;
    hide Publishing, AllPublishing, OnlyUnder, AllUnder, PublishedTo;
    var dest, temp := Child(parent, name), Child(parent, tempName);
    ghost var before, a := fs.tree, |fs.trace|;
    Untouched(tools, before, fs.trace, parent, dest);
    if dest in fs.tree {
      return Refused;
    }
    var parents := MakeDirectories(fs, parent);
    AboveIsSafe(tools, before, fs.trace, a, parent, name);
    NewDirectories(before, parent, name, fs.tree);
    NewDirectories(before, parent, tempName, fs.tree);
    NothingInTemp(before, fs.tree, parent, tempName);
    if !parents.Ok? {
      return if parents.Refused? then Refused else Faulted;
    }
    var manifest := ReadManifest(tools, archive);
    if manifest.None? {
      return Refused;
    }
    ghost var made, trace := fs.tree, fs.trace;
    var created := fs.Create(temp, Directory);
    if !created.Ok? {
      return Faulted;
    }
    TempIsSafe(tools, before, made, trace, a, temp, dest);
    ReadableEntries(tools, archive, manifest.value.2);
    r := InstallThrough(fs, tools, archive, manifest.value, parent, name, tempName, before, made, a);
  }

  // ----- What it means -----

  /** The destination holds the pinned model, byte for byte as its size and digest say, and the support files. */
  ghost predicate ModelOnDisk(tools: Tools, t: Tree, dest: Path) {
    && (forall n | n in {MODEL_FILE, "LICENSE", "NOTICE.txt", "README.md", MANIFEST_FILE} ::
          Child(dest, n) in t && t[Child(dest, n)].File?)
    && |t[Child(dest, MODEL_FILE)].content| == MODEL_SIZE
    && tools.hash(t[Child(dest, MODEL_FILE)].content) == MODEL_DIGEST
  }

  /** At every moment since the trace was n long, a manifest in the destination means the model is there. */
  ghost predicate ManifestMeansModel(tools: Tools, trace: seq<Tree>, n: nat, dest: Path) {
    forall k | n <= k < |trace| && Child(dest, MANIFEST_FILE) in trace[k] :: ModelOnDisk(tools, trace[k], dest)
  }

  lemma InstalledIsModel(tools: Tools, t: Tree, dest: Path)
    requires Installed(tools, t, dest)
    ensures ModelOnDisk(tools, t, dest)
  {
    var man := tools.parse(t[Child(dest, MANIFEST_FILE)].content).value;
    PinnedIsGenuine(man);
    forall n | n in {MODEL_FILE, "LICENSE", "NOTICE.txt", "README.md"}
      ensures OnDisk(tools, t, dest, man, n)
    {
      IsRecorded(n);
    }
    assert OnDisk(tools, t, dest, man, MODEL_FILE);
  }

  lemma IsRecorded(n: string)
    ensures n in RECORDED <==> n in {MODEL_FILE, "LICENSE", "NOTICE.txt", "README.md"}
  {
    assert RECORDED[0] == "LICENSE" && RECORDED[1] == "NOTICE.txt" && RECORDED[2] == "README.md";
    assert RECORDED[3] == MODEL_FILE;
  }

  lemma IsPublished(n: string)
    ensures n in PUBLISHED <==> n in {MODEL_FILE, "LICENSE", "NOTICE.txt", "README.md", MANIFEST_FILE}
  {
    IsRecorded(n);
    assert PUBLISHED[|RECORDED|] == MANIFEST_FILE;
  }

  lemma SafeMeansModel(tools: Tools, before: Tree, trace: seq<Tree>, n: nat, dest: Path)
    requires AllSafe(tools, before, dest, trace, n)
    ensures ManifestMeansModel(tools, trace, n, dest)
  {
    hide Installed, ModelOnDisk;
    forall k | n <= k < |trace| && Child(dest, MANIFEST_FILE) in trace[k]
      ensures ModelOnDisk(tools, trace[k], dest)
    {
      assert Safe(tools, before, dest, trace[k]);
      InstalledIsModel(tools, trace[k], dest);
    }
  }

  /** Members of a model archive: the five files, each once, regular and no larger than allowed. */
  ghost predicate GenuineMembers(archive: seq<Member>) {
    && (forall m | m in archive ::
          && m.name in {MODEL_FILE, "LICENSE", "NOTICE.txt", "README.md", MANIFEST_FILE} && m.regular && 0 <= m.size
          && m.size <= if m.name == MODEL_FILE then 5946648928 else 2097152)
    && (forall i, j | 0 <= i < j < |archive| :: archive[i].name != archive[j].name)
    && forall n | n in {MODEL_FILE, "LICENSE", "NOTICE.txt", "README.md", MANIFEST_FILE} :: HasMember(archive, n)
  }

  ghost predicate HasMember(archive: seq<Member>, n: string) {
    exists m :: m in archive && m.name == n
  }

  /** A manifest of the pinned model. */
  ghost predicate GenuineManifest(man: Manifest) {
    && man.schema == 1 && man.upstream.Some?
    && man.upstream.value.modelId == MODEL_ID && man.upstream.value.revision == REVISION
    && man.upstream.value.modelFile == MODEL_FILE && man.upstream.value.digest == MODEL_DIGEST
    && man.files.Keys == {MODEL_FILE, "LICENSE", "NOTICE.txt", "README.md"}
    && MODEL_FILE in man.files && man.files[MODEL_FILE].exact
    && man.files[MODEL_FILE].size == 5946648928 && man.files[MODEL_FILE].sha256 == Some(MODEL_DIGEST)
  }

  /** What reading the member delivers is what the manifest records of it. */
  ghost predicate GenuineEntry(tools: Tools, record: Record, m: Member) {
    && record.exact && record.size == m.size == |Body(m.parts)| && Bounded(m.parts, 1048576)
    && record.sha256 == Some(tools.hash(Body(m.parts)))
    && |record.sha256.value| == 64
    && (forall i | 0 <= i < 64 ::
          '0' <= record.sha256.value[i] <= '9' || 'a' <= record.sha256.value[i] <= 'f')
    && m.size <= if m.name == MODEL_FILE then 5946648928 else 1048576
  }

  /**
   The first read of the manifest member gives a manifest of the pinned model, and every recorded file
   is as recorded.
   */
  ghost predicate GenuineContent(tools: Tools, archive: seq<Member>, manifest: Member, man: Manifest) {
    var bytes := if manifest.parts == [] then [] else manifest.parts[0];
    && |bytes| <= 2097152 && tools.parse(bytes) == Some(man) && GenuineManifest(man)
    && forall m | m in archive && m.name != MANIFEST_FILE ::
         m.name in man.files && GenuineEntry(tools, man.files[m.name], m)
  }

  /** A genuine archive of the pinned model, from the fields of its members and of its manifest. */
  ghost predicate Genuine(tools: Tools, archive: seq<Member>) {
    && GenuineMembers(archive)
    && exists m, man :: m in archive && m.name == MANIFEST_FILE && GenuineContent(tools, archive, m, man)
  }

  lemma {:induction false} NamedMember(archive: seq<Member>, name: string)
    ensures Named(archive, name).Some? <==> HasMember(archive, name)
    ensures Named(archive, name).Some? ==>
              Named(archive, name).value in archive && Named(archive, name).value.name == name
  {
    if archive != [] {
      var init, last := archive[..|archive| - 1], archive[|archive| - 1];
      assert archive == init + [last];
      NamedMember(init, name);
      if last.name == name {
        assert last in archive;
      } else if HasMember(init, name) {
        var m :| m in init && m.name == name;
        assert m in archive;
      }
    }
  }

  lemma OnlyMember(archive: seq<Member>, m: Member)
    requires m in archive && forall i, j | 0 <= i < j < |archive| :: archive[i].name != archive[j].name
    ensures Named(archive, m.name) == Some(m)
  {
    NamedMember(archive, m.name);
    var n := Named(archive, m.name).value;
    var i :| 0 <= i < |archive| && archive[i] == m;
    var j :| 0 <= j < |archive| && archive[j] == n;
    assert i < j || j < i || i == j;
  }

  lemma ListedIsGenuine(archive: seq<Member>)
    ensures Listed(archive) <==> GenuineMembers(archive)
  {
    hide Named, HasMember;
    forall n
      ensures n in PUBLISHED <==> n in {MODEL_FILE, "LICENSE", "NOTICE.txt", "README.md", MANIFEST_FILE}
      ensures Named(archive, n).Some? <==> HasMember(archive, n)
    {
      IsPublished(n);
      NamedMember(archive, n);
    }
    if GenuineMembers(archive) {
      forall i | 0 <= i < |archive|
        ensures MemberOk(archive[i])
      {
        assert archive[i] in archive;
      }
    }
  }

  lemma PinnedIsGenuine(man: Manifest)
    ensures Pinned(man) <==> GenuineManifest(man)
  {
    forall n
      ensures n in Names(RECORDED) <==> n in {MODEL_FILE, "LICENSE", "NOTICE.txt", "README.md"}
    {
      IsRecorded(n);
    }
    assert Names(RECORDED) == {MODEL_FILE, "LICENSE", "NOTICE.txt", "README.md"};
  }

  lemma EntryIsGenuine(tools: Tools, record: Record, m: Member)
    ensures EntryOk(tools, record, m, m.name) <==> GenuineEntry(tools, record, m)
  {
    hide Body, Bounded;
  }

  lemma EntriesAreGenuine(tools: Tools, man: Manifest, archive: seq<Member>)
    requires GenuineMembers(archive)
    ensures EntriesOk(tools, man, archive)
       <==> forall m | m in archive && m.name != MANIFEST_FILE ::
              m.name in man.files && GenuineEntry(tools, man.files[m.name], m)
  {
    hide Named, EntryOk, GenuineEntry;
    forall m | m in archive
      ensures Named(archive, m.name) == Some(m)
      ensures m.name in RECORDED <==> m.name != MANIFEST_FILE
      ensures m.name in man.files ==> (EntryOk(tools, man.files[m.name], m, m.name)
                                       <==> GenuineEntry(tools, man.files[m.name], m))
    {
      OnlyMember(archive, m);
      IsRecorded(m.name);
      if m.name in RECORDED {
        NotManifest(m.name);
      }
      if m.name in man.files {
        EntryIsGenuine(tools, man.files[m.name], m);
      }
    }
    forall n | n in RECORDED
      ensures exists m :: m in archive && m.name == n
    {
      IsRecorded(n);
      assert HasMember(archive, n);
    }
  }

  lemma NotManifest(n: string)
    requires n in {MODEL_FILE, "LICENSE", "NOTICE.txt", "README.md"}
    ensures n != MANIFEST_FILE
  {
    NameLength(0);
    NameLength(1);
    NameLength(2);
    NameLength(3);
  }

  /** The archives that are accepted are the genuine ones. */
  lemma AcceptableIsGenuine(tools: Tools, archive: seq<Member>)
    ensures Acceptable(tools, archive) <==> Genuine(tools, archive)
  {
    hide Named, Listed, GenuineMembers, Pinned, GenuineManifest, EntriesOk, GenuineEntry;
    ListedIsGenuine(archive);
    if Listed(archive) {
      ManifestMember(archive);
      var manifest := Named(archive, MANIFEST_FILE).value;
      forall m | m in archive && m.name == MANIFEST_FILE
        ensures m == manifest
      {
        ListedOnce(archive, m);
      }
      var man := ParseBounded(tools, ManifestBytes(archive));
      if man.Some? {
        PinnedIsGenuine(man.value);
        EntriesAreGenuine(tools, man.value, archive);
        assert Acceptable(tools, archive) ==> GenuineContent(tools, archive, manifest, man.value);
      }
    }
  }

  lemma ListedOnce(archive: seq<Member>, m: Member)
    requires Listed(archive) && m in archive
    ensures Named(archive, m.name) == Some(m)
  {
    OnlyMember(archive, m);
  }

  lemma ManifestMember(archive: seq<Member>)
    requires Listed(archive)
    ensures Named(archive, MANIFEST_FILE).Some?
    ensures Named(archive, MANIFEST_FILE).value in archive
            && Named(archive, MANIFEST_FILE).value.name == MANIFEST_FILE
  {
    IsPublished(MANIFEST_FILE);
    NamedMember(archive, MANIFEST_FILE);
  }

  /** In particular, an archive whose model is not the pinned one, byte for byte, is never accepted. */
  lemma OtherModelRefused(tools: Tools, archive: seq<Member>, m: Member)
    requires m in archive && m.name == MODEL_FILE
    requires |Body(m.parts)| != MODEL_SIZE || tools.hash(Body(m.parts)) != MODEL_DIGEST
    ensures !Acceptable(tools, archive)
  {
    hide Body, Bounded;
    AcceptableIsGenuine(tools, archive);
    assert m.name != MANIFEST_FILE by { NotManifest(MODEL_FILE); }
  }

  lemma Untouched(tools: Tools, before: Tree, trace: seq<Tree>, parent: Path, dest: Path)
    ensures AllSafe(tools, before, dest, trace, |trace|) && Kept(before, before) && OnlyAbove(before, before, parent)
  {
  }
}
