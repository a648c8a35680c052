/**
 Publishing of tools/kaggle_bonsai_job.py: a file appears under its final name only whole and
 verified, and never in place of something else.
 */
module Stream {
  import opened Common
  import opened FileTree

  datatype Receipt = Receipt(size: nat, sha256: string)

  const CHUNK_SIZE: int := 1024 * 1024

  // ----- The source -----

  /** What successive reads deliver up to the first empty one. */
  function Body(parts: seq<Content>): Content {
    if parts == [] || parts[0] == [] then [] else parts[0] + Body(parts[1..])
  }

  /** No read delivers more than was asked for. */
  predicate Bounded(parts: seq<Content>, chunk: int) {
    parts == [] || parts[0] == [] || (|parts[0]| <= chunk && Bounded(parts[1..], chunk))
  }

  predicate IsDigest(s: string) {
    |s| == 64 && forall i | 0 <= i < |s| :: '0' <= s[i] <= '9' || 'a' <= s[i] <= 'f'
  }

  predicate Fits(size: int, maximum: Option<int>) {
    maximum.None? || size <= maximum.value
  }

  /** The arguments make sense. */
  predicate Sensible(size: int, sha: Option<string>, chunk: int, maximum: Option<int>) {
    && 0 < chunk <= CHUNK_SIZE
    && 0 <= size && Fits(size, maximum)
    && (sha.Some? ==> IsDigest(sha.value))
  }

  /** The source delivers exactly the promised bytes. */
  predicate Delivers(hash: Content -> string, parts: seq<Content>, size: int, sha: Option<string>, chunk: int) {
    Bounded(parts, chunk) && |Body(parts)| == size && (sha.Some? ==> hash(Body(parts)) == sha.value)
  }

  /** A file of the promised size and digest. */
  ghost predicate Verified(hash: Content -> string, node: Node, size: int, sha: Option<string>) {
    node.File? && |node.content| == size && (sha.Some? ==> hash(node.content) == sha.value)
  }

  function Partial(dir: Path, name: string): Path {
    Child(dir, name + ".partial")
  }

  lemma PartialDiffers(dir: Path, name: string)
    ensures Partial(dir, name) != Child(dir, name) && Partial(dir, name) == Child(dir, name + ".partial")
  {
    assert |name + ".partial"| == |name| + 8;
  }

  /** While one file is being staged, only it and its partial file differ, and the file itself is whole or absent. */
  ghost predicate Staged(hash: Content -> string, before: Tree, t: Tree, dir: Path, name: string, size: int,
                         sha: Option<string>) {
    && (forall p | p != Child(dir, name) && p != Partial(dir, name) :: Same(before, t, p))
    && (Child(dir, name) in t ==> Verified(hash, t[Child(dir, name)], size, sha))
  }

  /** Every tree recorded since the trace was n long. */
  ghost predicate AllStaged(hash: Content -> string, before: Tree, trace: seq<Tree>, n: nat, dir: Path, name: string,
                            size: int, sha: Option<string>) {
    n <= |trace| && forall k | n <= k < |trace| :: Staged(hash, before, trace[k], dir, name, size, sha)
  }

  // ----- Publishing -----

  /** Links the file under its final name, then drops the partial name. */
  method PublishNoClobber(fs: FileSystem, partial: Path, destination: Path) returns (r: Result<()>)
    requires partial in fs.tree && partial != destination
    modifies fs
    ensures r.Refused? <==> destination in old(fs.tree)
    ensures fs.faulty == (old(fs.faulty) || r.Faulted?)
    ensures var linked := old(fs.tree)[destination := old(fs.tree)[partial]];
            && (r.Ok? ==> fs.tree == linked - {partial} && fs.trace == old(fs.trace) + [linked, fs.tree])
            && (r.Refused? ==> fs.tree == old(fs.tree) && fs.trace == old(fs.trace))
            && (r.Faulted? ==> || (fs.tree == old(fs.tree) && fs.trace == old(fs.trace))
                               || (destination !in old(fs.tree) && fs.tree == linked
                                   && fs.trace == old(fs.trace) + [linked]))
  {
    if destination in fs.tree {
      return Refused;
    }
    r := fs.Link(partial, destination);
    if r.Ok? {
      r := fs.Unlink(partial);
    }
  }

  lemma {:induction false} BodyStep(parts: seq<Content>, k: nat, chunk: int)
    requires k <= |parts|
    ensures k == |parts| || parts[k] == [] ==> Body(parts[k..]) == [] && Bounded(parts[k..], chunk)
    ensures k < |parts| && parts[k] != [] ==> Body(parts[k..]) == parts[k] + Body(parts[k + 1..])
    ensures k < |parts| && parts[k] != [] ==>
              (Bounded(parts[k..], chunk) <==> |parts[k]| <= chunk && Bounded(parts[k + 1..], chunk))
  {
    if k < |parts| {
      assert parts[k..][1..] == parts[k + 1..];
    }
  }

  /** A partly written chunk only changes the partial file. */
  lemma TornIsPartial(hash: Content -> string, before: Tree, torn: Tree, trace: seq<Tree>, n: nat, dir: Path,
                      name: string,
                      size: int, sha: Option<string>, written: Content, data: Content)
    requires Child(dir, name) !in before && Partial(dir, name) !in before
    requires Torn(before[Partial(dir, name) := File(written)], torn, Partial(dir, name), data)
    requires AllStaged(hash, before, trace, n, dir, name, size, sha)
    ensures exists c :: torn == before[Partial(dir, name) := File(c)]
    ensures AllStaged(hash, before, trace + [torn], n, dir, name, size, sha)
  {
    hide Partial;
    var t := before[Partial(dir, name) := File(written)];
    var m :| 0 <= m <= |data| && torn == t[Partial(dir, name) := File(t[Partial(dir, name)].content + data[..m])];
    assert torn == before[Partial(dir, name) := File(written + data[..m])];
    StagedPartial(hash, before, written + data[..m], dir, name, size, sha);
  }

  /** Writes one chunk to the partial file. */
  method WriteChunk(fs: FileSystem, hash: Content -> string, dir: Path, name: string, data: Content, ghost before: Tree,
                    ghost written: Content, ghost n: nat, ghost size: int, ghost sha: Option<string>)
    returns (r: Result<()>)
    requires Child(dir, name) !in before && Partial(dir, name) !in before
    requires fs.tree == before[Partial(dir, name) := File(written)]
    requires AllStaged(hash, before, fs.trace, n, dir, name, size, sha)
    modifies fs
    ensures old(fs.trace) <= fs.trace && AllStaged(hash, before, fs.trace, n, dir, name, size, sha)
    ensures !r.Refused? && fs.faulty == (old(fs.faulty) || r.Faulted?)
    ensures exists c :: fs.tree == before[Partial(dir, name) := File(c)]
    ensures r.Ok? ==> fs.tree == before[Partial(dir, name) := File(written + data)]
  {
    hide AllStaged, Staged, Partial, Torn;
    ghost var trace := fs.trace;
    r := fs.Append(Partial(dir, name), data);
    assert !r.Ok? ==> fs.tree == fs.trace[|trace|];
    assert r.Ok? ==> fs.tree == before[Partial(dir, name) := File(written + data)];
    TornIsPartial(hash, before, fs.trace[|trace|], trace, n, dir, name, size, sha, written, data);
    if r.Ok? {
      StagedPartial(hash, before, written + data, dir, name, size, sha);
      StagedOneMore(hash, before, trace + [fs.trace[|trace|]], fs.tree, n, dir, name, size, sha);
      assert trace + [fs.trace[|trace|]] + [fs.tree] == fs.trace;
    }
  }

  /** Copies the source into the fresh partial file and checks what it has copied. */
  method Copy(fs: FileSystem, hash: Content -> string, parts: seq<Content>, dir: Path, name: string,
              size: int, sha: Option<string>, chunk: int, maximum: Option<int>,
              ghost before: Tree) returns (r: Result<Receipt>)
    requires Sensible(size, sha, chunk, maximum)
    requires Child(dir, name) !in before && Partial(dir, name) !in before
    requires fs.tree == before[Partial(dir, name) := File([])]
    modifies fs
    ensures AllStaged(hash, before, fs.trace, |old(fs.trace)|, dir, name, size, sha) && old(fs.trace) <= fs.trace
    ensures fs.faulty == (old(fs.faulty) || r.Faulted?)
    ensures exists c :: fs.tree == before[Partial(dir, name) := File(c)] && (r.Ok? ==> c == Body(parts))
    ensures !r.Faulted? ==> (r.Ok? <==> Delivers(hash, parts, size, sha, chunk))
    ensures r.Ok? ==> r.value == Receipt(|Body(parts)|, hash(Body(parts)))
  {
    var partial := Partial(dir, name);
    PartialDiffers(dir, name);
    var written: Content, copied, k := [], 0, 0;
    hide Body, Bounded, AllStaged, Staged, Partial;
    StagedNothing(hash, before, fs.trace, dir, name, size, sha);
    assert parts[0..] == parts;
    while true
      invariant 0 <= k <= |parts| && copied == |written| <= size
      invariant fs.tree == before[partial := File(written)] && fs.faulty == old(fs.faulty)
      invariant old(fs.trace) <= fs.trace && AllStaged(hash, before, fs.trace, |old(fs.trace)|, dir, name, size, sha)
      invariant written + Body(parts[k..]) == Body(parts)
      invariant Bounded(parts, chunk) <==> Bounded(parts[k..], chunk)
      decreases |parts| - k
    {
      var readable := fs.Permitted();
      if !readable {
        return Faulted;
      }
      var data := if k < |parts| then parts[k] else [];
      BodyStep(parts, k, chunk);
      if data == [] {
        break;
      }
      if |data| > chunk {
        return Refused;
      }
      copied := copied + |data|;
      if copied > size || !Fits(copied, maximum) {
        assert |Body(parts)| >= |written + data|;
        return Refused;
      }
      var ok := WriteChunk(fs, hash, dir, name, data, before, written, |old(fs.trace)|, size, sha);
      if !ok.Ok? {
        return Faulted;
      }
      written := written + data;
      k := k + 1;
    }
    assert written == Body(parts);
    if copied != size || (sha.Some? && hash(written) != sha.value) {
      return Refused;
    }
    return Ok(Receipt(copied, hash(written)));
  }

  /** The checks of the arguments, one after the other. */
  method CheckArguments(size: int, sha: Option<string>, chunk: int, maximum: Option<int>) returns (ok: bool)
    ensures ok <==> Sensible(size, sha, chunk, maximum)
  {
    if chunk <= 0 || chunk > CHUNK_SIZE {
      return false;
    }
    if size < 0 || (maximum.Some? && size > maximum.value) {
      return false;
    }
    if sha.None? {
      return true;
    }
    if |sha.value| != 64 {
      return false;
    }
    for i := 0 to 64
      invariant forall j | 0 <= j < i :: '0' <= sha.value[j] <= '9' || 'a' <= sha.value[j] <= 'f'
    {
      if !('0' <= sha.value[i] <= '9' || 'a' <= sha.value[i] <= 'f') {
        return false;
      }
    }
    return true;
  }

  /**
   Copies a bounded source and publishes it only after its size and digest are verified. Without a
   failing operation it succeeds exactly when the arguments make sense, nothing is in the way and the
   source delivers what was promised, and otherwise leaves the tree as it was; at no moment does
   the destination hold anything but the verified file.
   */
  method StreamVerified(fs: FileSystem, hash: Content -> string, parts: seq<Content>, dir: Path, name: string,
                        size: int, sha: Option<string>, chunk: int, maximum: Option<int>) returns (r: Result<Receipt>)
    modifies fs
    ensures old(fs.trace) <= fs.trace && (old(fs.faulty) ==> fs.faulty) && (r.Faulted? ==> fs.faulty)
    ensures Child(dir, name) !in old(fs.tree) ==>
              AllStaged(hash, old(fs.tree), fs.trace, |old(fs.trace)|, dir, name, size, sha)
              && Staged(hash, old(fs.tree), fs.tree, dir, name, size, sha)
    ensures Child(dir, name) in old(fs.tree) ==> fs.tree == old(fs.tree) && fs.trace == old(fs.trace)
    ensures r.Ok? ==>
              fs.tree == old(fs.tree)[Child(dir, name) := File(Body(parts))]
                && r.value == Receipt(|Body(parts)|, hash(Body(parts)))
    ensures !fs.faulty ==> (r.Ok? <==> && Sensible(size, sha, chunk, maximum) && Delivers(hash, parts, size, sha, chunk)
                                       && Child(dir, name) !in old(fs.tree) && Partial(dir, name) !in old(fs.tree))
    ensures !fs.faulty && !r.Ok? ==> fs.tree == old(fs.tree)
    ensures r.Ok? ==> && Sensible(size, sha, chunk, maximum) && Delivers(hash, parts, size, sha, chunk)
                      && Child(dir, name) !in old(fs.tree) && Partial(dir, name) !in old(fs.tree)
  {
    hide Body, Bounded, Delivers, Sensible, Staged, AllStaged, Partial;
    var destination, partial := Child(dir, name), Partial(dir, name);
    ghost var before, n := fs.tree, |fs.trace|;
    StagedNothing(hash, before, fs.trace, dir, name, size, sha);
    var sensible := CheckArguments(size, sha, chunk, maximum);
    if !sensible || destination in fs.tree || partial in fs.tree {
      return Refused;
    }
    var created := fs.Create(partial, File([]));
    if !created.Ok? {
      return Faulted;
    }
    StagedPartial(hash, before, [], dir, name, size, sha);
    StagedOneMore(hash, before, old(fs.trace), fs.tree, n, dir, name, size, sha);
    r := Copy(fs, hash, parts, dir, name, size, sha, chunk, maximum, before);
    StagedJoined(hash, before, fs.trace, n, n + 1, dir, name, size, sha);
    ghost var c :| fs.tree == before[partial := File(c)] && (r.Ok? ==> c == Body(parts));
    StagedPartial(hash, before, c, dir, name, size, sha);
    if r.Ok? {
      DeliveredIsVerified(hash, parts, size, sha, chunk);
      StagedWhole(hash, before, Body(parts), dir, name, size, sha);
      ghost var trace := fs.trace;
      var published := PublishNoClobber(fs, partial, destination);
      StagedOneMore(hash, before, trace, before[partial := File(c)][destination := File(c)], n, dir, name, size, sha);
      StagedOneMore(hash, before, trace + [before[partial := File(c)][destination := File(c)]],
                    before[destination := File(c)], n, dir, name, size, sha);
      if published.Ok? {
        assert trace + [before[partial := File(c)][destination := File(c)], before[destination := File(c)]]
            == trace + [before[partial := File(c)][destination := File(c)]] + [before[destination := File(c)]];
        return r;
      }
      r := Faulted;
    }
    ghost var trace := fs.trace;
    var cleaned := fs.Unlink(partial);
    StagedOneMore(hash, before, trace, before, n, dir, name, size, sha);
    StagedOneMore(hash, before, trace, before[destination := File(c)], n, dir, name, size, sha);
    if !cleaned.Ok? {
      return Faulted;
    }
  }

  lemma StagedNothing(hash: Content -> string, before: Tree, trace: seq<Tree>, dir: Path, name: string, size: int,
                      sha: Option<string>)
    ensures AllStaged(hash, before, trace, |trace|, dir, name, size, sha)
    ensures Child(dir, name) !in before ==> Staged(hash, before, before, dir, name, size, sha)
  {
  }

  lemma StagedPartial(hash: Content -> string, before: Tree, c: Content, dir: Path, name: string, size: int,
                      sha: Option<string>)
    requires Child(dir, name) !in before && Partial(dir, name) !in before
    ensures Staged(hash, before, before[Partial(dir, name) := File(c)], dir, name, size, sha)
    ensures before[Partial(dir, name) := File(c)] - {Partial(dir, name)} == before
  {
    PartialDiffers(dir, name);
  }

  lemma StagedWhole(hash: Content -> string, before: Tree, c: Content, dir: Path, name: string, size: int,
                    sha: Option<string>)
    requires Child(dir, name) !in before && Partial(dir, name) !in before && Verified(hash, File(c), size, sha)
    ensures Partial(dir, name) != Child(dir, name)
    ensures Staged(hash, before, before[Partial(dir, name) := File(c)][Child(dir, name) := File(c)], dir, name, size,
                   sha)
    ensures Staged(hash, before, before[Child(dir, name) := File(c)], dir, name, size, sha)
    ensures before[Partial(dir, name) := File(c)][Child(dir, name) := File(c)] - {Partial(dir, name)}
            == before[Child(dir, name) := File(c)]
  {
    PartialDiffers(dir, name);
  }

  lemma StagedOneMore(hash: Content -> string, before: Tree, trace: seq<Tree>, t: Tree, n: nat, dir: Path,
                      name: string, size: int, sha: Option<string>)
    ensures AllStaged(hash, before, trace, n, dir, name, size, sha) && Staged(hash, before, t, dir, name, size, sha) ==>
              AllStaged(hash, before, trace + [t], n, dir, name, size, sha)
  {
  }

  lemma StagedJoined(hash: Content -> string, before: Tree, trace: seq<Tree>, n: nat, m: nat, dir: Path, name: string,
                     size: int, sha: Option<string>)
    requires n <= m <= |trace| && AllStaged(hash, before, trace[..m], n, dir, name, size, sha)
             && AllStaged(hash, before, trace, m, dir, name, size, sha)
    ensures AllStaged(hash, before, trace, n, dir, name, size, sha)
  {
    forall k | n <= k < |trace| ensures Staged(hash, before, trace[k], dir, name, size, sha) {
      assert k < m ==> trace[k] == trace[..m][k];
    }
  }

  lemma DeliveredIsVerified(hash: Content -> string, parts: seq<Content>, size: int, sha: Option<string>, chunk: int)
    requires Delivers(hash, parts, size, sha, chunk)
    ensures Verified(hash, File(Body(parts)), size, sha)
  {
  }
}
