/**
 A tree of files and directories under the operations that the installer of
 tools/kaggle_bonsai_job.py uses. Every operation may also fail and, but for a write, change nothing.
 The trace records the tree after every change, so that it holds every state in which a crash can
 leave the disk.
 */
module FileTree {
  import opened Common

  type Content = seq<Byte>

  datatype Path = Root | Child(parent: Path, name: string)

  datatype Node = File(content: Content) | Directory | Link(toDirectory: bool)

  type Tree = map<Path, Node>

  /** Ok; refused because something is in the way or does not verify; or failed by the operating system. */
  datatype Result<T> = Ok(value: T) | Refused | Faulted

  ghost predicate Same(t: Tree, u: Tree, p: Path) {
    (p in t <==> p in u) && (p in t ==> t[p] == u[p])
  }

  /** Nothing that was there has changed or gone. */
  ghost predicate Kept(t: Tree, u: Tree) {
    forall p | p in t :: Same(t, u, p)
  }

  /** The second path is the first or lies below it. */
  predicate Under(top: Path, p: Path) {
    p == top || (p.Child? && Under(top, p.parent))
  }

  function Depth(p: Path): nat {
    if p.Root? then 0 else Depth(p.parent) + 1
  }

  lemma {:induction false} UnderIsDeeper(top: Path, p: Path)
    requires Under(top, p)
    ensures Depth(top) <= Depth(p)
    ensures Depth(top) == Depth(p) ==> top == p
  {
    if p != top {
      UnderIsDeeper(top, p.parent);
    }
  }

  /** Some front of the data has been appended to the file. */
  ghost predicate Torn(t: Tree, u: Tree, p: Path, data: Content)
    requires p in t && t[p].File?
  {
    exists n :: 0 <= n <= |data| && u == t[p := File(t[p].content + data[..n])]
  }

  class FileSystem {
    var tree: Tree
    ghost var trace: seq<Tree>
    ghost var faulty: bool

    constructor (tree: Tree)
      ensures this.tree == tree && trace == [tree] && !faulty
    {
      this.tree := tree;
      trace, faulty := [tree], false;
    }

    /** Records a change. */
    method Change(next: Tree)
      modifies this
      ensures tree == next && trace == old(trace) + [next] && faulty == old(faulty)
    {
      tree := next;
      trace := trace + [next];
    }

    /** Whether the operating system lets an operation through. */
    method Permitted() returns (ok: bool)
      modifies this`faulty
      ensures faulty == (old(faulty) || !ok)
    {
      ok := *;
      faulty := faulty || !ok;
    }

    /** Puts a node where nothing was: an exclusive open, or a new directory. */
    method Create(p: Path, node: Node) returns (r: Result<()>)
      modifies this
      ensures r.Refused? <==> p in old(tree)
      ensures faulty == (old(faulty) || r.Faulted?)
      ensures r.Ok? ==> tree == old(tree)[p := node] && trace == old(trace) + [tree]
      ensures !r.Ok? ==> tree == old(tree) && trace == old(trace)
    {
      if p in tree {
        return Refused;
      }
      var ok := Permitted();
      if !ok {
        return Faulted;
      }
      Change(tree[p := node]);
      return Ok(());
    }

    /** Appends to a file, in two parts: what a crash or a failure leaves may be any front of the data. */
    method Append(p: Path, data: Content) returns (r: Result<()>)
      requires p in tree && tree[p].File?
      modifies this
      ensures !r.Refused? && faulty == (old(faulty) || r.Faulted?)
      ensures |trace| > |old(trace)| && Torn(old(tree), trace[|old(trace)|], p, data)
      ensures r.Ok? ==> tree == old(tree)[p := File(old(tree)[p].content + data)]
      ensures r.Ok? ==> trace == old(trace) + [trace[|old(trace)|], tree]
      ensures !r.Ok? ==> trace == old(trace) + [tree]
    {
      var whole := tree[p := File(tree[p].content + data)];
      var n: nat :| n <= |data|;
      Change(tree[p := File(tree[p].content + data[..n])]);
      var ok := Permitted();
      if !ok {
        return Faulted;
      }
      Change(whole);
      return Ok(());
    }

    /** A second name for a file; an existing path is never replaced. */
    method Link(source: Path, target: Path) returns (r: Result<()>)
      requires source in tree
      modifies this
      ensures r.Refused? <==> target in old(tree)
      ensures faulty == (old(faulty) || r.Faulted?)
      ensures r.Ok? ==> tree == old(tree)[target := old(tree)[source]] && trace == old(trace) + [tree]
      ensures !r.Ok? ==> tree == old(tree) && trace == old(trace)
    {
      r := Create(target, tree[source]);
    }

    /** Removes a name; a missing one is no error. */
    method Unlink(p: Path) returns (r: Result<()>)
      modifies this
      ensures !r.Refused? && faulty == (old(faulty) || r.Faulted?)
      ensures r.Ok? ==>
                tree == old(tree) - {p} && (trace == old(trace) + [tree] || (trace == old(trace) && p !in old(tree)))
      ensures !r.Ok? ==> tree == old(tree) && trace == old(trace)
    {
      if p !in tree {
        assert tree - {p} == tree;
        return Ok(());
      }
      var ok := Permitted();
      if !ok {
        return Faulted;
      }
      Change(tree - {p});
      return Ok(());
    }
  }
}
