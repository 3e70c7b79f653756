/**
 * An abstract filesystem: each directory path maps to the set of file names
 * it holds. The scripts only list, move, delete and create directories, so
 * this is all the structure the model needs. `os.listdir`, `shutil.move`,
 * `os.remove` and `os.makedirs(..., exist_ok=True)` become the methods of
 * `FileSystem`; whatever the operating system decides (the order of a
 * listing, a move or a deletion that fails) comes in as a parameter or as a
 * nondeterministic choice.
 */
module FileSystemModel {
  import opened Wrappers
  import opened Names

  /** Directory path to the names of the files in it. */
  type Tree = map<Path, set<Name>>

  /** `shutil.move(src/name, dst/name)` succeeds when the environment lets it and the file and target directory exist. */
  predicate MoveSucceeds(t: Tree, src: Path, dst: Path, name: Name, envOk: bool)
  {
    envOk && src in t && dst in t && name in t[src]
  }

  /** The tree after a successful move of `name` from `src` to `dst`; an existing `dst/name` is replaced. */
  function MovedFile(t: Tree, src: Path, dst: Path, name: Name): (r: Tree)
    requires src in t && dst in t
    ensures r.Keys == t.Keys
    ensures src != dst ==> r[src] == t[src] - {name} && r[dst] == t[dst] + {name}
    ensures forall p :: p in t && p != src && p != dst ==> r[p] == t[p]
  {
    t[src := t[src] - {name}][dst := t[dst] + {name}]
  }

  /** `os.remove(dir/name)` succeeds when the environment lets it and the file exists. */
  predicate RemoveSucceeds(t: Tree, dir: Path, name: Name, envOk: bool)
  {
    envOk && dir in t && name in t[dir]
  }

  function RemovedFile(t: Tree, dir: Path, name: Name): (r: Tree)
    requires dir in t
    ensures r.Keys == t.Keys
    ensures r[dir] == t[dir] - {name}
    ensures forall p :: p in t && p != dir ==> r[p] == t[p]
  {
    t[dir := t[dir] - {name}]
  }

  /** `os.makedirs(p, exist_ok=True)`: an existing directory is left as it is, a missing one is created empty. */
  function WithDir(t: Tree, p: Path): (r: Tree)
    ensures r.Keys == t.Keys + {p}
    ensures forall q :: q in t ==> r[q] == t[q]
    ensures p !in t ==> r[p] == {}
  {
    if p in t then t else t[p := {}]
  }

  class FileSystem {
    var tree: Tree

    constructor (initial: Tree)
      ensures tree == initial
    {
      tree := initial;
    }

    /**
     * `os.listdir(p)`: `None` stands for the FileNotFoundError raised on a
     * missing directory; otherwise every file of `p` once, in an order the
     * model leaves open.
     */
    method ListDir(p: Path) returns (r: Option<seq<Name>>)
      ensures r.None? <==> p !in tree
      ensures r.Some? ==> IsListingOf(r.value, tree[p])
    {
      if p !in tree {
        return None;
      }
      var rest := tree[p];
      var listing: seq<Name> := [];
      while rest != {}
        invariant rest <= tree[p]
        invariant Distinct(listing)
        invariant forall x :: x in listing <==> x in tree[p] && x !in rest
        decreases rest
      {
        var x :| x in rest;
        listing := listing + [x];
        rest := rest - {x};
      }
      return Some(listing);
    }

    /** `shutil.move(src/name, dst/name)`, with `envOk` standing for everything else that can make it raise. */
    method Move(src: Path, dst: Path, name: Name, envOk: bool) returns (ok: bool)
      modifies this
      ensures ok == MoveSucceeds(old(tree), src, dst, name, envOk)
      ensures tree == if ok then MovedFile(old(tree), src, dst, name) else old(tree)
    {
      ok := MoveSucceeds(tree, src, dst, name, envOk);
      if ok {
        tree := MovedFile(tree, src, dst, name);
      }
    }

    /** `os.remove(dir/name)`, with `envOk` standing for everything else that can make it raise. */
    method Remove(dir: Path, name: Name, envOk: bool) returns (ok: bool)
      modifies this
      ensures ok == RemoveSucceeds(old(tree), dir, name, envOk)
      ensures tree == if ok then RemovedFile(old(tree), dir, name) else old(tree)
    {
      ok := RemoveSucceeds(tree, dir, name, envOk);
      if ok {
        tree := RemovedFile(tree, dir, name);
      }
    }

    /** `os.makedirs(p, exist_ok=True)` */
    method MakeDirs(p: Path)
      modifies this
      ensures tree == WithDir(old(tree), p)
    {
      tree := WithDir(tree, p);
    }
  }
}
