/**
 * The file system the watcher looks at, as an immutable snapshot: a tree
 * of directories and files under the root, and the set of entries that
 * cannot be read. `Files.isDirectory` is a lookup in the tree, and
 * `Files.walkFileTree` with a visitor that only continues is a preorder
 * walk that stops at the first entry it cannot read.
 */
module FileTree {
  import opened Wrappers
  import opened Paths

  datatype Node = File(name: string) | Dir(name: string, children: seq<Node>)

  datatype FileSystem = FileSystem(root: seq<Node>, unreadable: set<Path>)

  /** The first child called `name`. */
  function Child(nodes: seq<Node>, name: string): (r: Option<Node>)
    ensures r.Some? ==> r.value in nodes && r.value.name == name
  {
    if nodes == [] then None
    else if nodes[0].name == name then Some(nodes[0])
    else Child(nodes[1..], name)
  }

  function LookupFrom(n: Node, p: Path): Option<Node>
    decreases |p|
  {
    if p == [] then Some(n)
    else match n
      case File(_) => None
      case Dir(_, cs) =>
        match Child(cs, p[0])
        case None => None
        case Some(c) => LookupFrom(c, p[1..])
  }

  /** The entry at an absolute path; the root is a directory. */
  function Lookup(fs: FileSystem, p: Path): Option<Node> {
    LookupFrom(Dir("", fs.root), p)
  }

  /** `Files.isDirectory(p)`. */
  predicate IsDirectory(fs: FileSystem, p: Path) {
    var n := Lookup(fs, p);
    n.Some? && n.value.Dir?
  }

  /** One visitor call: `preVisitDirectory` for a directory, `visitFile` for anything else. */
  datatype Visit = Visit(path: Path, isDir: bool)

  /** The visitor calls made, and whether the walk ended with an `IOException`. */
  datatype Walked = Walked(visits: seq<Visit>, failed: bool)

  /**
   * The walk of `n`, found at `at`: an unreadable entry fails before it is
   * visited; a directory is visited before its children, in order.
   */
  function WalkNode(n: Node, at: Path, unreadable: set<Path>): Walked
    decreases n
  {
    if at in unreadable then Walked([], true)
    else match n
      case File(_) => Walked([Visit(at, false)], false)
      case Dir(_, cs) =>
        var w := WalkChildren(cs, at, unreadable);
        Walked([Visit(at, true)] + w.visits, w.failed)
  }

  function WalkChildren(cs: seq<Node>, at: Path, unreadable: set<Path>): Walked
    decreases cs
  {
    if cs == [] then Walked([], false)
    else
      var first := WalkNode(cs[0], at + [cs[0].name], unreadable);
      if first.failed then first
      else
        var rest := WalkChildren(cs[1..], at, unreadable);
        Walked(first.visits + rest.visits, rest.failed)
  }

  /** `Files.walkFileTree(start, visitor)`: a start that does not exist fails at once. */
  function Walk(fs: FileSystem, start: Path): Walked {
    match Lookup(fs, start)
    case None => Walked([], true)
    case Some(n) => WalkNode(n, start, fs.unreadable)
  }

  /** No entry at or below `at` is unreadable. */
  predicate ReadableBelow(at: Path, unreadable: set<Path>) {
    forall u :: u in unreadable ==> !IsPrefix(at, u)
  }

  // ---------------------------------------------------------------------
  // Lemmas about the walk.

  /** Every visited path lies at or below the start. */
  lemma {:induction false} WalkNodeUnder(n: Node, at: Path, unreadable: set<Path>)
    ensures forall v :: v in WalkNode(n, at, unreadable).visits ==> IsPrefix(at, v.path)
    decreases n
  {
    if at !in unreadable && n.Dir? {
      WalkChildrenUnder(n.children, at, unreadable);
    }
  }

  lemma {:induction false} WalkChildrenUnder(cs: seq<Node>, at: Path, unreadable: set<Path>)
    ensures forall v :: v in WalkChildren(cs, at, unreadable).visits ==> |at| < |v.path| && IsPrefix(at, v.path)
    decreases cs
  {
    if cs != [] {
      var c := at + [cs[0].name];
      WalkNodeUnder(cs[0], c, unreadable);
      WalkChildrenUnder(cs[1..], at, unreadable);
      forall v | v in WalkNode(cs[0], c, unreadable).visits
        ensures |at| < |v.path| && IsPrefix(at, v.path)
      {
        assert v.path[..|c|] == c;
        assert v.path[..|at|] == c[..|at|];
      }
    }
  }

  /**
   * The walk makes a prefix of the visitor calls of a walk that reads
   * everything, and all of them when it does not fail.
   */
  lemma {:induction false} WalkNodePrefix(n: Node, at: Path, unreadable: set<Path>)
    ensures var w := WalkNode(n, at, unreadable);
      var all := WalkNode(n, at, {}).visits;
      |w.visits| <= |all| && w.visits == all[..|w.visits|] && (!w.failed ==> w.visits == all)
    decreases n
  {
    if at !in unreadable && n.Dir? {
      WalkChildrenPrefix(n.children, at, unreadable);
      var w := WalkChildren(n.children, at, unreadable).visits;
      var all := WalkChildren(n.children, at, {}).visits;
      assert ([Visit(at, true)] + all)[..1 + |w|] == [Visit(at, true)] + all[..|w|];
    }
  }

  lemma {:induction false} WalkChildrenPrefix(cs: seq<Node>, at: Path, unreadable: set<Path>)
    ensures var w := WalkChildren(cs, at, unreadable);
      var all := WalkChildren(cs, at, {}).visits;
      |w.visits| <= |all| && w.visits == all[..|w.visits|] && (!w.failed ==> w.visits == all)
    decreases cs
  {
    if cs != [] {
      var c := at + [cs[0].name];
      WalkNodePrefix(cs[0], c, unreadable);
      WalkChildrenPrefix(cs[1..], at, unreadable);
      WalkNodeReadable(cs[0], c, {});
      var first := WalkNode(cs[0], c, unreadable);
      var firstAll := WalkNode(cs[0], c, {}).visits;
      var restAll := WalkChildren(cs[1..], at, {}).visits;
      assert WalkChildren(cs, at, {}).visits == firstAll + restAll;
      if first.failed {
        assert (firstAll + restAll)[..|first.visits|] == firstAll[..|first.visits|];
      } else {
        var rest := WalkChildren(cs[1..], at, unreadable).visits;
        assert (firstAll + restAll)[..|firstAll| + |rest|] == firstAll + restAll[..|rest|];
      }
    }
  }

  /** A walk over a subtree with nothing unreadable in it does not fail. */
  lemma {:induction false} WalkNodeReadable(n: Node, at: Path, unreadable: set<Path>)
    requires ReadableBelow(at, unreadable)
    ensures !WalkNode(n, at, unreadable).failed
    decreases n
  {
    assert at !in unreadable by {
      assert at in unreadable ==> IsPrefix(at, at);
    }
    if n.Dir? {
      WalkChildrenReadable(n.children, at, unreadable);
    }
  }

  lemma {:induction false} WalkChildrenReadable(cs: seq<Node>, at: Path, unreadable: set<Path>)
    requires ReadableBelow(at, unreadable)
    ensures !WalkChildren(cs, at, unreadable).failed
    decreases cs
  {
    if cs != [] {
      var c := at + [cs[0].name];
      assert ReadableBelow(c, unreadable) by {
        assert c[..|at|] == at;
        forall u | u in unreadable ensures !IsPrefix(c, u) {
          PrefixTransitive(at, c, u);
        }
      }
      WalkNodeReadable(cs[0], c, unreadable);
      WalkChildrenReadable(cs[1..], at, unreadable);
    }
  }

  /** A readable directory is visited first, as a directory. */
  lemma WalkStartsAtDirectory(fs: FileSystem, start: Path)
    requires IsDirectory(fs, start) && start !in fs.unreadable
    ensures var w := Walk(fs, start); w.visits != [] && w.visits[0] == Visit(start, true)
  {
  }
}
