/** neo/Core/Cryptography/MerkleTree.py: the tree of hashes, as a list computation and as linked nodes. */
module MerkleTree {
  import opened Bits
  import opened Wrappers

  type Hash = seq<int>

  /** Double SHA-256 of two concatenated digests. */
  type PairHash = (Hash, Hash) -> Hash

  // ---- the root of a list --------------------------------------------------------------------

  /** The right partner of position 2i: the next element, or the element itself at an odd end. */
  function Partner<T>(s: seq<T>, i: nat): T
    requires 2 * i < |s|
  {
    if 2 * i + 1 == |s| then s[2 * i] else s[2 * i + 1]
  }

  function Level(pair: PairHash, s: seq<Hash>): (r: seq<Hash>)
    ensures |r| == (|s| + 1) / 2
    ensures forall i :: 0 <= i < |r| ==> r[i] == pair(s[2 * i], Partner(s, i))
  {
    seq((|s| + 1) / 2, i requires 0 <= i < (|s| + 1) / 2 => pair(s[2 * i], Partner(s, i)))
  }

  function Root(pair: PairHash, s: seq<Hash>): Hash
    requires s != []
    decreases |s|
  {
    if |s| == 1 then s[0] else Root(pair, Level(pair, s))
  }

  ghost predicate Injective(pair: PairHash) {
    forall a, b, c, d :: pair(a, b) == pair(c, d) ==> a == c && b == d
  }

  lemma LevelBinds(pair: PairHash, a: seq<Hash>, b: seq<Hash>)
    requires Injective(pair) && |a| == |b| && Level(pair, a) == Level(pair, b)
    ensures a == b
  {
    forall k | 0 <= k < |a| ensures a[k] == b[k] {
      var i := k / 2;
      assert Level(pair, a)[i] == Level(pair, b)[i];
      assert pair(a[2 * i], Partner(a, i)) == pair(b[2 * i], Partner(b, i));
    }
  }

  /** The root determines a list of known length when the pair hash is injective. */
  lemma {:induction false} RootBinds(pair: PairHash, a: seq<Hash>, b: seq<Hash>)
    requires Injective(pair) && a != [] && |a| == |b| && Root(pair, a) == Root(pair, b)
    ensures a == b
    decreases |a|
  {
    if |a| > 1 {
      RootBinds(pair, Level(pair, a), Level(pair, b));
      LevelBinds(pair, a, b);
    }
  }

  lemma RepeatedLevel(pair: PairHash, a: seq<Hash>, b: seq<Hash>)
    requires |a| % 2 == 1 && b == a + [a[|a| - 1]]
    ensures Level(pair, b) == Level(pair, a)
  {
    forall i | 0 <= i < (|a| + 1) / 2 ensures Level(pair, b)[i] == Level(pair, a)[i] {
      assert b[2 * i] == a[2 * i] && Partner(b, i) == Partner(a, i);
    }
  }

  /** The length must be known: repeating the last of an odd number of leaves does not change the root. */
  lemma RepeatedLastLeaf(pair: PairHash, a: seq<Hash>)
    requires |a| >= 3 && |a| % 2 == 1
    ensures Root(pair, a + [a[|a| - 1]]) == Root(pair, a)
  {
    var b := a + [a[|a| - 1]];
    RepeatedLevel(pair, a, b);
    hide Level;
    assert Root(pair, b) == Root(pair, Level(pair, b));
  }

  // ---- the tree ------------------------------------------------------------------------------

  datatype Tree = Leaf(hash: Hash) | Node(hash: Hash, left: Tree, right: Tree)

  function ParentOf(pair: PairHash, l: Tree, r: Tree): Tree {
    Node(pair(l.hash, r.hash), l, r)
  }

  function TreeLevel(pair: PairHash, ts: seq<Tree>): (r: seq<Tree>)
    ensures |r| == (|ts| + 1) / 2
    ensures forall i :: 0 <= i < |r| ==> r[i] == ParentOf(pair, ts[2 * i], Partner(ts, i))
  {
    seq((|ts| + 1) / 2, i requires 0 <= i < (|ts| + 1) / 2 => ParentOf(pair, ts[2 * i], Partner(ts, i)))
  }

  function BuildTree(pair: PairHash, ts: seq<Tree>): Tree
    requires ts != []
    decreases |ts|
  {
    if |ts| == 1 then ts[0] else BuildTree(pair, TreeLevel(pair, ts))
  }

  function Hashes(ts: seq<Tree>): (r: seq<Hash>)
    ensures |r| == |ts| && forall i :: 0 <= i < |ts| ==> r[i] == ts[i].hash
  {
    seq(|ts|, i requires 0 <= i < |ts| => ts[i].hash)
  }

  function Leaves(s: seq<Hash>): (r: seq<Tree>)
    ensures |r| == |s| && forall i :: 0 <= i < |s| ==> r[i] == Leaf(s[i])
  {
    seq(|s|, i requires 0 <= i < |s| => Leaf(s[i]))
  }

  lemma {:induction false} BuiltRoot(pair: PairHash, ts: seq<Tree>)
    requires ts != []
    ensures BuildTree(pair, ts).hash == Root(pair, Hashes(ts))
    decreases |ts|
  {
    if |ts| > 1 {
      BuiltRoot(pair, TreeLevel(pair, ts));
      assert Hashes(TreeLevel(pair, ts)) == Level(pair, Hashes(ts));
    }
  }

  /** Steps to the bottom along left children, counting nodes. */
  function Depth(t: Tree): nat {
    match t
    case Leaf(_) => 1
    case Node(_, l, _) => 1 + Depth(l)
  }

  /** The set a depth-first search collects. */
  function LeafSet(t: Tree): set<Hash> {
    match t
    case Leaf(h) => {h}
    case Node(_, l, r) => LeafSet(l) + LeafSet(r)
  }

  ghost function LeafSets(ts: seq<Tree>): set<Hash> {
    if ts == [] then {} else LeafSet(ts[0]) + LeafSets(ts[1..])
  }

  lemma {:induction false} InLeafSets(ts: seq<Tree>, h: Hash)
    ensures h in LeafSets(ts) <==> exists i :: 0 <= i < |ts| && h in LeafSet(ts[i])
  {
    if ts != [] {
      InLeafSets(ts[1..], h);
      if h in LeafSets(ts[1..]) {
        var i :| 0 <= i < |ts[1..]| && h in LeafSet(ts[1..][i]);
        assert h in LeafSet(ts[i + 1]);
      }
      if i :| 0 <= i < |ts| && h in LeafSet(ts[i]) {
        if i > 0 { assert h in LeafSet(ts[1..][i - 1]); }
      }
    }
  }

  /** Pairing up a level loses no leaf and invents none, odd end or not. */
  lemma LevelKeepsLeaves(pair: PairHash, ts: seq<Tree>)
    ensures LeafSets(TreeLevel(pair, ts)) == LeafSets(ts)
  {
    var up := TreeLevel(pair, ts);
    forall h ensures h in LeafSets(up) <==> h in LeafSets(ts) {
      InLeafSets(up, h);
      InLeafSets(ts, h);
      if i :| 0 <= i < |ts| && h in LeafSet(ts[i]) {
        assert h in LeafSet(up[i / 2]);
      }
      if i :| 0 <= i < |up| && h in LeafSet(up[i]) {
        assert up[i] == ParentOf(pair, ts[2 * i], Partner(ts, i));
        assert h in LeafSet(ts[2 * i]) || h in LeafSet(Partner(ts, i));
      }
    }
  }

  lemma {:induction false} BuildKeepsLeaves(pair: PairHash, ts: seq<Tree>)
    requires ts != []
    ensures LeafSet(BuildTree(pair, ts)) == LeafSets(ts)
    decreases |ts|
  {
    if |ts| == 1 {
      assert LeafSets(ts) == LeafSet(ts[0]) + LeafSets([]);
    } else {
      BuildKeepsLeaves(pair, TreeLevel(pair, ts));
      LevelKeepsLeaves(pair, ts);
    }
  }

  /** `ToHashArray` yields exactly the set of the leaf hashes. */
  lemma HashArrayIsLeaves(pair: PairHash, s: seq<Hash>)
    requires s != []
    ensures LeafSet(BuildTree(pair, Leaves(s))) == set h | h in s
  {
    BuildKeepsLeaves(pair, Leaves(s));
    forall h ensures h in LeafSets(Leaves(s)) <==> h in s {
      InLeafSets(Leaves(s), h);
      if h in s {
        var i :| 0 <= i < |s| && s[i] == h;
        assert h in LeafSet(Leaves(s)[i]);
      }
    }
  }

  ghost predicate AllOfDepth(ts: seq<Tree>, d: nat) {
    forall i :: 0 <= i < |ts| ==> Depth(ts[i]) == d
  }

  /** Depth grows with the binary logarithm: e further levels for between 2^(e - 1) and 2^e trees. */
  lemma {:induction false} DepthBounds(pair: PairHash, ts: seq<Tree>, d: nat) returns (e: nat)
    requires |ts| >= 2 && AllOfDepth(ts, d)
    ensures Depth(BuildTree(pair, ts)) == d + e && e >= 1 && Pow2(e - 1) < |ts| <= Pow2(e)
    decreases |ts|
  {
    hide AllOfDepth, Depth, Pow2, TreeLevel;
    var up := TreeLevel(pair, ts);
    LevelDepth(pair, ts, d);
    if |up| > 1 {
      var f := DepthBounds(pair, up, d + 1);
      DoubleBounds(f, |up|, |ts|);
      e := f + 1;
    } else {
      AllOfDepthAt(up, d + 1);
      TwoLeaves();
      e := 1;
    }
  }

  lemma TwoLeaves()
    ensures Pow2(0) == 1 && Pow2(1) == 2
  {
    assert Pow2(1) == 2 * Pow2(0);
  }

  lemma LevelDepth(pair: PairHash, ts: seq<Tree>, d: nat)
    requires AllOfDepth(ts, d)
    ensures AllOfDepth(TreeLevel(pair, ts), d + 1)
  {
  }

  lemma AllOfDepthAt(ts: seq<Tree>, d: nat)
    requires AllOfDepth(ts, d) && |ts| == 1
    ensures Depth(ts[0]) == d
  {
  }

  lemma DoubleBounds(e: int, half: int, n: int)
    requires e >= 1 && half == (n + 1) / 2 && Pow2(e - 1) < half <= Pow2(e)
    ensures Pow2(e) < n <= Pow2(e + 1)
  {
    assert Pow2(e + 1) == 2 * Pow2(e) && Pow2(e) == 2 * Pow2(e - 1);
  }

  lemma LeavesHaveDepth1(s: seq<Hash>)
    ensures AllOfDepth(Leaves(s), 1)
  {
  }

  lemma TreeDepth(pair: PairHash, s: seq<Hash>)
    requires |s| >= 2
    ensures var d := Depth(BuildTree(pair, Leaves(s))); d >= 2 && Pow2(d - 2) < |s| <= Pow2(d - 1)
  {
    hide Depth, Pow2, BuildTree;
    LeavesHaveDepth1(s);
    var e := DepthBounds(pair, Leaves(s), 1);
  }

  // ---- linked nodes --------------------------------------------------------------------------

  class MerkleTreeNode {
    var hash: Hash
    var parent: MerkleTreeNode?
    var leftChild: MerkleTreeNode?
    var rightChild: MerkleTreeNode?

    constructor (hash: Hash)
      ensures this.hash == hash && parent == null && leftChild == null && rightChild == null
    {
      this.hash := hash;
      parent, leftChild, rightChild := null, null, null;
    }
  }

  /** The node and its descendants, all in `s`, carry this tree. Parent links are not part of it. */
  ghost predicate Represents(n: MerkleTreeNode, t: Tree, s: set<MerkleTreeNode>)
    reads s`hash, s`leftChild, s`rightChild
    decreases t
  {
    n in s && n.hash == t.hash &&
    match t
    case Leaf(_) => n.leftChild == null && n.rightChild == null
    case Node(_, l, r) =>
      n.leftChild != null && n.rightChild != null
      && Represents(n.leftChild, l, s) && Represents(n.rightChild, r, s)
  }

  lemma {:induction false} RepresentsMore(n: MerkleTreeNode, t: Tree, s: set<MerkleTreeNode>, s': set<MerkleTreeNode>)
    requires Represents(n, t, s) && s <= s'
    ensures Represents(n, t, s')
    decreases t
  {
    if t.Node? {
      RepresentsMore(n.leftChild, t.left, s, s');
      RepresentsMore(n.rightChild, t.right, s, s');
    }
  }

  /** Joins two nodes, which are the same one at an odd end. */
  method MakeParent(pair: PairHash, l: MerkleTreeNode, r: MerkleTreeNode) returns (node: MerkleTreeNode)
    modifies l`parent, r`parent
    ensures fresh(node) && node.hash == pair(l.hash, r.hash) && node.leftChild == l && node.rightChild == r
    ensures l.parent == node && r.parent == node
  {
    node := new MerkleTreeNode([]);
    node.leftChild := l;
    l.parent := node;
    node.rightChild := r;
    r.parent := node;
    node.hash := pair(node.leftChild.hash, node.rightChild.hash);
  }

  lemma AllRepresentMore(nodes: seq<MerkleTreeNode>, ts: seq<Tree>, s: set<MerkleTreeNode>, s': set<MerkleTreeNode>)
    requires |nodes| == |ts| && s <= s' && forall j :: 0 <= j < |ts| ==> Represents(nodes[j], ts[j], s)
    ensures forall j :: 0 <= j < |ts| ==> Represents(nodes[j], ts[j], s')
  {
    hide Represents;
    forall j | 0 <= j < |ts| ensures Represents(nodes[j], ts[j], s') {
      RepresentsMore(nodes[j], ts[j], s, s');
    }
  }

  lemma ParentRepresents(pair: PairHash, ts: seq<Tree>, i: nat, l: MerkleTreeNode, r: MerkleTreeNode,
      node: MerkleTreeNode, s: set<MerkleTreeNode>)
    requires i < (|ts| + 1) / 2 && node in s
    requires Represents(l, ts[2 * i], s) && Represents(r, Partner(ts, i), s)
    requires node.hash == pair(l.hash, r.hash) && node.leftChild == l && node.rightChild == r
    ensures Represents(node, TreeLevel(pair, ts)[i], s)
  {
  }

  /** One level: a parent for every two nodes, an odd last node being paired with itself. */
  method Parents(pair: PairHash, leaves: seq<MerkleTreeNode>, ghost ts: seq<Tree>, ghost s: set<MerkleTreeNode>)
      returns (parents: seq<MerkleTreeNode>, ghost all: set<MerkleTreeNode>)
    requires |leaves| == |ts| >= 2 && forall i :: 0 <= i < |ts| ==> Represents(leaves[i], ts[i], s)
    modifies (set i | 0 <= i < |leaves| :: leaves[i])`parent
    ensures s <= all && fresh(all - s) && |parents| == |TreeLevel(pair, ts)|
    ensures forall j :: 0 <= j < |parents| ==> fresh(parents[j])
    ensures forall j :: 0 <= j < |parents| ==> Represents(parents[j], TreeLevel(pair, ts)[j], all)
  {
    hide Represents, ParentOf;
    var n := (|leaves| + 1) / 2;
    parents := [];
    ghost var up := TreeLevel(pair, ts);
    all := s;
    var i := 0;
    while i < n
      invariant 0 <= i <= n && |parents| == i && s <= all && fresh(all - s)
      invariant forall j :: 0 <= j < i ==> fresh(parents[j])
      invariant forall j :: 0 <= j < |ts| ==> Represents(leaves[j], ts[j], all)
      invariant forall j :: 0 <= j < i ==> Represents(parents[j], up[j], all)
    {
      var node: MerkleTreeNode;
      if i * 2 + 1 == |leaves| {
        node := MakeParent(pair, leaves[i * 2], leaves[i * 2]);
      } else {
        node := MakeParent(pair, leaves[i * 2], leaves[i * 2 + 1]);
      }
      ghost var more := all + {node};
      AllRepresentMore(leaves, ts, all, more);
      AllRepresentMore(parents, up[..i], all, more);
      var right := leaves[if i * 2 + 1 == |leaves| then i * 2 else i * 2 + 1];
      ParentRepresents(pair, ts, i, leaves[i * 2], right, node, more);
      all := more;
      parents := parents + [node];
      i := i + 1;
    }
  }

  /** `__Build`, which gives no root for no leaves. */
  method Build(pair: PairHash, leaves: seq<MerkleTreeNode>, ghost ts: seq<Tree>, ghost s: set<MerkleTreeNode>)
      returns (root: MerkleTreeNode?, ghost s': set<MerkleTreeNode>)
    requires |leaves| == |ts| && forall i :: 0 <= i < |ts| ==> Represents(leaves[i], ts[i], s)
    modifies (set i | 0 <= i < |leaves| :: leaves[i])`parent
    ensures s <= s' && fresh(s' - s)
    ensures root == null <==> leaves == []
    ensures root != null ==> Represents(root, BuildTree(pair, ts), s')
    decreases |leaves|
  {
    if |leaves| < 1 {
      return null, s;
    }
    if |leaves| == 1 {
      return leaves[0], s;
    }
    ghost var up := TreeLevel(pair, ts);
    var parents;
    ghost var all;
    parents, all := Parents(pair, leaves, ts, s);
    root, s' := Build(pair, parents, up, all);
  }

  /** The tree of a list of hashes: its root hash, depth, and leaf set. */
  class MerkleTree {
    var root: MerkleTreeNode
    var depth: nat
    ghost var tree: Tree
    ghost var nodes: set<MerkleTreeNode>

    ghost predicate Valid()
      reads this, nodes`hash, nodes`leftChild, nodes`rightChild
    {
      Represents(root, tree, nodes) && depth == Depth(tree)
    }

    constructor (pair: PairHash, hashes: seq<Hash>)
      requires hashes != []
      ensures Valid() && tree == BuildTree(pair, Leaves(hashes))
      ensures root.hash == Root(pair, hashes)
    {
      var leaves: seq<MerkleTreeNode> := [];
      ghost var s: set<MerkleTreeNode> := {};
      var i := 0;
      while i < |hashes|
        invariant 0 <= i <= |hashes| && |leaves| == i && fresh(s)
        invariant forall j :: 0 <= j < i ==> fresh(leaves[j]) && Represents(leaves[j], Leaf(hashes[j]), s)
      {
        var leaf := new MerkleTreeNode(hashes[i]);
        forall j | 0 <= j < i ensures Represents(leaves[j], Leaf(hashes[j]), s + {leaf}) {
          RepresentsMore(leaves[j], Leaf(hashes[j]), s, s + {leaf});
        }
        s := s + {leaf};
        leaves := leaves + [leaf];
        i := i + 1;
      }
      ghost var t := BuildTree(pair, Leaves(hashes));
      var top, s' := Build(pair, leaves, Leaves(hashes), s);
      BuiltRoot(pair, Leaves(hashes));
      assert Hashes(Leaves(hashes)) == hashes;
      var d := 1;
      var node: MerkleTreeNode := top;
      ghost var below := t;
      while node.leftChild != null
        invariant Represents(node, below, s') && d + Depth(below) == 1 + Depth(t)
        decreases below
      {
        d := d + 1;
        below := below.left;
        node := node.leftChild;
      }
      root, depth, tree, nodes := top, d, t, s';
    }

    method ToHashArray() returns (hashes: set<Hash>)
      requires Valid()
      ensures hashes == LeafSet(tree)
    {
      hashes := DepthFirstSearch(root, {}, tree, nodes);
    }
  }

  method DepthFirstSearch(node: MerkleTreeNode, hashes: set<Hash>, ghost t: Tree, ghost s: set<MerkleTreeNode>)
      returns (r: set<Hash>)
    requires Represents(node, t, s)
    ensures r == hashes + LeafSet(t)
    decreases t
  {
    if node.leftChild == null {
      return hashes + {node.hash};
    }
    r := DepthFirstSearch(node.leftChild, hashes, t.left, s);
    r := DepthFirstSearch(node.rightChild, r, t.right, s);
  }

  /** `ComputeRoot`, which fails exactly on an empty list. */
  method ComputeRoot(pair: PairHash, hashes: seq<Hash>) returns (r: Option<Hash>)
    ensures r == if hashes == [] then None else Some(Root(pair, hashes))
  {
    if |hashes| == 0 {
      return None;
    }
    if |hashes| == 1 {
      return Some(hashes[0]);
    }
    var tree := new MerkleTree(pair, hashes);
    return Some(tree.root.hash);
  }
}
