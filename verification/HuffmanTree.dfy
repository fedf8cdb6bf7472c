/** The code tree of HPACK as linked nodes: building it from the code table, walking it to
    decode, and the round trip of the whole coder. */
module HuffmanTree {
  import opened Basics
  import opened Bits
  import opened HuffmanCode
  import HuffmanCoder

  /** `node`; `path` is where it stands in the tree. */
  class Node {
    var symbol: int
    var left: Node?
    var right: Node?
    ghost const path: BitString

    constructor (ghost path: BitString)
      ensures symbol == -1 && left == null && right == null && this.path == path
    {
      symbol, left, right := -1, null, null;
      this.path := path;
    }
  }

  /** The node standing at each path. */
  type Paths = map<BitString, Node>

  ghost function Child(paths: Paths, path: BitString): Node? {
    if path in paths then paths[path] else null
  }

  /** The node at `path` has its links, and the symbol that the first `n` codes left there. */
  ghost predicate NodeAt(t: Table, n: nat, paths: Paths, nodes: set<Node>, path: BitString)
    requires path in paths && n <= EOS + 1
    reads nodes
  {
    var node := paths[path];
    && node in nodes && node.path == path
    && node.left == Child(paths, path + [false]) && node.right == Child(paths, path + [true])
    && node.symbol == LastSymbol(t, n, path)
  }

  /** The paths after `n` codes and the first `k` bits of the next one. */
  ghost predicate Made(t: Table, n: nat, k: nat, path: BitString) {
    || path == []
    || (exists s :: 0 <= s < n <= EOS + 1 && path <= Code(t, s))
    || (n <= EOS && k <= t[n].codeLen && path <= Code(t, n)[..k])
  }

  ghost predicate Domain(t: Table, n: nat, k: nat, paths: set<BitString>) {
    forall p :: p in paths <==> Made(t, n, k, p)
  }

  ghost predicate Grown(t: Table, n: nat, k: nat, paths: Paths, nodes: set<Node>)
    requires n <= EOS + 1
    reads nodes
  {
    Domain(t, n, k, paths.Keys) && forall p {:trigger NodeAt(t, n, paths, nodes, p)} :: p in paths ==> NodeAt(t, n, paths, nodes, p)
  }

  /** The whole tree of a table. */
  ghost predicate IsTree(t: Table, root: Node, paths: Paths, nodes: set<Node>)
    reads nodes
  {
    Grown(t, EOS + 1, 0, paths, nodes) && root == Child(paths, [])
  }

  // ----- building -----

  lemma MadeStep(t: Table, n: nat, k: nat, path: BitString)
    requires n <= EOS && k < t[n].codeLen
    ensures Made(t, n, k + 1, path) <==> Made(t, n, k, path) || path == Code(t, n)[..k + 1]
  {
  }

  lemma MadeNext(t: Table, n: nat, path: BitString)
    requires n <= EOS
    ensures Made(t, n, t[n].codeLen, path) <==> Made(t, n + 1, 0, path)
  {
    assert Code(t, n)[..t[n].codeLen] == Code(t, n);
  }

  lemma MadePrefix(t: Table, n: nat, k: nat, path: BitString, b: bool)
    requires Made(t, n, k, path + [b])
    ensures Made(t, n, k, path)
  {
    assert path <= path + [b];
  }

  lemma NoSymbolYet(t: Table, n: nat, path: BitString)
    requires n <= EOS + 1 && forall s :: 0 <= s < n ==> !(path <= Code(t, s))
    ensures LastSymbol(t, n, path) == -1
  {
  }

  lemma SamePath(p: BitString, b: bool, q: BitString, c: bool)
    requires p + [b] == q + [c]
    ensures p == q && b == c
  {
    assert (p + [b])[..|p|] == p && (q + [c])[..|q|] == q;
    assert (p + [b])[|p|] == b && (q + [c])[|q|] == c;
  }

  /** What one more bit adds to the tree. */
  lemma StepPath(t: Table, n: nat, k: nat, paths: set<BitString>, path: BitString, bit: bool)
    requires n <= EOS && k < t[n].codeLen && Domain(t, n, k, paths)
    requires path + [bit] == Code(t, n)[..k + 1]
    ensures Domain(t, n, k + 1, paths + {path + [bit]})
    ensures path + [bit] !in paths ==> LastSymbol(t, n, path + [bit]) == -1
    ensures path + [bit] !in paths ==> forall b :: path + [bit] + [b] !in paths
  {
    var longer := path + [bit];
    forall p ensures Made(t, n, k + 1, p) <==> Made(t, n, k, p) || p == longer {
      MadeStep(t, n, k, p);
    }
    if longer !in paths {
      forall b ensures longer + [b] !in paths {
        if longer + [b] in paths { MadePrefix(t, n, k, longer, b); }
      }
      NoSymbolYet(t, n, longer);
    }
  }

  /** The missing child `path + [bit]` of the node at `path`. */
  method AddChild(t: Table, n: nat, curr: Node, bit: bool, ghost paths: Paths, ghost nodes: set<Node>)
    returns (child: Node)
    requires curr.path in paths && curr == paths[curr.path] && n <= EOS + 1
    requires forall p {:trigger NodeAt(t, n, paths, nodes, p)} :: p in paths ==> NodeAt(t, n, paths, nodes, p)
    requires curr.path + [bit] !in paths && LastSymbol(t, n, curr.path + [bit]) == -1
    requires forall b :: curr.path + [bit] + [b] !in paths
    modifies curr
    ensures fresh(child)
    ensures var paths' := paths[curr.path + [bit] := child];
      forall p {:trigger NodeAt(t, n, paths', nodes + {child}, p)} :: p in paths'
        ==> NodeAt(t, n, paths', nodes + {child}, p)
  {
    child := new Node(curr.path + [bit]);
    if bit {
      curr.right := child;
    } else {
      curr.left := child;
    }
    ghost var paths' := paths[curr.path + [bit] := child];
    forall p | p in paths' ensures NodeAt(t, n, paths', nodes + {child}, p) {
      forall b: bool ensures Child(paths', p + [b]) == if p == curr.path && b == bit then child else Child(paths, p + [b]) {
        if p + [b] == curr.path + [bit] {
          SamePath(p, b, curr.path, bit);
        }
      }
      if p != curr.path + [bit] {
        assert old(NodeAt(t, n, paths, nodes, p));
      }
    }
  }

  /** One step of the inner loop, down to the node of the next bit. */
  method Descend(t: Table, n: nat, k: nat, curr: Node, ghost paths: Paths, ghost nodes: set<Node>)
    returns (next: Node, ghost paths': Paths, ghost nodes': set<Node>)
    requires n <= EOS && k < t[n].codeLen && Grown(t, n, k, paths, nodes)
    requires curr == Child(paths, Code(t, n)[..k])
    modifies nodes
    ensures Grown(t, n, k + 1, paths', nodes') && fresh(nodes' - nodes)
    ensures next == Child(paths', Code(t, n)[..k + 1]) && Child(paths', []) == Child(paths, [])
  {
    ghost var path := Code(t, n)[..k];
    assert NodeAt(t, n, paths, nodes, path);
    BitAt(t[n].code, t[n].codeLen, k);
    var bit := Shr(t[n].code, t[n].codeLen - 1 - k) % 2 == 1;
    assert path + [bit] == Code(t, n)[..k + 1];
    StepPath(t, n, k, paths.Keys, path, bit);
    paths', nodes' := paths, nodes;
    var child := if bit then curr.right else curr.left;
    if child == null {
      next := AddChild(t, n, curr, bit, paths, nodes);
      paths', nodes' := paths[path + [bit] := next], nodes + {next};
      assert paths'.Keys == paths.Keys + {path + [bit]};
    } else {
      next := child;
      assert paths.Keys == paths.Keys + {path + [bit]};
    }
  }

  /** `curr->set_leaf(symbol)` */
  method SetLeaf(t: Table, n: nat, curr: Node, ghost paths: Paths, ghost nodes: set<Node>)
    requires n <= EOS && Grown(t, n, t[n].codeLen, paths, nodes)
    requires curr == Child(paths, Code(t, n)[..t[n].codeLen])
    modifies nodes
    ensures Grown(t, n + 1, 0, paths, nodes)
  {
    assert Code(t, n)[..t[n].codeLen] == Code(t, n);
    assert NodeAt(t, n, paths, nodes, Code(t, n));
    curr.symbol := n;
    forall p ensures p in paths.Keys <==> Made(t, n + 1, 0, p) {
      MadeNext(t, n, p);
    }
    forall p | p in paths ensures NodeAt(t, n + 1, paths, nodes, p) {
      assert old(NodeAt(t, n, paths, nodes, p));
    }
  }

  /** One turn of the outer loop. */
  method InsertSymbol(t: Table, n: nat, root: Node, ghost paths: Paths, ghost nodes: set<Node>)
    returns (ghost paths': Paths, ghost nodes': set<Node>)
    requires n <= EOS && root == Child(paths, []) && Grown(t, n, 0, paths, nodes)
    modifies nodes
    ensures Grown(t, n + 1, 0, paths', nodes') && fresh(nodes' - nodes) && root == Child(paths', [])
  {
    var curr := root;
    paths', nodes' := paths, nodes;
    for k := 0 to t[n].codeLen
      invariant Grown(t, n, k, paths', nodes') && fresh(nodes' - nodes)
      invariant curr == Child(paths', Code(t, n)[..k]) && root == Child(paths', [])
    {
      curr, paths', nodes' := Descend(t, n, k, curr, paths', nodes');
    }
    SetLeaf(t, n, curr, paths', nodes');
  }

  /** `created_huffman_tree` */
  method CreatedHuffmanTree(t: Table) returns (root: Node, ghost paths: Paths, ghost nodes: set<Node>)
    requires Fits(t)
    ensures fresh(nodes) && IsTree(t, root, paths, nodes)
  {
    root := new Node([]);
    paths, nodes := map[[] := root], {root};
    for n := 0 to EOS + 1
      invariant Grown(t, n, 0, paths, nodes) && fresh(nodes) && root == Child(paths, [])
    {
      paths, nodes := InsertSymbol(t, n, root, paths, nodes);
    }
  }

  // ----- decoding -----

  /** The nodes of a finished tree are the prefixes of codes, and a node without children
      is a leaf of the code. */
  lemma TreeNodes(t: Table, root: Node, paths: Paths, nodes: set<Node>, p: BitString)
    requires IsTree(t, root, paths, nodes)
    ensures p in paths <==> IsNode(t, p)
    ensures p in paths ==> NodeAt(t, EOS + 1, paths, nodes, p)
    ensures p in paths ==> (IsLeaf(t, p) <==> paths[p].left == null && paths[p].right == null)
  {
    forall q ensures q in paths <==> IsNode(t, q) {
      assert q in paths.Keys <==> Made(t, EOS + 1, 0, q);
    }
  }

  lemma LeafHasSymbol(t: Table, p: BitString)
    requires IsNode(t, p) && IsLeaf(t, p) && p != []
    ensures LastSymbol(t, EOS + 1, p) >= 0
  {
    var s: nat :| 0 <= s <= EOS && p <= Code(t, s);
    var c := Code(t, s);
    assert c[..|p|] == p;
    if |p| < |c| {
      ProperPrefixIsInner(t, s, |p|);
    }
  }

  lemma WalkStep(t: Table, bits: BitString, path: BitString)
    requires bits != []
    ensures var next := path + [bits[0]];
      && (!IsNode(t, next) ==> Walk(t, bits, path) == None)
      && (IsNode(t, next) && !IsLeaf(t, next) ==> Walk(t, bits, path) == Walk(t, bits[1..], next))
      && (IsNode(t, next) && IsLeaf(t, next) ==>
          var symbol := LastSymbol(t, EOS + 1, next);
          && symbol >= 0
          && Walk(t, bits, path) == if symbol == EOS then Some([]) else Prepend([symbol], Walk(t, bits[1..], [])))
  {
    var next := path + [bits[0]];
    if IsNode(t, next) && IsLeaf(t, next) {
      LeafHasSymbol(t, next);
    }
  }

  ghost predicate On(paths: Paths, node: Node) {
    node == Child(paths, node.path)
  }

  /** One bit of the walk: the child, or null; and what is left to walk. */
  method Follow(t: Table, root: Node, ghost paths: Paths, ghost nodes: set<Node>, curr: Node, byte: Byte, j: nat,
                ghost bits: BitString)
    returns (child: Node?)
    requires IsTree(t, root, paths, nodes) && j < 8 && On(paths, curr)
    requires bits != [] && bits[0] == BitsOf(byte, 8)[j]
    ensures child == null ==> Walk(t, bits, curr.path) == None
    ensures child != null ==> On(paths, child)
    ensures child != null && !(child.left == null && child.right == null)
      ==> Walk(t, bits, curr.path) == Walk(t, bits[1..], child.path)
    ensures child != null && child.left == null && child.right == null
      ==> child.symbol >= 0 && Walk(t, bits, curr.path)
            == if child.symbol == 256 then Some([]) else Prepend([child.symbol], Walk(t, bits[1..], []))
  {
    ghost var next := curr.path + [bits[0]];
    assert NodeAt(t, EOS + 1, paths, nodes, curr.path);
    TreeNodes(t, root, paths, nodes, next);
    WalkStep(t, bits, curr.path);
    BitAt(byte, 8, j);
    if Shr(byte, 7 - j) % 2 == 0 {
      child := curr.left;
    } else {
      child := curr.right;
    }
  }

  /** One turn of the inner loop: None stands for following a null child, which the
      source does not check. */
  method DecodeBit(t: Table, root: Node, ghost paths: Paths, ghost nodes: set<Node>,
                   value: seq<nat>, start: Node, byte: Byte, j: nat, ghost bits: BitString)
    returns (returned: bool, r: Option<seq<nat>>, curr: Node)
    requires IsTree(t, root, paths, nodes) && j < 8 && On(paths, start)
    requires bits != [] && bits[0] == BitsOf(byte, 8)[j]
    ensures returned ==> r == Prepend(value, Walk(t, bits, start.path))
    ensures !returned ==> r.Some? && On(paths, curr)
    ensures !returned ==> Prepend(value, Walk(t, bits, start.path)) == Prepend(r.value, Walk(t, bits[1..], curr.path))
  {
    assert NodeAt(t, EOS + 1, paths, nodes, []);
    var child := Follow(t, root, paths, nodes, start, byte, j, bits);
    if child == null {
      return true, None, root;
    }
    if child.left == null && child.right == null {
      if child.symbol == 256 {
        assert value + [] == value;
        return true, Some(value), root;
      }
      PrependTwice(value, [child.symbol], Walk(t, bits[1..], []));
      return false, Some(value + [child.symbol]), root;
    }
    return false, Some(value), child;
  }

  /** The eight turns of the inner loop, or fewer. */
  method DecodeByte(t: Table, root: Node, ghost paths: Paths, ghost nodes: set<Node>,
                    value: seq<nat>, start: Node, byte: Byte, ghost bits: BitString)
    returns (returned: bool, r: Option<seq<nat>>, curr: Node)
    requires IsTree(t, root, paths, nodes) && On(paths, start)
    requires |bits| >= 8 && bits[..8] == BitsOf(byte, 8)
    ensures returned ==> r == Prepend(value, Walk(t, bits, start.path))
    ensures !returned ==> r.Some? && On(paths, curr)
    ensures !returned ==> Prepend(value, Walk(t, bits, start.path)) == Prepend(r.value, Walk(t, bits[8..], curr.path))
  {
    returned, r, curr := false, Some(value), start;
    assert bits[0..] == bits;
    ghost var total := Prepend(value, Walk(t, bits, start.path));
    for j := 0 to 8
      invariant !returned && r.Some? && On(paths, curr)
      invariant total == Prepend(r.value, Walk(t, bits[j..], curr.path))
    {
      assert bits[..8][j] == bits[j] && bits[j..][1..] == bits[j + 1..];
      returned, r, curr := DecodeBit(t, root, paths, nodes, r.value, curr, byte, j, bits[j..]);
      if returned {
        return;
      }
    }
  }

  /** `get_huffman_string` */
  method GetHuffmanString(t: Table, root: Node, ghost paths: Paths, ghost nodes: set<Node>, bytes: seq<Byte>)
    returns (r: Option<seq<nat>>)
    requires IsTree(t, root, paths, nodes)
    ensures r == Walk(t, AllBits(bytes), [])
  {
    assert NodeAt(t, EOS + 1, paths, nodes, []);
    r := Some([]);
    var curr: Node := root;
    ghost var total := Walk(t, AllBits(bytes), []);
    PrependNothing(total);
    assert bytes[0..] == bytes;
    for i := 0 to |bytes|
      invariant r.Some? && On(paths, curr)
      invariant total == Prepend(r.value, Walk(t, AllBits(bytes[i..]), curr.path))
    {
      assert bytes[i..] == [bytes[i]] + bytes[i + 1..];
      AllBitsConcat([bytes[i]], bytes[i + 1..]);
      OneByte(bytes[i]);
      var returned;
      returned, r, curr := DecodeByte(t, root, paths, nodes, r.value, curr, bytes[i], AllBits(bytes[i..]));
      if returned {
        return;
      }
    }
    assert r.value + [] == r.value;
  }

  lemma OneByte(b: Byte)
    ensures AllBits([b]) == BitsOf(b, 8)
  {
    assert [b][..0] == [];
  }

  /** Everything together: what is encoded into a buffer decodes, with a tree built from
      the same table, to the string with every byte replaced by its representative. */
  method RoundTrip(t: Table, value: seq<Byte>) returns (r: Option<seq<nat>>)
    requires Decodable(t)
    ensures r == Some(DecodedAll(t, value))
  {
    var root, paths, nodes := CreatedHuffmanTree(t);
    var size := HuffmanCoder.HuffmanStringSize(t, value);
    var buffer := new Byte[size + 1];
    var end := HuffmanCoder.AddHuffmanString(t, buffer, 0, value);
    var bytes := buffer[..end];
    assert buffer[0..end] == bytes;
    r := GetHuffmanString(t, root, paths, nodes, bytes);
    DecodesPacking(t, bytes, value);
  }
}
