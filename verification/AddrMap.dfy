/** The address substitution map: a binary search tree of `int` keys, loaded from a list of pairs. */
module AddrMap {
  import opened Words

  datatype Option<T> = None | Some(value: T)

  /** The shape of a tree. */
  datatype Tree = Leaf | Branch(left: Tree, key: int, data: int, right: Tree)

  /** The search along the keys. */
  function Find(t: Tree, val: int): Option<int> {
    match t
    case Leaf => None
    case Branch(l, key, data, r) => if val < key then Find(l, val) else if val > key then Find(r, val) else Some(data)
  }

  function Inserted(t: Tree, key: int, data: int): Tree {
    match t
    case Leaf => Branch(Leaf, key, data, Leaf)
    case Branch(l, k, d, r) =>
      if key < k then Branch(Inserted(l, key, data), k, d, r)
      else if key > k then Branch(l, k, d, Inserted(r, key, data))
      else t
  }

  /** The pairs in the tree, wherever they are. */
  ghost function Pairs(t: Tree): set<(int, int)> {
    match t
    case Leaf => {}
    case Branch(l, key, data, r) => Pairs(l) + {(key, data)} + Pairs(r)
  }

  /** A search tree: smaller keys to the left, larger ones to the right. */
  ghost predicate Ordered(t: Tree) {
    match t
    case Leaf => true
    case Branch(l, key, _, r) => Ordered(l) && Ordered(r) && (forall p <- Pairs(l) :: p.0 < key) && forall p <- Pairs(r) :: p.0 > key
  }

  /** In a search tree the search finds what is there, and nothing else. */
  lemma {:induction false} FindInOrdered(t: Tree, val: int, data: int)
    requires Ordered(t)
    ensures Find(t, val) == Some(data) <==> (val, data) in Pairs(t)
  {
    match t {
      case Leaf =>
      case Branch(l, _, _, r) =>
        FindInOrdered(l, val, data);
        FindInOrdered(r, val, data);
    }
  }

  /** Adding a pair changes the answer for that key only, and not even for that if there was one. */
  lemma {:induction false} FindInserted(t: Tree, key: int, data: int, v: int)
    ensures Find(Inserted(t, key, data), v) == if v == key && Find(t, v) == None then Some(data) else Find(t, v)
  {
    match t {
      case Leaf =>
      case Branch(l, k, _, r) =>
        if key < k {
          FindInserted(l, key, data, v);
        } else if key > k {
          FindInserted(r, key, data, v);
        }
    }
  }

  /** It adds the pair if the key is new. */
  lemma {:induction false} InsertedPairs(t: Tree, key: int, data: int)
    ensures Pairs(Inserted(t, key, data)) == Pairs(t) + if Find(t, key) == None then {(key, data)} else {}
  {
    match t {
      case Leaf =>
      case Branch(l, k, _, r) =>
        if key < k {
          InsertedPairs(l, key, data);
        } else if key > k {
          InsertedPairs(r, key, data);
        }
    }
  }

  /** It keeps a search tree. */
  lemma {:induction false} InsertedKeeps(t: Tree, key: int, data: int)
    requires Ordered(t)
    ensures Ordered(Inserted(t, key, data))
  {
    match t {
      case Leaf =>
      case Branch(l, k, _, r) =>
        if key < k {
          InsertedKeeps(l, key, data);
          InsertedPairs(l, key, data);
        } else if key > k {
          InsertedKeeps(r, key, data);
          InsertedPairs(r, key, data);
        }
    }
  }

  class Node {
    const key: int
    const data: int
    var left: Node?
    var right: Node?
    ghost var repr: set<Node>   // the nodes of the tree
    ghost var shape: Tree

    ghost predicate Valid()
      reads this, repr
      decreases repr
    {
      && this in repr
      && (left != null ==> left in repr && left.repr < repr && this !in left.repr && left.Valid())
      && (right != null ==> right in repr && right.repr < repr && this !in right.repr && right.Valid())
      && ReprOf(left) !! ReprOf(right)
      && shape == Branch(ShapeOf(left), key, data, ShapeOf(right))
    }

    constructor (key: int, data: int)
      ensures Valid() && repr == {this} && shape == Branch(Leaf, key, data, Leaf)
    {
      this.key, this.data, left, right := key, data, null, null;
      repr, shape := {this}, Branch(Leaf, key, data, Leaf);
    }
  }

  ghost function ShapeOf(tree: Node?): Tree
    reads tree
  {
    if tree == null then Leaf else tree.shape
  }

  ghost function ReprOf(tree: Node?): set<Node>
    reads tree
  {
    if tree == null then {} else tree.repr
  }

  /** Linking the left subtree to its parent. */
  method AddLeft(tree: Node, left: Node)
    requires left.Valid() && tree !in left.repr && left.repr !! ReprOf(tree.right)
    requires tree.right != null ==> tree.right.Valid() && tree !in tree.right.repr
    modifies tree
    ensures tree.Valid() && tree.repr == {tree} + left.repr + old(ReprOf(tree.right))
    ensures tree.shape == Branch(left.shape, tree.key, tree.data, old(ShapeOf(tree.right)))
  {
    tree.left := left;
    tree.repr := {tree} + left.repr + ReprOf(tree.right);
    tree.shape := Branch(left.shape, tree.key, tree.data, ShapeOf(tree.right));
  }

  /** Linking the right subtree to its parent. */
  method AddRight(tree: Node, right: Node)
    requires right.Valid() && tree !in right.repr && right.repr !! ReprOf(tree.left)
    requires tree.left != null ==> tree.left.Valid() && tree !in tree.left.repr
    modifies tree
    ensures tree.Valid() && tree.repr == {tree} + right.repr + old(ReprOf(tree.left))
    ensures tree.shape == Branch(old(ShapeOf(tree.left)), tree.key, tree.data, right.shape)
  {
    tree.right := right;
    tree.repr := {tree} + right.repr + ReprOf(tree.left);
    tree.shape := Branch(ShapeOf(tree.left), tree.key, tree.data, right.shape);
  }

  /** `insert`, which returns the tree that it leaves in `*tree`. */
  method Insert(tree: Node?, key: int, data: int) returns (root: Node)
    requires tree != null ==> tree.Valid()
    modifies ReprOf(tree)
    ensures root.Valid() && (tree != null ==> root == tree) && fresh(root.repr - old(ReprOf(tree)))
    ensures root.shape == Inserted(old(ShapeOf(tree)), key, data)
    decreases ReprOf(tree)
  {
    if tree == null {
      root := new Node(key, data);
      return;
    }
    root := tree;
    if key < tree.key {
      var left := Insert(tree.left, key, data);
      AddLeft(tree, left);
    } else if key > tree.key {
      var right := Insert(tree.right, key, data);
      AddRight(tree, right);
    }
  }

  /** `search` */
  method Search(tree: Node?, val: int) returns (found: Node?)
    requires tree != null ==> tree.Valid()
    ensures Find(ShapeOf(tree), val) == if found == null then None else Some(found.data)
    ensures found != null ==> found.key == val
    decreases ReprOf(tree)
  {
    if tree == null {
      found := null;
    } else if val < tree.key {
      found := Search(tree.left, val);
    } else if val > tree.key {
      found := Search(tree.right, val);
    } else {
      found := tree;
    }
  }

  /** The map that a list of pairs stands for: the first pair with a key wins. */
  function FirstWins(pairs: seq<(Uint32, Uint32)>): map<Uint32, Uint32> {
    if pairs == [] then map[] else
      var m, last := FirstWins(pairs[..|pairs| - 1]), pairs[|pairs| - 1];
      if last.0 in m then m else m[last.0 := last.1]
  }

  lemma {:induction false} FirstWinsMeaning(pairs: seq<(Uint32, Uint32)>, i: nat)
    requires i < |pairs| && forall j | 0 <= j < i :: pairs[j].0 != pairs[i].0
    ensures pairs[i].0 in FirstWins(pairs) && FirstWins(pairs)[pairs[i].0] == pairs[i].1
  {
    if i < |pairs| - 1 {
      FirstWinsMeaning(pairs[..|pairs| - 1], i);
    } else {
      NothingElse(pairs[..i], pairs[i].0);
    }
  }

  lemma {:induction false} NothingElse(pairs: seq<(Uint32, Uint32)>, key: Uint32)
    ensures key in FirstWins(pairs) ==> exists i :: 0 <= i < |pairs| && pairs[i].0 == key
  {
    if pairs != [] && key in FirstWins(pairs) && pairs[|pairs| - 1].0 != key {
      var before := pairs[..|pairs| - 1];
      NothingElse(before, key);
      var i :| 0 <= i < |before| && before[i].0 == key;
      assert pairs[i].0 == key;
    }
  }

  /** What the tree answers for an address, which it reads as an `int`. */
  ghost predicate Answers(t: Tree, m: map<Uint32, Uint32>, v: Uint32) {
    Find(t, Signed32(v)) == if v in m then Some(Signed32(m[v])) else None
  }

  /** The search tree holds the map. */
  ghost predicate Holds(t: Tree, m: map<Uint32, Uint32>) { Ordered(t) && forall v: Uint32 :: Answers(t, m, v) }

  lemma SignedInjective(a: Uint32, b: Uint32)
    ensures Signed32(a) == Signed32(b) <==> a == b
  {
    assert Wrap32(a) == a && Wrap32(b) == b;
  }

  /** Loading one more pair. */
  lemma HoldsMore(t: Tree, pairs: seq<(Uint32, Uint32)>, key: Uint32, data: Uint32)
    requires Holds(t, FirstWins(pairs))
    ensures Find(t, Signed32(key)) == None ==> Holds(Inserted(t, Signed32(key), Signed32(data)), FirstWins(pairs + [(key, data)]))
    ensures Find(t, Signed32(key)) != None ==> Holds(t, FirstWins(pairs + [(key, data)]))
  {
    assert (pairs + [(key, data)])[..|pairs|] == pairs;
    assert Answers(t, FirstWins(pairs), key);
    if Find(t, Signed32(key)) == None {
      InsertedKeeps(t, Signed32(key), Signed32(data));
      forall v: Uint32
        ensures Answers(Inserted(t, Signed32(key), Signed32(data)), FirstWins(pairs + [(key, data)]), v)
      {
        SignedInjective(v, key);
        FindInserted(t, Signed32(key), Signed32(data), Signed32(v));
        assert Answers(t, FirstWins(pairs), v);
      }
    }
  }

  /** The static `root` of the substitution map. */
  class Substitutions {
    var root: Node?

    ghost predicate Valid()
      reads this, root, ReprOf(root)
    {
      root != null ==> root.Valid()
    }

    /** The entry loop of `load_substitute_addr_map`, for the pairs that the file holds up to its end or
        its first error. */
    method Load(pairs: seq<(Uint32, Uint32)>)
      modifies this
      ensures Valid() && fresh(ReprOf(root)) && Holds(ShapeOf(root), FirstWins(pairs))
    {
      root := null;
      var i := 0;
      while i < |pairs|
        invariant i <= |pairs| && Valid() && fresh(ReprOf(root)) && Holds(ShapeOf(root), FirstWins(pairs[..i]))
      {
        assert pairs[..i + 1] == pairs[..i] + [pairs[i]];
        LoadOne(pairs[i].0, pairs[i].1, pairs[..i]);
        i := i + 1;
      }
      assert pairs[..i] == pairs;
    }

    /** One turn of that loop. */
    method LoadOne(initial: Uint32, replaceWith: Uint32, ghost pairs: seq<(Uint32, Uint32)>)
      requires Valid() && Holds(ShapeOf(root), FirstWins(pairs))
      modifies this, ReprOf(root)
      ensures Valid() && fresh(ReprOf(root) - old(ReprOf(root))) && Holds(ShapeOf(root), FirstWins(pairs + [(initial, replaceWith)]))
    {
      HoldsMore(ShapeOf(root), pairs, initial, replaceWith);
      var duplicate := Search(root, Signed32(initial));
      if duplicate == null {
        root := Insert(root, Signed32(initial), Signed32(replaceWith));
      }
    }

    /** `search_addr_map`: -1 says that there is no replacement, and also that the replacement is 255.255.255.255. */
    method SearchAddrMap(val: Uint32, ghost m: map<Uint32, Uint32>) returns (data: int)
      requires Valid() && Holds(ShapeOf(root), m)
      ensures data == -1 <==> val !in m || m[val] == 0xffff_ffff
      ensures data != -1 ==> data == Signed32(m[val])
    {
      var found := Search(root, Signed32(val));
      data := if found != null then found.data else -1;
      assert Answers(ShapeOf(root), m, val);
    }
  }
}
