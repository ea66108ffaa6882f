/** The unbalanced binary-search-tree map of the maps exercise (OrderedMap).
    The tree of mapNode values is a `Tree` datatype: a rewiring of `left`,
    `right` or `head` in the source is a rebuilt tree here. Keys and values are
    `int` (any ordered key type and any value type in the source). */
module OrderedMaps {

  datatype Tree = Nil | Node(left: Tree, key: int, value: int, right: Tree)

  /** The result of unlinking the minimum node of a subtree. */
  datatype Detached = Detached(key: int, value: int, rest: Tree)

  ghost function Keys(t: Tree): set<int>
  {
    match t
    case Nil => {}
    case Node(l, k, _, r) => Keys(l) + {k} + Keys(r)
  }

  /** The search-tree order: every key of a left subtree is smaller than the
      node's key, every key of a right subtree larger. */
  ghost predicate Ordered(t: Tree)
  {
    match t
    case Nil => true
    case Node(l, k, _, r) =>
      && Ordered(l) && Ordered(r)
      && (forall x :: x in Keys(l) ==> x < k)
      && (forall x :: x in Keys(r) ==> k < x)
  }

  /** The key/value pairs the tree holds. */
  ghost function ToMap(t: Tree): (m: map<int, int>)
    ensures m.Keys == Keys(t)
  {
    match t
    case Nil => map[]
    case Node(l, k, v, r) => (ToMap(l) + ToMap(r))[k := v]
  }

  /** The number of nodes. */
  function Count(t: Tree): nat
  {
    match t
    case Nil => 0
    case Node(l, _, _, r) => Count(l) + 1 + Count(r)
  }

  /** `s` is `t` or lies somewhere below it. */
  ghost predicate Subtree(s: Tree, t: Tree)
  {
    s == t || (t.Node? && (Subtree(s, t.left) || Subtree(s, t.right)))
  }

  /** In a search tree every node is counted once per key. */
  lemma {:induction false} CountIsSize(t: Tree)
    requires Ordered(t)
    ensures Count(t) == |Keys(t)|
  {
    match t
    case Nil =>
    case Node(l, k, _, r) =>
      CountIsSize(l);
      CountIsSize(r);
      assert Keys(l) !! Keys(r) by {
        forall x | x in Keys(l) ensures x !in Keys(r) {
          assert x < k;
        }
      }
      assert k !in Keys(l) && k !in Keys(r);
      DisjointSize(Keys(l), Keys(r), k);
  }

  /** The size of two disjoint key sets around a key in neither. */
  lemma DisjointSize(a: set<int>, b: set<int>, k: int)
    requires a !! b && k !in a && k !in b
    ensures |a + {k} + b| == |a| + 1 + |b|
  {
    assert a + {k} + b == (a + b) + {k};
    assert |a + b| == |a| + |b|;
  }

  /** The value stored under a key of the left or right subtree. */
  lemma LookupBelow(t: Tree, x: int)
    requires Ordered(t) && t.Node? && x in Keys(t) && x != t.key
    ensures x < t.key ==> x in Keys(t.left) && ToMap(t)[x] == ToMap(t.left)[x]
    ensures t.key < x ==> x in Keys(t.right) && ToMap(t)[x] == ToMap(t.right)[x]
  {
    if x < t.key {
      assert x !in Keys(t.right);
    } else {
      assert x !in Keys(t.left);
    }
  }

  lemma SubtreeOfChild(s: Tree, t: Tree)
    requires Subtree(s, t) && s.Node?
    ensures Subtree(s.left, t) && Subtree(s.right, t)
  {
  }

  /** The last node the search for `key` passes through before it reaches the
      node holding `key` or falls off the tree; Nil when it stops at the root. */
  ghost function SearchParent(t: Tree, key: int): Tree
  {
    if t.Nil? || t.key == key then Nil
    else
      var child := if key < t.key then t.left else t.right;
      if child.Nil? || child.key == key then t else SearchParent(child, key)
  }

  /** findNode: walks from the root towards `key`. Returns the node holding
      `key`, or Nil when there is none, together with its parent: the last
      node of the path, Nil when the path is empty or ends at the root. */
  method FindNode(head: Tree, key: int) returns (parent: Tree, node: Tree)
    requires Ordered(head)
    ensures parent == SearchParent(head, key)
    ensures node.Node? <==> key in Keys(head)
    ensures node.Node? ==> node.key == key && node.value == ToMap(head)[key] && Subtree(node, head)
    ensures parent == Nil ==> node == head
    ensures parent.Node? ==> Subtree(parent, head)
    ensures parent.Node? ==> node == if key < parent.key then parent.left else parent.right
  {
    parent := Nil;
    var current := head;
    while current.Node?
      invariant Ordered(current) && Subtree(current, head) && Keys(current) <= Keys(head)
      invariant key in Keys(head) ==> key in Keys(current) && ToMap(current)[key] == ToMap(head)[key]
      invariant parent == Nil ==> current == head
      invariant parent.Node? ==> Subtree(parent, head)
      invariant parent.Node? ==> current == if key < parent.key then parent.left else parent.right
      invariant SearchParent(head, key) == if current.Nil? || current.key == key then parent else SearchParent(current, key)
      decreases current
    {
      if key == current.key {
        return parent, current;
      }
      if key in Keys(head) {
        LookupBelow(current, key);
      }
      SubtreeOfChild(current, head);
      if key < current.key {
        parent, current := current, current.left;
      } else {
        parent, current := current, current.right;
      }
    }
    return parent, Nil;
  }

  /** Insert on values: the new node hangs where the search for `key` ends,
      an existing node only gets the new value. */
  function InsertTree(t: Tree, key: int, value: int): (r: Tree)
    ensures Keys(r) == Keys(t) + {key}
  {
    match t
    case Nil => Node(Nil, key, value, Nil)
    case Node(l, k, v, rt) =>
      if key == k then Node(l, k, value, rt)
      else if key < k then Node(InsertTree(l, key, value), k, v, rt)
      else Node(l, k, v, InsertTree(rt, key, value))
  }

  /** Insert keeps the search-tree order. */
  lemma {:induction false} InsertOrdered(t: Tree, key: int, value: int)
    requires Ordered(t)
    ensures Ordered(InsertTree(t, key, value))
  {
    match t
    case Nil =>
    case Node(l, k, v, rt) =>
      if key < k {
        InsertOrdered(l, key, value);
      } else if k < key {
        InsertOrdered(rt, key, value);
      }
  }

  /** Rebinding a key of the left part of a node's bindings. */
  lemma RebindLeft(a: map<int, int>, b: map<int, int>, k: int, v: int, key: int, value: int)
    requires key !in b && key != k
    ensures (a[key := value] + b)[k := v] == (a + b)[k := v][key := value]
  {
  }

  /** Rebinding a key of the right part of a node's bindings. */
  lemma RebindRight(a: map<int, int>, b: map<int, int>, k: int, v: int, key: int, value: int)
    requires key != k
    ensures (a + b[key := value])[k := v] == (a + b)[k := v][key := value]
  {
  }

  /** Insert binds `key` to `value` and keeps every other binding. */
  lemma {:induction false} InsertBinds(t: Tree, key: int, value: int)
    requires Ordered(t)
    ensures ToMap(InsertTree(t, key, value)) == ToMap(t)[key := value]
  {
    match t
    case Nil =>
    case Node(l, k, v, rt) =>
      if key < k {
        InsertBinds(l, key, value);
        assert key !in Keys(rt);
        RebindLeft(ToMap(l), ToMap(rt), k, v, key, value);
      } else if k < key {
        InsertBinds(rt, key, value);
        RebindRight(ToMap(l), ToMap(rt), k, v, key, value);
      }
  }

  /** Insert adds a node exactly when the key is new. */
  lemma {:induction false} InsertCount(t: Tree, key: int, value: int)
    requires Ordered(t)
    ensures Count(InsertTree(t, key, value)) == if key in Keys(t) then Count(t) else Count(t) + 1
  {
    match t
    case Nil =>
    case Node(l, k, v, rt) =>
      if key < k {
        InsertCount(l, key, value);
        assert key !in Keys(rt);
      } else if k < key {
        InsertCount(rt, key, value);
        assert key !in Keys(l);
      }
  }

  /** popMinNode used by Erase: the leftmost node of a subtree, and the subtree
      with that node replaced by its right child. */
  function DetachMin(t: Tree): (d: Detached)
    requires t.Node?
    ensures Keys(t) == Keys(d.rest) + {d.key} && Count(d.rest) == Count(t) - 1
  {
    if t.left.Nil? then
      Detached(t.key, t.value, t.right)
    else
      var d := DetachMin(t.left);
      Detached(d.key, d.value, Node(d.rest, t.key, t.value, t.right))
  }

  /** Removing a key of the left part of a node's bindings. */
  lemma RemoveLeft(a: map<int, int>, b: map<int, int>, k: int, v: int, key: int)
    requires key !in b && key != k
    ensures ((a - {key}) + b)[k := v] == (a + b)[k := v] - {key}
  {
  }

  /** Removing a key of the right part of a node's bindings. */
  lemma RemoveRight(a: map<int, int>, b: map<int, int>, k: int, v: int, key: int)
    requires key !in a && key != k
    ensures (a + (b - {key}))[k := v] == (a + b)[k := v] - {key}
  {
  }

  /** Removing a node's own binding leaves the bindings of its subtrees. */
  lemma RemoveRoot(a: map<int, int>, b: map<int, int>, k: int, v: int)
    requires k !in a && k !in b
    ensures (a + b)[k := v] - {k} == a + b
  {
  }

  /** Moving a binding of the right part up to a node. */
  lemma Promote(a: map<int, int>, b: map<int, int>, k: int)
    requires k in b && k !in a
    ensures (a + (b - {k}))[k := b[k]] == a + b
  {
  }

  /** In a search tree the detached node holds the smallest key, and the rest
      is a search tree holding every other binding. */
  lemma {:induction false} DetachMinOrdered(t: Tree)
    requires t.Node? && Ordered(t)
    ensures forall x :: x in Keys(t) ==> DetachMin(t).key <= x
    ensures Ordered(DetachMin(t).rest) && DetachMin(t).key !in Keys(DetachMin(t).rest)
    ensures ToMap(t)[DetachMin(t).key] == DetachMin(t).value
    ensures ToMap(DetachMin(t).rest) == ToMap(t) - {DetachMin(t).key}
  {
    var Node(l, k, v, r) := t;
    if l.Nil? {
      assert k !in Keys(r);
      RemoveRoot(map[], ToMap(r), k, v);
    } else {
      DetachMinOrdered(l);
      var d := DetachMin(l);
      assert d.key in Keys(l);
      assert d.key !in Keys(r) && d.key != k;
      LookupBelow(t, d.key);
      RemoveLeft(ToMap(l), ToMap(r), k, v, d.key);
    }
  }

  /** The subtree that takes the place of an erased node: its right child when
      it has no left one, its left child when it has no right one, the right
      child (adopting the left subtree) when that child has no left child, and
      otherwise the in-order successor detached from the right subtree. */
  function Replacement(node: Tree): (r: Tree)
    requires node.Node?
    ensures Count(r) == Count(node) - 1
  {
    if node.left.Nil? then
      node.right
    else if node.right.Nil? then
      node.left
    else if node.right.left.Nil? then
      assert Count(node.right) == Count(node.right.right) + 1;
      Node(node.left, node.right.key, node.right.value, node.right.right)
    else
      var d := DetachMin(node.right);
      Node(node.left, d.key, d.value, d.rest)
  }

  /** Third case of the replacement: the right child, which has no left
      child, adopts the erased node's left subtree. */
  lemma AdoptLeft(l: Tree, k: int, v: int, rk: int, rv: int, rr: Tree)
    requires Ordered(Node(l, k, v, Node(Nil, rk, rv, rr)))
    ensures Ordered(Node(l, rk, rv, rr))
    ensures Keys(Node(l, rk, rv, rr)) == Keys(Node(l, k, v, Node(Nil, rk, rv, rr))) - {k}
  {
    assert rk in Keys(Node(Nil, rk, rv, rr));
    assert k < rk;
    assert forall x :: x in Keys(l) ==> x < rk;
    assert k !in Keys(l) && k !in Keys(rr);
    assert Keys(Node(Nil, rk, rv, rr)) == {rk} + Keys(rr);
    AdoptKeys(Keys(l), Keys(rr), k, rk);
  }

  lemma AdoptKeys(a: set<int>, b: set<int>, k: int, rk: int)
    requires k !in a && k !in b && k != rk
    ensures a + {rk} + b == (a + {k} + ({rk} + b)) - {k}
  {
  }

  lemma AdoptLeftBindings(l: Tree, k: int, v: int, rk: int, rv: int, rr: Tree)
    requires Ordered(Node(l, k, v, Node(Nil, rk, rv, rr)))
    ensures ToMap(Node(l, rk, rv, rr)) == ToMap(Node(l, k, v, Node(Nil, rk, rv, rr))) - {k}
  {
    var r := Node(Nil, rk, rv, rr);
    assert rk in Keys(r);
    assert k < rk && k !in Keys(l) && k !in Keys(rr);
    assert ToMap(r) == ToMap(rr)[rk := rv];
    Adopt(ToMap(l), ToMap(rr), k, v, rk, rv);
  }

  /** The bindings of a node whose right child is replaced by that child's
      own bindings, without the node's. */
  lemma Adopt(a: map<int, int>, b: map<int, int>, k: int, v: int, rk: int, rv: int)
    requires k !in a && k !in b && k != rk
    ensures (a + b[rk := rv])[k := v] - {k} == (a + b)[rk := rv]
  {
  }

  /** Fourth case of the replacement: the in-order successor, detached from the
      right subtree, takes the erased node's place. */
  lemma Successor(l: Tree, k: int, v: int, r: Tree)
    requires Ordered(Node(l, k, v, r)) && r.Node?
    ensures Ordered(Node(l, DetachMin(r).key, DetachMin(r).value, DetachMin(r).rest))
    ensures Keys(Node(l, DetachMin(r).key, DetachMin(r).value, DetachMin(r).rest)) == Keys(Node(l, k, v, r)) - {k}
  {
    assert k !in Keys(l) && k !in Keys(r);
    DetachMinOrdered(r);
    var d := DetachMin(r);
    assert d.key in Keys(r) && k < d.key;
    forall x | x in Keys(l) ensures x < d.key {
      assert x < k;
    }
    forall x | x in Keys(d.rest) ensures d.key < x {
      assert x in Keys(r) && x != d.key;
    }
    SuccessorKeys(Keys(l), Keys(r), Keys(d.rest), k, d.key);
  }

  lemma SuccessorKeys(a: set<int>, b: set<int>, c: set<int>, k: int, m: int)
    requires b == c + {m} && k !in a && k !in b
    ensures a + {m} + c == (a + {k} + b) - {k}
  {
  }

  lemma SuccessorBindings(l: Tree, k: int, v: int, r: Tree)
    requires Ordered(Node(l, k, v, r)) && r.Node?
    ensures ToMap(Node(l, DetachMin(r).key, DetachMin(r).value, DetachMin(r).rest)) == ToMap(Node(l, k, v, r)) - {k}
  {
    assert k !in Keys(l) && k !in Keys(r);
    RemoveRoot(ToMap(l), ToMap(r), k, v);
    DetachMinOrdered(r);
    var d := DetachMin(r);
    assert d.key !in Keys(l) by {
      assert k < d.key;
    }
    Promote(ToMap(l), ToMap(r), d.key);
  }

  /** The replacement is a search tree holding every key of the node's
      subtree except the node's own. */
  lemma ReplacementOrdered(node: Tree)
    requires node.Node? && Ordered(node)
    ensures Ordered(Replacement(node)) && Keys(Replacement(node)) == Keys(node) - {node.key}
  {
    var Node(l, k, v, r) := node;
    if l.Nil? || r.Nil? {
      assert k !in Keys(l) && k !in Keys(r);
    } else if r.left.Nil? {
      AdoptLeft(l, k, v, r.key, r.value, r.right);
    } else {
      Successor(l, k, v, r);
    }
  }

  /** The replacement holds every binding of the node's subtree except the
      node's own. */
  lemma ReplacementUnbinds(node: Tree)
    requires node.Node? && Ordered(node)
    ensures ToMap(Replacement(node)) == ToMap(node) - {node.key}
  {
    var Node(l, k, v, r) := node;
    if l.Nil? {
      assert k !in Keys(r);
      RemoveRoot(map[], ToMap(r), k, v);
      assert map[] + ToMap(r) == ToMap(r);
    } else if r.Nil? {
      assert k !in Keys(l);
      RemoveRoot(ToMap(l), map[], k, v);
      assert ToMap(l) + map[] == ToMap(l);
    } else if r.left.Nil? {
      AdoptLeftBindings(l, k, v, r.key, r.value, r.right);
    } else {
      SuccessorBindings(l, k, v, r);
    }
  }

  /** Erase on values: the node holding `key`, if any, is replaced by its
      replacement in its parent (or as the new root). */
  function EraseTree(t: Tree, key: int): (r: Tree)
    ensures key !in Keys(t) ==> r == t
  {
    match t
    case Nil => Nil
    case Node(l, k, v, rt) =>
      if key == k then Replacement(t)
      else if key < k then Node(EraseTree(l, key), k, v, rt)
      else Node(l, k, v, EraseTree(rt, key))
  }

  /** Erase keeps the search-tree order and removes exactly `key`'s binding. */
  lemma {:induction false} EraseOrdered(t: Tree, key: int)
    requires Ordered(t)
    ensures Ordered(EraseTree(t, key)) && Keys(EraseTree(t, key)) == Keys(t) - {key}
  {
    match t
    case Nil =>
    case Node(l, k, v, rt) =>
      if key == k {
        ReplacementOrdered(t);
      } else if key < k {
        EraseOrdered(l, key);
      } else {
        EraseOrdered(rt, key);
      }
  }

  /** Erase removes exactly `key`'s binding and keeps every other one. */
  lemma {:induction false} EraseUnbinds(t: Tree, key: int)
    requires Ordered(t)
    ensures ToMap(EraseTree(t, key)) == ToMap(t) - {key}
  {
    match t
    case Nil =>
    case Node(l, k, v, rt) =>
      if key == k {
        ReplacementUnbinds(t);
      } else if key < k {
        EraseUnbinds(l, key);
        assert key !in Keys(rt);
        RemoveLeft(ToMap(l), ToMap(rt), k, v, key);
      } else {
        EraseUnbinds(rt, key);
        assert key !in Keys(l);
        RemoveRight(ToMap(l), ToMap(rt), k, v, key);
      }
  }

  /** Erase drops one node when the key is present and none otherwise. */
  lemma {:induction false} EraseCount(t: Tree, key: int)
    requires Ordered(t)
    ensures Count(EraseTree(t, key)) == if key in Keys(t) then Count(t) - 1 else Count(t)
  {
    match t
    case Nil =>
    case Node(l, k, v, rt) =>
      if key < k {
        EraseCount(l, key);
        assert key !in Keys(rt);
      } else if k < key {
        EraseCount(rt, key);
        assert key !in Keys(l);
      }
  }

  /** Keys of a list of visited pairs. */
  ghost function VisitedKeys(s: seq<(int, int)>): set<int>
  {
    set i | 0 <= i < |s| :: s[i].0
  }

  ghost predicate StrictlyAscending(s: seq<(int, int)>)
  {
    forall i, j :: 0 <= i < j < |s| ==> s[i].0 < s[j].0
  }

  /** traverse: the pairs handed to the action, in visiting order (left
      subtree, node, right subtree). */
  function Traverse(t: Tree): (s: seq<(int, int)>)
    ensures |s| == Count(t)
  {
    match t
    case Nil => []
    case Node(l, k, v, r) => Traverse(l) + [(k, v)] + Traverse(r)
  }

  /** The keys of a visit around a pair: the left keys, the pair's, the right keys. */
  lemma VisitedAround(sl: seq<(int, int)>, p: (int, int), sr: seq<(int, int)>)
    ensures VisitedKeys(sl + [p] + sr) == VisitedKeys(sl) + {p.0} + VisitedKeys(sr)
  {
    var s := sl + [p] + sr;
    forall x | x in VisitedKeys(s) ensures x in VisitedKeys(sl) + {p.0} + VisitedKeys(sr) {
      var i :| 0 <= i < |s| && s[i].0 == x;
      if i < |sl| {
        assert s[i] == sl[i];
      } else if i > |sl| {
        assert s[i] == sr[i - |sl| - 1];
      }
    }
    forall x | x in VisitedKeys(sl) + {p.0} + VisitedKeys(sr) ensures x in VisitedKeys(s) {
      if x in VisitedKeys(sl) {
        var i :| 0 <= i < |sl| && sl[i].0 == x;
        assert s[i] == sl[i];
      } else if x in VisitedKeys(sr) {
        var i :| 0 <= i < |sr| && sr[i].0 == x;
        assert s[|sl| + 1 + i] == sr[i];
      } else {
        assert s[|sl|].0 == x;
      }
    }
  }

  /** The visit reaches every key of the tree and nothing else. */
  lemma {:induction false} TraverseKeys(t: Tree)
    ensures VisitedKeys(Traverse(t)) == Keys(t)
  {
    match t
    case Nil =>
    case Node(l, k, v, r) =>
      TraverseKeys(l);
      TraverseKeys(r);
      VisitedAround(Traverse(l), (k, v), Traverse(r));
  }

  /** Joining two ascending visits around a pair whose key lies between them. */
  lemma AscendingAround(sl: seq<(int, int)>, p: (int, int), sr: seq<(int, int)>)
    requires StrictlyAscending(sl) && StrictlyAscending(sr)
    requires forall i :: 0 <= i < |sl| ==> sl[i].0 < p.0
    requires forall i :: 0 <= i < |sr| ==> p.0 < sr[i].0
    ensures StrictlyAscending(sl + [p] + sr)
  {
    var s := sl + [p] + sr;
    forall i, j | 0 <= i < j < |s| ensures s[i].0 < s[j].0 {
      if j < |sl| {
        assert s[i] == sl[i] && s[j] == sl[j];
      } else if j == |sl| {
        assert s[i] == sl[i];
      } else if i > |sl| {
        assert s[i] == sr[i - |sl| - 1] && s[j] == sr[j - |sl| - 1];
      } else if i == |sl| {
        assert s[j] == sr[j - |sl| - 1];
      } else {
        assert s[i] == sl[i] && s[j] == sr[j - |sl| - 1];
      }
    }
  }

  /** A search tree is visited in strictly ascending key order, so every key
      is visited once. */
  lemma {:induction false} TraverseAscending(t: Tree)
    requires Ordered(t)
    ensures StrictlyAscending(Traverse(t))
  {
    match t
    case Nil =>
    case Node(l, k, v, r) =>
      TraverseAscending(l);
      TraverseAscending(r);
      TraverseKeys(l);
      TraverseKeys(r);
      var sl, sr := Traverse(l), Traverse(r);
      forall i | 0 <= i < |sl| ensures sl[i].0 < k {
        assert sl[i].0 in VisitedKeys(sl);
      }
      forall i | 0 <= i < |sr| ensures k < sr[i].0 {
        assert sr[i].0 in VisitedKeys(sr);
      }
      AscendingAround(sl, (k, v), sr);
      assert Traverse(t) == sl + [(k, v)] + sr;
  }

  /** Every pair of the visit is a binding of m. */
  ghost predicate BindingsOf(s: seq<(int, int)>, m: map<int, int>)
  {
    forall i :: 0 <= i < |s| ==> s[i].0 in m && m[s[i].0] == s[i].1
  }

  /** A visit around a pair holds bindings of m when its parts do. */
  lemma BindingsAround(sl: seq<(int, int)>, p: (int, int), sr: seq<(int, int)>, m: map<int, int>)
    requires BindingsOf(sl, m) && BindingsOf(sr, m) && p.0 in m && m[p.0] == p.1
    ensures BindingsOf(sl + [p] + sr, m)
  {
    var s := sl + [p] + sr;
    forall i | 0 <= i < |s| ensures s[i].0 in m && m[s[i].0] == s[i].1 {
      if i < |sl| {
        assert s[i] == sl[i];
      } else if i > |sl| {
        assert s[i] == sr[i - |sl| - 1];
      }
    }
  }

  /** Bindings of a smaller map that agrees with m are bindings of m. */
  lemma BindingsWiden(s: seq<(int, int)>, m0: map<int, int>, m: map<int, int>)
    requires BindingsOf(s, m0)
    requires forall x :: x in m0 ==> x in m && m[x] == m0[x]
    ensures BindingsOf(s, m)
  {
    forall i | 0 <= i < |s| ensures s[i].0 in m && m[s[i].0] == s[i].1 {
      var x := s[i].0;
      assert x in m0 && m0[x] == s[i].1;
      assert x in m && m[x] == m0[x];
    }
  }

  /** The bindings of a search tree's subtrees are bindings of the tree. */
  lemma SubtreeBindings(t: Tree)
    requires Ordered(t) && t.Node?
    ensures forall x :: x in ToMap(t.left) ==> x in ToMap(t) && ToMap(t)[x] == ToMap(t.left)[x]
    ensures forall x :: x in ToMap(t.right) ==> x in ToMap(t) && ToMap(t)[x] == ToMap(t.right)[x]
    ensures t.key in ToMap(t) && ToMap(t)[t.key] == t.value
  {
    forall x | x in ToMap(t.left) ensures x in ToMap(t) && ToMap(t)[x] == ToMap(t.left)[x] {
      LookupBelow(t, x);
    }
    forall x | x in ToMap(t.right) ensures x in ToMap(t) && ToMap(t)[x] == ToMap(t.right)[x] {
      LookupBelow(t, x);
    }
  }

  /** Every visited pair is a binding of the tree. */
  lemma {:induction false} TraverseBindings(t: Tree)
    requires Ordered(t)
    ensures forall i :: 0 <= i < |Traverse(t)| ==>
      Traverse(t)[i].0 in ToMap(t) && ToMap(t)[Traverse(t)[i].0] == Traverse(t)[i].1
  {
    match t
    case Nil =>
    case Node(l, k, v, r) =>
      TraverseBindings(l);
      TraverseBindings(r);
      SubtreeBindings(t);
      BindingsWiden(Traverse(l), ToMap(l), ToMap(t));
      BindingsWiden(Traverse(r), ToMap(r), ToMap(t));
      BindingsAround(Traverse(l), (k, v), Traverse(r), ToMap(t));
      assert BindingsOf(Traverse(t), ToMap(t));
  }

  /** The keys of a visit, in visiting order. */
  function KeysInOrder(s: seq<(int, int)>): (ks: seq<int>)
    ensures |ks| == |s| && forall i :: 0 <= i < |s| ==> ks[i] == s[i].0
  {
    if s == [] then [] else [s[0].0] + KeysInOrder(s[1..])
  }

  class OrderedMap {
    var head: Tree
    var size: int

    ghost predicate Valid()
      reads this
    {
      Ordered(head) && size == Count(head)
    }

    ghost function Contents(): map<int, int>
      reads this
    {
      ToMap(head)
    }

    /** NewOrderedMap: the empty map. */
    constructor ()
      ensures Valid() && head == Nil && Contents() == map[]
    {
      head, size := Nil, 0;
    }

    /** Binds `key` to `value`, replacing an existing binding. */
    method Insert(key: int, value: int)
      requires Valid()
      modifies this
      ensures Valid() && head == InsertTree(old(head), key, value)
      ensures Contents() == old(Contents())[key := value]
      ensures size == if key in old(Contents()) then old(size) else old(size) + 1
    {
      InsertOrdered(head, key, value);
      InsertBinds(head, key, value);
      InsertCount(head, key, value);
      var parent, node := FindNode(head, key);
      if node.Node? {
        head := InsertTree(head, key, value);
        return;
      }
      head := InsertTree(head, key, value);
      size := size + 1;
    }

    /** Removes the binding of `key`, if there is one. */
    method Erase(key: int)
      requires Valid()
      modifies this
      ensures Valid() && head == EraseTree(old(head), key)
      ensures Contents() == old(Contents()) - {key}
      ensures size == if key in old(Contents()) then old(size) - 1 else old(size)
    {
      EraseOrdered(head, key);
      EraseUnbinds(head, key);
      EraseCount(head, key);
      var parent, node := FindNode(head, key);
      if node.Nil? {
        return;
      }
      head := EraseTree(head, key);
      size := size - 1;
    }

    method Contains(key: int) returns (b: bool)
      requires Valid()
      ensures b <==> key in Contents()
    {
      var parent, node := FindNode(head, key);
      b := node.Node?;
    }

    /** The stored count, which is the number of bindings. */
    function Size(): (n: int)
      reads this
      requires Valid()
      ensures n == |Contents()|
    {
      CountIsSize(head);
      size
    }

    /** ForEach: the key/value pairs the action is called with, in order. Each
        binding is visited exactly once, in strictly ascending key order. */
    function ForEach(): (visited: seq<(int, int)>)
      reads this
      requires Valid()
      ensures StrictlyAscending(visited) && VisitedKeys(visited) == Contents().Keys
      ensures forall i :: 0 <= i < |visited| ==> Contents()[visited[i].0] == visited[i].1
    {
      TraverseKeys(head);
      TraverseAscending(head);
      TraverseBindings(head);
      Traverse(head)
    }
  }

  function Leaf(k: int): Tree
  {
    Node(Nil, k, k, Nil)
  }

  /** Seven keys a < b < ... < g inserted in the order d, c, g, a, b, e, f:
      each key is bound to itself. */
  function SevenNodes(a: int, b: int, c: int, d: int, e: int, f: int, g: int): Tree
  {
    Node(Node(Node(Nil, a, a, Leaf(b)), c, c, Nil), d, d, Node(Node(Nil, e, e, Leaf(f)), g, g, Nil))
  }

  /** The tree TestOrderedMap builds by inserting 10, 5, 15, 2, 4, 12, 14. */
  const Inserted: Tree := SevenNodes(2, 4, 5, 10, 12, 14, 15)

  /** The same tree after erasing 15, 14 and 2. */
  const Pruned: Tree := Node(Node(Leaf(4), 5, 5, Nil), 10, 10, Leaf(12))

  /** The same tree after erasing the root 10: 12 adopts the left subtree. */
  const RootErased: Tree := Node(Node(Leaf(4), 5, 5, Nil), 12, 12, Nil)

  /** Inserting b > a below a node c > b whose left child is the leaf a. */
  lemma InsertBelowLeaf(a: int, b: int, c: int, r: Tree)
    requires a < b < c
    ensures InsertTree(Node(Leaf(a), c, c, r), b, b) == Node(Node(Nil, a, a, Leaf(b)), c, c, r)
  {
    assert InsertTree(Leaf(a), b, b) == Node(Nil, a, a, Leaf(b));
  }

  /** The first four inserts, d, c, g and a. */
  lemma InsertsBuildFour(a: int, c: int, d: int, g: int)
    requires a < c < d < g
    ensures InsertTree(InsertTree(InsertTree(InsertTree(Nil, d, d), c, c), g, g), a, a)
      == Node(Node(Leaf(a), c, c, Nil), d, d, Leaf(g))
  {
    var t3 := Node(Leaf(c), d, d, Leaf(g));
    assert InsertTree(InsertTree(InsertTree(Nil, d, d), c, c), g, g) == t3;
    assert InsertTree(Leaf(c), a, a) == Node(Leaf(a), c, c, Nil);
  }

  /** Inserting in the order d, c, g, a, b, e, f builds SevenNodes. */
  lemma InsertsBuildSevenNodes(a: int, b: int, c: int, d: int, e: int, f: int, g: int)
    requires a < b < c < d < e < f < g
    ensures InsertTree(InsertTree(InsertTree(InsertTree(InsertTree(InsertTree(InsertTree(
              Nil, d, d), c, c), g, g), a, a), b, b), e, e), f, f) == SevenNodes(a, b, c, d, e, f, g)
  {
    InsertsBuildFour(a, c, d, g);
    var t4 := Node(Node(Leaf(a), c, c, Nil), d, d, Leaf(g));
    var l := Node(Node(Nil, a, a, Leaf(b)), c, c, Nil);
    InsertBelowLeaf(a, b, c, Nil);
    assert InsertTree(t4, b, b) == Node(l, d, d, Leaf(g));
    var t6 := Node(l, d, d, Node(Leaf(e), g, g, Nil));
    assert InsertTree(Leaf(g), e, e) == Node(Leaf(e), g, g, Nil);
    assert InsertTree(Node(l, d, d, Leaf(g)), e, e) == t6;
    InsertBelowLeaf(e, f, g, Nil);
    assert InsertTree(t6, f, f) == SevenNodes(a, b, c, d, e, f, g);
  }

  /** The keys and the size of the three-node subtrees of SevenNodes. */
  lemma ThreeNodesShape(a: int, b: int, c: int)
    ensures Keys(Node(Node(Nil, a, a, Leaf(b)), c, c, Nil)) == {a, b, c}
    ensures Count(Node(Node(Nil, a, a, Leaf(b)), c, c, Nil)) == 3
  {
    assert Keys(Leaf(b)) == {b} && Count(Leaf(b)) == 1;
    assert Keys(Node(Nil, a, a, Leaf(b))) == {a, b};
  }

  /** The keys and the size of SevenNodes. */
  lemma SevenNodesShape(a: int, b: int, c: int, d: int, e: int, f: int, g: int)
    ensures Keys(SevenNodes(a, b, c, d, e, f, g)) == {a, b, c, d, e, f, g}
    ensures Count(SevenNodes(a, b, c, d, e, f, g)) == 7
  {
    ThreeNodesShape(a, b, c);
    ThreeNodesShape(e, f, g);
  }

  /** The inserts of TestOrderedMap, on values. */
  lemma InsertedTree()
    ensures InsertTree(InsertTree(InsertTree(InsertTree(InsertTree(InsertTree(InsertTree(
              Nil, 10, 10), 5, 5), 15, 15), 2, 2), 4, 4), 12, 12), 14, 14) == Inserted
  {
    InsertsBuildSevenNodes(2, 4, 5, 10, 12, 14, 15);
  }

  /** The erasures of TestOrderedMap, on values. */
  lemma ErasedTrees()
    ensures EraseTree(EraseTree(EraseTree(Inserted, 15), 14), 2) == Pruned
    ensures EraseTree(Pruned, 10) == RootErased
  {
    var t1 := Node(Node(Node(Nil, 2, 2, Leaf(4)), 5, 5, Nil), 10, 10, Node(Nil, 12, 12, Leaf(14)));
    assert EraseTree(Inserted, 15) == t1;
    var t2 := Node(Node(Node(Nil, 2, 2, Leaf(4)), 5, 5, Nil), 10, 10, Leaf(12));
    assert EraseTree(t1, 14) == t2;
    assert EraseTree(t2, 2) == Pruned;
  }

  /** The size and keys of the tree after the inserts. */
  lemma InsertedShape()
    ensures Count(Inserted) == 7
    ensures 4 in Keys(Inserted) && 12 in Keys(Inserted) && 3 !in Keys(Inserted) && 13 !in Keys(Inserted)
  {
    SevenNodesShape(2, 4, 5, 10, 12, 14, 15);
  }

  /** The size and keys of the tree after erasing 15, 14 and 2. */
  lemma PrunedShape()
    ensures Count(Pruned) == 4
    ensures 4 in Keys(Pruned) && 12 in Keys(Pruned) && 2 !in Keys(Pruned) && 14 !in Keys(Pruned)
  {
  }

  /** A visit's keys are determined pointwise. */
  lemma KeysOfVisit(s: seq<(int, int)>, ks: seq<int>)
    requires |s| == |ks| && forall i :: 0 <= i < |s| ==> s[i].0 == ks[i]
    ensures KeysInOrder(s) == ks
  {
  }

  /** The keys visited in a node: the left keys, its own, the right keys. */
  lemma {:induction false} VisitAround(l: Tree, k: int, v: int, r: Tree, kl: seq<int>, kr: seq<int>)
    requires KeysInOrder(Traverse(l)) == kl && KeysInOrder(Traverse(r)) == kr
    ensures KeysInOrder(Traverse(Node(l, k, v, r))) == kl + [k] + kr
  {
    var sl, sr := Traverse(l), Traverse(r);
    var s := sl + [(k, v)] + sr;
    assert Traverse(Node(l, k, v, r)) == s;
    forall i | 0 <= i < |s| ensures s[i].0 == (kl + [k] + kr)[i] {
      if i < |sl| {
        assert s[i] == sl[i];
      } else if i > |sl| {
        assert s[i] == sr[i - |sl| - 1];
      }
    }
    KeysOfVisit(s, kl + [k] + kr);
  }

  lemma LeafVisit(k: int)
    ensures KeysInOrder(Traverse(Leaf(k))) == [k]
  {
    VisitAround(Nil, k, k, Nil, [], []);
  }

  /** The keys SevenNodes visits, in order. */
  lemma SevenNodesVisit(a: int, b: int, c: int, d: int, e: int, f: int, g: int)
    ensures KeysInOrder(Traverse(SevenNodes(a, b, c, d, e, f, g))) == [a, b, c, d, e, f, g]
  {
    var l, r := Node(Node(Nil, a, a, Leaf(b)), c, c, Nil), Node(Node(Nil, e, e, Leaf(f)), g, g, Nil);
    LowerVisit(a, b, c);
    LowerVisit(e, f, g);
    VisitAround(l, d, d, r, [a, b, c], [e, f, g]);
    assert [a, b, c] + [d] + [e, f, g] == [a, b, c, d, e, f, g];
  }

  lemma InsertedVisit()
    ensures KeysInOrder(Traverse(Inserted)) == [2, 4, 5, 10, 12, 14, 15]
  {
    SevenNodesVisit(2, 4, 5, 10, 12, 14, 15);
  }

  /** The keys visited in a node a whose left child is a with right leaf b. */
  lemma LowerVisit(a: int, b: int, c: int)
    ensures KeysInOrder(Traverse(Node(Node(Nil, a, a, Leaf(b)), c, c, Nil))) == [a, b, c]
  {
    LeafVisit(b);
    VisitAround(Nil, a, a, Leaf(b), [], [b]);
    assert [] + [a] + [b] == [a, b];
    VisitAround(Node(Nil, a, a, Leaf(b)), c, c, Nil, [a, b], []);
    assert [a, b] + [c] + [] == [a, b, c];
  }

  lemma PrunedVisit()
    ensures KeysInOrder(Traverse(Pruned)) == [4, 5, 10, 12]
  {
    LeafVisit(4);
    LeafVisit(12);
    VisitAround(Leaf(4), 5, 5, Nil, [4], []);
    VisitAround(Pruned.left, 10, 10, Leaf(12), [4, 5], [12]);
  }

  lemma RootErasedVisit()
    ensures KeysInOrder(Traverse(RootErased)) == [4, 5, 12]
  {
    LeafVisit(4);
    VisitAround(Leaf(4), 5, 5, Nil, [4], []);
    VisitAround(RootErased.left, 12, 12, Nil, [4, 5], []);
  }

  /** The first part of TestOrderedMap: the size of the new map, then the
      map after inserting 10, 5, 15, 2, 4, 12 and 14. */
  method InsertedMap() returns (size0: int, m: OrderedMap)
    ensures size0 == 0 && fresh(m) && m.Valid() && m.head == Inserted
  {
    InsertedTree();
    m := new OrderedMap();
    size0 := m.Size();
    ghost var t0 := m.head;
    m.Insert(10, 10);
    m.Insert(5, 5);
    m.Insert(15, 15);
    m.Insert(2, 2);
    assert m.head == InsertTree(InsertTree(InsertTree(InsertTree(t0, 10, 10), 5, 5), 15, 15), 2, 2);
    ghost var t4 := m.head;
    m.Insert(4, 4);
    m.Insert(12, 12);
    m.Insert(14, 14);
    assert m.head == InsertTree(InsertTree(InsertTree(t4, 4, 4), 12, 12), 14, 14);
  }

  /** The first half of TestOrderedMap: sizes, lookups and the visited keys
      after the inserts. */
  method InsertScenario() returns (size0: int, size1: int, found: seq<bool>, keys: seq<int>)
    ensures size0 == 0 && size1 == 7 && found == [true, true, false, false]
    ensures keys == [2, 4, 5, 10, 12, 14, 15]
  {
    var m;
    size0, m := InsertedMap();
    InsertedShape();
    size1 := m.Size();
    var a := m.Contains(4);
    var b := m.Contains(12);
    var c := m.Contains(3);
    var d := m.Contains(13);
    found := [a, b, c, d];
    assert found == [true, true, false, false];
    keys := KeysInOrder(m.ForEach());
    assert keys == [2, 4, 5, 10, 12, 14, 15] by {
      InsertedVisit();
    }
  }

  /** The map after the inserts and the erasures of 15, 14 and 2. */
  method PrunedMap() returns (m: OrderedMap)
    ensures fresh(m) && m.Valid() && m.head == Pruned
  {
    var size0;
    size0, m := InsertedMap();
    ErasedTrees();
    m.Erase(15);
    m.Erase(14);
    m.Erase(2);
  }

  /** The second half of TestOrderedMap: after erasing the leaves and
      one-child nodes 15, 14 and 2, and after erasing the root 10. */
  method EraseScenario() returns (size: int, found: seq<bool>, keys: seq<int>, keysAfterRoot: seq<int>)
    ensures size == 4 && found == [true, true, false, false] && keys == [4, 5, 10, 12]
    ensures keysAfterRoot == [4, 5, 12]
  {
    var m := PrunedMap();
    PrunedShape();
    size := m.Size();
    var a := m.Contains(4);
    var b := m.Contains(12);
    var c := m.Contains(2);
    var d := m.Contains(14);
    found := [a, b, c, d];
    assert found == [true, true, false, false];
    keys := KeysInOrder(m.ForEach());
    assert keys == [4, 5, 10, 12] by {
      PrunedVisit();
    }
    m.Erase(10);
    assert m.head == RootErased by {
      ErasedTrees();
    }
    keysAfterRoot := KeysInOrder(m.ForEach());
    assert keysAfterRoot == [4, 5, 12] by {
      RootErasedVisit();
    }
  }
}
