/**
  The treap (td/utils/DecTree.h). Every node is owned by exactly one unique_ptr and moved from call to
  call, so a tree is a value; the tree object holds one in its root.
*/
module DecTrees {

  datatype Option<T> = None | Some(value: T)

  datatype Entry = Entry(key: int, value: int, y: nat)

  datatype Tree = Null | Node(left: Tree, size: nat, e: Entry, right: Tree)

  function Size(t: Tree): nat { if t.Null? then 0 else t.size }

  /** relax: the size is computed anew from the children. */
  function Relaxed(left: Tree, e: Entry, right: Tree): Tree { Node(left, 1 + Size(left) + Size(right), e, right) }

  /** split_node: the keys up to `key`, and the greater ones. */
  function SplitNode(t: Tree, key: int): (Tree, Tree) {
    if t.Null? then (Null, Null)
    else if key < t.e.key then
      var p := SplitNode(t.left, key);
      (p.0, Relaxed(p.1, t.e, t.right))
    else
      var p := SplitNode(t.right, key);
      (Relaxed(t.left, t.e, p.0), p.1)
  }

  /** merge_node. */
  function MergeNode(l: Tree, r: Tree): Tree
    decreases l, r
  {
    if l.Null? then r
    else if r.Null? then l
    else if l.e.y < r.e.y then Relaxed(MergeNode(l, r.left), r.e, r.right)
    else Relaxed(l.left, l.e, MergeNode(l.right, r))
  }

  /** insert_node; a key that is there already keeps its value. */
  function InsertNode(t: Tree, e: Entry): Tree {
    if t.Null? then Relaxed(Null, e, Null)
    else if t.e.y < e.y then
      var p := SplitNode(t, e.key);
      Relaxed(p.0, e, p.1)
    else if e.key < t.e.key then Relaxed(InsertNode(t.left, e), t.e, t.right)
    else if t.e.key < e.key then Relaxed(t.left, t.e, InsertNode(t.right, e))
    else Relaxed(t.left, t.e, t.right)
  }

  function Again(t: Tree): Tree { if t.Null? then t else Relaxed(t.left, t.e, t.right) }

  /** remove_node. */
  function RemoveNode(t: Tree, key: int): Tree {
    if t.Null? then Null
    else if key < t.e.key then Relaxed(RemoveNode(t.left, key), t.e, t.right)
    else if t.e.key < key then Relaxed(t.left, t.e, RemoveNode(t.right, key))
    else Again(MergeNode(t.left, t.right))
  }

  /** get_node. */
  function GetNode(t: Tree, key: int): Option<int> {
    if t.Null? then None
    else if key < t.e.key then GetNode(t.left, key)
    else if t.e.key < key then GetNode(t.right, key)
    else Some(t.e.value)
  }

  /** get_node_by_idx; its CHECK is that the descent never meets an empty tree. */
  function GetNodeByIdx(t: Tree, idx: nat): Option<int> {
    if t.Null? then None
    else
      var s := Size(t.left);
      if idx < s then GetNodeByIdx(t.left, idx)
      else if idx == s then Some(t.e.value)
      else GetNodeByIdx(t.right, idx - s - 1)
  }

  // ---------------------------------------------------------------------------------------
  // What a tree means
  // ---------------------------------------------------------------------------------------

  function InOrder(t: Tree): seq<Entry> { if t.Null? then [] else InOrder(t.left) + [t.e] + InOrder(t.right) }

  predicate Sorted(s: seq<Entry>) { forall i, j :: 0 <= i < j < |s| ==> s[i].key < s[j].key }

  /** A heap: no entry has a greater y than the one above it, and in a strict one none an equal y. */
  predicate Below(t: Tree, y: int, strict: bool) { t.Null? || (if strict then t.e.y < y else t.e.y <= y) }

  predicate Heap(t: Tree, strict: bool) {
    || t.Null?
    || (&& Heap(t.left, strict) && Heap(t.right, strict)
        && Below(t.left, t.e.y, strict) && Below(t.right, t.e.y, strict))
  }

  predicate Sized(t: Tree) {
    t.Null? || (Sized(t.left) && Sized(t.right) && t.size == 1 + Size(t.left) + Size(t.right))
  }

  predicate Treap(t: Tree) { Sorted(InOrder(t)) && Heap(t, false) && Sized(t) }

  lemma {:induction false} SizeIs(t: Tree)
    requires Sized(t)
    ensures Size(t) == |InOrder(t)|
  {
    if t.Node? {
      SizeIs(t.left);
      SizeIs(t.right);
    }
  }

  /** How many entries have keys up to `key`, given that they come first. */
  predicate Cut(s: seq<Entry>, key: int, p: nat) {
    p <= |s| && (forall i :: 0 <= i < p ==> s[i].key <= key) && forall i :: p <= i < |s| ==> key < s[i].key
  }

  lemma SortedParts(a: seq<Entry>, e: Entry, b: seq<Entry>)
    requires Sorted(a + [e] + b)
    ensures Sorted(a) && Sorted(b)
    ensures (forall i :: 0 <= i < |a| ==> a[i].key < e.key) && forall i :: 0 <= i < |b| ==> e.key < b[i].key
  {
    var s := a + [e] + b;
    assert forall i :: 0 <= i < |a| ==> a[i] == s[i];
    assert s[|a|] == e;
    assert forall i :: 0 <= i < |b| ==> b[i] == s[|a| + 1 + i];
  }

  lemma SortedJoin(a: seq<Entry>, e: Entry, b: seq<Entry>)
    requires Sorted(a) && Sorted(b)
    requires (forall i :: 0 <= i < |a| ==> a[i].key < e.key) && forall i :: 0 <= i < |b| ==> e.key < b[i].key
    ensures Sorted(a + [e] + b)
  {
  }

  lemma {:induction false} SplitOrder(t: Tree, key: int)
    ensures InOrder(SplitNode(t, key).0) + InOrder(SplitNode(t, key).1) == InOrder(t)
  {
    if t.Node? {
      if key < t.e.key {
        SplitOrder(t.left, key);
        var p := SplitNode(t.left, key);
        assert InOrder(p.0) + (InOrder(p.1) + [t.e] + InOrder(t.right)) == InOrder(t);
      } else {
        SplitOrder(t.right, key);
        var p := SplitNode(t.right, key);
        assert (InOrder(t.left) + [t.e] + InOrder(p.0)) + InOrder(p.1) == InOrder(t);
      }
    }
  }

  lemma {:induction false} SplitHeap(t: Tree, key: int, strict: bool)
    requires Heap(t, strict)
    ensures Heap(SplitNode(t, key).0, strict) && Heap(SplitNode(t, key).1, strict)
    ensures forall y ::
      Below(t, y, strict) ==> Below(SplitNode(t, key).0, y, strict) && Below(SplitNode(t, key).1, y, strict)
  {
    if t.Node? {
      if key < t.e.key { SplitHeap(t.left, key, strict); } else { SplitHeap(t.right, key, strict); }
    }
  }

  lemma CutLeft(a: seq<Entry>, e: Entry, b: seq<Entry>, key: int, p: nat)
    requires Cut(a, key, p) && key < e.key && forall i :: 0 <= i < |b| ==> e.key < b[i].key
    ensures Cut(a + [e] + b, key, p)
  {
  }

  lemma CutRight(a: seq<Entry>, e: Entry, b: seq<Entry>, key: int, p: nat)
    requires Cut(b, key, p) && e.key <= key && forall i :: 0 <= i < |a| ==> a[i].key < e.key
    ensures Cut(a + [e] + b, key, |a| + 1 + p)
  {
  }

  /** Splitting cuts the order in two: keys up to `key`, and the greater ones. */
  lemma {:induction false} SplitCuts(t: Tree, key: int)
    requires Sorted(InOrder(t))
    ensures Cut(InOrder(t), key, |InOrder(SplitNode(t, key).0)|)
  {
    hide Cut, Sorted;
    if t.Null? {
      NothingCut(key);
    } else {
      SortedParts(InOrder(t.left), t.e, InOrder(t.right));
      if key < t.e.key {
        SplitCuts(t.left, key);
        CutLeft(InOrder(t.left), t.e, InOrder(t.right), key, |InOrder(SplitNode(t.left, key).0)|);
      } else {
        SplitCuts(t.right, key);
        CutRight(InOrder(t.left), t.e, InOrder(t.right), key, |InOrder(SplitNode(t.right, key).0)|);
      }
    }
  }

  lemma NothingCut(key: int)
    ensures Cut([], key, 0)
  {
  }

  lemma {:induction false} SplitSized(t: Tree, key: int)
    requires Sized(t)
    ensures Sized(SplitNode(t, key).0) && Sized(SplitNode(t, key).1)
  {
    if t.Node? {
      if key < t.e.key { SplitSized(t.left, key); } else { SplitSized(t.right, key); }
    }
  }

  lemma InOrderIs(left: Tree, size: nat, e: Entry, right: Tree)
    ensures InOrder(Node(left, size, e, right)) == InOrder(left) + [e] + InOrder(right)
  {
  }

  lemma Assoc(a: seq<Entry>, b: seq<Entry>, c: seq<Entry>, d: seq<Entry>)
    ensures a + (b + c + d) == a + b + c + d && a + b + (c + d) == a + b + c + d
  {
  }

  /** Merging joins the orders. */
  lemma {:induction false} MergeOrder(l: Tree, r: Tree)
    ensures InOrder(MergeNode(l, r)) == InOrder(l) + InOrder(r)
    decreases l, r
  {
    if l.Null? || r.Null? {
      assert [] + InOrder(r) == InOrder(r) && InOrder(l) + [] == InOrder(l);
    } else if l.e.y < r.e.y {
      MergeOrder(l, r.left);
      hide InOrder;
      InOrderIs(r.left, r.size, r.e, r.right);
      InOrderIs(MergeNode(l, r.left), Relaxed(MergeNode(l, r.left), r.e, r.right).size, r.e, r.right);
      Assoc(InOrder(l), InOrder(r.left), [r.e], InOrder(r.right));
    } else {
      MergeOrder(l.right, r);
      hide InOrder;
      InOrderIs(l.left, l.size, l.e, l.right);
      InOrderIs(l.left, Relaxed(l.left, l.e, MergeNode(l.right, r)).size, l.e, MergeNode(l.right, r));
      Assoc(InOrder(l.left), [l.e], InOrder(l.right), InOrder(r));
    }
  }

  predicate Apart(l: Tree, r: Tree) { forall x, y :: x in InOrder(l) && y in InOrder(r) ==> x.y != y.y }

  lemma Inside(t: Tree)
    requires t.Node?
    ensures t.e in InOrder(t)
    ensures forall x :: x in InOrder(t.left) ==> x in InOrder(t)
    ensures forall x :: x in InOrder(t.right) ==> x in InOrder(t)
  {
  }

  /** Merging keeps the heap. */
  lemma {:induction false} MergeHeap(l: Tree, r: Tree, strict: bool)
    requires Heap(l, strict) && Heap(r, strict) && (strict ==> Apart(l, r))
    ensures Heap(MergeNode(l, r), strict)
    ensures forall y :: Below(l, y, strict) && Below(r, y, strict) ==> Below(MergeNode(l, r), y, strict)
    decreases l, r
  {
    if l.Node? && r.Node? {
      Inside(l);
      Inside(r);
      hide InOrder;
      if l.e.y < r.e.y {
        MergeHeap(l, r.left, strict);
      } else {
        MergeHeap(l.right, r, strict);
      }
    }
  }

  lemma {:induction false} MergeSized(l: Tree, r: Tree)
    requires Sized(l) && Sized(r)
    ensures Sized(MergeNode(l, r))
    decreases l, r
  {
    if l.Node? && r.Node? {
      if l.e.y < r.e.y { MergeSized(l, r.left); } else { MergeSized(l.right, r); }
    }
  }

  // ---------------------------------------------------------------------------------------
  // Inserting and removing
  // ---------------------------------------------------------------------------------------

  predicate Has(s: seq<Entry>, key: int) { exists i :: 0 <= i < |s| && s[i].key == key }

  /** The order with a new entry in its place. */
  ghost predicate Added(s: seq<Entry>, e: Entry, s': seq<Entry>) {
    exists p :: 0 <= p <= |s| && Cut(s, e.key, p) && s' == s[..p] + [e] + s[p..]
  }

  lemma AddedAt(s: seq<Entry>, e: Entry, p: nat)
    requires Cut(s, e.key, p)
    ensures Added(s, e, s[..p] + [e] + s[p..])
  {
  }

  lemma AddedLeft(a: seq<Entry>, a': seq<Entry>, x: Entry, b: seq<Entry>, e: Entry)
    requires Added(a, e, a') && e.key < x.key && forall i :: 0 <= i < |b| ==> x.key < b[i].key
    ensures Added(a + [x] + b, e, a' + [x] + b)
  {
    var p :| 0 <= p <= |a| && Cut(a, e.key, p) && a' == a[..p] + [e] + a[p..];
    var s := a + [x] + b;
    CutLeft(a, x, b, e.key, p);
    assert s[..p] == a[..p] && s[p..] == a[p..] + [x] + b;
    AddedAt(s, e, p);
    assert a' + [x] + b == s[..p] + [e] + s[p..];
  }

  lemma AddedRight(a: seq<Entry>, x: Entry, b: seq<Entry>, b': seq<Entry>, e: Entry)
    requires Added(b, e, b') && x.key < e.key && forall i :: 0 <= i < |a| ==> a[i].key < x.key
    ensures Added(a + [x] + b, e, a + [x] + b')
  {
    var p :| 0 <= p <= |b| && Cut(b, e.key, p) && b' == b[..p] + [e] + b[p..];
    var q := |a| + 1 + p;
    CutRight(a, x, b, e.key, p);
    hide Cut;
    InRight(a, x, b, e, p);
    AddedAt(a + [x] + b, e, q);
  }

  lemma InRight(a: seq<Entry>, x: Entry, b: seq<Entry>, e: Entry, p: nat)
    requires p <= |b|
    ensures var s, q := a + [x] + b, |a| + 1 + p; s[..q] + [e] + s[q..] == a + [x] + (b[..p] + [e] + b[p..])
  {
    var s, q := a + [x] + b, |a| + 1 + p;
    assert s[..q] == a + [x] + b[..p];
    assert s[q..] == b[p..];
  }

  lemma InsertIs(t: Tree, e: Entry)
    ensures InOrder(InsertNode(t, e)) ==
            if t.Null? then [e]
            else if t.e.y < e.y then InOrder(SplitNode(t, e.key).0) + [e] + InOrder(SplitNode(t, e.key).1)
            else if e.key < t.e.key then InOrder(InsertNode(t.left, e)) + [t.e] + InOrder(t.right)
            else if t.e.key < e.key then InOrder(t.left) + [t.e] + InOrder(InsertNode(t.right, e))
            else InOrder(t)
  {
  }

  /** An entry whose key is absent, or there with a smaller y, goes into its place in the order. */
  lemma {:induction false} InsertGoesIn(t: Tree, e: Entry)
    requires Sorted(InOrder(t)) && forall x :: x in InOrder(t) && x.key == e.key ==> x.y < e.y
    ensures Added(InOrder(t), e, InOrder(InsertNode(t, e)))
  {
    hide *;
    InsertIs(t, e);
    if t.Null? {
      InsertFirst(t, e);
    } else if t.e.y < e.y {
      InsertHere(t, e);
    } else {
      InOrderIs(t.left, t.size, t.e, t.right);
      SortedParts(InOrder(t.left), t.e, InOrder(t.right));
      assert t.e in InOrder(t);
      if e.key < t.e.key {
        InsertGoesIn(t.left, e);
        AddedLeft(InOrder(t.left), InOrder(InsertNode(t.left, e)), t.e, InOrder(t.right), e);
      } else {
        InsertGoesIn(t.right, e);
        AddedRight(InOrder(t.left), t.e, InOrder(t.right), InOrder(InsertNode(t.right, e)), e);
      }
    }
  }

  /** Inserting an absent key puts the entry in its place in the order. */
  lemma InsertAdds(t: Tree, e: Entry)
    requires Sorted(InOrder(t)) && !Has(InOrder(t), e.key)
    ensures Added(InOrder(t), e, InOrder(InsertNode(t, e)))
  {
    InsertGoesIn(t, e);
  }

  lemma InsertFirst(t: Tree, e: Entry)
    requires t.Null?
    ensures Added(InOrder(t), e, [e])
  {
    AddedAt([], e, 0);
    assert [] + [e] + [] == [e];
  }

  lemma InsertHere(t: Tree, e: Entry)
    requires Sorted(InOrder(t))
    ensures Added(InOrder(t), e, InOrder(SplitNode(t, e.key).0) + [e] + InOrder(SplitNode(t, e.key).1))
  {
    hide InOrder, SplitNode, Sorted, Cut, Added;
    SplitOrder(t, e.key);
    SplitCuts(t, e.key);
    var a, b := InOrder(SplitNode(t, e.key).0), InOrder(SplitNode(t, e.key).1);
    AddedAt(InOrder(t), e, |a|);
    assert (a + b)[..|a|] == a && (a + b)[|a|..] == b;
  }

  lemma {:induction false} InsertHeap(t: Tree, e: Entry, strict: bool)
    requires Heap(t, strict) && (strict ==> forall x :: x in InOrder(t) ==> x.y != e.y)
    ensures Heap(InsertNode(t, e), strict)
    ensures forall y ::
      Below(t, y, strict) && (if strict then e.y < y else e.y <= y) ==> Below(InsertNode(t, e), y, strict)
  {
    if t.Node? {
      assert t.e in InOrder(t);
      if t.e.y < e.y {
        SplitHeap(t, e.key, strict);
      } else if e.key < t.e.key {
        InsertHeap(t.left, e, strict);
      } else if t.e.key < e.key {
        InsertHeap(t.right, e, strict);
      }
    }
  }

  lemma {:induction false} InsertSized(t: Tree, e: Entry)
    requires Sized(t)
    ensures Sized(InsertNode(t, e))
  {
    if t.Node? {
      if t.e.y < e.y {
        SplitSized(t, e.key);
      } else if e.key < t.e.key {
        InsertSized(t.left, e);
      } else if t.e.key < e.key {
        InsertSized(t.right, e);
      }
    }
  }

  /** The order without the entry for a key. */
  function Without(s: seq<Entry>, key: int): seq<Entry> {
    if s == [] then [] else (if s[0].key == key then [] else [s[0]]) + Without(s[1..], key)
  }

  lemma {:induction false} WithoutJoin(a: seq<Entry>, b: seq<Entry>, key: int)
    ensures Without(a + b, key) == Without(a, key) + Without(b, key)
  {
    if a == [] {
      assert a + b == b;
    } else {
      WithoutJoin(a[1..], b, key);
      assert (a + b)[1..] == a[1..] + b;
      var first := if a[0].key == key then [] else [a[0]];
      assert first + (Without(a[1..], key) + Without(b, key)) == first + Without(a[1..], key) + Without(b, key);
    }
  }

  lemma {:induction false} WithoutNone(s: seq<Entry>, key: int)
    requires forall i :: 0 <= i < |s| ==> s[i].key != key
    ensures Without(s, key) == s
  {
    if s != [] {
      WithoutNone(s[1..], key);
    }
  }

  lemma RemoveIs(t: Tree, key: int)
    ensures InOrder(RemoveNode(t, key)) ==
            if t.Null? then []
            else if key < t.e.key then InOrder(RemoveNode(t.left, key)) + [t.e] + InOrder(t.right)
            else if t.e.key < key then InOrder(t.left) + [t.e] + InOrder(RemoveNode(t.right, key))
            else InOrder(MergeNode(t.left, t.right))
  {
    hide MergeNode;
  }

  /** Removing a key takes its entry out of the order. */
  lemma {:induction false} RemoveOrder(t: Tree, key: int)
    requires Sorted(InOrder(t))
    ensures InOrder(RemoveNode(t, key)) == Without(InOrder(t), key)
  {
    hide InOrder, RemoveNode, Sorted;
    RemoveIs(t, key);
    if t.Null? {
      NoEntries(t);
    } else {
      var a, b := InOrder(t.left), InOrder(t.right);
      InOrderIs(t.left, t.size, t.e, t.right);
      SortedParts(a, t.e, b);
      WithoutJoin(a + [t.e], b, key);
      WithoutJoin(a, [t.e], key);
      WithoutOne(t.e, key);
      if key < t.e.key {
        RemoveOrder(t.left, key);
        WithoutNone(b, key);
      } else if t.e.key < key {
        RemoveOrder(t.right, key);
        WithoutNone(a, key);
      } else {
        MergeOrder(t.left, t.right);
        WithoutNone(a, key);
        WithoutNone(b, key);
        assert a + [] == a;
      }
    }
  }

  lemma NoEntries(t: Tree)
    requires t.Null?
    ensures InOrder(t) == []
  {
  }

  lemma WithoutOne(e: Entry, key: int)
    ensures Without([e], key) == if e.key == key then [] else [e]
  {
    assert Without([e], key) == (if e.key == key then [] else [e]) + Without([], key);
  }

  predicate DistinctY(s: seq<Entry>) { forall i, j :: 0 <= i < j < |s| ==> s[i].y != s[j].y }

  lemma DistinctParts(t: Tree)
    requires t.Node? && DistinctY(InOrder(t))
    ensures DistinctY(InOrder(t.left)) && DistinctY(InOrder(t.right)) && Apart(t.left, t.right)
  {
    InOrderIs(t.left, t.size, t.e, t.right);
    hide InOrder;
    DistinctInParts(InOrder(t.left), t.e, InOrder(t.right));
  }

  lemma DistinctInParts(a: seq<Entry>, e: Entry, b: seq<Entry>)
    requires DistinctY(a + [e] + b)
    ensures DistinctY(a) && DistinctY(b) && forall x, y :: x in a && y in b ==> x.y != y.y
  {
    var s := a + [e] + b;
    forall i, j | 0 <= i < j < |a| ensures a[i].y != a[j].y {
      assert s[i] == a[i] && s[j] == a[j];
    }
    forall i, j | 0 <= i < j < |b| ensures b[i].y != b[j].y {
      assert s[|a| + 1 + i] == b[i] && s[|a| + 1 + j] == b[j];
    }
    forall x, y | x in a && y in b ensures x.y != y.y {
      var i :| 0 <= i < |a| && a[i] == x;
      var j :| 0 <= j < |b| && b[j] == y;
      assert s[i] == x && s[|a| + 1 + j] == y;
    }
  }

  lemma {:induction false} RemoveHeap(t: Tree, key: int, strict: bool)
    requires Heap(t, strict) && (strict ==> DistinctY(InOrder(t)))
    ensures Heap(RemoveNode(t, key), strict)
    ensures forall y :: Below(t, y, strict) ==> Below(RemoveNode(t, key), y, strict)
  {
    if t.Node? {
      if strict {
        DistinctParts(t);
      }
      hide InOrder, DistinctY, Apart;
      if key < t.e.key {
        RemoveHeap(t.left, key, strict);
      } else if t.e.key < key {
        RemoveHeap(t.right, key, strict);
      } else {
        MergeHeap(t.left, t.right, strict);
      }
    }
  }

  lemma {:induction false} RemoveSized(t: Tree, key: int)
    requires Sized(t)
    ensures Sized(RemoveNode(t, key))
  {
    if t.Node? {
      if key < t.e.key {
        RemoveSized(t.left, key);
      } else if t.e.key < key {
        RemoveSized(t.right, key);
      } else {
        MergeSized(t.left, t.right);
      }
    }
  }

  // ---------------------------------------------------------------------------------------
  // Looking up
  // ---------------------------------------------------------------------------------------

  /** The entry for a key in an order. */
  function Find(s: seq<Entry>, key: int): Option<int> {
    if s == [] then None else if s[0].key == key then Some(s[0].value) else Find(s[1..], key)
  }

  lemma {:induction false} FindJoin(a: seq<Entry>, b: seq<Entry>, key: int)
    ensures Find(a + b, key) == if Find(a, key).Some? then Find(a, key) else Find(b, key)
  {
    if a == [] {
      assert a + b == b;
    } else {
      FindJoin(a[1..], b, key);
      assert (a + b)[1..] == a[1..] + b;
    }
  }

  lemma {:induction false} FindNone(s: seq<Entry>, key: int)
    requires forall i :: 0 <= i < |s| ==> s[i].key != key
    ensures Find(s, key) == None
  {
    if s != [] {
      FindNone(s[1..], key);
    }
  }

  /** A lookup goes straight to the entry that a scan of the order would find. */
  lemma {:induction false} GetFinds(t: Tree, key: int)
    requires Sorted(InOrder(t))
    ensures GetNode(t, key) == Find(InOrder(t), key)
  {
    if t.Node? {
      var a, b := InOrder(t.left), InOrder(t.right);
      SortedParts(a, t.e, b);
      FindJoin(a + [t.e], b, key);
      FindJoin(a, [t.e], key);
      hide InOrder, Sorted;
      if key < t.e.key {
        GetFinds(t.left, key);
        FindNone(b, key);
      } else if t.e.key < key {
        GetFinds(t.right, key);
        FindNone(a, key);
      } else {
        FindNone(a, key);
      }
      InOrderIs(t.left, t.size, t.e, t.right);
    }
  }

  /** The value at an index is that of the i-th smallest key. */
  lemma {:induction false} GetByIdxIs(t: Tree, i: nat)
    requires Sized(t) && i < Size(t)
    ensures i < |InOrder(t)| && GetNodeByIdx(t, i) == Some(InOrder(t)[i].value)
  {
    SizeIs(t);
    SizeIs(t.left);
    var s := Size(t.left);
    if i < s {
      GetByIdxIs(t.left, i);
    } else if i > s {
      GetByIdxIs(t.right, i - s - 1);
    }
  }

  // ---------------------------------------------------------------------------------------
  // With distinct priorities a treap has one shape
  // ---------------------------------------------------------------------------------------

  lemma {:induction false} RootIsTop(t: Tree)
    requires t.Node? && Heap(t, true)
    ensures forall i :: 0 <= i < |InOrder(t)| && i != |InOrder(t.left)| ==> InOrder(t)[i].y < t.e.y
  {
    AllBelow(t.left, t.e.y);
    AllBelow(t.right, t.e.y);
  }

  lemma {:induction false} AllBelow(t: Tree, y: int)
    requires Heap(t, true) && Below(t, y, true)
    ensures forall i :: 0 <= i < |InOrder(t)| ==> InOrder(t)[i].y < y
  {
    if t.Node? {
      AllBelow(t.left, t.e.y);
      AllBelow(t.right, t.e.y);
    }
  }

  /** Two treaps with the same entries in strict heaps are the same tree, whatever happened to them before. */
  lemma {:induction false} OneShape(t: Tree, u: Tree)
    requires Heap(t, true) && Heap(u, true) && Sized(t) && Sized(u) && InOrder(t) == InOrder(u)
    ensures t == u
  {
    SizeIs(t);
    SizeIs(u);
    if t.Node? {
      assert u.Node?;
      RootIsTop(t);
      RootIsTop(u);
      SameRoot(t, u);
      OneShape(t.left, u.left);
      OneShape(t.right, u.right);
    }
  }

  lemma SameRoot(t: Tree, u: Tree)
    requires t.Node? && u.Node? && InOrder(t) == InOrder(u)
    requires forall i :: 0 <= i < |InOrder(t)| && i != |InOrder(t.left)| ==> InOrder(t)[i].y < t.e.y
    requires forall i :: 0 <= i < |InOrder(u)| && i != |InOrder(u.left)| ==> InOrder(u)[i].y < u.e.y
    ensures t.e == u.e && InOrder(t.left) == InOrder(u.left) && InOrder(t.right) == InOrder(u.right)
  {
    InOrderIs(t.left, t.size, t.e, t.right);
    InOrderIs(u.left, u.size, u.e, u.right);
    hide InOrder;
    var s, k, m := InOrder(t), |InOrder(t.left)|, |InOrder(u.left)|;
    assert s[k] == t.e && s[m] == u.e;
    assert k == m;
    assert InOrder(t.left) == s[..k] && InOrder(t.right) == s[k + 1..];
    assert InOrder(u.left) == s[..m] && InOrder(u.right) == s[m + 1..];
  }

  // ---------------------------------------------------------------------------------------
  // The treap over any run of inserts and removes
  // ---------------------------------------------------------------------------------------

  lemma AddedSorted(s: seq<Entry>, e: Entry, s': seq<Entry>)
    requires Sorted(s) && !Has(s, e.key) && Added(s, e, s')
    ensures Sorted(s') && |s'| == |s| + 1
  {
    var p :| 0 <= p <= |s| && Cut(s, e.key, p) && s' == s[..p] + [e] + s[p..];
    forall i | 0 <= i < p ensures s[..p][i].key < e.key {
      assert s[i].key != e.key;
    }
    SortedJoin(s[..p], e, s[p..]);
  }

  lemma AddedFind(s: seq<Entry>, e: Entry, s': seq<Entry>, key: int)
    requires !Has(s, e.key) && Added(s, e, s')
    ensures Find(s', key) == if key == e.key then Some(e.value) else Find(s, key)
  {
    var p :| 0 <= p <= |s| && Cut(s, e.key, p) && s' == s[..p] + [e] + s[p..];
    var a, b := s[..p], s[p..];
    FindJoin(a + [e], b, key);
    FindJoin(a, [e], key);
    FindJoin(a, b, key);
    assert s == a + b && Find([e], key) == if e.key == key then Some(e.value) else None;
    if key == e.key {
      forall i | 0 <= i < |a| ensures a[i].key != key {
        assert s[i].key != e.key;
      }
      FindNone(a, key);
    }
  }

  lemma HasTail(s: seq<Entry>, key: int)
    requires s != [] && s[0].key != key
    ensures Has(s, key) <==> Has(s[1..], key)
  {
    if Has(s, key) {
      var i :| 0 <= i < |s| && s[i].key == key;
      assert s[1..][i - 1].key == key;
    }
    if Has(s[1..], key) {
      var i :| 0 <= i < |s[1..]| && s[1..][i].key == key;
      assert s[i + 1].key == key;
    }
  }

  lemma {:induction false} FindSome(s: seq<Entry>, key: int)
    ensures Has(s, key) <==> Find(s, key).Some?
  {
    if s != [] {
      if s[0].key != key {
        FindSome(s[1..], key);
        HasTail(s, key);
      }
    }
  }

  lemma InsertTreap(t: Tree, e: Entry)
    requires Treap(t) && !Has(InOrder(t), e.key)
    ensures Treap(InsertNode(t, e)) && Size(InsertNode(t, e)) == Size(t) + 1
    ensures forall key :: GetNode(InsertNode(t, e), key) == if key == e.key then Some(e.value) else GetNode(t, key)
  {
    hide InsertNode, InOrder, Sorted, Has, Added, Heap, Sized, GetNode, Find;
    var u := InsertNode(t, e);
    InsertAdds(t, e);
    InsertHeap(t, e, false);
    InsertSized(t, e);
    AddedSorted(InOrder(t), e, InOrder(u));
    SizeIs(t);
    SizeIs(u);
    forall key ensures GetNode(u, key) == if key == e.key then Some(e.value) else GetNode(t, key) {
      GetFinds(t, key);
      GetFinds(u, key);
      AddedFind(InOrder(t), e, InOrder(u), key);
    }
  }

  lemma {:induction false} AtMost(t: Tree, y: int)
    requires Heap(t, false) && Below(t, y, false)
    ensures forall x :: x in InOrder(t) ==> x.y <= y
  {
    if t.Node? {
      AtMost(t.left, t.e.y);
      AtMost(t.right, t.e.y);
    }
  }

  /** A present key whose y is no less stops the descent: nothing changes. */
  lemma {:induction false} InsertStops(t: Tree, e: Entry, x: Entry)
    requires Treap(t) && x in InOrder(t) && x.key == e.key && e.y <= x.y
    ensures InsertNode(t, e) == t
  {
    AtMost(t, t.e.y);
    SortedParts(InOrder(t.left), t.e, InOrder(t.right));
    if e.key < t.e.key {
      assert x in InOrder(t.left);
      InsertStops(t.left, e, x);
    } else if t.e.key < e.key {
      assert x in InOrder(t.right);
      InsertStops(t.right, e, x);
    }
  }

  /**
    Inserting a key that is present: the tree stays as it is, and so a treap, exactly if the new y is no greater
    than the key's own; otherwise the key is there twice.
  */
  lemma InsertPresent(t: Tree, e: Entry, x: Entry)
    requires Treap(t) && x in InOrder(t) && x.key == e.key
    ensures Treap(InsertNode(t, e)) <==> e.y <= x.y
    ensures e.y <= x.y ==> InsertNode(t, e) == t
    ensures x.y < e.y ==>
      Size(InsertNode(t, e)) == Size(t) + 1 && x in InOrder(InsertNode(t, e)) && e in InOrder(InsertNode(t, e))
  {
    if e.y <= x.y {
      InsertStops(t, e, x);
    } else {
      var s, u := InOrder(t), InsertNode(t, e);
      var i :| 0 <= i < |s| && s[i] == x;
      assert forall j :: 0 <= j < |s| && s[j].key == e.key ==> j == i;
      hide InsertNode, InOrder, Heap, Sized;
      InsertGoesIn(t, e);
      var p :| 0 <= p <= |s| && Cut(s, e.key, p) && InOrder(u) == s[..p] + [e] + s[p..];
      assert i < p && InOrder(u)[i] == x && InOrder(u)[p] == e;
      InsertSized(t, e);
      SizeIs(t);
      SizeIs(u);
    }
  }

  lemma {:induction false} WithoutFind(s: seq<Entry>, key: int, k: int)
    ensures Find(Without(s, key), k) == if k == key then None else Find(s, k)
  {
    if s != [] {
      WithoutFind(s[1..], key, k);
      FindJoin(if s[0].key == key then [] else [s[0]], Without(s[1..], key), k);
      FindOne(s[0], k);
    }
  }

  lemma FindOne(e: Entry, k: int)
    ensures Find([e], k) == (if e.key == k then Some(e.value) else None) && Find([], k) == None
  {
  }

  lemma {:induction false} WithoutSorted(s: seq<Entry>, key: int)
    requires Sorted(s)
    ensures Sorted(Without(s, key)) && |Without(s, key)| == |s| - (if Find(s, key).Some? then 1 else 0)
    ensures forall x :: x in Without(s, key) ==> x in s
  {
    if s != [] {
      var rest := Without(s[1..], key);
      WithoutSorted(s[1..], key);
      if s[0].key == key {
        WithoutNone(s[1..], key);
        FindNone(s[1..], key);
      } else {
        forall j | 0 <= j < |rest| ensures s[0].key < rest[j].key {
          assert rest[j] in s[1..];
        }
      }
    }
  }

  lemma RemoveTreap(t: Tree, key: int)
    requires Treap(t)
    ensures Treap(RemoveNode(t, key)) && Size(RemoveNode(t, key)) == Size(t) - (if GetNode(t, key).Some? then 1 else 0)
    ensures forall k :: GetNode(RemoveNode(t, key), k) == if k == key then None else GetNode(t, k)
  {
    hide RemoveNode, InOrder, Sorted, Heap, Sized, GetNode, Find, Without;
    var u := RemoveNode(t, key);
    RemoveOrder(t, key);
    RemoveHeap(t, key, false);
    RemoveSized(t, key);
    WithoutSorted(InOrder(t), key);
    SizeIs(t);
    SizeIs(u);
    GetFinds(t, key);
    forall k ensures GetNode(u, k) == if k == key then None else GetNode(t, k) {
      GetFinds(t, k);
      GetFinds(u, k);
      WithoutFind(InOrder(t), key, k);
    }
  }

  /** The priorities of a run are whatever the random generator gave. */
  datatype Op = Ins(key: int, value: int, y: nat) | Rem(key: int)

  /** The sorted map that the tree stands for. */
  function Model(ops: seq<Op>): map<int, int> {
    if ops == [] then map[]
    else
      var m, op := Model(ops[..|ops| - 1]), ops[|ops| - 1];
      if op.Ins? then m[op.key := op.value] else m - {op.key}
  }

  function Run(ops: seq<Op>): Tree {
    if ops == [] then Null
    else
      var t, op := Run(ops[..|ops| - 1]), ops[|ops| - 1];
      if op.Ins? then InsertNode(t, Entry(op.key, op.value, op.y)) else RemoveNode(t, op.key)
  }

  /** Every insert is of a key that is absent then. */
  predicate Fresh(ops: seq<Op>) {
    ops == [] ||
    (Fresh(ops[..|ops| - 1]) &&
     (ops[|ops| - 1].Ins? ==> ops[|ops| - 1].key !in Model(ops[..|ops| - 1])))
  }

  ghost predicate Refines(t: Tree, m: map<int, int>) {
    Treap(t) && Size(t) == |m| && forall k :: GetNode(t, k) == if k in m then Some(m[k]) else None
  }

  /** Over any run the tree is a treap of exact sizes that answers every lookup as the map does. */
  lemma {:induction false} RunRefines(ops: seq<Op>)
    requires Fresh(ops)
    ensures Refines(Run(ops), Model(ops))
  {
    if ops != [] {
      var before, op := ops[..|ops| - 1], ops[|ops| - 1];
      RunRefines(before);
      hide Run, Model;
      if op.Ins? {
        InsertRefines(Run(before), Model(before), Entry(op.key, op.value, op.y));
      } else {
        RemoveRefines(Run(before), Model(before), op.key);
      }
      RunNext(ops);
    }
  }

  lemma RunNext(ops: seq<Op>)
    requires ops != []
    ensures var before, op := ops[..|ops| - 1], ops[|ops| - 1];
            && Run(ops) == (if op.Ins? then InsertNode(Run(before), Entry(op.key, op.value, op.y))
                            else RemoveNode(Run(before), op.key))
            && Model(ops) == if op.Ins? then Model(before)[op.key := op.value] else Model(before) - {op.key}
  {
    hide InsertNode, RemoveNode;
  }

  lemma InsertRefines(t: Tree, m: map<int, int>, e: Entry)
    requires Refines(t, m) && e.key !in m
    ensures Refines(InsertNode(t, e), m[e.key := e.value])
  {
    hide InsertNode, GetNode, Treap, InOrder, Find;
    AbsentKey(t, e.key);
    InsertTreap(t, e);
  }

  lemma AbsentKey(t: Tree, key: int)
    requires Treap(t) && GetNode(t, key) == None
    ensures !Has(InOrder(t), key)
  {
    GetFinds(t, key);
    FindSome(InOrder(t), key);
  }

  lemma PresentEntry(t: Tree, key: int) returns (x: Entry)
    requires Treap(t) && GetNode(t, key) != None
    ensures x in InOrder(t) && x.key == key
  {
    GetFinds(t, key);
    if !Has(InOrder(t), key) {
      FindNone(InOrder(t), key);
    }
    var i :| 0 <= i < |InOrder(t)| && InOrder(t)[i].key == key;
    x := InOrder(t)[i];
  }

  lemma RemoveRefines(t: Tree, m: map<int, int>, key: int)
    requires Refines(t, m)
    ensures Refines(RemoveNode(t, key), m - {key})
  {
    hide RemoveNode, GetNode, Treap, InOrder, Find;
    RemoveTreap(t, key);
    if key in m {
      assert m == (m - {key})[key := m[key]];
    } else {
      assert m == m - {key};
    }
  }

  /** With distinct priorities, inserting a fresh key and removing it again restores the very same tree. */
  lemma InsertRemove(t: Tree, e: Entry)
    requires Sorted(InOrder(t)) && Heap(t, true) && Sized(t) && !Has(InOrder(t), e.key)
    requires DistinctY(InOrder(t)) && forall x :: x in InOrder(t) ==> x.y != e.y
    ensures RemoveNode(InsertNode(t, e), e.key) == t
  {
    hide InsertNode, RemoveNode, InOrder, Sorted, Heap, Sized, DistinctY, Added;
    var u := InsertNode(t, e);
    InsertAdds(t, e);
    InsertHeap(t, e, true);
    InsertSized(t, e);
    AddedSorted(InOrder(t), e, InOrder(u));
    AddedBack(InOrder(t), e, InOrder(u));
    RemoveOrder(u, e.key);
    RemoveHeap(u, e.key, true);
    RemoveSized(u, e.key);
    OneShape(RemoveNode(u, e.key), t);
  }

  /** Taking the new entry out again gives the old order; and the priorities stay distinct. */
  lemma AddedBack(s: seq<Entry>, e: Entry, s': seq<Entry>)
    requires !Has(s, e.key) && Added(s, e, s') && DistinctY(s) && forall x :: x in s ==> x.y != e.y
    ensures Without(s', e.key) == s && DistinctY(s')
  {
    var p :| 0 <= p <= |s| && Cut(s, e.key, p) && s' == s[..p] + [e] + s[p..];
    forall i | 0 <= i < |s| ensures s[i].key != e.key && s[i].y != e.y {
      assert s[i] in s;
    }
    hide DistinctY, Cut, Has, Without;
    TakenOut(s[..p], e, s[p..]);
    assert s[..p] + s[p..] == s;
    StillDistinct(s, e, p);
  }

  lemma TakenOut(a: seq<Entry>, e: Entry, b: seq<Entry>)
    requires (forall i :: 0 <= i < |a| ==> a[i].key != e.key) && forall i :: 0 <= i < |b| ==> b[i].key != e.key
    ensures Without(a + [e] + b, e.key) == a + b
  {
    hide Without;
    WithoutJoin(a + [e], b, e.key);
    WithoutJoin(a, [e], e.key);
    WithoutOne(e, e.key);
    WithoutNone(a, e.key);
    WithoutNone(b, e.key);
    assert a + [] == a;
  }

  lemma StillDistinct(s: seq<Entry>, e: Entry, p: nat)
    requires DistinctY(s) && p <= |s| && forall i :: 0 <= i < |s| ==> s[i].y != e.y
    ensures DistinctY(s[..p] + [e] + s[p..])
  {
    var s' := s[..p] + [e] + s[p..];
    forall i, j | 0 <= i < j < |s'| ensures s'[i].y != s'[j].y {
      assert s'[i] == if i < p then s[i] else if i == p then e else s[i - 1];
      assert s'[j] == if j < p then s[j] else if j == p then e else s[j - 1];
    }
  }

  // ---------------------------------------------------------------------------------------
  // The tree object
  // ---------------------------------------------------------------------------------------

  /** What inserting a key again makes of a treap, by the present entry x of the key. */
  ghost predicate InsertedAgain(t: Tree, m: map<int, int>, e: Entry, x: Entry, u: Tree) {
    && x in InOrder(t) && x.key == e.key
    && (Refines(u, m) <==> e.y <= x.y)
    && (e.y <= x.y ==> u == t)
    && (x.y < e.y ==> Size(u) == Size(t) + 1 && x in InOrder(u) && e in InOrder(u))
  }

  lemma Present(t: Tree, m: map<int, int>, e: Entry)
    requires Refines(t, m) && e.key in m
    ensures exists x :: InsertedAgain(t, m, e, x, InsertNode(t, e))
  {
    hide InsertNode, InOrder, GetNode, Treap;
    var x := PresentEntry(t, e.key);
    InsertPresent(t, e, x);
    assert InsertedAgain(t, m, e, x, InsertNode(t, e));
  }

  class DecTree {
    var root: Tree
    ghost var contents: map<int, int>

    ghost predicate Valid()
      reads this
    {
      Refines(root, contents)
    }

    constructor ()
      ensures Valid() && contents == map[]
    {
      root, contents := Null, map[];
    }

    /**
      A key that is absent is added. For one that is present the tree stays as it is, and so a treap, exactly if the
      random number is no greater than the key's own; otherwise the key is there twice.
    */
    method Insert(key: int, value: int, random: nat)
      requires Valid()
      modifies this
      ensures contents == if key in old(contents) then old(contents) else old(contents)[key := value]
      ensures key !in old(contents) ==> Valid()
      ensures key in old(contents) ==>
        exists x :: InsertedAgain(old(root), contents, Entry(key, value, random), x, root)
    {
      var e := Entry(key, value, random);
      root := InsertNode(root, e);
      if key in contents {
        Present(old(root), contents, e);
      } else {
        InsertRefines(old(root), contents, e);
        contents := contents[key := value];
      }
    }

    method Remove(key: int)
      requires Valid()
      modifies this
      ensures Valid() && contents == old(contents) - {key}
    {
      RemoveRefines(root, contents, key);
      root := RemoveNode(root, key);
      contents := contents - {key};
    }

    method Get(key: int) returns (r: Option<int>)
      requires Valid()
      ensures r == if key in contents then Some(contents[key]) else None
    {
      r := GetNode(root, key);
    }

    /** The random index is always inside the tree, so some value of the map is returned. */
    method GetRandom(random: nat) returns (r: Option<int>)
      requires Valid()
      ensures r == None <==> contents == map[]
      ensures r.Some? ==> exists key :: key in contents && contents[key] == r.value
    {
      if Size(root) == 0 {
        return None;
      }
      var i := random % Size(root);
      GetByIdxIs(root, i);
      ghost var e := InOrder(root)[i];
      IndexedKey(root, i);
      r := GetNodeByIdx(root, i);
      assert e.key in contents;
    }
  }

  lemma IndexedKey(t: Tree, i: nat)
    requires Treap(t) && i < |InOrder(t)|
    ensures GetNode(t, InOrder(t)[i].key) == Some(InOrder(t)[i].value)
  {
    GetFinds(t, InOrder(t)[i].key);
    FindAt(InOrder(t), i);
  }

  lemma {:induction false} FindAt(s: seq<Entry>, i: nat)
    requires Sorted(s) && i < |s|
    ensures Find(s, s[i].key) == Some(s[i].value)
  {
    if i > 0 {
      assert s[0].key < s[i].key;
      FindAt(s[1..], i - 1);
    }
  }
}
