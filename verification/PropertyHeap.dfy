// The Android property area seen as linked objects, before any byte is looked at.
//
// An object is named by its offset in the area; offset 0 is the root trie node and doubles as
// the null link. Siblings under one parent form a binary search tree through `left`/`right`;
// `children` points at the root of the tree below a node; `prop` points at the record that
// holds the node's own value.
module PropertyHeap {
  import opened Common

  datatype Obj =
    | Node(name: Bytes, prop: nat, left: nat, right: nat, children: nat)
    | Prop(name: Bytes, value: Bytes)

  type Heap = map<nat, Obj>

  datatype Order = Less | Equal | Greater

  datatype Field = PropField | LeftField | RightField | ChildrenField

  // Byte-wise lexicographic comparison of equally long names.
  function CompareBytes(a: Bytes, b: Bytes): (o: Order)
    requires |a| == |b|
    ensures o == Equal <==> a == b
  {
    if a == [] then Equal
    else if a[0] < b[0] then Less
    else if a[0] > b[0] then Greater
    else
      assert a == [a[0]] + a[1..] && b == [b[0]] + b[1..];
      CompareBytes(a[1..], b[1..])
  }

  // Shorter names sort first; equal lengths are compared byte by byte.
  function CompareNode(a: Bytes, b: Bytes): (o: Order)
    ensures o == Equal <==> a == b
  {
    if |a| < |b| then Less else if |a| > |b| then Greater else CompareBytes(a, b)
  }

  predicate IsNode(h: Heap, n: nat) { n in h && h[n].Node? }

  // A link is null or leads to a node allocated later than the node that holds it.
  predicate Link(h: Heap, from: nat, to: nat) { to != 0 ==> from < to && IsNode(h, to) }

  predicate LinkedNode(h: Heap, n: nat)
    requires n in h
    ensures LinkedNode(h, n) && h[n].Node? && h[n].prop != 0 ==> h[n].prop in h && h[h[n].prop].Prop?
  {
    h[n].Node? ==>
      && Link(h, n, h[n].left) && Link(h, n, h[n].right) && Link(h, n, h[n].children)
      && (h[n].prop != 0 ==> h[n].prop in h && h[h[n].prop].Prop?)
  }

  // Every object lies below `used` and every link of every node is sound.
  ghost predicate Linked(h: Heap, used: nat) {
    && IsNode(h, 0)
    && forall n | n in h :: n < used && LinkedNode(h, n)
  }

  function Get(o: Obj, f: Field): nat
    requires o.Node?
  {
    match f
    case PropField => o.prop
    case LeftField => o.left
    case RightField => o.right
    case ChildrenField => o.children
  }

  function Set(o: Obj, f: Field, v: nat): Obj
    requires o.Node?
  {
    match f
    case PropField => o.(prop := v)
    case LeftField => o.(left := v)
    case RightField => o.(right := v)
    case ChildrenField => o.(children := v)
  }

  // ---- Searching one sibling tree ----

  function Side(o: Order): Field { if o == Less then LeftField else RightField }

  // The node named `s` in the sibling tree rooted at `n`, or 0.
  ghost function Find(h: Heap, used: nat, n: nat, s: Bytes): (r: nat)
    requires Linked(h, used) && (n != 0 ==> IsNode(h, n))
    ensures r != 0 ==> IsNode(h, r) && h[r].name == s && n <= r
    decreases used - n
  {
    if n == 0 then 0
    else
      var o := CompareNode(s, h[n].name);
      if o == Equal then n
      else
        assert LinkedNode(h, n);
        var next := Get(h[n], Side(o));
        if next == 0 then 0 else Find(h, used, next, s)
  }

  // Where an unsuccessful search for `s` from `n` falls off the tree.
  ghost function Gap(h: Heap, used: nat, n: nat, s: Bytes): (r: (nat, Field))
    requires Linked(h, used) && n != 0 && IsNode(h, n) && Find(h, used, n, s) == 0
    ensures IsNode(h, r.0) && r.1 in {LeftField, RightField} && Get(h[r.0], r.1) == 0
    decreases used - n
  {
    var o := CompareNode(s, h[n].name);
    assert LinkedNode(h, n);
    var next := Get(h[n], Side(o));
    if next == 0 then (n, Side(o)) else Gap(h, used, next, s)
  }

  // ---- Growing the heap ----

  function Attach(h: Heap, at: nat, f: Field, slot: nat, o: Obj): Heap
    requires IsNode(h, at)
  {
    h[slot := o][at := Set(h[at], f, slot)]
  }

  function Leaf(s: Bytes): Obj { Node(s, 0, 0, 0, 0) }

  lemma NodeLinked(h: Heap, used: nat, n: nat)
    requires Linked(h, used) && n in h
    ensures n < used && LinkedNode(h, n)
  {
  }

  lemma NotAllocated(h: Heap, used: nat)
    requires Linked(h, used)
    ensures used !in h
  {
  }

  lemma AttachLinkedNode(h: Heap, used: nat, at: nat, f: Field, o: Obj, n: nat)
    requires Linked(h, used) && IsNode(h, at)
    requires if f == PropField then o.Prop? else o == Leaf(o.name)
    requires n in h || n == used
    ensures LinkedNode(Attach(h, at, f, used, o), n)
  {
    hide Linked;
    NotAllocated(h, used);
    NodeLinked(h, used, at);
    if n in h { NodeLinked(h, used, n); }
  }

  lemma AttachLinked(h: Heap, used: nat, at: nat, f: Field, o: Obj, used': nat)
    requires Linked(h, used) && IsNode(h, at) && used < used'
    requires if f == PropField then o.Prop? else o == Leaf(o.name)
    ensures Linked(Attach(h, at, f, used, o), used')
  {
    hide LinkedNode;
    forall n | n in Attach(h, at, f, used, o)
      ensures n < used' && LinkedNode(Attach(h, at, f, used, o), n)
    {
      AttachLinkedNode(h, used, at, f, o, n);
    }
  }

  // Attaching a leaf named `s` into an empty link leaves every search for another name alone.
  lemma {:induction false} FindOtherName(
      h: Heap, used: nat, at: nat, f: Field, s: Bytes, used': nat, n: nat, t: Bytes)
    requires Linked(h, used) && IsNode(h, at) && used < used' && f != PropField
    requires Get(h[at], f) == 0 && s != t && (n != 0 ==> IsNode(h, n))
    ensures Linked(Attach(h, at, f, used, Leaf(s)), used')
    ensures Find(Attach(h, at, f, used, Leaf(s)), used', n, t) == Find(h, used, n, t)
    decreases used - n
  {
    hide Linked, CompareNode;
    AttachLinked(h, used, at, f, Leaf(s), used');
    if n != 0 {
      NodeLinked(h, used, n);
      var o := CompareNode(t, h[n].name);
      if o != Equal {
        var next := Get(h[n], Side(o));
        if next != 0 { FindOtherName(h, used, at, f, s, used', next, t); }
      }
    }
  }

  // After filling the gap a search for `s` fell into, that search finds the new leaf.
  lemma {:induction false} FindFilledGap(h: Heap, used: nat, s: Bytes, used': nat, n: nat)
    requires Linked(h, used) && used < used' && n != 0 && IsNode(h, n) && Find(h, used, n, s) == 0
    ensures var g := Gap(h, used, n, s);
            && Linked(Attach(h, g.0, g.1, used, Leaf(s)), used')
            && Find(Attach(h, g.0, g.1, used, Leaf(s)), used', n, s) == used
    decreases used - n
  {
    hide Linked, CompareNode;
    var g := Gap(h, used, n, s);
    AttachLinked(h, used, g.0, g.1, Leaf(s), used');
    NodeLinked(h, used, n);
    var next := Get(h[n], Side(CompareNode(s, h[n].name)));
    if next != 0 { FindFilledGap(h, used, s, used', next); }
  }

  // ---- Which sibling tree a node belongs to ----

  // `up[n]` is the path of the node whose sibling tree holds `n`; the root has no entry.
  type Places = map<nat, seq<Bytes>>

  ghost function Path(h: Heap, up: Places, n: nat): seq<Bytes>
    requires IsNode(h, n) && (n != 0 ==> n in up)
  {
    if n == 0 then [] else up[n] + [h[n].name]
  }

  ghost predicate PlacedNode(h: Heap, up: Places, n: nat)
    requires IsNode(h, n) && LinkedNode(h, n)
    ensures PlacedNode(h, up, n) ==> (n != 0 ==> n in up)
  {
    && (n != 0 ==> n in up)
    && (n == 0 ==> h[n].left == 0 && h[n].right == 0)
    && (h[n].left != 0 ==> h[n].left in up && n in up && up[h[n].left] == up[n])
    && (h[n].right != 0 ==> h[n].right in up && n in up && up[h[n].right] == up[n])
    && (h[n].children != 0 ==> h[n].children in up && up[h[n].children] == Path(h, up, n))
  }

  ghost predicate Placed(h: Heap, used: nat, up: Places)
    ensures Placed(h, used, up) ==> Linked(h, used)
  {
    && Linked(h, used)
    && forall n | n in h && h[n].Node? :: PlacedNode(h, up, n)
  }

  lemma NodePlaced(h: Heap, used: nat, up: Places, n: nat)
    requires Placed(h, used, up) && IsNode(h, n)
    ensures n < used && LinkedNode(h, n) && PlacedNode(h, up, n)
  {
    NodeLinked(h, used, n);
  }

  lemma {:induction false} FindStaysInTree(h: Heap, used: nat, up: Places, n: nat, s: Bytes)
    requires Placed(h, used, up) && n != 0 && IsNode(h, n)
    ensures n in up
    ensures var r := Find(h, used, n, s); r != 0 ==> r in up && up[r] == up[n]
    ensures Find(h, used, n, s) == 0 ==>
              var g := Gap(h, used, n, s); g.0 != 0 && g.0 in up && up[g.0] == up[n]
    decreases used - n
  {
    hide Placed, Linked, CompareNode;
    NodePlaced(h, used, up, n);
    var o := CompareNode(s, h[n].name);
    if o != Equal {
      var next := Get(h[n], Side(o));
      if next != 0 { FindStaysInTree(h, used, up, next, s); }
    }
  }

  // A search in a different sibling tree does not see the attachment, whatever it looks for.
  lemma {:induction false} FindOtherTree(
      h: Heap, used: nat, up: Places, at: nat, f: Field, o: Obj, used': nat, n: nat, t: Bytes)
    requires Placed(h, used, up) && IsNode(h, at) && used < used'
    requires if f == PropField then o.Prop? else o == Leaf(o.name)
    requires n != 0 ==> IsNode(h, n) && n in up
    requires f in {LeftField, RightField} && n != 0 ==> at in up && up[at] != up[n]
    ensures Linked(Attach(h, at, f, used, o), used')
    ensures Find(Attach(h, at, f, used, o), used', n, t) == Find(h, used, n, t)
    decreases used - n
  {
    hide Placed, Linked, CompareNode;
    AttachLinked(h, used, at, f, o, used');
    if n != 0 {
      NodePlaced(h, used, up, n);
      var c := CompareNode(t, h[n].name);
      if c != Equal {
        var next := Get(h[n], Side(c));
        if next != 0 { FindOtherTree(h, used, up, at, f, o, used', next, t); }
      }
    }
  }

  // ---- Walking the trie ----

  // The child of `p` named `s`, or 0.
  ghost function Child(h: Heap, used: nat, p: nat, s: Bytes): (r: nat)
    requires Linked(h, used) && IsNode(h, p)
    ensures r != 0 ==> IsNode(h, r) && h[r].name == s
  {
    assert LinkedNode(h, p);
    Find(h, used, h[p].children, s)
  }

  ghost function Walk(h: Heap, used: nat, p: nat, path: seq<Bytes>): (r: Option<nat>)
    requires Linked(h, used) && IsNode(h, p)
    ensures r.Some? ==> IsNode(h, r.value)
    decreases |path|
  {
    if path == [] then Some(p)
    else
      var c := Child(h, used, p, path[0]);
      if c == 0 then None else Walk(h, used, c, path[1..])
  }

  lemma {:induction false} WalkLast(h: Heap, used: nat, p: nat, path: seq<Bytes>, s: Bytes)
    requires Linked(h, used) && IsNode(h, p)
    ensures Walk(h, used, p, path + [s]) ==
            match Walk(h, used, p, path)
            case None => None
            case Some(q) => (var c := Child(h, used, q, s); if c == 0 then None else Some(c))
    decreases |path|
  {
    hide Linked, Child;
    if path == [] {
      assert (path + [s])[1..] == [];
    } else {
      assert (path + [s])[1..] == path[1..] + [s];
      var c := Child(h, used, p, path[0]);
      if c != 0 { WalkLast(h, used, c, path[1..], s); }
    }
  }

  lemma ChildPath(h: Heap, used: nat, up: Places, p: nat, s: Bytes)
    requires Placed(h, used, up) && IsNode(h, p)
    ensures PlacedNode(h, up, p)
    ensures var c := Child(h, used, p, s);
            c != 0 ==> PlacedNode(h, up, c) && Path(h, up, c) == Path(h, up, p) + [s]
  {
    hide Placed, Linked;
    NodePlaced(h, used, up, p);
    if h[p].children != 0 {
      FindStaysInTree(h, used, up, h[p].children, s);
      var c := Child(h, used, p, s);
      if c != 0 { NodePlaced(h, used, up, c); }
    }
  }

  // A walk ends at the node whose path is the walked path.
  lemma {:induction false} WalkPath(h: Heap, used: nat, up: Places, p: nat, path: seq<Bytes>)
    requires Placed(h, used, up) && IsNode(h, p)
    ensures PlacedNode(h, up, p)
    ensures var r := Walk(h, used, p, path);
            r.Some? ==> PlacedNode(h, up, r.value) && Path(h, up, r.value) == Path(h, up, p) + path
    decreases |path|
  {
    hide Placed, Linked, Child;
    NodePlaced(h, used, up, p);
    if path != [] {
      ChildPath(h, used, up, p, path[0]);
      var c := Child(h, used, p, path[0]);
      if c != 0 {
        WalkPath(h, used, up, c, path[1..]);
        assert Path(h, up, p) + [path[0]] + path[1..] == Path(h, up, p) + path;
      }
    } else {
      assert Path(h, up, p) + path == Path(h, up, p);
    }
  }

  // The trie is sound when it is placed, and every node is found by walking its own path.
  ghost predicate Sound(h: Heap, used: nat, up: Places)
    ensures Sound(h, used, up) ==> Placed(h, used, up)
  {
    && Placed(h, used, up)
    && forall n | n in h && h[n].Node? ::
         PlacedNode(h, up, n) && Walk(h, used, 0, Path(h, up, n)) == Some(n)
  }

  lemma PathsAreUnique(h: Heap, used: nat, up: Places, m: nat, n: nat)
    requires Sound(h, used, up) && IsNode(h, m) && IsNode(h, n)
    requires m != 0 ==> m in up
    requires n != 0 ==> n in up
    requires Path(h, up, m) == Path(h, up, n)
    ensures m == n
  {
    assert Walk(h, used, 0, Path(h, up, m)) == Some(m);
    assert Walk(h, used, 0, Path(h, up, n)) == Some(n);
  }
}
