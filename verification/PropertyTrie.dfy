// What writing name/value pairs into a property area does to the linked objects, and why the
// result is an index that agrees with a plain map.
module PropertyTrie {
  import opened Common
  import opened PropertyHeap

  const DOT: byte := 46
  const TRIE_NODE_BYTES: nat := 20
  const PROP_INFO_BYTES: nat := 96
  const ROOT_BYTES: nat := 112

  // ---- Dotted names ----

  // Splitting at every dot; a name always has at least one segment.
  function Segments(name: Bytes): (r: seq<Bytes>)
    ensures |r| >= 1
  {
    if name == [] then [[]]
    else
      var rest := Segments(name[1..]);
      if name[0] == DOT then [[]] + rest else [[name[0]] + rest[0]] + rest[1..]
  }

  function Joined(segments: seq<Bytes>): Bytes
    requires |segments| >= 1
  {
    if |segments| == 1 then segments[0] else segments[0] + [DOT] + Joined(segments[1..])
  }

  lemma {:induction false} JoinedSegments(name: Bytes)
    ensures Joined(Segments(name)) == name
  {
    if name != [] {
      JoinedSegments(name[1..]);
      var rest := Segments(name[1..]);
      if name[0] == DOT {
        assert ([[]] + rest)[1..] == rest;
        assert name == [DOT] + name[1..];
      } else {
        var first := [name[0]] + rest[0];
        assert ([first] + rest[1..])[1..] == rest[1..];
        if |rest| == 1 {
          assert Joined([first] + rest[1..]) == first;
        } else {
          assert Joined([first] + rest[1..]) == [name[0]] + Joined(rest);
        }
        assert name == [name[0]] + name[1..];
      }
    }
  }

  lemma SegmentsDetermineName(a: Bytes, b: Bytes)
    requires Segments(a) == Segments(b)
    ensures a == b
  {
    JoinedSegments(a);
    JoinedSegments(b);
  }

  // ---- The trie and its meaning ----

  datatype Trie = Trie(heap: Heap, used: nat, up: Places)

  ghost predicate Valid(t: Trie)
    ensures Valid(t) ==> Sound(t.heap, t.used, t.up)
  {
    && Sound(t.heap, t.used, t.up)
    && forall n | n in t.heap && t.heap[n].Node? && t.heap[n].prop != 0 ::
         && LinkedNode(t.heap, n) && PlacedNode(t.heap, t.up, n)
         && Segments(t.heap[t.heap[n].prop].name) == Path(t.heap, t.up, n)
  }

  // The value the trie holds for a path of segments.
  ghost function Meaning(t: Trie, path: seq<Bytes>): Option<Bytes>
    requires Linked(t.heap, t.used)
  {
    match Walk(t.heap, t.used, 0, path)
    case None => None
    case Some(n) => assert LinkedNode(t.heap, n); ValueAt(t.heap, n)
  }

  ghost function ValueAt(h: Heap, n: nat): Option<Bytes>
    requires IsNode(h, n) && LinkedNode(h, n)
  {
    if h[n].prop == 0 then None else Some(h[h[n].prop].value)
  }

  function Aligned(length: nat): (r: nat)
    ensures length <= r < length + 4 && r % 4 == 0
  {
    (length + 3) / 4 * 4
  }

  // ---- Adding one child ----

  ghost function Slot(t: Trie, p: nat, s: Bytes): (r: (nat, Field))
    requires Linked(t.heap, t.used) && IsNode(t.heap, p) && Child(t.heap, t.used, p, s) == 0
    ensures IsNode(t.heap, r.0) && r.1 != PropField && Get(t.heap[r.0], r.1) == 0
  {
    assert LinkedNode(t.heap, p);
    if t.heap[p].children == 0 then (p, ChildrenField)
    else Gap(t.heap, t.used, t.heap[p].children, s)
  }

  ghost function AddChild(t: Trie, p: nat, s: Bytes): Trie
    requires Valid(t) && IsNode(t.heap, p) && Child(t.heap, t.used, p, s) == 0
  {
    var slot := Slot(t, p, s);
    assert PlacedNode(t.heap, t.up, p);
    Trie(Attach(t.heap, slot.0, slot.1, t.used, Leaf(s)),
         t.used + Aligned(TRIE_NODE_BYTES + |s| + 1),
         t.up[t.used := Path(t.heap, t.up, p)])
  }

  lemma AddChildLinked(t: Trie, p: nat, s: Bytes)
    requires Valid(t) && IsNode(t.heap, p) && Child(t.heap, t.used, p, s) == 0
    ensures var t' := AddChild(t, p, s);
            && Linked(t'.heap, t'.used)
            && (forall n :: IsNode(t'.heap, n) <==> IsNode(t.heap, n) || n == t.used)
  {
    hide Valid, Sound, Placed, Linked;
    var slot := Slot(t, p, s);
    NotAllocated(t.heap, t.used);
    AttachLinked(t.heap, t.used, slot.0, slot.1, Leaf(s), t.used + Aligned(TRIE_NODE_BYTES + |s| + 1));
  }

  // Adding a child changes exactly one edge of the trie.
  lemma AddChildEdge(t: Trie, p: nat, s: Bytes, q: nat, x: Bytes)
    requires Valid(t) && IsNode(t.heap, p) && Child(t.heap, t.used, p, s) == 0
    requires IsNode(t.heap, q)
    ensures var t' := AddChild(t, p, s);
            && Linked(t'.heap, t'.used) && IsNode(t'.heap, q)
            && Child(t'.heap, t'.used, q, x) ==
               if q == p && x == s then t.used else Child(t.heap, t.used, q, x)
  {
    hide Valid, Linked, AddChild, Child;
    AddChildLinked(t, p, s);
    if x != s {
      EdgeOfOtherName(t, p, s, q, x);
    } else if q == p {
      NewEdge(t, p, s);
    } else {
      EdgeOfOtherParent(t, p, s, q);
    }
  }

  lemma EdgeOfOtherName(t: Trie, p: nat, s: Bytes, q: nat, x: Bytes)
    requires Valid(t) && IsNode(t.heap, p) && Child(t.heap, t.used, p, s) == 0
    requires IsNode(t.heap, q) && x != s
    ensures var t' := AddChild(t, p, s);
            && Linked(t'.heap, t'.used) && IsNode(t'.heap, q)
            && Child(t'.heap, t'.used, q, x) == Child(t.heap, t.used, q, x)
  {
    hide Valid, Linked, Slot;
    AddChildLinked(t, p, s);
    var t' := AddChild(t, p, s);
    var slot := Slot(t, p, s);
    NotAllocated(t.heap, t.used);
    NodeLinked(t.heap, t.used, q);
    NodeLinked(t'.heap, t'.used, q);
    FindOtherName(t.heap, t.used, slot.0, slot.1, s, t'.used, t.heap[q].children, x);
    if t'.heap[q].children == t.used {
      assert t.heap[q].children == 0;
      assert Find(t'.heap, t'.used, t.used, x) == 0;
    }
  }

  lemma NewEdge(t: Trie, p: nat, s: Bytes)
    requires Valid(t) && IsNode(t.heap, p) && Child(t.heap, t.used, p, s) == 0
    ensures var t' := AddChild(t, p, s);
            && Linked(t'.heap, t'.used) && IsNode(t'.heap, p)
            && Child(t'.heap, t'.used, p, s) == t.used
  {
    hide Valid, Linked;
    AddChildLinked(t, p, s);
    var t' := AddChild(t, p, s);
    var c := t.heap[p].children;
    NodeLinked(t.heap, t.used, p);
    NodeLinked(t'.heap, t'.used, p);
    if c != 0 { FindFilledGap(t.heap, t.used, s, t'.used, c); }
  }

  lemma EdgeOfOtherParent(t: Trie, p: nat, s: Bytes, q: nat)
    requires Valid(t) && IsNode(t.heap, p) && Child(t.heap, t.used, p, s) == 0
    requires IsNode(t.heap, q) && q != p
    ensures var t' := AddChild(t, p, s);
            && Linked(t'.heap, t'.used) && IsNode(t'.heap, q)
            && Child(t'.heap, t'.used, q, s) == Child(t.heap, t.used, q, s)
  {
    hide Valid, Sound, Placed, Linked, PlacedNode;
    AddChildLinked(t, p, s);
    var t' := AddChild(t, p, s);
    var slot := Slot(t, p, s);
    OtherParent(t, p, s, q);
    NodeLinked(t'.heap, t'.used, q);
    NotAllocated(t.heap, t.used);
    assert t'.heap[q].children == t.heap[q].children;
    FindOtherTree(t.heap, t.used, t.up, slot.0, slot.1, Leaf(s), t'.used, t.heap[q].children, s);
  }

  // The slot found under `p` lies outside the sibling tree of every other parent.
  lemma OtherParent(t: Trie, p: nat, s: Bytes, q: nat)
    requires Valid(t) && IsNode(t.heap, p) && Child(t.heap, t.used, p, s) == 0
    requires IsNode(t.heap, q) && q != p
    ensures LinkedNode(t.heap, q) && PlacedNode(t.heap, t.up, q)
    ensures t.heap[q].children != 0 ==> t.heap[q].children in t.up
    ensures var slot := Slot(t, p, s); var c := t.heap[q].children;
            slot.1 in {LeftField, RightField} && c != 0 ==> slot.0 in t.up && t.up[slot.0] != t.up[c]
  {
    hide Valid, Sound, Placed, Linked;
    var (h, used, up) := (t.heap, t.used, t.up);
    NodePlaced(h, used, up, q);
    NodePlaced(h, used, up, p);
    if h[p].children != 0 {
      FindStaysInTree(h, used, up, h[p].children, s);
      if h[q].children != 0 && up[h[q].children] == up[h[p].children] {
        PathsAreUnique(h, used, up, p, q);
      }
    }
  }

  lemma NewNodeHasNoChild(t: Trie, p: nat, s: Bytes, x: Bytes)
    requires Valid(t) && IsNode(t.heap, p) && Child(t.heap, t.used, p, s) == 0
    ensures var t' := AddChild(t, p, s);
            && Linked(t'.heap, t'.used) && IsNode(t'.heap, t.used)
            && Child(t'.heap, t'.used, t.used, x) == 0
  {
    AddChildLinked(t, p, s);
  }

  // Walks that succeeded before still reach the same node; a new success ends at the new node.
  lemma {:induction false} AddChildWalk(t: Trie, p: nat, s: Bytes, q: nat, path: seq<Bytes>)
    requires Valid(t) && IsNode(t.heap, p) && Child(t.heap, t.used, p, s) == 0
    requires IsNode(t.heap, q)
    ensures var t' := AddChild(t, p, s);
            && Linked(t'.heap, t'.used) && IsNode(t'.heap, q)
            && var before := Walk(t.heap, t.used, q, path);
               var after := Walk(t'.heap, t'.used, q, path);
               if before.Some? then after == before else after == None || after == Some(t.used)
    decreases |path|
  {
    hide Valid, Linked, AddChild, Child;
    AddChildLinked(t, p, s);
    var t' := AddChild(t, p, s);
    if path != [] {
      AddChildEdge(t, p, s, q, path[0]);
      if q == p && path[0] == s {
        var rest := path[1..];
        if rest != [] { NewNodeHasNoChild(t, p, s, rest[0]); }
      } else {
        var c := Child(t.heap, t.used, q, path[0]);
        if c != 0 { AddChildWalk(t, p, s, c, path[1..]); }
      }
    }
  }

  lemma AddChildKeepsPlace(t: Trie, p: nat, s: Bytes, n: nat)
    requires Valid(t) && IsNode(t.heap, p) && Child(t.heap, t.used, p, s) == 0
    requires IsNode(t.heap, n)
    ensures var t' := AddChild(t, p, s);
            && Linked(t'.heap, t'.used) && IsNode(t'.heap, n)
            && LinkedNode(t.heap, n) && PlacedNode(t.heap, t.up, n)
            && LinkedNode(t'.heap, n) && PlacedNode(t'.heap, t'.up, n)
            && Path(t'.heap, t'.up, n) == Path(t.heap, t.up, n)
  {
    hide Valid, Sound, Placed, Linked, Slot, Path;
    AddChildLinked(t, p, s);
    var slot := Slot(t, p, s);
    SlotPlace(t, p, s);
    PlaceKept(t.heap, t.used, t.up, slot.0, slot.1, s, Path(t.heap, t.up, p), AddChild(t, p, s).used, n);
  }

  lemma SlotPlace(t: Trie, p: nat, s: Bytes)
    requires Valid(t) && IsNode(t.heap, p) && Child(t.heap, t.used, p, s) == 0
    ensures PlacedNode(t.heap, t.up, p)
    ensures var slot := Slot(t, p, s);
            if slot.1 == ChildrenField then slot.0 == p && (p != 0 ==> p in t.up)
            else slot.0 != 0 && slot.0 in t.up && t.up[slot.0] == Path(t.heap, t.up, p)
  {
    hide Valid, Sound, Placed, Linked;
    NodePlaced(t.heap, t.used, t.up, p);
    if t.heap[p].children != 0 {
      FindStaysInTree(t.heap, t.used, t.up, t.heap[p].children, s);
    }
  }

  lemma PlaceKept(h: Heap, used: nat, up: Places, at: nat, f: Field, s: Bytes, place: seq<Bytes>,
                  used': nat, n: nat)
    requires Placed(h, used, up) && IsNode(h, at) && IsNode(h, n) && f != PropField
    requires at != 0 ==> at in up
    requires if f == ChildrenField then Path(h, up, at) == place else at != 0 && up[at] == place
    requires Linked(Attach(h, at, f, used, Leaf(s)), used')
    ensures var (h', up') := (Attach(h, at, f, used, Leaf(s)), up[used := place]);
            && LinkedNode(h, n) && PlacedNode(h, up, n)
            && LinkedNode(h', n) && PlacedNode(h', up', n)
            && Path(h', up', n) == Path(h, up, n)
  {
    hide Placed, Linked;
    NodePlaced(h, used, up, n);
    NodeLinked(Attach(h, at, f, used, Leaf(s)), used', n);
    NotAllocated(h, used);
  }

  lemma AddChildNewPlace(t: Trie, p: nat, s: Bytes)
    requires Valid(t) && IsNode(t.heap, p) && Child(t.heap, t.used, p, s) == 0
    ensures var t' := AddChild(t, p, s);
            && Linked(t'.heap, t'.used) && IsNode(t'.heap, t.used) && LinkedNode(t'.heap, t.used)
            && LinkedNode(t.heap, p) && PlacedNode(t.heap, t.up, p)
            && PlacedNode(t'.heap, t'.up, t.used)
            && Path(t'.heap, t'.up, t.used) == Path(t.heap, t.up, p) + [s]
  {
    hide Valid, Sound, Placed, Linked, Slot;
    AddChildLinked(t, p, s);
    var t' := AddChild(t, p, s);
    NodePlaced(t.heap, t.used, t.up, p);
    NodeLinked(t'.heap, t'.used, t.used);
    NotAllocated(t.heap, t.used);
    assert t'.heap[t.used] == Leaf(s);
  }

  lemma AddChildReaches(t: Trie, p: nat, s: Bytes, n: nat)
    requires Valid(t) && IsNode(t.heap, p) && Child(t.heap, t.used, p, s) == 0
    requires IsNode(t.heap, n) || n == t.used
    ensures var t' := AddChild(t, p, s);
            && Linked(t'.heap, t'.used) && IsNode(t'.heap, n) && LinkedNode(t'.heap, n)
            && PlacedNode(t'.heap, t'.up, n)
            && Walk(t'.heap, t'.used, 0, Path(t'.heap, t'.up, n)) == Some(n)
  {
    hide Valid, Sound, Placed, Linked, AddChild, Child, PlacedNode, LinkedNode;
    var t' := AddChild(t, p, s);
    AddChildNewPlace(t, p, s);
    if n == t.used {
      var path := Path(t.heap, t.up, p);
      OwnPath(t, p);
      AddChildWalk(t, p, s, 0, path);
      WalkLast(t'.heap, t'.used, 0, path, s);
      AddChildEdge(t, p, s, p, s);
    } else {
      AddChildKeepsPlace(t, p, s, n);
      OwnPath(t, n);
      AddChildWalk(t, p, s, 0, Path(t.heap, t.up, n));
    }
  }

  // Walking a node's own path finds it.
  lemma OwnPath(t: Trie, n: nat)
    requires Valid(t) && IsNode(t.heap, n)
    ensures LinkedNode(t.heap, n) && PlacedNode(t.heap, t.up, n) && IsNode(t.heap, 0)
    ensures n != 0 ==> n in t.up
    ensures Walk(t.heap, t.used, 0, Path(t.heap, t.up, n)) == Some(n)
    ensures t.heap[n].prop != 0 ==>
              Segments(t.heap[t.heap[n].prop].name) == Path(t.heap, t.up, n)
  {
    NodePlaced(t.heap, t.used, t.up, n);
  }

  lemma AddChildNames(t: Trie, p: nat, s: Bytes, n: nat)
    requires Valid(t) && IsNode(t.heap, p) && Child(t.heap, t.used, p, s) == 0
    requires IsNode(t.heap, n) || n == t.used
    ensures var t' := AddChild(t, p, s);
            && Linked(t'.heap, t'.used) && IsNode(t'.heap, n) && LinkedNode(t'.heap, n)
            && PlacedNode(t'.heap, t'.up, n)
            && (t'.heap[n].prop != 0 ==>
                  Segments(t'.heap[t'.heap[n].prop].name) == Path(t'.heap, t'.up, n))
  {
    hide Valid, Sound, Placed, Linked, Slot, Child, Path;
    NotAllocated(t.heap, t.used);
    AddChildNewPlace(t, p, s);
    if n != t.used {
      AddChildKeepsPlace(t, p, s, n);
      OwnPath(t, n);
    }
  }

  lemma AddChildKeepsValid(t: Trie, p: nat, s: Bytes)
    requires Valid(t) && IsNode(t.heap, p) && Child(t.heap, t.used, p, s) == 0
    ensures Valid(AddChild(t, p, s))
  {
    hide AddChild, Child, Walk, PlacedNode, LinkedNode, Segments;
    var t' := AddChild(t, p, s);
    AddChildLinked(t, p, s);
    forall n | IsNode(t'.heap, n)
      ensures LinkedNode(t'.heap, n) && PlacedNode(t'.heap, t'.up, n)
      ensures n != 0 ==> n in t'.up
      ensures Walk(t'.heap, t'.used, 0, Path(t'.heap, t'.up, n)) == Some(n)
      ensures t'.heap[n].prop != 0 ==>
                Segments(t'.heap[t'.heap[n].prop].name) == Path(t'.heap, t'.up, n)
    {
      AddChildReaches(t, p, s, n);
      AddChildNames(t, p, s, n);
    }
  }

  // The new node holds no value, so adding a child keeps the meaning of every path.
  lemma AddChildKeepsMeaning(t: Trie, p: nat, s: Bytes, path: seq<Bytes>)
    requires Valid(t) && IsNode(t.heap, p) && Child(t.heap, t.used, p, s) == 0
    ensures Linked(AddChild(t, p, s).heap, AddChild(t, p, s).used)
    ensures Meaning(AddChild(t, p, s), path) == Meaning(t, path)
  {
    AddChildWalk(t, p, s, 0, path);
    var slot := Slot(t, p, s);
    var before := Walk(t.heap, t.used, 0, path);
    if before.Some? { ValueAtKept(t.heap, t.used, slot.0, slot.1, s, before.value); }
  }

  lemma ValueAtKept(h: Heap, used: nat, at: nat, f: Field, s: Bytes, n: nat)
    requires Linked(h, used) && IsNode(h, at) && f != PropField && IsNode(h, n)
    ensures var h' := Attach(h, at, f, used, Leaf(s));
            && LinkedNode(h, n) && IsNode(h', n)
            && (LinkedNode(h', n) ==> ValueAt(h', n) == ValueAt(h, n))
  {
    assert LinkedNode(h, n);
  }

  // ---- Storing a value at a node ----

  ghost function StoreAt(t: Trie, n: nat, name: Bytes, value: Bytes): Trie
    requires Valid(t) && IsNode(t.heap, n)
  {
    Trie(Attach(t.heap, n, PropField, t.used, Prop(name, value)),
         t.used + Aligned(PROP_INFO_BYTES + |name| + 1), t.up)
  }

  lemma {:induction false} StoreAtWalk(t: Trie, n: nat, name: Bytes, value: Bytes, q: nat, path: seq<Bytes>)
    requires Valid(t) && IsNode(t.heap, n) && IsNode(t.heap, q)
    ensures var t' := StoreAt(t, n, name, value);
            && Linked(t'.heap, t'.used) && IsNode(t'.heap, q)
            && Walk(t'.heap, t'.used, q, path) == Walk(t.heap, t.used, q, path)
    decreases |path|
  {
    var t' := StoreAt(t, n, name, value);
    AttachLinked(t.heap, t.used, n, PropField, Prop(name, value), t'.used);
    if path != [] {
      assert LinkedNode(t.heap, q) && PlacedNode(t.heap, t.up, q);
      FindOtherTree(t.heap, t.used, t.up, n, PropField, Prop(name, value), t'.used,
                    t.heap[q].children, path[0]);
      var c := Child(t.heap, t.used, q, path[0]);
      if c != 0 { StoreAtWalk(t, n, name, value, c, path[1..]); }
    }
  }

  lemma StoreAtKeepsNode(t: Trie, n: nat, name: Bytes, value: Bytes, m: nat)
    requires Valid(t) && IsNode(t.heap, n) && (n != 0 ==> n in t.up) && IsNode(t.heap, m)
    requires Segments(name) == Path(t.heap, t.up, n)
    ensures var t' := StoreAt(t, n, name, value);
            && Linked(t'.heap, t'.used) && IsNode(t'.heap, m) && LinkedNode(t'.heap, m)
            && PlacedNode(t'.heap, t'.up, m)
            && Walk(t'.heap, t'.used, 0, Path(t'.heap, t'.up, m)) == Some(m)
            && (t'.heap[m].prop != 0 ==>
                  Segments(t'.heap[t'.heap[m].prop].name) == Path(t'.heap, t'.up, m))
  {
    hide Valid, Sound, Placed, Linked, Walk, Segments;
    var t' := StoreAt(t, n, name, value);
    NotAllocated(t.heap, t.used);
    OwnPath(t, m);
    StoreAtWalk(t, n, name, value, 0, Path(t.heap, t.up, m));
    NodeLinked(t'.heap, t'.used, m);
  }

  lemma StoreAtKeepsValid(t: Trie, n: nat, name: Bytes, value: Bytes)
    requires Valid(t) && IsNode(t.heap, n) && (n != 0 ==> n in t.up)
    requires Segments(name) == Path(t.heap, t.up, n)
    ensures Valid(StoreAt(t, n, name, value))
  {
    var t' := StoreAt(t, n, name, value);
    AttachLinked(t.heap, t.used, n, PropField, Prop(name, value), t'.used);
    forall m | IsNode(t'.heap, m)
      ensures LinkedNode(t'.heap, m) && PlacedNode(t'.heap, t'.up, m)
      ensures Walk(t'.heap, t'.used, 0, Path(t'.heap, t'.up, m)) == Some(m)
      ensures t'.heap[m].prop != 0 ==>
                Segments(t'.heap[t'.heap[m].prop].name) == Path(t'.heap, t'.up, m)
    {
      assert IsNode(t.heap, m);
      StoreAtKeepsNode(t, n, name, value, m);
    }
  }

  // Storing a value overrides the meaning of that node's path and of no other path.
  lemma StoreAtMeaning(t: Trie, n: nat, name: Bytes, value: Bytes, path: seq<Bytes>)
    requires Valid(t) && IsNode(t.heap, n) && (n != 0 ==> n in t.up)
    requires Segments(name) == Path(t.heap, t.up, n)
    ensures Linked(StoreAt(t, n, name, value).heap, StoreAt(t, n, name, value).used)
    ensures Meaning(StoreAt(t, n, name, value), path) ==
            if path == Segments(name) then Some(value) else Meaning(t, path)
  {
    StoreAtWalk(t, n, name, value, 0, path);
    WalkEndsAt(t, n, path);
    var r := Walk(t.heap, t.used, 0, path);
    if r.Some? { ValueAtReplaced(t.heap, t.used, n, Prop(name, value), r.value); }
  }

  lemma ValueAtReplaced(h: Heap, used: nat, at: nat, o: Obj, n: nat)
    requires Linked(h, used) && IsNode(h, at) && o.Prop? && IsNode(h, n)
    ensures var h' := Attach(h, at, PropField, used, o);
            && LinkedNode(h, n) && IsNode(h', n)
            && (LinkedNode(h', n) ==>
                  ValueAt(h', n) == if n == at then Some(o.value) else ValueAt(h, n))
  {
    assert LinkedNode(h, n);
  }

  lemma WalkEndsAt(t: Trie, n: nat, path: seq<Bytes>)
    requires Valid(t) && IsNode(t.heap, n) && (n != 0 ==> n in t.up)
    ensures Walk(t.heap, t.used, 0, path) == Some(n) <==> path == Path(t.heap, t.up, n)
  {
    WalkPath(t.heap, t.used, t.up, 0, path);
    assert [] + path == path;
    assert Walk(t.heap, t.used, 0, Path(t.heap, t.up, n)) == Some(n);
  }

  // ---- Writing whole pairs ----

  ghost function Descend(t: Trie, p: nat, s: Bytes): (Trie, nat)
    requires Valid(t) && IsNode(t.heap, p)
  {
    var c := Child(t.heap, t.used, p, s);
    if c != 0 then (t, c) else (AddChild(t, p, s), t.used)
  }

  lemma DescendSpec(t: Trie, p: nat, s: Bytes)
    requires Valid(t) && IsNode(t.heap, p)
    ensures var (t', n) := Descend(t, p, s);
            && Valid(t') && IsNode(t'.heap, n) && t.used <= t'.used
            && PlacedNode(t.heap, t.up, p) && PlacedNode(t'.heap, t'.up, n)
            && Path(t'.heap, t'.up, n) == Path(t.heap, t.up, p) + [s]
  {
    assert PlacedNode(t.heap, t.up, p);
    if Child(t.heap, t.used, p, s) != 0 {
      ChildPath(t.heap, t.used, t.up, p, s);
    } else {
      AddChildKeepsValid(t, p, s);
      AddChildNewPlace(t, p, s);
    }
  }

  ghost function DescendAll(t: Trie, p: nat, path: seq<Bytes>): (r: (Trie, nat))
    requires Valid(t) && IsNode(t.heap, p)
    ensures Valid(r.0) && IsNode(r.0.heap, r.1) && t.used <= r.0.used
    decreases |path|
  {
    if path == [] then (t, p)
    else
      DescendSpec(t, p, path[0]);
      var (t', n) := Descend(t, p, path[0]);
      DescendAll(t', n, path[1..])
  }

  lemma {:induction false} DescendAllPath(t: Trie, p: nat, path: seq<Bytes>)
    requires Valid(t) && IsNode(t.heap, p)
    ensures var (t', n) := DescendAll(t, p, path);
            && PlacedNode(t.heap, t.up, p) && PlacedNode(t'.heap, t'.up, n)
            && Path(t'.heap, t'.up, n) == Path(t.heap, t.up, p) + path
    decreases |path|
  {
    hide Valid, Sound, Placed, Linked, PlacedNode, LinkedNode, Path, Descend;
    NodePlaced(t.heap, t.used, t.up, p);
    if path == [] {
      assert Path(t.heap, t.up, p) + path == Path(t.heap, t.up, p);
    } else {
      DescendSpec(t, p, path[0]);
      var (t', n) := Descend(t, p, path[0]);
      DescendAllPath(t', n, path[1..]);
      assert Path(t.heap, t.up, p) + [path[0]] + path[1..] == Path(t.heap, t.up, p) + path;
    }
  }

  lemma {:induction false} DescendAllKeepsMeaning(t: Trie, p: nat, path: seq<Bytes>, x: seq<Bytes>)
    requires Valid(t) && IsNode(t.heap, p)
    ensures Meaning(DescendAll(t, p, path).0, x) == Meaning(t, x)
    decreases |path|
  {
    if path != [] {
      DescendSpec(t, p, path[0]);
      var (t', n) := Descend(t, p, path[0]);
      if Child(t.heap, t.used, p, path[0]) == 0 { AddChildKeepsMeaning(t, p, path[0], x); }
      DescendAllKeepsMeaning(t', n, path[1..], x);
    }
  }

  datatype Pair = Pair(name: Bytes, value: Bytes)

  ghost function Write(t: Trie, pair: Pair): (t': Trie)
    requires Valid(t)
    ensures Valid(t') && t.used <= t'.used
  {
    var (t1, n) := DescendAll(t, 0, Segments(pair.name));
    DescendAllPath(t, 0, Segments(pair.name));
    assert Path(t1.heap, t1.up, n) == Segments(pair.name);
    StoreAtKeepsValid(t1, n, pair.name, pair.value);
    StoreAt(t1, n, pair.name, pair.value)
  }

  lemma WriteMeaning(t: Trie, pair: Pair, path: seq<Bytes>)
    requires Valid(t)
    ensures Meaning(Write(t, pair), path) ==
            if path == Segments(pair.name) then Some(pair.value) else Meaning(t, path)
  {
    var (t1, n) := DescendAll(t, 0, Segments(pair.name));
    DescendAllPath(t, 0, Segments(pair.name));
    DescendAllKeepsMeaning(t, 0, Segments(pair.name), path);
    assert Path(t1.heap, t1.up, n) == Segments(pair.name);
    StoreAtMeaning(t1, n, pair.name, pair.value, path);
  }

  ghost function Fresh(): (t: Trie)
    ensures Valid(t)
  {
    Trie(map[0 := Leaf([])], ROOT_BYTES, map[])
  }

  ghost function WriteAll(pairs: seq<Pair>): (t: Trie)
    ensures Valid(t)
  {
    if pairs == [] then Fresh() else Write(WriteAll(pairs[..|pairs| - 1]), pairs[|pairs| - 1])
  }

  // The plain map the area must agree with: the last value written for a name.
  function LastValue(pairs: seq<Pair>, name: Bytes): Option<Bytes> {
    if pairs == [] then None
    else
      var last := pairs[|pairs| - 1];
      if last.name == name then Some(last.value) else LastValue(pairs[..|pairs| - 1], name)
  }

  lemma {:induction false} TrieAgreesWithMap(pairs: seq<Pair>, name: Bytes)
    ensures Meaning(WriteAll(pairs), Segments(name)) == LastValue(pairs, name)
  {
    if pairs == [] {
      var t := Fresh();
      var path := Segments(name);
      assert LinkedNode(t.heap, 0);
      assert Child(t.heap, t.used, 0, path[0]) == 0;
    } else {
      var (front, last) := (pairs[..|pairs| - 1], pairs[|pairs| - 1]);
      TrieAgreesWithMap(front, name);
      WriteMeaning(WriteAll(front), last, Segments(name));
      if Segments(last.name) == Segments(name) { SegmentsDetermineName(last.name, name); }
    }
  }

  // ---- How much room writing may take ----

  function NodesCost(path: seq<Bytes>): nat {
    if path == [] then 0 else Aligned(TRIE_NODE_BYTES + |path[0]| + 1) + NodesCost(path[1..])
  }

  // A caller can compute this without writing: a node for every segment and one value record.
  function PairCost(pair: Pair): nat {
    NodesCost(Segments(pair.name)) + Aligned(PROP_INFO_BYTES + |pair.name| + 1)
  }

  function PairsCost(pairs: seq<Pair>): nat {
    if pairs == [] then 0 else PairsCost(pairs[..|pairs| - 1]) + PairCost(pairs[|pairs| - 1])
  }

  lemma {:induction false} DescendAllCost(t: Trie, p: nat, path: seq<Bytes>)
    requires Valid(t) && IsNode(t.heap, p)
    ensures DescendAll(t, p, path).0.used <= t.used + NodesCost(path)
    decreases |path|
  {
    hide Valid, Linked, Path, Slot;
    if path != [] {
      DescendSpec(t, p, path[0]);
      var (t', n) := Descend(t, p, path[0]);
      DescendAllCost(t', n, path[1..]);
    }
  }

  // The area never takes more than the root and the cost of every pair.
  lemma {:induction false} WriteAllCost(pairs: seq<Pair>)
    ensures WriteAll(pairs).used <= ROOT_BYTES + PairsCost(pairs)
    decreases |pairs|
  {
    hide Valid, NodesCost, DescendAll;
    if pairs != [] {
      var (front, last) := (pairs[..|pairs| - 1], pairs[|pairs| - 1]);
      WriteAllCost(front);
      DescendAllCost(WriteAll(front), 0, Segments(last.name));
    }
  }
}
