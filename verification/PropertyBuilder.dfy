// The writer of property areas, and its agreement with the reader.
module PropertyBuilder {
  import opened Common
  import opened PropertyHeap
  import opened PropertyTrie
  import opened PropertyBytes
  import opened PropertyParser
  import Utf8

  // ---- What the writer accepts ----

  predicate GoodName(name: Bytes) {
    && |name| <= MAX_NAME_BYTES && Utf8.WellFormed(name) && 0 !in name
    && forall s | s in Segments(name) :: s != []
  }

  predicate GoodPair(p: Pair) {
    GoodName(p.name) && |p.value| < PROP_VALUE_MAX && Utf8.WellFormed(p.value)
  }

  lemma {:induction false} JoinedParts(segments: seq<Bytes>)
    requires |segments| >= 1 && Utf8.WellFormed(Joined(segments))
    ensures forall i | 0 <= i < |segments| ::
              Utf8.WellFormed(segments[i]) && |segments[i]| <= |Joined(segments)|
  {
    if |segments| > 1 {
      Utf8.CutAtAscii(segments[0], DOT, Joined(segments[1..]));
      JoinedParts(segments[1..]);
      assert forall i | 1 <= i < |segments| :: segments[i] == segments[1..][i - 1];
    }
  }

  lemma SegmentsReadable(name: Bytes)
    requires |name| <= MAX_NAME_BYTES && Utf8.WellFormed(name)
    ensures forall i | 0 <= i < |Segments(name)| :: Readable(Leaf(Segments(name)[i]))
  {
    JoinedSegments(name);
    JoinedParts(Segments(name));
  }

  // ---- Writing one object into fresh bytes ----

  function WithLeaf(b: Bytes, s: Bytes): (r: Bytes)
    requires |s| <= U32_MAX
    ensures |r| == |b| + Aligned(TRIE_NODE_BYTES + |s| + 1)
  {
    var z := b + Zeros(Aligned(TRIE_NODE_BYTES + |s| + 1));
    Overwritten(Overwritten(z, |b|, WordBytes(|s|)), |b| + TRIE_NODE_BYTES, s + [0])
  }

  lemma LeafWritten(b: Bytes, h: Heap, used: nat, s: Bytes)
    requires Represents(b, h, used) && Readable(Leaf(s))
    ensures Represents(WithLeaf(b, s), h[used := Leaf(s)], used + Aligned(TRIE_NODE_BYTES + |s| + 1))
    ensures forall i | 0 <= i < |b| :: WithLeaf(b, s)[i] == b[i]
  {
    LeafHolds(b, used, s);
    ObjectAppended(b, WithLeaf(b, s), h, used, Leaf(s), used + Aligned(TRIE_NODE_BYTES + |s| + 1));
  }

  lemma WordZero(b: Bytes, i: nat)
    requires i + 4 <= |b| && forall j | i <= j < i + 4 :: b[j] == 0
    ensures WordAt(b, i) == 0
  {
  }

  lemma LeafHolds(b: Bytes, used: nat, s: Bytes)
    requires |b| == AREA_HEADER_BYTES + used && |s| <= U32_MAX
    ensures Holds(WithLeaf(b, s), used, Leaf(s))
    ensures forall i | 0 <= i < |b| :: WithLeaf(b, s)[i] == b[i]
  {
    hide WordBytes, WordAt;
    var r := WithLeaf(b, s);
    var i := |b|;
    WordRead(r, i, |s|);
    assert forall j | i + 4 <= j < i + TRIE_NODE_BYTES :: r[j] == 0;
    WordZero(r, i + 4);
    WordZero(r, i + 8);
    WordZero(r, i + 12);
    WordZero(r, i + 16);
    assert forall k | 0 <= k < |s| :: (s + [0])[k] == s[k];
    assert r[i + TRIE_NODE_BYTES + |s|] == (s + [0])[|s|] == 0;
  }

  function WithProp(b: Bytes, name: Bytes, value: Bytes): (r: Bytes)
    requires |value| < PROP_VALUE_MAX
    ensures |r| == |b| + Aligned(PROP_INFO_BYTES + |name| + 1)
  {
    var z := b + Zeros(Aligned(PROP_INFO_BYTES + |name| + 1));
    var v := Overwritten(Overwritten(z, |b|, WordBytes(|value| * 0x100_0000)), |b| + 4, value + [0]);
    Overwritten(v, |b| + PROP_INFO_BYTES, name + [0])
  }

  lemma PropHolds(b: Bytes, used: nat, name: Bytes, value: Bytes)
    requires |b| == AREA_HEADER_BYTES + used && |value| < PROP_VALUE_MAX
    ensures Holds(WithProp(b, name, value), used, Prop(name, value))
    ensures forall i | 0 <= i < |b| :: WithProp(b, name, value)[i] == b[i]
  {
    var r := WithProp(b, name, value);
    var i := |b|;
    WordRead(r, i, |value| * 0x100_0000);
    assert forall k | 0 <= k < |value| :: r[i + 4 + k] == (value + [0])[k];
    assert r[i + 4 + |value|] == (value + [0])[|value|] == 0;
    assert forall k | 0 <= k < |name| :: r[i + PROP_INFO_BYTES + k] == (name + [0])[k];
    assert r[i + PROP_INFO_BYTES + |name|] == (name + [0])[|name|] == 0;
  }

  lemma PropWritten(b: Bytes, h: Heap, used: nat, name: Bytes, value: Bytes)
    requires Represents(b, h, used) && Readable(Prop(name, value)) && |value| < PROP_VALUE_MAX
    ensures Represents(WithProp(b, name, value), h[used := Prop(name, value)],
                       used + Aligned(PROP_INFO_BYTES + |name| + 1))
    ensures forall i | 0 <= i < |b| :: WithProp(b, name, value)[i] == b[i]
  {
    PropHolds(b, used, name, value);
    ObjectAppended(b, WithProp(b, name, value), h, used, Prop(name, value),
                   used + Aligned(PROP_INFO_BYTES + |name| + 1));
  }

  // Writing a new object and then the link to it attaches it.
  lemma AttachWritten(b: Bytes, h: Heap, used: nat, at: nat, f: Field, o: Obj, used': nat)
    requires Represents(b, h[used := o], used') && IsNode(h, at) && at != used && used <= U32_MAX
    ensures AREA_HEADER_BYTES + at + TRIE_NODE_BYTES <= |b|
    ensures Represents(PatchLink(b, at, f, used), Attach(h, at, f, used, o), used')
  {
    LinkPatched(b, h[used := o], used', at, f, used);
  }

  lemma FreshWritten(b: Bytes)
    requires |b| == AREA_HEADER_BYTES + ROOT_BYTES
    requires forall i | AREA_HEADER_BYTES <= i < |b| :: b[i] == 0
    ensures Represents(b, Fresh().heap, ROOT_BYTES)
  {
    var i := AREA_HEADER_BYTES;
    WordZero(b, i);
    WordZero(b, i + 4);
    WordZero(b, i + 8);
    WordZero(b, i + 12);
    WordZero(b, i + 16);
    assert Holds(b, 0, Leaf([]));
  }

  // The magic and version words survive every write beyond the header.
  lemma HeaderKept(b: Bytes, b': Bytes)
    requires 16 <= |b| <= |b'| && forall i | 8 <= i < 16 :: b'[i] == b[i]
    ensures WordAt(b', 8) == WordAt(b, 8) && WordAt(b', 12) == WordAt(b, 12)
  {
    WordFrame(b, b', 8);
    WordFrame(b, b', 12);
  }

  lemma PatchKeepsHeader(b: Bytes, at: nat, f: Field, v: nat)
    requires AREA_HEADER_BYTES + at + TRIE_NODE_BYTES <= |b| && v <= U32_MAX
    ensures WordAt(PatchLink(b, at, f, v), 8) == WordAt(b, 8)
    ensures WordAt(PatchLink(b, at, f, v), 12) == WordAt(b, 12)
  {
    hide WordAt, WordBytes;
    HeaderKept(b, PatchLink(b, at, f, v));
  }

  lemma RepresentedLength(b: Bytes, h: Heap, used: nat)
    requires Represents(b, h, used)
    ensures |b| == AREA_HEADER_BYTES + used
  {
  }

  lemma NodeWords(b: Bytes, h: Heap, used: nat, n: nat)
    requires Represents(b, h, used) && IsNode(h, n)
    ensures AREA_HEADER_BYTES + n + Extent(h[n]) <= |b|
    ensures WordAt(b, AREA_HEADER_BYTES + n) == |h[n].name|
    ensures WordAt(b, AREA_HEADER_BYTES + n + 8) == h[n].left
    ensures WordAt(b, AREA_HEADER_BYTES + n + 12) == h[n].right
    ensures WordAt(b, AREA_HEADER_BYTES + n + 16) == h[n].children
    ensures var start := AREA_HEADER_BYTES + n + TRIE_NODE_BYTES;
            b[start..start + |h[n].name|] == h[n].name
  {
    hide WordAt;
    assert Holds(b, n, h[n]);
  }

  // Bytes that represent trie `t`, behind a header that lacks only the size.
  ghost predicate Written(b: Bytes, t: Trie) {
    && Valid(t) && t.used <= U32_MAX && Represents(b, t.heap, t.used)
    && WordAt(b, 8) == AREA_MAGIC && WordAt(b, 12) == AREA_VERSION
  }

  lemma ChildWritten(b: Bytes, t: Trie, parent: nat, s: Bytes)
    requires Written(b, t) && IsNode(t.heap, parent) && Readable(Leaf(s))
    requires Child(t.heap, t.used, parent, s) == 0 && AddChild(t, parent, s).used <= U32_MAX
    ensures var slot := Slot(t, parent, s);
            && AREA_HEADER_BYTES + slot.0 + TRIE_NODE_BYTES <= |WithLeaf(b, s)|
            && Written(PatchLink(WithLeaf(b, s), slot.0, slot.1, t.used), AddChild(t, parent, s))
  {
    hide Valid, Sound, Linked, Represents, Slot, WordAt, PatchLink, WithLeaf, Attach, Child, Readable;
    AddChildKeepsValid(t, parent, s);
    var slot := Slot(t, parent, s);
    BelowUsed(t, slot.0);
    LeafWritten(b, t.heap, t.used, s);
    var b1 := WithLeaf(b, s);
    AttachWritten(b1, t.heap, t.used, slot.0, slot.1, Leaf(s), t.used + Aligned(TRIE_NODE_BYTES + |s| + 1));
    RepresentedLength(b, t.heap, t.used);
    HeaderKept(b, b1);
    PatchKeepsHeader(b1, slot.0, slot.1, t.used);
  }

  lemma BelowUsed(t: Trie, n: nat)
    requires Valid(t) && IsNode(t.heap, n)
    ensures n < t.used && LinkedNode(t.heap, n)
  {
  }

  lemma ValueWritten(b: Bytes, t: Trie, n: nat, name: Bytes, value: Bytes)
    requires Written(b, t) && IsNode(t.heap, n) && (n != 0 ==> n in t.up)
    requires Segments(name) == Path(t.heap, t.up, n)
    requires Readable(Prop(name, value)) && |value| < PROP_VALUE_MAX
    requires StoreAt(t, n, name, value).used <= U32_MAX
    ensures AREA_HEADER_BYTES + n + TRIE_NODE_BYTES <= |WithProp(b, name, value)|
    ensures Written(PatchLink(WithProp(b, name, value), n, PropField, t.used), StoreAt(t, n, name, value))
  {
    hide Valid, Sound, Linked, Represents, WordAt, PatchLink, WithProp, Attach, Segments, Readable;
    StoreAtKeepsValid(t, n, name, value);
    BelowUsed(t, n);
    PropWritten(b, t.heap, t.used, name, value);
    var b1 := WithProp(b, name, value);
    AttachWritten(b1, t.heap, t.used, n, PropField, Prop(name, value),
                  t.used + Aligned(PROP_INFO_BYTES + |name| + 1));
    RepresentedLength(b, t.heap, t.used);
    HeaderKept(b, b1);
    PatchKeepsHeader(b1, n, PropField, t.used);
  }

  // Where the search for `s` below `p` starts.
  lemma SearchStart(t: Trie, p: nat, s: Bytes)
    requires Valid(t) && IsNode(t.heap, p)
    ensures var c := t.heap[p].children;
            if c == 0 then Child(t.heap, t.used, p, s) == 0 && Slot(t, p, s) == (p, ChildrenField)
            else
              && IsNode(t.heap, c)
              && Child(t.heap, t.used, p, s) == Find(t.heap, t.used, c, s)
              && (Child(t.heap, t.used, p, s) == 0 ==> Slot(t, p, s) == Gap(t.heap, t.used, c, s))
  {
    assert LinkedNode(t.heap, p);
  }

  // One step down a sibling tree that the search for `s` below `parent` has reached.
  lemma SearchStep(t: Trie, parent: nat, s: Bytes, current: nat)
    requires Valid(t) && IsNode(t.heap, parent) && current != 0 && IsNode(t.heap, current)
    requires Child(t.heap, t.used, parent, s) == Find(t.heap, t.used, current, s)
    requires Child(t.heap, t.used, parent, s) == 0 ==>
               Slot(t, parent, s) == Gap(t.heap, t.used, current, s)
    ensures LinkedNode(t.heap, current) && current < t.used
    ensures var o := CompareNode(s, t.heap[current].name);
            if o == Equal then Child(t.heap, t.used, parent, s) == current
            else
              var next := Get(t.heap[current], Side(o));
              if next == 0 then
                Child(t.heap, t.used, parent, s) == 0 && Slot(t, parent, s) == (current, Side(o))
              else
                && current < next && IsNode(t.heap, next)
                && Child(t.heap, t.used, parent, s) == Find(t.heap, t.used, next, s)
                && (Child(t.heap, t.used, parent, s) == 0 ==>
                      Slot(t, parent, s) == Gap(t.heap, t.used, next, s))
  {
    hide Slot, Child, Valid, Sound, Placed, Linked, CompareNode;
    NodeLinked(t.heap, t.used, current);
  }

  // ---- The writer ----

  class AreaBuilder {
    var bytes: Bytes
    var used: nat

    ghost predicate Builds(t: Trie)
      reads this
    {
      used == t.used && Written(bytes, t)
    }

    constructor ()
      ensures Builds(Fresh())
    {
      var b := Zeros(AREA_HEADER_BYTES + ROOT_BYTES);
      b := Overwritten(b, 8, WordBytes(AREA_MAGIC));
      b := Overwritten(b, 12, WordBytes(AREA_VERSION));
      bytes := b;
      used := ROOT_BYTES;
      new;
      FreshWritten(b);
    }

    // The trie node named `segment` below `parent`, found or added. A false result stands for
    // the panic on an offset that no longer fits a 32-bit word.
    method InsertNode(parent: nat, segment: Bytes, ghost t: Trie) returns (ok: bool, node: nat)
      requires Builds(t) && IsNode(t.heap, parent) && Readable(Leaf(segment))
      modifies this
      ensures ok <==> Descend(t, parent, segment).0.used <= U32_MAX
      ensures ok ==> Builds(Descend(t, parent, segment).0) && node == Descend(t, parent, segment).1
    {
      hide Valid, Sound, Placed, Linked, Represents, WordAt, Find, Gap, Slot, Child, AddChild, Readable;
      NodeWords(bytes, t.heap, t.used, parent);
      SearchStart(t, parent, segment);
      var current := WordAt(bytes, AREA_HEADER_BYTES + parent + 16);
      if current == 0 {
        ok, node := AddNode(parent, ChildrenField, segment, parent, t);
        return;
      }
      while true
        invariant Builds(t) && current != 0 && IsNode(t.heap, current)
        invariant Child(t.heap, t.used, parent, segment) == Find(t.heap, t.used, current, segment)
        invariant Child(t.heap, t.used, parent, segment) == 0 ==>
                    Slot(t, parent, segment) == Gap(t.heap, t.used, current, segment)
        decreases t.used - current
      {
        NodeWords(bytes, t.heap, t.used, current);
        SearchStep(t, parent, segment, current);
        var start := AREA_HEADER_BYTES + current + TRIE_NODE_BYTES;
        var name := bytes[start..start + WordAt(bytes, AREA_HEADER_BYTES + current)];
        var o := CompareNode(segment, name);
        if o == Equal { return true, current; }
        var f := Side(o);
        var next := WordAt(bytes, AREA_HEADER_BYTES + current + FieldOffset(f));
        if next == 0 {
          ok, node := AddNode(current, f, segment, parent, t);
          return;
        }
        current := next;
      }
    }

    // Allocates a node and links it from field `f` of node `at`.
    method AddNode(at: nat, f: Field, segment: Bytes, ghost parent: nat, ghost t: Trie)
      returns (ok: bool, node: nat)
      requires Builds(t) && IsNode(t.heap, parent) && Readable(Leaf(segment))
      requires Child(t.heap, t.used, parent, segment) == 0 && Slot(t, parent, segment) == (at, f)
      modifies this
      ensures ok <==> AddChild(t, parent, segment).used <= U32_MAX
      ensures ok ==> Builds(AddChild(t, parent, segment)) && node == t.used
    {
      hide Valid, Sound, Placed, Linked, Represents, WordAt, Slot, Child, PatchLink, WithLeaf, Attach;
      node := used;
      ok := used + Aligned(TRIE_NODE_BYTES + |segment| + 1) <= U32_MAX;
      if ok {
        ChildWritten(bytes, t, parent, segment);
        bytes := WithLeaf(bytes, segment);
        used := used + Aligned(TRIE_NODE_BYTES + |segment| + 1);
        bytes := PatchLink(bytes, at, f, node);
      }
    }

    // Writes one pair: a node for every segment, then the value record.
    method WritePair(pair: Pair, ghost t: Trie) returns (ok: bool)
      requires Builds(t) && GoodPair(pair)
      modifies this
      ensures ok <==> Write(t, pair).used <= U32_MAX
      ensures ok ==> Builds(Write(t, pair))
    {
      hide Valid, Sound, Placed, Linked, Written, Descend, PlacedNode, Attach, Utf8.WellFormed, Segments;
      var path := Segments(pair.name);
      SegmentsReadable(pair.name);
      var parent := 0;
      ghost var now := t;
      RootIsNode(bytes, t);
      for i := 0 to |path|
        invariant Builds(now) && Valid(now) && IsNode(now.heap, parent)
        invariant DescendAll(now, parent, path[i..]) == DescendAll(t, 0, path)
      {
        assert path[i..][0] == path[i] && path[i..][1..] == path[i + 1..];
        DescendSpec(now, parent, path[i]);
        ghost var step := Descend(now, parent, path[i]);
        ok, parent := InsertNode(parent, path[i], now);
        if !ok {
          assert DescendAll(t, 0, path) == DescendAll(step.0, step.1, path[i + 1..]);
          return;
        }
        now := step.0;
      }
      assert path[|path|..] == [];
      DescendAllPath(t, 0, path);
      assert [] + path == path;
      ok := StoreValue(parent, pair.name, pair.value, now);
    }

    // Allocates the value record and links it from node `n`.
    method StoreValue(n: nat, name: Bytes, value: Bytes, ghost t: Trie) returns (ok: bool)
      requires Builds(t) && IsNode(t.heap, n) && (n != 0 ==> n in t.up)
      requires Segments(name) == Path(t.heap, t.up, n)
      requires Readable(Prop(name, value)) && |value| < PROP_VALUE_MAX
      modifies this
      ensures ok <==> StoreAt(t, n, name, value).used <= U32_MAX
      ensures ok ==> Builds(StoreAt(t, n, name, value))
    {
      hide Valid, Sound, Placed, Linked, Represents, WordAt, Segments, PatchLink, WithProp, Attach;
      ok := used + Aligned(PROP_INFO_BYTES + |name| + 1) <= U32_MAX;
      if ok {
        ValueWritten(bytes, t, n, name, value);
        var info := used;
        bytes := WithProp(bytes, name, value);
        used := used + Aligned(PROP_INFO_BYTES + |name| + 1);
        bytes := PatchLink(bytes, n, PropField, info);
      }
    }
  }

  lemma RootIsNode(b: Bytes, t: Trie)
    requires Written(b, t)
    ensures Valid(t) && IsNode(t.heap, 0)
  {
  }

  lemma ShownValue(b: Bytes, t: Trie, name: Bytes)
    requires Written(b, t) && GoodName(name)
    ensures |b| >= 4
    ensures Value(Overwritten(b, 0, WordBytes(t.used)), name) == Ok(Meaning(t, Segments(name)))
  {
    hide Valid, Sound, Placed, Linked, Represents, ValueFrom, Walk, ValueAt, Utf8.WellFormed;
    WrittenFits(b, t);
    var b' := Overwritten(b, 0, WordBytes(t.used));
    var a := Area(b', t.used);
    SizeWritten(b, t);
    var path := Segments(name);
    assert forall i | 0 <= i < |path| :: path[i] in path;
    RootWalk(t, name);
    ValueRead(a, t, 0, path, name);
  }

  lemma RootWalk(t: Trie, name: Bytes)
    requires Valid(t)
    ensures IsNode(t.heap, 0)
    ensures var r := Walk(t.heap, t.used, 0, Segments(name));
            r.Some? ==> PlacedNode(t.heap, t.up, r.value) && Path(t.heap, t.up, r.value) == Segments(name)
  {
    WalkPath(t.heap, t.used, t.up, 0, Segments(name));
  }

  lemma SizeWritten(b: Bytes, t: Trie)
    requires Written(b, t)
    ensures var b' := Overwritten(b, 0, WordBytes(t.used));
            Validate(b') == Ok(Area(b', t.used)) && Represents(b', t.heap, t.used)
  {
    hide Valid, Sound, Placed, WordBytes, WordAt, Holds, Readable;
    var b' := Overwritten(b, 0, WordBytes(t.used));
    HeaderKept(b, b');
    WordRead(b', 0, t.used);
    assert 0 in t.heap && 0 + Extent(t.heap[0]) <= t.used;
    forall n | n in t.heap
      ensures n + Extent(t.heap[n]) <= t.used && Holds(b', n, t.heap[n]) && Readable(t.heap[n])
    {
      HoldsFrame(b, b', n, t.heap[n]);
    }
  }

  // Writes the pairs in order. `None` stands for the panic of a size beyond 32 bits.
  method BuildArea(pairs: seq<Pair>) returns (r: Option<Bytes>)
    requires forall p | p in pairs :: GoodPair(p)
    ensures r.Some? <==> WriteAll(pairs).used <= U32_MAX
    ensures r.Some? ==> forall name | GoodName(name) :: Value(r.value, name) == Ok(LastValue(pairs, name))
  {
    hide Valid, Written, Write, Value, GoodName;
    var builder := new AreaBuilder();
    for i := 0 to |pairs|
      invariant builder.Builds(WriteAll(pairs[..i]))
    {
      assert pairs[..i + 1][..i] == pairs[..i] && pairs[i] in pairs;
      var ok := builder.WritePair(pairs[i], WriteAll(pairs[..i]));
      if !ok {
        WriteAllGrows(pairs, i + 1);
        return None;
      }
    }
    assert pairs[..|pairs|] == pairs;
    ghost var t := WriteAll(pairs);
    WrittenFits(builder.bytes, t);
    r := Some(Overwritten(builder.bytes, 0, WordBytes(builder.used)));
    forall name | GoodName(name)
      ensures Value(r.value, name) == Ok(LastValue(pairs, name))
    {
      ShownValue(builder.bytes, t, name);
      TrieAgreesWithMap(pairs, name);
    }
  }

  lemma WrittenFits(b: Bytes, t: Trie)
    requires Written(b, t)
    ensures t.used <= U32_MAX && |b| >= AREA_HEADER_BYTES
  {
  }

  lemma {:induction false} WriteAllGrows(pairs: seq<Pair>, i: nat)
    requires i <= |pairs|
    ensures WriteAll(pairs[..i]).used <= WriteAll(pairs).used
    decreases |pairs|
  {
    hide Valid, Write;
    if i < |pairs| {
      WriteAllGrows(pairs[..|pairs| - 1], i);
      assert pairs[..|pairs| - 1][..i] == pairs[..i];
    } else {
      assert pairs[..i] == pairs;
    }
  }
}
