// How the linked objects of a property area lie in its bytes.
module PropertyBytes {
  import opened Common
  import opened PropertyHeap
  import opened PropertyTrie
  import Utf8

  const AREA_HEADER_BYTES: nat := 128
  const PROP_VALUE_MAX: nat := 92
  const MAX_NAME_BYTES: nat := 128

  // ---- Little-endian words ----

  function WordAt(b: Bytes, i: nat): (v: nat)
    requires i + 4 <= |b|
    ensures v <= U32_MAX
  {
    (b[i] as int) + 0x100 * (b[i + 1] as int)
    + 0x1_0000 * (b[i + 2] as int) + 0x100_0000 * (b[i + 3] as int)
  }

  function WordBytes(v: nat): (w: Bytes)
    requires v <= U32_MAX
    ensures |w| == 4 && WordAt(w, 0) == v
  {
    assert v / 0x1_0000 == v / 0x100 / 0x100 && v / 0x100_0000 == v / 0x1_0000 / 0x100;
    [v % 0x100, v / 0x100 % 0x100, v / 0x1_0000 % 0x100, v / 0x100_0000]
  }

  // `b` with the bytes from `i` on overwritten by `data`.
  function Overwritten(b: Bytes, i: nat, data: Bytes): (r: Bytes)
    requires i + |data| <= |b|
    ensures |r| == |b|
    ensures forall j | 0 <= j < |b| ::
              r[j] == if i <= j < i + |data| then data[j - i] else b[j]
  {
    b[..i] + data + b[i + |data|..]
  }

  function Zeros(n: nat): (z: Bytes)
    ensures |z| == n && forall i | 0 <= i < n :: z[i] == 0
  {
    seq(n, _ => 0)
  }

  // ---- Objects in place ----

  function Extent(o: Obj): nat {
    (if o.Node? then TRIE_NODE_BYTES else PROP_INFO_BYTES) + |o.name| + 1
  }

  // `text` followed by a NUL lies at position `i`.
  predicate TextAt(b: Bytes, i: nat, text: Bytes) {
    && i + |text| < |b|
    && (forall k | 0 <= k < |text| :: b[i + k] == text[k])
    && b[i + |text|] == 0
  }

  function FieldOffset(f: Field): nat {
    match f
    case PropField => 4
    case LeftField => 8
    case RightField => 12
    case ChildrenField => 16
  }

  predicate Holds(b: Bytes, off: nat, o: Obj) {
    var i := AREA_HEADER_BYTES + off;
    && i + Extent(o) <= |b|
    && if o.Node? then
         && WordAt(b, i) == |o.name|
         && WordAt(b, i + 4) == o.prop && WordAt(b, i + 8) == o.left
         && WordAt(b, i + 12) == o.right && WordAt(b, i + 16) == o.children
         && TextAt(b, i + TRIE_NODE_BYTES, o.name)
       else
         && |o.value| < PROP_VALUE_MAX
         && WordAt(b, i) == |o.value| * 0x100_0000
         && TextAt(b, i + 4, o.value)
         && TextAt(b, i + PROP_INFO_BYTES, o.name)
  }

  // Texts a reader of the area accepts.
  predicate Readable(o: Obj) {
    && |o.name| <= MAX_NAME_BYTES && Utf8.WellFormed(o.name)
    && (o.Prop? ==> 0 !in o.name && Utf8.WellFormed(o.value))
  }

  // Bytes `b` hold exactly the objects of `h`, side by side, within the first `used` bytes.
  ghost predicate Represents(b: Bytes, h: Heap, used: nat) {
    && |b| == AREA_HEADER_BYTES + used
    && (forall n | n in h :: n + Extent(h[n]) <= used && Holds(b, n, h[n]) && Readable(h[n]))
    && (forall m, n | m in h && n in h && m < n :: m + Extent(h[m]) <= n)
  }

  // An object depends only on the bytes of its own extent.
  lemma HoldsFrame(b: Bytes, b': Bytes, off: nat, o: Obj)
    requires Holds(b, off, o)
    requires AREA_HEADER_BYTES + off + Extent(o) <= |b'|
    requires forall i | AREA_HEADER_BYTES + off <= i < AREA_HEADER_BYTES + off + Extent(o) ::
               b'[i] == b[i]
    ensures Holds(b', off, o)
  {
  }

  lemma WordFrame(b: Bytes, b': Bytes, i: nat)
    requires i + 4 <= |b| && i + 4 <= |b'|
    requires forall j | i <= j < i + 4 :: b'[j] == b[j]
    ensures WordAt(b', i) == WordAt(b, i)
  {
  }

  function PatchLink(b: Bytes, at: nat, f: Field, v: nat): (r: Bytes)
    requires AREA_HEADER_BYTES + at + TRIE_NODE_BYTES <= |b| && v <= U32_MAX
    ensures |r| == |b|
  {
    Overwritten(b, AREA_HEADER_BYTES + at + FieldOffset(f), WordBytes(v))
  }

  // Patching a link word changes that link and nothing else.
  lemma LinkPatched(b: Bytes, h: Heap, used: nat, at: nat, f: Field, v: nat)
    requires Represents(b, h, used) && IsNode(h, at) && v <= U32_MAX
    ensures AREA_HEADER_BYTES + at + TRIE_NODE_BYTES <= |b|
    ensures Represents(PatchLink(b, at, f, v), h[at := Set(h[at], f, v)], used)
  {
    hide PatchLink, Holds, Readable;
    assert Holds(b, at, h[at]) && at + Extent(h[at]) <= used;
    assert AREA_HEADER_BYTES + at + TRIE_NODE_BYTES <= |b|;
    var h' := h[at := Set(h[at], f, v)];
    forall n | n in h'
      ensures n + Extent(h'[n]) <= used && Holds(PatchLink(b, at, f, v), n, h'[n]) && Readable(h'[n])
    {
      ObjectPatched(b, h, used, at, f, v, n);
    }
  }

  lemma ObjectPatched(b: Bytes, h: Heap, used: nat, at: nat, f: Field, v: nat, n: nat)
    requires Represents(b, h, used) && IsNode(h, at) && v <= U32_MAX && n in h
    ensures AREA_HEADER_BYTES + at + TRIE_NODE_BYTES <= |b|
    ensures var h' := h[at := Set(h[at], f, v)];
            n + Extent(h'[n]) <= used && Holds(PatchLink(b, at, f, v), n, h'[n]) && Readable(h'[n])
  {
    hide PatchLink, WordAt, Utf8.WellFormed;
    assert Holds(b, at, h[at]) && at + Extent(h[at]) <= used;
    assert Readable(h[n]) && Holds(b, n, h[n]) && n + Extent(h[n]) <= used;
    if n == at {
      NodePatched(b, at, h[at], f, v);
    } else {
      NeighbourKept(b, at, h[at], f, v, n, h[n]);
    }
  }

  lemma NeighbourKept(b: Bytes, at: nat, o: Obj, f: Field, v: nat, n: nat, p: Obj)
    requires Holds(b, at, o) && o.Node? && v <= U32_MAX && Holds(b, n, p)
    requires n + Extent(p) <= at || at + Extent(o) <= n
    ensures Holds(PatchLink(b, at, f, v), n, p)
  {
    HoldsFrame(b, PatchLink(b, at, f, v), n, p);
  }

  lemma NodePatched(b: Bytes, at: nat, o: Obj, f: Field, v: nat)
    requires Holds(b, at, o) && o.Node? && v <= U32_MAX
    ensures Holds(PatchLink(b, at, f, v), at, Set(o, f, v))
  {
    hide WordAt, WordBytes;
    var base := AREA_HEADER_BYTES + at;
    var b' := PatchLink(b, at, f, v);
    WordRead(b', base + FieldOffset(f), v);
    WordFrame(b, b', base);
    if f != PropField { WordFrame(b, b', base + 4); }
    if f != LeftField { WordFrame(b, b', base + 8); }
    if f != RightField { WordFrame(b, b', base + 12); }
    if f != ChildrenField { WordFrame(b, b', base + 16); }
    assert TextAt(b', base + TRIE_NODE_BYTES, o.name);
  }

  lemma WordRead(b: Bytes, i: nat, v: nat)
    requires v <= U32_MAX && i + 4 <= |b|
    requires forall k | 0 <= k < 4 :: b[i + k] == WordBytes(v)[k]
    ensures WordAt(b, i) == v
  {
    var w := WordBytes(v);
    assert b[i] == b[i + 0] == w[0];
  }

  // Appending an object in fresh bytes keeps the old ones and adds the new one.
  lemma ObjectAppended(b: Bytes, b': Bytes, h: Heap, used: nat, o: Obj, used': nat)
    requires Represents(b, h, used) && used + Extent(o) <= used'
    requires |b'| == AREA_HEADER_BYTES + used'
    requires forall i | 0 <= i < |b| :: b'[i] == b[i]
    requires Holds(b', used, o) && Readable(o)
    ensures Represents(b', h[used := o], used')
  {
    hide Holds, Readable;
    var h' := h[used := o];
    forall n | n in h'
      ensures n + Extent(h'[n]) <= used' && Holds(b', n, h'[n]) && Readable(h'[n])
    {
      if n in h && n != used {
        assert Holds(b, n, h[n]) && n + Extent(h[n]) <= used;
        HoldsFrame(b, b', n, h[n]);
      }
    }
    forall m, n | m in h' && n in h' && m < n
      ensures m + Extent(h'[m]) <= n
    {
      if n in h { assert n + Extent(h[n]) <= used; }
      if m in h { assert m + Extent(h[m]) <= used; }
    }
  }
}
