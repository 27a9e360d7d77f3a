// The checked reader of a property area. It is total: every byte sequence, however malformed,
// yields a value, an absence or an error.
module PropertyParser {
  import opened Common
  import opened PropertyHeap
  import opened PropertyTrie
  import opened PropertyBytes
  import Utf8

  const AREA_MAGIC: nat := 0x504f_5250
  const AREA_VERSION: nat := 0xfc6e_d0ab
  const LONG_FLAG: nat := 0x1_0000
  const MAX_PROPERTY_VALUE_BYTES: nat := 64

  datatype FormatError = Unsupported | Malformed

  type Parsed<T> = Result<T, FormatError>

  // ---- Checked reads ----

  function Slice(b: Bytes, offset: nat, length: nat): Parsed<Bytes> {
    if offset + length <= |b| then Ok(b[offset..offset + length]) else Err(Malformed)
  }

  function Word(b: Bytes, offset: nat): Parsed<nat> {
    if offset + 4 <= |b| then Ok(WordAt(b, offset)) else Err(Malformed)
  }

  // The header has been checked and `used` lies within the bytes.
  datatype Area = Area(bytes: Bytes, used: nat)

  function Validate(b: Bytes): Parsed<Area> {
    if |b| < AREA_HEADER_BYTES then Err(Malformed)
    else if WordAt(b, 8) != AREA_MAGIC || WordAt(b, 12) != AREA_VERSION then Err(Unsupported)
    else
      var used := WordAt(b, 0);
      if used < TRIE_NODE_BYTES || used > |b| - AREA_HEADER_BYTES then Err(Malformed)
      else Ok(Area(b, used))
  }

  function AreaSlice(a: Area, offset: nat, length: nat): Parsed<Bytes> {
    if offset + length > a.used then Err(Malformed)
    else Slice(a.bytes, AREA_HEADER_BYTES + offset, length)
  }

  function AreaWord(a: Area, offset: nat): Parsed<nat> {
    if offset + 4 > a.used then Err(Malformed) else Word(a.bytes, AREA_HEADER_BYTES + offset)
  }

  function NodeWord(a: Area, node: nat, field: nat): Parsed<nat> {
    if AreaSlice(a, node, TRIE_NODE_BYTES).Err? then Err(Malformed) else AreaWord(a, node + field)
  }

  // The bytes up to the NUL that must follow them, if they are text.
  function Text(a: Area, offset: nat, length: nat): Parsed<Bytes> {
    var text := AreaSlice(a, offset, length);
    if text.Err? || AreaSlice(a, offset + length, 1) != Ok([0]) then Err(Malformed)
    else if Utf8.WellFormed(text.value) then text else Err(Malformed)
  }

  function NodeName(a: Area, node: nat): Parsed<Bytes> {
    var length := NodeWord(a, node, 0);
    if length.Err? || length.value > MAX_NAME_BYTES then Err(Malformed)
    else Text(a, node + TRIE_NODE_BYTES, length.value)
  }

  // The position of the first NUL among the first `limit` bytes.
  function FirstNul(b: Bytes, limit: nat): (r: Option<nat>)
    ensures r.Some? ==> r.value < |b| && r.value < limit && b[r.value] == 0
    ensures r.Some? ==> forall i | 0 <= i < r.value :: b[i] != 0
    ensures r.None? ==> forall i | 0 <= i < |b| && i < limit :: b[i] != 0
  {
    if b == [] || limit == 0 then None
    else if b[0] == 0 then Some(0)
    else
      match FirstNul(b[1..], limit - 1)
      case None => None
      case Some(k) => Some(k + 1)
  }

  function CString(a: Area, offset: nat, max: nat): Parsed<Bytes> {
    if offset >= a.used then Err(Malformed)
    else
      var tail := Slice(a.bytes, AREA_HEADER_BYTES + offset, a.used - offset);
      if tail.Err? then Err(Malformed)
      else
        match FirstNul(tail.value, max + 1)
        case None => Err(Malformed)
        case Some(end) =>
          if Utf8.WellFormed(tail.value[..end]) then Ok(tail.value[..end]) else Err(Malformed)
  }

  function ReadProp(a: Area, offset: nat, expected: Bytes): Parsed<Bytes> {
    if AreaSlice(a, offset, PROP_INFO_BYTES).Err? then Err(Malformed)
    else
      var serial := AreaWord(a, offset);
      if serial.Err? then Err(Malformed)
      else if CString(a, offset + PROP_INFO_BYTES, MAX_NAME_BYTES) != Ok(expected) then Err(Malformed)
      else if serial.value / LONG_FLAG % 2 == 1 then
        var relative := AreaWord(a, offset + 60);
        if relative.Err? then Err(Malformed)
        else CString(a, offset + relative.value, MAX_PROPERTY_VALUE_BYTES)
      else
        var length := serial.value / 0x100_0000;
        if length >= PROP_VALUE_MAX then Err(Malformed) else Text(a, offset + 4, length)
  }

  // ---- Searching ----

  function VisitCap(a: Area): nat { a.used / TRIE_NODE_BYTES + 1 }

  // The search in one sibling tree after `visits` nodes have been looked at. The cap makes it
  // stop even when links form a cycle.
  function FindFrom(a: Area, node: nat, segment: Bytes, visits: nat): Parsed<Option<nat>>
    decreases VisitCap(a) - visits
  {
    if node == 0 then Ok(None)
    else if visits + 1 > VisitCap(a) then Err(Malformed)
    else
      match NodeName(a, node)
      case Err(e) => Err(e)
      case Ok(name) =>
        var o := CompareNode(segment, name);
        if o == Equal then Ok(Some(node))
        else
          match NodeWord(a, node, FieldOffset(Side(o)))
          case Err(e) => Err(e)
          case Ok(next) => FindFrom(a, next, segment, visits + 1)
  }

  method FindAreaNode(a: Area, start: nat, segment: Bytes) returns (r: Parsed<Option<nat>>)
    ensures r == FindFrom(a, start, segment, 0)
  {
    var node := start;
    var visits := 0;
    while node != 0
      invariant visits <= VisitCap(a)
      invariant FindFrom(a, node, segment, visits) == FindFrom(a, start, segment, 0)
      decreases VisitCap(a) - visits
    {
      visits := visits + 1;
      if visits > VisitCap(a) { return Err(Malformed); }
      var name := NodeName(a, node);
      if name.Err? { return Err(name.error); }
      var o := CompareNode(segment, name.value);
      if o == Equal { return Ok(Some(node)); }
      var next := NodeWord(a, node, FieldOffset(Side(o)));
      if next.Err? { return Err(next.error); }
      node := next.value;
    }
    return Ok(None);
  }

  // What the trie below `current` holds for the remaining segments of `name`.
  function ValueFrom(a: Area, current: nat, path: seq<Bytes>, name: Bytes): Parsed<Option<Bytes>>
    decreases |path|
  {
    if path == [] then
      match NodeWord(a, current, 4)
      case Err(e) => Err(e)
      case Ok(prop) =>
        if prop == 0 then Ok(None)
        else
          match ReadProp(a, prop, name)
          case Err(e) => Err(e)
          case Ok(value) => Ok(Some(value))
    else if path[0] == [] then Err(Malformed)
    else
      match NodeWord(a, current, 16)
      case Err(e) => Err(e)
      case Ok(children) =>
        if children == 0 then Ok(None)
        else
          match FindFrom(a, children, path[0], 0)
          case Err(e) => Err(e)
          case Ok(None) => Ok(None)
          case Ok(Some(node)) => ValueFrom(a, node, path[1..], name)
  }

  function Value(b: Bytes, name: Bytes): Parsed<Option<Bytes>> {
    match Validate(b)
    case Err(e) => Err(e)
    case Ok(a) => ValueFrom(a, 0, Segments(name), name)
  }

  method ReadValue(b: Bytes, name: Bytes) returns (r: Parsed<Option<Bytes>>)
    ensures r == Value(b, name)
  {
    var area := Validate(b);
    if area.Err? { return Err(area.error); }
    var a := area.value;
    var path := Segments(name);
    var current := 0;
    for i := 0 to |path|
      invariant ValueFrom(a, current, path[i..], name) == Value(b, name)
    {
      assert path[i..][0] == path[i] && path[i..][1..] == path[i + 1..];
      if path[i] == [] { return Err(Malformed); }
      var children := NodeWord(a, current, 16);
      if children.Err? { return Err(children.error); }
      if children.value == 0 { return Ok(None); }
      var node := FindAreaNode(a, children.value, path[i]);
      if node.Err? { return Err(node.error); }
      if node.value.None? { return Ok(None); }
      current := node.value.value;
    }
    assert path[|path|..] == [];
    var prop := NodeWord(a, current, 4);
    if prop.Err? { return Err(prop.error); }
    if prop.value == 0 { return Ok(None); }
    var value := ReadProp(a, prop.value, name);
    if value.Err? { return Err(value.error); }
    return Ok(Some(value.value));
  }

  // ---- Reading an area that represents a heap ----

  ghost predicate Shows(a: Area, h: Heap) {
    Linked(h, a.used) && Represents(a.bytes, h, a.used)
  }

  // One object with its extent inside the used part of the area.
  predicate Present(a: Area, n: nat, o: Obj) {
    && |a.bytes| == AREA_HEADER_BYTES + a.used && n + Extent(o) <= a.used
    && Holds(a.bytes, n, o) && Readable(o)
  }

  lemma FieldRead(a: Area, n: nat, o: Obj, f: Field)
    requires Present(a, n, o) && o.Node?
    ensures NodeWord(a, n, FieldOffset(f)) == Ok(Get(o, f))
  {
  }

  lemma TextRead(a: Area, offset: nat, text: Bytes)
    requires |a.bytes| == AREA_HEADER_BYTES + a.used && Utf8.WellFormed(text)
    requires TextAt(a.bytes, AREA_HEADER_BYTES + offset, text)
    ensures Text(a, offset, |text|) == Ok(text)
  {
    hide Utf8.WellFormed;
    var i := AREA_HEADER_BYTES + offset;
    assert a.bytes[i..i + |text|] == text;
    assert a.bytes[i + |text|..i + |text| + 1] == [0];
  }

  lemma NodeNameRead(a: Area, n: nat, o: Obj)
    requires Present(a, n, o) && o.Node?
    ensures NodeName(a, n) == Ok(o.name)
  {
    assert NodeWord(a, n, 0) == Ok(|o.name|);
    TextRead(a, n + TRIE_NODE_BYTES, o.name);
  }

  lemma CStringRead(a: Area, offset: nat, text: Bytes, max: nat)
    requires |a.bytes| == AREA_HEADER_BYTES + a.used && Utf8.WellFormed(text)
    requires TextAt(a.bytes, AREA_HEADER_BYTES + offset, text) && 0 !in text && |text| <= max
    ensures CString(a, offset, max) == Ok(text)
  {
    hide FirstNul, Utf8.WellFormed;
    var tail := a.bytes[AREA_HEADER_BYTES + offset..AREA_HEADER_BYTES + a.used];
    assert tail[..|text|] == text;
    FirstNulAfter(tail, text, max + 1);
  }

  lemma FirstNulAfter(tail: Bytes, text: Bytes, limit: nat)
    requires |text| < |tail| && |text| < limit && tail[..|text|] == text
    requires tail[|text|] == 0 && 0 !in text
    ensures FirstNul(tail, limit) == Some(|text|)
  {
    hide FirstNul;
    assert forall i | 0 <= i < |text| :: tail[i] == text[i] && text[i] in text;
  }

  lemma ReadPropRead(a: Area, p: nat, o: Obj)
    requires Present(a, p, o) && o.Prop?
    ensures ReadProp(a, p, o.name) == Ok(o.value)
  {
    hide CString, Text, Utf8.WellFormed;
    CStringRead(a, p + PROP_INFO_BYTES, o.name, MAX_NAME_BYTES);
    TextRead(a, p + 4, o.value);
    var serial := |o.value| * 0x100_0000;
    assert serial / LONG_FLAG == |o.value| * 0x100;
    assert serial / LONG_FLAG % 2 == 0;
    assert serial / 0x100_0000 == |o.value|;
  }

  lemma PropRead(a: Area, h: Heap, p: nat)
    requires Shows(a, h) && p in h && h[p].Prop?
    ensures ReadProp(a, p, h[p].name) == Ok(h[p].value)
  {
    assert Present(a, p, h[p]);
    ReadPropRead(a, p, h[p]);
  }

  lemma NodeRead(a: Area, h: Heap, n: nat)
    requires Shows(a, h) && IsNode(h, n)
    ensures LinkedNode(h, n) && NodeName(a, n) == Ok(h[n].name)
    ensures NodeWord(a, n, 4) == Ok(h[n].prop)
    ensures NodeWord(a, n, 8) == Ok(h[n].left)
    ensures NodeWord(a, n, 12) == Ok(h[n].right)
    ensures NodeWord(a, n, 16) == Ok(h[n].children)
  {
    assert LinkedNode(h, n);
    assert Present(a, n, h[n]);
    NodeNameRead(a, n, h[n]);
    FieldRead(a, n, h[n], PropField);
    FieldRead(a, n, h[n], LeftField);
    FieldRead(a, n, h[n], RightField);
    FieldRead(a, n, h[n], ChildrenField);
  }

  lemma LinkSkipsNode(a: Area, h: Heap, n: nat, next: nat)
    requires Shows(a, h) && IsNode(h, n) && IsNode(h, next) && n < next
    ensures n + TRIE_NODE_BYTES <= next && next < a.used
  {
    assert n + Extent(h[n]) <= next;
  }

  // The byte-level search finds what the linked search finds, and the visit cap never stops it:
  // links only lead forward, over at least one whole node at a time.
  lemma {:induction false} FindRead(a: Area, h: Heap, n: nat, s: Bytes, visits: nat)
    requires Shows(a, h) && (n != 0 ==> IsNode(h, n) && visits * TRIE_NODE_BYTES <= n)
    ensures FindFrom(a, n, s, visits) ==
            Ok(var r := Find(h, a.used, n, s); if r == 0 then None else Some(r))
    decreases a.used - n
  {
    hide NodeName, NodeWord, Represents, Linked, CompareNode;
    if n != 0 {
      NodeRead(a, h, n);
      NodeLinked(h, a.used, n);
      var o := CompareNode(s, h[n].name);
      if o != Equal {
        var next := Get(h[n], Side(o));
        if next != 0 {
          LinkSkipsNode(a, h, n, next);
          FindRead(a, h, next, s, visits + 1);
        }
      }
    }
  }

  lemma PropNamed(t: Trie, n: nat)
    requires Valid(t) && IsNode(t.heap, n) && LinkedNode(t.heap, n) && t.heap[n].prop != 0
    ensures PlacedNode(t.heap, t.up, n)
    ensures Segments(t.heap[t.heap[n].prop].name) == Path(t.heap, t.up, n)
  {
  }

  lemma {:induction false} ValueRead(a: Area, t: Trie, p: nat, path: seq<Bytes>, name: Bytes)
    requires Shows(a, t.heap) && a.used == t.used && Valid(t) && IsNode(t.heap, p)
    requires forall i | 0 <= i < |path| :: path[i] != []
    requires var r := Walk(t.heap, t.used, p, path);
             r.Some? ==> PlacedNode(t.heap, t.up, r.value) && Path(t.heap, t.up, r.value) == Segments(name)
    ensures ValueFrom(a, p, path, name) ==
            Ok(match Walk(t.heap, t.used, p, path)
               case None => None
               case Some(n) => assert LinkedNode(t.heap, n); ValueAt(t.heap, n))
    decreases |path|
  {
    hide NodeWord, ReadProp, FindFrom, Represents, Valid, Sound, Placed, Linked, PlacedNode;
    NodeRead(a, t.heap, p);
    if path == [] {
      var q := t.heap[p].prop;
      if q != 0 {
        PropNamed(t, p);
        SegmentsDetermineName(t.heap[q].name, name);
        PropRead(a, t.heap, q);
      }
    } else {
      FindRead(a, t.heap, t.heap[p].children, path[0], 0);
      var n := Child(t.heap, t.used, p, path[0]);
      if n != 0 { ValueRead(a, t, n, path[1..], name); }
    }
  }
}
