// The index that says in which area a property lies: a trie with sorted children, prefix rules
// and exact entries. The reader is total on every byte sequence.
module PropertyInfo {
  import opened Common
  import opened ByteOrder
  import opened PropertyTrie
  import opened PropertyBytes
  import opened PropertyParser
  import opened PropertyRules
  import Utf8

  const INFO_HEADER_BYTES: nat := 24
  const INFO_NODE_BYTES: nat := 28
  const ENTRY_BYTES: nat := 16
  const MAX_CONTEXT_BYTES: nat := 96
  const MAX_DEPTH: nat := 32

  // ---- Checked reads ----

  function ArrayOffset(b: Bytes, table: nat, index: nat): Parsed<nat> { Word(b, table + 4 * index) }

  predicate ArrayFits(b: Bytes, table: nat, count: nat) { table + 4 * count <= |b| }

  function ZeroTerminated(b: Bytes, offset: nat, max: nat): Parsed<Bytes> {
    if offset > |b| then Err(Malformed)
    else
      var tail := b[offset..];
      match FirstNul(tail, max + 1)
      case None => Err(Malformed)
      case Some(end) => if Utf8.WellFormed(tail[..end]) then Ok(tail[..end]) else Err(Malformed)
  }

  // The header has been checked.
  datatype Info = Info(bytes: Bytes, contexts: nat, root: nat)

  predicate OffsetArrayFits(b: Bytes, offset: nat) {
    offset + 4 <= |b| && ArrayFits(b, offset + 4, WordAt(b, offset))
  }

  function NewInfo(b: Bytes): Parsed<Info> {
    if |b| < INFO_HEADER_BYTES then Err(Malformed)
    else if WordAt(b, 0) != 1 || WordAt(b, 4) != 1 then Err(Unsupported)
    else if WordAt(b, 8) != |b| then Err(Malformed)
    else
      var (contexts, types, root) := (WordAt(b, 12), WordAt(b, 16), WordAt(b, 20));
      if OffsetArrayFits(b, contexts) && OffsetArrayFits(b, types) && root + INFO_NODE_BYTES <= |b|
      then Ok(Info(b, contexts, root))
      else Err(Malformed)
  }

  function NodeEntry(b: Bytes, node: nat): Parsed<nat> {
    if node + INFO_NODE_BYTES > |b| then Err(Malformed)
    else
      var entry := WordAt(b, node);
      if entry + ENTRY_BYTES <= |b| then Ok(entry) else Err(Malformed)
  }

  function EntryName(b: Bytes, entry: nat): Parsed<Bytes> {
    if entry + ENTRY_BYTES > |b| then Err(Malformed)
    else
      var (offset, length) := (WordAt(b, entry), WordAt(b, entry + 4));
      if length > MAX_NAME_BYTES || offset + length + 1 > |b| || b[offset + length] != 0 then Err(Malformed)
      else
        var name := b[offset..offset + length];
        if Utf8.WellFormed(name) then Ok(name) else Err(Malformed)
  }

  function ContextText(i: Info, index: nat): Parsed<Option<Bytes>> {
    if index == NONE then Ok(None)
    else
      match Word(i.bytes, i.contexts)
      case Err(e) => Err(e)
      case Ok(count) =>
        if index >= count then Err(Malformed)
        else
          match ArrayOffset(i.bytes, i.contexts + 4, index)
          case Err(e) => Err(e)
          case Ok(offset) =>
            match ZeroTerminated(i.bytes, offset, MAX_CONTEXT_BYTES)
            case Err(e) => Err(e)
            case Ok(text) => Ok(Some(text))
  }

  // ---- Searching the children of a node ----

  function ChildName(b: Bytes, child: nat): Parsed<Bytes> {
    match NodeEntry(b, child)
    case Err(e) => Err(e)
    case Ok(entry) => EntryName(b, entry)
  }

  // Binary search among the children from `bottom` to `top`.
  function Search(b: Bytes, table: nat, bottom: nat, top: nat, segment: Bytes): Parsed<Option<nat>>
    decreases top - bottom
  {
    if bottom >= top then Ok(None)
    else
      var index := bottom + (top - bottom) / 2;
      match ArrayOffset(b, table, index)
      case Err(e) => Err(e)
      case Ok(child) =>
        match ChildName(b, child)
        case Err(e) => Err(e)
        case Ok(name) =>
          if name == segment then Ok(Some(child))
          else if Less(name, segment) then Search(b, table, index + 1, top, segment)
          else Search(b, table, bottom, index, segment)
  }

  function ChildOf(b: Bytes, node: nat, segment: Bytes): Parsed<Option<nat>> {
    match (Word(b, node + 4), Word(b, node + 8))
    case (Ok(count), Ok(table)) =>
      if ArrayFits(b, table, count) then Search(b, table, 0, count, segment) else Err(Malformed)
    case _ => Err(Malformed)
  }

  method FindChild(b: Bytes, node: nat, segment: Bytes) returns (r: Parsed<Option<nat>>)
    ensures r == ChildOf(b, node, segment)
  {
    hide Less, ChildName, Word, ArrayOffset;
    var count, table := Word(b, node + 4), Word(b, node + 8);
    if count.Err? || table.Err? || !ArrayFits(b, table.value, count.value) { return Err(Malformed); }
    var bottom, top := 0, count.value;
    while bottom < top
      invariant 0 <= bottom <= top
      invariant ChildOf(b, node, segment) == Search(b, table.value, bottom, top, segment)
      decreases top - bottom
    {
      var index := bottom + (top - bottom) / 2;
      var child := ArrayOffset(b, table.value, index);
      if child.Err? { return Err(child.error); }
      var name := ChildName(b, child.value);
      if name.Err? { return Err(name.error); }
      if name.value == segment { return Ok(Some(child.value)); }
      if Less(name.value, segment) { bottom := index + 1; } else { top := index; }
    }
    return Ok(None);
  }

  // The children an table shows: where each lies and what it is called.
  datatype Child = Child(at: nat, name: Bytes)

  ghost predicate ShowsChildren(b: Bytes, table: nat, cs: seq<Child>) {
    forall i | 0 <= i < |cs| ::
      ArrayOffset(b, table, i) == Ok(cs[i].at) && ChildName(b, cs[i].at) == Ok(cs[i].name)
  }

  predicate Ascending(cs: seq<Child>) { forall i, j | 0 <= i < j < |cs| :: Less(cs[i].name, cs[j].name) }

  // The child of that name, by looking at all of them.
  function Lookup(cs: seq<Child>, segment: Bytes): (r: Option<nat>)
    ensures r.None? ==> forall i | 0 <= i < |cs| :: cs[i].name != segment
    ensures r.Some? ==> exists i | 0 <= i < |cs| :: cs[i].name == segment && cs[i].at == r.value
  {
    if cs == [] then None
    else if cs[0].name == segment then Some(cs[0].at)
    else
      var r := Lookup(cs[1..], segment);
      assert forall i | 1 <= i < |cs| :: cs[i] == cs[1..][i - 1];
      r
  }

  // On sorted children the binary search finds what a look at all of them finds.
  lemma {:induction false} SearchFinds(
      b: Bytes, table: nat, cs: seq<Child>, bottom: nat, top: nat, segment: Bytes)
    requires ShowsChildren(b, table, cs) && Ascending(cs) && bottom <= top <= |cs|
    requires forall i | 0 <= i < |cs| && cs[i].name == segment :: bottom <= i < top
    ensures Search(b, table, bottom, top, segment) == Ok(Lookup(cs, segment))
    decreases top - bottom
  {
    hide ArrayOffset, ChildName, Less;
    if bottom < top {
      var index := bottom + (top - bottom) / 2;
      var name := cs[index].name;
      if name == segment {
        OnlyOne(cs, index, segment);
      } else if Less(name, segment) {
        forall i | 0 <= i < |cs| && cs[i].name == segment ensures index + 1 <= i { NotBefore(cs, index, i, segment); }
        SearchFinds(b, table, cs, index + 1, top, segment);
      } else {
        LessTotal(name, segment);
        forall i | 0 <= i < |cs| && cs[i].name == segment ensures i < index { NotAfter(cs, index, i, segment); }
        SearchFinds(b, table, cs, bottom, index, segment);
      }
    }
  }

  lemma OnlyOne(cs: seq<Child>, index: nat, segment: Bytes)
    requires Ascending(cs) && index < |cs| && cs[index].name == segment
    ensures Lookup(cs, segment) == Some(cs[index].at)
  {
    hide Less;
    var i :| 0 <= i < |cs| && cs[i].name == segment && cs[i].at == Lookup(cs, segment).value;
    LessIrreflexive(segment);
  }

  lemma NotBefore(cs: seq<Child>, index: nat, i: nat, segment: Bytes)
    requires Ascending(cs) && index < |cs| && i < |cs| && cs[i].name == segment && Less(cs[index].name, segment)
    ensures index < i
  {
    hide Less;
    LessTotal(cs[index].name, segment);
    LessIrreflexive(segment);
  }

  lemma NotAfter(cs: seq<Child>, index: nat, i: nat, segment: Bytes)
    requires Ascending(cs) && index < |cs| && i < |cs| && cs[i].name == segment && Less(segment, cs[index].name)
    ensures i < index
  {
    hide Less;
    LessTotal(cs[index].name, segment);
    LessIrreflexive(segment);
  }

  // ---- Resolving a name ----

  // The first entry from `from` on whose name the rest starts with.
  function PrefixFrom(b: Bytes, table: nat, count: nat, from: nat, rest: Bytes, inherited: nat): Parsed<nat>
    decreases count - from
  {
    if from >= count then Ok(inherited)
    else
      match ArrayOffset(b, table, from)
      case Err(e) => Err(e)
      case Ok(entry) =>
        match EntryName(b, entry)
        case Err(e) => Err(e)
        case Ok(name) =>
          if name <= rest then Ok(Or(WordAt(b, entry + 8), inherited))
          else PrefixFrom(b, table, count, from + 1, rest, inherited)
  }

  function CheckPrefixes(b: Bytes, node: nat, rest: Bytes, inherited: nat): Parsed<nat> {
    match (Word(b, node + 12), Word(b, node + 16))
    case (Ok(count), Ok(table)) =>
      if ArrayFits(b, table, count) then PrefixFrom(b, table, count, 0, rest, inherited) else Err(Malformed)
    case _ => Err(Malformed)
  }

  // The context of the first entry from `from` on whose name is the rest.
  function ExactFrom(b: Bytes, table: nat, count: nat, from: nat, rest: Bytes): Parsed<Option<nat>>
    decreases count - from
  {
    if from >= count then Ok(None)
    else
      match ArrayOffset(b, table, from)
      case Err(e) => Err(e)
      case Ok(entry) =>
        match EntryName(b, entry)
        case Err(e) => Err(e)
        case Ok(name) =>
          if name == rest then Ok(Some(WordAt(b, entry + 8)))
          else ExactFrom(b, table, count, from + 1, rest)
  }

  function CheckExact(b: Bytes, node: nat, rest: Bytes): Parsed<Option<nat>> {
    match (Word(b, node + 20), Word(b, node + 24))
    case (Ok(count), Ok(table)) =>
      if ArrayFits(b, table, count) then ExactFrom(b, table, count, 0, rest) else Err(Malformed)
    case _ => Err(Malformed)
  }

  // What the last node says. Its prefix rules are looked at a second time.
  function Ending(i: Info, node: nat, rest: Bytes, inherited: nat): Parsed<Option<Bytes>> {
    match CheckExact(i.bytes, node, rest)
    case Err(e) => Err(e)
    case Ok(Some(context)) => ContextText(i, Or(context, inherited))
    case Ok(None) =>
      match CheckPrefixes(i.bytes, node, rest, inherited)
      case Err(e) => Err(e)
      case Ok(context) => ContextText(i, context)
  }

  // What a node hands on to its branches.
  function HandOn(b: Bytes, node: nat, rest: Bytes, inherited: nat): Parsed<nat> {
    match NodeEntry(b, node)
    case Err(e) => Err(e)
    case Ok(entry) => CheckPrefixes(b, node, rest, Or(WordAt(b, entry + 8), inherited))
  }

  // The branch to go on to, if any.
  function GoOn(b: Bytes, node: nat, rest: Bytes): Parsed<Option<nat>> {
    match FirstDot(rest)
    case None => Ok(None)
    case Some(dot) => ChildOf(b, node, rest[..dot])
  }

  function ContextFrom(i: Info, node: nat, rest: Bytes, inherited: nat, depth: nat): Parsed<Option<Bytes>>
    decreases MAX_DEPTH - depth
  {
    if depth >= MAX_DEPTH then Err(Malformed)
    else
      match HandOn(i.bytes, node, rest, inherited)
      case Err(e) => Err(e)
      case Ok(here) =>
        match GoOn(i.bytes, node, rest)
        case Err(e) => Err(e)
        case Ok(None) => Ending(i, node, rest, here)
        case Ok(Some(child)) =>
          if FirstDot(rest).None? then Ending(i, node, rest, here)
          else ContextFrom(i, child, After(rest), here, depth + 1)
  }

  method ContextFor(i: Info, name: Bytes) returns (r: Parsed<Option<Bytes>>)
    ensures r == ContextFrom(i, i.root, name, NONE, 0)
  {
    hide HandOn, Ending, FirstDot, ChildOf;
    var inherited, rest, node, depth := NONE, name, i.root, 0;
    while true
      invariant 0 <= depth <= MAX_DEPTH
      invariant ContextFrom(i, i.root, name, NONE, 0) == ContextFrom(i, node, rest, inherited, depth)
      decreases MAX_DEPTH - depth
    {
      if depth + 1 > MAX_DEPTH { return Err(Malformed); }
      var here := HandOn(i.bytes, node, rest, inherited);
      if here.Err? { return Err(here.error); }
      inherited := here.value;
      var dot := FirstDot(rest);
      if dot.None? { return Ending(i, node, rest, inherited); }
      var child := FindChild(i.bytes, node, rest[..dot.value]);
      if child.Err? { return Err(child.error); }
      if child.value.None? { return Ending(i, node, rest, inherited); }
      node, rest, depth := child.value.value, After(rest), depth + 1;
    }
  }

  // ---- Bytes that show a trie of rules ----

  predicate EntryAt(b: Bytes, table: nat, i: nat, e: Entry) {
    && table + 4 * i + 4 <= |b|
    && var at := WordAt(b, table + 4 * i);
       at + ENTRY_BYTES <= |b| && EntryName(b, at) == Ok(e.name) && WordAt(b, at + 8) == e.context
  }

  ghost predicate EntriesAt(b: Bytes, table: nat, es: seq<Entry>) {
    ArrayFits(b, table, |es|) && forall i | 0 <= i < |es| :: EntryAt(b, table, i, es[i])
  }

  ghost predicate ShowsTrie(b: Bytes, at: nat, n: Node)
    decreases n, 2
  {
    && at + INFO_NODE_BYTES <= |b|
    && WordAt(b, at) + ENTRY_BYTES <= |b| && WordAt(b, WordAt(b, at) + 8) == n.context
    && WordAt(b, at + 12) == |n.prefixes| && EntriesAt(b, WordAt(b, at + 16), n.prefixes)
    && WordAt(b, at + 20) == |n.exact| && EntriesAt(b, WordAt(b, at + 24), n.exact)
    && WordAt(b, at + 4) == |n.branches| && BranchesAt(b, WordAt(b, at + 8), n)
  }

  ghost predicate BranchesAt(b: Bytes, table: nat, n: Node)
    decreases n, 1
  {
    ArrayFits(b, table, |n.branches|) && forall i | 0 <= i < |n.branches| :: BranchAt(b, table, n, i)
  }

  ghost predicate BranchAt(b: Bytes, table: nat, n: Node, i: nat)
    requires i < |n.branches|
    decreases n, 0
  {
    && table + 4 * i + 4 <= |b|
    && var child := WordAt(b, table + 4 * i);
       ChildName(b, child) == Ok(n.branches[i].name) && ShowsTrie(b, child, n.branches[i].node)
  }

  // Branches are sorted by name at every node.
  predicate SortedTrie(n: Node)
    decreases n
  {
    && (forall i, j | 0 <= i < j < |n.branches| :: Less(n.branches[i].name, n.branches[j].name))
    && forall i | 0 <= i < |n.branches| :: SortedTrie(n.branches[i].node)
  }

  lemma {:induction false} PrefixesRead(
      b: Bytes, table: nat, es: seq<Entry>, from: nat, rest: Bytes, inherited: nat)
    requires EntriesAt(b, table, es) && from <= |es|
    ensures PrefixFrom(b, table, |es|, from, rest, inherited) ==
            Ok(match FirstMatch(es, rest, from)
               case None => inherited
               case Some(i) => Or(es[i].context, inherited))
    decreases |es| - from
  {
    hide EntryName, WordAt;
    if from < |es| {
      assert EntryAt(b, table, from, es[from]);
      PrefixesRead(b, table, es, from + 1, rest, inherited);
    }
  }

  lemma {:induction false} ExactRead(b: Bytes, table: nat, es: seq<Entry>, from: nat, rest: Bytes)
    requires EntriesAt(b, table, es) && from <= |es|
    ensures ExactFrom(b, table, |es|, from, rest) == Ok(ByName(es[from..], rest))
    decreases |es| - from
  {
    hide EntryName, WordAt;
    if from < |es| {
      assert EntryAt(b, table, from, es[from]);
      ExactRead(b, table, es, from + 1, rest);
      assert es[from..][0] == es[from] && es[from..][1..] == es[from + 1..];
    }
  }

  ghost function Listed(b: Bytes, table: nat, n: Node): (cs: seq<Child>)
    requires BranchesAt(b, table, n)
    ensures |cs| == |n.branches|
    ensures forall i | 0 <= i < |cs| ::
              BranchAt(b, table, n, i) && cs[i] == Child(WordAt(b, table + 4 * i), n.branches[i].name)
  {
    seq(|n.branches|, i requires 0 <= i < |n.branches| && BranchAt(b, table, n, i) =>
      Child(WordAt(b, table + 4 * i), n.branches[i].name))
  }

  lemma ListedShown(b: Bytes, table: nat, n: Node)
    requires BranchesAt(b, table, n) && SortedTrie(n)
    ensures ShowsChildren(b, table, Listed(b, table, n)) && Ascending(Listed(b, table, n))
  {
    hide WordAt, ChildName, Less, ShowsTrie;
  }

  // Binary search in the bytes finds the branch of that name.
  lemma BranchRead(b: Bytes, table: nat, n: Node, segment: Bytes)
    requires BranchesAt(b, table, n) && SortedTrie(n)
    ensures var i := BranchOf(n.branches, segment);
            && (i.None? ==> Search(b, table, 0, |n.branches|, segment) == Ok(None))
            && (i.Some? ==>
                  && BranchAt(b, table, n, i.value)
                  && Search(b, table, 0, |n.branches|, segment) == Ok(Some(WordAt(b, table + 4 * i.value))))
  {
    hide WordAt, ChildName, Less, ShowsTrie, SortedTrie, ShowsChildren, Ascending, Search;
    var cs := Listed(b, table, n);
    ListedShown(b, table, n);
    SearchFinds(b, table, cs, 0, |cs|, segment);
    match BranchOf(n.branches, segment)
    case None =>
    case Some(i) => OnlyOne(cs, i, segment);
  }

  lemma HandOnRead(b: Bytes, at: nat, n: Node, rest: Bytes, inherited: nat)
    requires ShowsTrie(b, at, n)
    ensures HandOn(b, at, rest, inherited) == Ok(Here(n, rest, inherited))
    ensures CheckPrefixes(b, at, rest, Here(n, rest, inherited)) == Ok(Here(n, rest, inherited))
    ensures CheckExact(b, at, rest) == Ok(ByName(n.exact, rest))
  {
    hide WordAt, EntriesAt, BranchesAt;
    var (first, here) := (Or(n.context, inherited), Here(n, rest, inherited));
    assert EntriesAt(b, WordAt(b, at + 16), n.prefixes) && EntriesAt(b, WordAt(b, at + 24), n.exact);
    EntriesFit(b, WordAt(b, at + 16), n.prefixes);
    EntriesFit(b, WordAt(b, at + 24), n.exact);
    PrefixesRead(b, WordAt(b, at + 16), n.prefixes, 0, rest, first);
    PrefixesRead(b, WordAt(b, at + 16), n.prefixes, 0, rest, here);
    ExactRead(b, WordAt(b, at + 24), n.exact, 0, rest);
    assert n.exact[0..] == n.exact;
  }

  lemma EntriesFit(b: Bytes, table: nat, es: seq<Entry>)
    requires EntriesAt(b, table, es)
    ensures ArrayFits(b, table, |es|)
  {
  }

  lemma GoOnRead(b: Bytes, at: nat, n: Node, rest: Bytes)
    requires ShowsTrie(b, at, n) && SortedTrie(n)
    ensures var i := Next(n, rest);
            && (i.None? ==> GoOn(b, at, rest) == Ok(None))
            && (i.Some? ==>
                  && FirstDot(rest).Some? && SortedTrie(n.branches[i.value].node)
                  && GoOn(b, at, rest).Ok? && GoOn(b, at, rest).value.Some?
                  && ShowsTrie(b, GoOn(b, at, rest).value.value, n.branches[i.value].node))
  {
    hide WordAt, ShowsTrie, Search, BranchesAt, BranchOf, SortedTrie, FirstDot, ChildName;
    ShowsBranches(b, at, n);
    if FirstDot(rest).Some? {
      var segment := rest[..FirstDot(rest).value];
      BranchRead(b, WordAt(b, at + 8), n, segment);
      match BranchOf(n.branches, segment)
      case None =>
      case Some(i) => SortedBelow(n, i);
    }
  }

  lemma ShowsBranches(b: Bytes, at: nat, n: Node)
    requires ShowsTrie(b, at, n)
    ensures at + INFO_NODE_BYTES <= |b| && WordAt(b, at + 4) == |n.branches|
    ensures BranchesAt(b, WordAt(b, at + 8), n) && ArrayFits(b, WordAt(b, at + 8), |n.branches|)
  {
  }

  lemma SortedBelow(n: Node, i: nat)
    requires SortedTrie(n) && i < |n.branches|
    ensures SortedTrie(n.branches[i].node)
  {
  }

  // Reading the index gives the context of the rule that applies, unless the walk is deeper
  // than the reader allows.
  lemma {:induction false} InfoAgrees(i: Info, at: nat, n: Node, rest: Bytes, inherited: nat, depth: nat)
    requires ShowsTrie(i.bytes, at, n) && SortedTrie(n) && depth <= MAX_DEPTH
    ensures ContextFrom(i, at, rest, inherited, depth) ==
            if depth + Visits(n, rest) <= MAX_DEPTH then ContextText(i, Resolve(n, rest, inherited))
            else Err(Malformed)
    decreases n
  {
    hide ShowsTrie, SortedTrie, HandOn, GoOn, ContextText, CheckExact, CheckPrefixes, Here, FirstDot, ByName;
    if depth < MAX_DEPTH {
      var here := Here(n, rest, inherited);
      HandOnRead(i.bytes, at, n, rest, inherited);
      GoOnRead(i.bytes, at, n, rest);
      match Next(n, rest)
      case None =>
      case Some(k) =>
        InfoAgrees(i, GoOn(i.bytes, at, rest).value.value, n.branches[k].node, After(rest), here, depth + 1);
    }
  }
}
