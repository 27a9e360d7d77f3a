// The writer of a flat property index: one context and a list of exact names.
module PropertyInfoBuilder {
  import opened Common
  import opened PropertyTrie
  import opened PropertyBytes
  import opened PropertyParser
  import opened PropertyRules
  import opened PropertyInfo
  import Utf8

  const CONTEXTS: nat := 24
  const CONTEXT_TEXT: nat := 32

  // ---- Words, texts and what leaves them alone ----

  function Patched(b: Bytes, at: nat, v: nat): (r: Bytes)
    requires at + 4 <= |b| && v <= U32_MAX
    ensures |r| == |b|
  {
    Overwritten(b, at, WordBytes(v))
  }

  // The two agree on the positions from `lo` to `hi`.
  predicate Agree(b: Bytes, b': Bytes, lo: nat, hi: nat) {
    lo <= hi <= |b| && hi <= |b'| && forall i | lo <= i < hi :: b'[i] == b[i]
  }

  lemma PatchedWord(b: Bytes, at: nat, v: nat)
    requires at + 4 <= |b| && v <= U32_MAX
    ensures WordAt(Patched(b, at, v), at) == v
    ensures Agree(b, Patched(b, at, v), 0, at) && Agree(b, Patched(b, at, v), at + 4, |b|)
  {
    hide WordAt, WordBytes;
    WordRead(Patched(b, at, v), at, v);
  }

  lemma AppendedAgrees(b: Bytes, tail: Bytes)
    ensures Agree(b, b + tail, 0, |b|)
  {
  }

  lemma AgreeThen(b: Bytes, b': Bytes, b'': Bytes, lo: nat, hi: nat, lo': nat, hi': nat)
    requires Agree(b, b', lo, hi) && Agree(b', b'', lo', hi') && lo' <= lo && hi <= hi'
    ensures Agree(b, b'', lo, hi)
  {
  }

  lemma WordKept(b: Bytes, b': Bytes, lo: nat, hi: nat, at: nat)
    requires Agree(b, b', lo, hi) && lo <= at && at + 4 <= hi
    ensures WordAt(b', at) == WordAt(b, at)
  {
    WordFrame(b, b', at);
  }

  lemma PushedWord(b: Bytes, v: nat)
    requires v <= U32_MAX
    ensures WordAt(b + WordBytes(v), |b|) == v
  {
    hide WordAt, WordBytes;
    WordRead(b + WordBytes(v), |b|, v);
  }

  lemma TextKept(b: Bytes, b': Bytes, lo: nat, hi: nat, at: nat, text: Bytes)
    requires Agree(b, b', lo, hi) && lo <= at && at + |text| + 1 <= hi && TextAt(b, at, text)
    ensures TextAt(b', at, text)
  {
  }

  lemma PushedText(b: Bytes, text: Bytes, tail: Bytes)
    ensures TextAt(b + (text + [0]) + tail, |b|, text)
  {
    var b' := b + (text + [0]) + tail;
    assert forall k | 0 <= k < |text| :: b'[|b| + k] == text[k];
    assert b'[|b| + |text|] == 0;
  }

  // ---- Entries ----

  function EntrySize(name: Bytes): nat { Aligned(ENTRY_BYTES + |name| + 1) }

  predicate EntryHolds(b: Bytes, e: nat, name: Bytes) {
    && e + ENTRY_BYTES + |name| + 1 <= |b|
    && WordAt(b, e) == e + ENTRY_BYTES && WordAt(b, e + 4) == |name| && WordAt(b, e + 8) == 0
    && TextAt(b, e + ENTRY_BYTES, name)
  }

  lemma EntryKept(b: Bytes, b': Bytes, lo: nat, hi: nat, e: nat, name: Bytes)
    requires EntryHolds(b, e, name) && Agree(b, b', lo, hi) && lo <= e && e + ENTRY_BYTES + |name| + 1 <= hi
    ensures EntryHolds(b', e, name)
  {
    hide WordAt, Agree;
    AgreeBounds(b, b', lo, hi);
    WordKept(b, b', lo, hi, e);
    WordKept(b, b', lo, hi, e + 4);
    WordKept(b, b', lo, hi, e + 8);
    TextKept(b, b', lo, hi, e + ENTRY_BYTES, name);
  }

  lemma AgreeBounds(b: Bytes, b': Bytes, lo: nat, hi: nat)
    requires Agree(b, b', lo, hi)
    ensures lo <= hi <= |b| && hi <= |b'|
  {
  }

  lemma EntryReads(b: Bytes, e: nat, name: Bytes)
    requires EntryHolds(b, e, name) && |name| <= MAX_NAME_BYTES && Utf8.WellFormed(name)
    ensures EntryName(b, e) == Ok(name) && WordAt(b, e + 8) == 0
  {
    hide WordAt;
    var at := e + ENTRY_BYTES;
    assert b[at..at + |name|] == name;
  }

  // Appends an entry: zeros, the name with its NUL, padding, then the words. The fourth word,
  // the type, is zero from the start.
  function WithEntry(b: Bytes, name: Bytes): (r: Bytes)
    requires |b| + ENTRY_BYTES <= U32_MAX && |name| <= U32_MAX
    ensures |r| == |b| + EntrySize(name)
  {
    var pad := EntrySize(name) - ENTRY_BYTES - |name| - 1;
    var b1 := b + Zeros(ENTRY_BYTES) + (name + [0]) + Zeros(pad);
    Patched(Patched(Patched(b1, |b|, |b| + ENTRY_BYTES), |b| + 4, |name|), |b| + 8, 0)
  }

  lemma EntryWritten(b: Bytes, name: Bytes)
    requires |b| + ENTRY_BYTES <= U32_MAX && |name| <= U32_MAX
    ensures EntryHolds(WithEntry(b, name), |b|, name)
    ensures Agree(b, WithEntry(b, name), 0, |b|)
  {
    hide WordAt, WordBytes, Overwritten, TextAt, Aligned, Agree, Zeros;
    var (e, pad) := (|b|, EntrySize(name) - ENTRY_BYTES - |name| - 1);
    var b0 := b + Zeros(ENTRY_BYTES);
    var b1 := b0 + (name + [0]) + Zeros(pad);
    PushedText(b0, name, Zeros(pad));
    assert b1 == b + (Zeros(ENTRY_BYTES) + (name + [0]) + Zeros(pad));
    AppendedAgrees(b, Zeros(ENTRY_BYTES) + (name + [0]) + Zeros(pad));
    var b2 := Patched(b1, e, e + ENTRY_BYTES);
    var b3 := Patched(b2, e + 4, |name|);
    var b4 := Patched(b3, e + 8, 0);
    PatchedWord(b1, e, e + ENTRY_BYTES);
    PatchedWord(b2, e + 4, |name|);
    PatchedWord(b3, e + 8, 0);
    AgreeThen(b, b1, b2, 0, e, 0, e);
    AgreeThen(b, b2, b3, 0, e, 0, e + 4);
    AgreeThen(b, b3, b4, 0, e, 0, e + 8);
    WordKept(b2, b3, 0, e + 4, e);
    WordKept(b3, b4, 0, e + 8, e);
    WordKept(b3, b4, 0, e + 8, e + 4);
    TextKept(b1, b2, e + 4, |b1|, e + ENTRY_BYTES, name);
    TextKept(b2, b3, e + 8, |b2|, e + ENTRY_BYTES, name);
    TextKept(b3, b4, e + 12, |b3|, e + ENTRY_BYTES, name);
  }

  // ---- The head: one context, one type, the root ----

  const TYPE_TEXT: Bytes := [115, 116, 114, 105, 110, 103, 0, 0]

  function TypesAt(context: Bytes): nat { CONTEXT_TEXT + Aligned(|context| + 1) }

  function RootAt(context: Bytes): nat { TypesAt(context) + 16 }

  function HeadSize(context: Bytes): nat { RootAt(context) + INFO_NODE_BYTES + ENTRY_BYTES + 4 }

  predicate HeadHolds(b: Bytes, context: Bytes) {
    var (types, root) := (TypesAt(context), RootAt(context));
    && HeadSize(context) <= |b|
    && WordAt(b, CONTEXTS) == 1 && WordAt(b, CONTEXTS + 4) == CONTEXT_TEXT && TextAt(b, CONTEXT_TEXT, context)
    && WordAt(b, types) == 1
    && WordAt(b, root + 4) == 0 && WordAt(b, root + 8) == 0
    && WordAt(b, root + 12) == 0 && WordAt(b, root + 16) == 0
    && WordAt(b, root + INFO_NODE_BYTES + 8) == NONE
  }

  // The context list with its text.
  function ContextBlock(context: Bytes): (r: Bytes)
    ensures |r| == TypesAt(context)
  {
    var b := Zeros(INFO_HEADER_BYTES) + WordBytes(1) + WordBytes(0)
             + (context + [0]) + Zeros(Aligned(|context| + 1) - |context| - 1);
    Patched(b, CONTEXTS + 4, CONTEXT_TEXT)
  }

  lemma ContextBlockHolds(context: Bytes)
    ensures var b := ContextBlock(context);
            WordAt(b, CONTEXTS) == 1 && WordAt(b, CONTEXTS + 4) == CONTEXT_TEXT && TextAt(b, CONTEXT_TEXT, context)
  {
    hide WordAt, WordBytes, Overwritten, TextAt, Aligned, Zeros;
    var pad := Aligned(|context| + 1) - |context| - 1;
    var b0 := Zeros(INFO_HEADER_BYTES);
    var b1 := b0 + WordBytes(1);
    var b2 := b1 + WordBytes(0);
    var b3 := b2 + (context + [0]) + Zeros(pad);
    PushedWord(b0, 1);
    PushedText(b2, context, Zeros(pad));
    assert Agree(b1, b3, 0, |b1|);
    WordKept(b1, b3, 0, |b1|, CONTEXTS);
    PatchedWord(b3, CONTEXTS + 4, CONTEXT_TEXT);
    WordKept(b3, Patched(b3, CONTEXTS + 4, CONTEXT_TEXT), 0, CONTEXTS + 4, CONTEXTS);
    TextKept(b3, Patched(b3, CONTEXTS + 4, CONTEXT_TEXT), CONTEXT_TEXT, |b3|, CONTEXT_TEXT, context);
  }

  function TypeBlock(b: Bytes): (r: Bytes)
    requires |b| + 8 <= U32_MAX
    ensures |r| == |b| + 16
  {
    Patched(b + WordBytes(1) + WordBytes(0) + TYPE_TEXT, |b| + 4, |b| + 8)
  }

  lemma TypeBlockHolds(b: Bytes)
    requires |b| + 8 <= U32_MAX
    ensures WordAt(TypeBlock(b), |b|) == 1 && Agree(b, TypeBlock(b), 0, |b|)
  {
    hide WordAt, WordBytes, Overwritten;
    var b1 := b + WordBytes(1);
    var b2 := b1 + WordBytes(0) + TYPE_TEXT;
    PushedWord(b, 1);
    assert Agree(b1, b2, 0, |b1|) && Agree(b, b2, 0, |b|);
    WordKept(b1, b2, 0, |b1|, |b|);
    PatchedWord(b2, |b| + 4, |b| + 8);
    WordKept(b2, TypeBlock(b), 0, |b| + 4, |b|);
  }

  // The root node, still empty, with its entry and the entry's empty name.
  function RootBlock(b: Bytes): (r: Bytes)
    requires |b| + INFO_NODE_BYTES + ENTRY_BYTES <= U32_MAX
    ensures |r| == |b| + INFO_NODE_BYTES + ENTRY_BYTES + 4
  {
    var entry := |b| + INFO_NODE_BYTES;
    var b1 := b + Zeros(INFO_NODE_BYTES + ENTRY_BYTES + 4);
    Patched(Patched(Patched(b1, entry, entry + ENTRY_BYTES), entry + 8, NONE), entry + 12, NONE)
  }

  lemma RootBlockHolds(b: Bytes)
    requires |b| + INFO_NODE_BYTES + ENTRY_BYTES <= U32_MAX
    ensures var (r, root) := (RootBlock(b), |b|);
            && Agree(b, r, 0, |b|) && WordAt(r, root + INFO_NODE_BYTES + 8) == NONE
            && WordAt(r, root + 4) == 0 && WordAt(r, root + 8) == 0
            && WordAt(r, root + 12) == 0 && WordAt(r, root + 16) == 0
  {
    hide WordAt, WordBytes, Overwritten;
    var (root, entry) := (|b|, |b| + INFO_NODE_BYTES);
    var b1 := b + Zeros(INFO_NODE_BYTES + ENTRY_BYTES + 4);
    var b2 := Patched(b1, entry, entry + ENTRY_BYTES);
    var b3 := Patched(b2, entry + 8, NONE);
    PatchedWord(b1, entry, entry + ENTRY_BYTES);
    PatchedWord(b2, entry + 8, NONE);
    PatchedWord(b3, entry + 12, NONE);
    WordKept(b3, RootBlock(b), 0, entry + 12, entry + 8);
    assert Agree(b1, RootBlock(b), 0, entry);
    ZeroWord(b1, RootBlock(b), entry, root, root + 4);
    ZeroWord(b1, RootBlock(b), entry, root, root + 8);
    ZeroWord(b1, RootBlock(b), entry, root, root + 12);
    ZeroWord(b1, RootBlock(b), entry, root, root + 16);
  }

  lemma ZeroWord(b: Bytes, b': Bytes, hi: nat, from: nat, at: nat)
    requires Agree(b, b', 0, hi) && from <= at && at + 4 <= hi && forall i | from <= i < hi :: b[i] == 0
    ensures WordAt(b', at) == 0
  {
    assert b'[at] == 0 && b'[at + 1] == 0 && b'[at + 2] == 0 && b'[at + 3] == 0;
  }

  function Head(context: Bytes): (r: Bytes)
    requires HeadSize(context) <= U32_MAX
    ensures |r| == HeadSize(context)
  {
    RootBlock(TypeBlock(ContextBlock(context)))
  }

  // Everything but the root's words and the header depends on these bytes only.
  lemma HeadKept(b: Bytes, b': Bytes, context: Bytes, lo: nat, hi: nat)
    requires HeadHolds(b, context) && Agree(b, b', lo, hi) && lo <= CONTEXTS && HeadSize(context) <= hi
    ensures HeadHolds(b', context)
  {
    hide WordAt, Agree, TextAt, Aligned;
    AgreeBounds(b, b', lo, hi);
    var (types, root) := (TypesAt(context), RootAt(context));
    WordKept(b, b', lo, hi, CONTEXTS);
    WordKept(b, b', lo, hi, CONTEXTS + 4);
    TextKept(b, b', lo, hi, CONTEXT_TEXT, context);
    WordKept(b, b', lo, hi, types);
    WordKept(b, b', lo, hi, root + 4);
    WordKept(b, b', lo, hi, root + 8);
    WordKept(b, b', lo, hi, root + 12);
    WordKept(b, b', lo, hi, root + 16);
    WordKept(b, b', lo, hi, root + INFO_NODE_BYTES + 8);
  }

  lemma HeadWritten(context: Bytes)
    requires HeadSize(context) <= U32_MAX
    ensures HeadHolds(Head(context), context)
  {
    hide WordAt, TextAt, Aligned, ContextBlock, TypeBlock, RootBlock, Agree;
    var b1 := ContextBlock(context);
    var b2 := TypeBlock(b1);
    var b3 := RootBlock(b2);
    ContextBlockHolds(context);
    TypeBlockHolds(b1);
    RootBlockHolds(b2);
    TextFits(b1, CONTEXT_TEXT, context);
    WordKept(b1, b2, 0, |b1|, CONTEXTS);
    WordKept(b1, b2, 0, |b1|, CONTEXTS + 4);
    TextKept(b1, b2, 0, |b1|, CONTEXT_TEXT, context);
    WordKept(b2, b3, 0, |b2|, CONTEXTS);
    WordKept(b2, b3, 0, |b2|, CONTEXTS + 4);
    TextKept(b2, b3, 0, |b2|, CONTEXT_TEXT, context);
    WordKept(b2, b3, 0, |b2|, |b1|);
  }

  lemma TextFits(b: Bytes, at: nat, text: Bytes)
    requires TextAt(b, at, text)
    ensures at + |text| + 1 <= |b|
  {
  }

  // ---- The finished index ----

  // The root's three words and the header.
  function Finished(b: Bytes, context: Bytes, count: nat, table: nat): (r: Bytes)
    requires HeadSize(context) <= |b| <= U32_MAX && count <= U32_MAX && table <= U32_MAX
    ensures |r| == |b|
  {
    var root := RootAt(context);
    var b1 := Patched(Patched(Patched(b, root, root + INFO_NODE_BYTES), root + 20, count), root + 24, table);
    var b2 := Patched(Patched(Patched(b1, 0, 1), 4, 1), 8, |b|);
    Patched(Patched(Patched(b2, 12, CONTEXTS), 16, TypesAt(context)), 20, root)
  }

  lemma RootFinished(b: Bytes, root: nat, count: nat, table: nat)
    requires root + INFO_NODE_BYTES <= |b| && root + INFO_NODE_BYTES <= U32_MAX && count <= U32_MAX && table <= U32_MAX
    ensures var r := Patched(Patched(Patched(b, root, root + INFO_NODE_BYTES), root + 20, count), root + 24, table);
            && WordAt(r, root) == root + INFO_NODE_BYTES
            && WordAt(r, root + 20) == count && WordAt(r, root + 24) == table
            && Agree(b, r, 0, root) && Agree(b, r, root + 4, root + 20) && Agree(b, r, root + 28, |b|)
  {
    hide WordAt, Agree, Patched;
    var b1 := Patched(b, root, root + INFO_NODE_BYTES);
    var b2 := Patched(b1, root + 20, count);
    var b3 := Patched(b2, root + 24, table);
    PatchedWord(b, root, root + INFO_NODE_BYTES);
    PatchedWord(b1, root + 20, count);
    PatchedWord(b2, root + 24, table);
    WordKept(b1, b2, 0, root + 20, root);
    WordKept(b2, b3, 0, root + 24, root);
    WordKept(b2, b3, 0, root + 24, root + 20);
    AgreeThen(b, b1, b2, 0, root, 0, root + 20);
    AgreeThen(b, b2, b3, 0, root, 0, root + 24);
    Narrowed(b, b1, root + 4, |b|, root + 4, root + 20);
    AgreeThen(b, b1, b2, root + 4, root + 20, 0, root + 20);
    AgreeThen(b, b2, b3, root + 4, root + 20, 0, root + 24);
    Narrowed(b, b1, root + 4, |b|, root + 28, |b|);
    AgreeThen(b, b1, b2, root + 28, |b|, root + 24, |b|);
    AgreeThen(b, b2, b3, root + 28, |b|, root + 28, |b|);
  }

  lemma Narrowed(b: Bytes, b': Bytes, lo: nat, hi: nat, lo': nat, hi': nat)
    requires Agree(b, b', lo, hi) && lo <= lo' <= hi' <= hi
    ensures Agree(b, b', lo', hi')
  {
  }

  // Six header words; everything behind them stays.
  lemma HeaderFinished(b: Bytes, size: nat, types: nat, root: nat)
    requires INFO_HEADER_BYTES <= |b| && size <= U32_MAX && types <= U32_MAX && root <= U32_MAX
    ensures var b3 := Patched(Patched(Patched(b, 0, 1), 4, 1), 8, size);
            var r := Patched(Patched(Patched(b3, 12, CONTEXTS), 16, types), 20, root);
            && WordAt(r, 0) == 1 && WordAt(r, 4) == 1 && WordAt(r, 8) == size
            && WordAt(r, 12) == CONTEXTS && WordAt(r, 16) == types && WordAt(r, 20) == root
            && Agree(b, r, INFO_HEADER_BYTES, |b|)
  {
    hide WordAt, Agree, Patched;
    var b1 := Patched(b, 0, 1);
    var b2 := Patched(b1, 4, 1);
    var b3 := Patched(b2, 8, size);
    var b4 := Patched(b3, 12, CONTEXTS);
    var b5 := Patched(b4, 16, types);
    var b6 := Patched(b5, 20, root);
    PatchedWord(b, 0, 1);
    PatchedWord(b1, 4, 1);
    PatchedWord(b2, 8, size);
    PatchedWord(b3, 12, CONTEXTS);
    PatchedWord(b4, 16, types);
    PatchedWord(b5, 20, root);
    WordKept(b1, b2, 0, 4, 0);
    WordKept(b2, b3, 0, 8, 0); WordKept(b2, b3, 0, 8, 4);
    WordKept(b3, b4, 0, 12, 0); WordKept(b3, b4, 0, 12, 4); WordKept(b3, b4, 0, 12, 8);
    WordKept(b4, b5, 0, 16, 0); WordKept(b4, b5, 0, 16, 4); WordKept(b4, b5, 0, 16, 8); WordKept(b4, b5, 0, 16, 12);
    WordKept(b5, b6, 0, 20, 0); WordKept(b5, b6, 0, 20, 4); WordKept(b5, b6, 0, 20, 8);
    WordKept(b5, b6, 0, 20, 12); WordKept(b5, b6, 0, 20, 16);
    Narrowed(b, b1, 4, |b|, 24, |b|);
    AgreeThen(b, b1, b2, 24, |b|, 8, |b|);
    AgreeThen(b, b2, b3, 24, |b|, 12, |b|);
    AgreeThen(b, b3, b4, 24, |b|, 16, |b|);
    AgreeThen(b, b4, b5, 24, |b|, 20, |b|);
    AgreeThen(b, b5, b6, 24, |b|, 24, |b|);
  }

  // The words that are filled in last.
  predicate LastWords(r: Bytes, context: Bytes, count: nat, table: nat) {
    var root := RootAt(context);
    && HeadSize(context) <= |r|
    && WordAt(r, 0) == 1 && WordAt(r, 4) == 1 && WordAt(r, 8) == |r|
    && WordAt(r, 12) == CONTEXTS && WordAt(r, 16) == TypesAt(context) && WordAt(r, 20) == root
    && WordAt(r, root) == root + INFO_NODE_BYTES
    && WordAt(r, root + 20) == count && WordAt(r, root + 24) == table
  }

  lemma HeadFinished(b: Bytes, context: Bytes, count: nat, table: nat, r: Bytes)
    requires HeadHolds(b, context) && |b| <= U32_MAX && count <= U32_MAX && table <= U32_MAX
    requires r == Finished(b, context, count, table)
    ensures HeadHolds(r, context) && LastWords(r, context, count, table) && Agree(b, r, HeadSize(context), |b|)
  {
    hide WordAt, Agree, Patched, TextAt, Aligned;
    var (types, root) := (TypesAt(context), RootAt(context));
    var b1 := Patched(Patched(Patched(b, root, root + INFO_NODE_BYTES), root + 20, count), root + 24, table);
    RootFinished(b, root, count, table);
    HeaderFinished(b1, |b|, types, root);
    WordKept(b1, r, 24, |b|, root);
    WordKept(b1, r, 24, |b|, root + 20);
    WordKept(b1, r, 24, |b|, root + 24);
    Narrowed(b, b1, 0, root, 24, root);
    AgreeThen(b, b1, r, 24, root, 24, |b|);
    AgreeThen(b, b1, r, root + 4, root + 20, 24, |b|);
    AgreeThen(b, b1, r, root + 28, |b|, 24, |b|);
    Narrowed(b, r, root + 28, |b|, HeadSize(context), |b|);
    HeadPieces(b, r, context);
  }

  lemma HeadPieces(b: Bytes, r: Bytes, context: Bytes)
    requires HeadHolds(b, context) && |r| == |b|
    requires var root := RootAt(context);
             Agree(b, r, 24, root) && Agree(b, r, root + 4, root + 20) && Agree(b, r, root + 28, |b|)
    ensures HeadHolds(r, context)
  {
    hide WordAt, Agree, TextAt, Aligned;
    var (types, root) := (TypesAt(context), RootAt(context));
    WordKept(b, r, 24, root, CONTEXTS);
    WordKept(b, r, 24, root, CONTEXTS + 4);
    TextKept(b, r, 24, root, CONTEXT_TEXT, context);
    WordKept(b, r, 24, root, types);
    WordKept(b, r, root + 4, root + 20, root + 4);
    WordKept(b, r, root + 4, root + 20, root + 8);
    WordKept(b, r, root + 4, root + 20, root + 12);
    WordKept(b, r, root + 4, root + 20, root + 16);
    WordKept(b, r, root + 28, |b|, root + INFO_NODE_BYTES + 8);
  }

  // ---- What is in the index ----

  predicate GoodEntryName(name: Bytes) { |name| <= MAX_NAME_BYTES && Utf8.WellFormed(name) }

  predicate GoodContext(context: Bytes) {
    |context| <= MAX_CONTEXT_BYTES && Utf8.WellFormed(context) && 0 !in context
  }

  // The entries lie behind the head and are listed in the table.
  predicate EntryListed(b: Bytes, context: Bytes, e: nat, name: Bytes) {
    HeadSize(context) <= e && EntryHolds(b, e, name)
  }

  ghost predicate AllListed(b: Bytes, context: Bytes, entries: seq<nat>, names: seq<Bytes>) {
    |entries| == |names| && forall k | 0 <= k < |names| :: EntryListed(b, context, entries[k], names[k])
  }

  ghost predicate Tabled(b: Bytes, table: nat, entries: seq<nat>) {
    table + 4 * |entries| <= |b| && forall k | 0 <= k < |entries| :: WordAt(b, table + 4 * k) == entries[k]
  }

  function FlatTrie(names: seq<Bytes>): Node {
    Node(NONE, [], seq(|names|, k requires 0 <= k < |names| => Entry(names[k], 0)), [])
  }

  lemma ListedKept(b: Bytes, b': Bytes, context: Bytes, entries: seq<nat>, names: seq<Bytes>)
    requires AllListed(b, context, entries, names) && HeadSize(context) <= |b|
    requires Agree(b, b', HeadSize(context), |b|)
    ensures AllListed(b', context, entries, names)
  {
    hide WordAt, Agree, HeadSize, EntryHolds;
    forall k | 0 <= k < |names| ensures EntryListed(b', context, entries[k], names[k]) {
      assert EntryListed(b, context, entries[k], names[k]);
      EntryFits(b, entries[k], names[k]);
      EntryKept(b, b', HeadSize(context), |b|, entries[k], names[k]);
    }
  }

  lemma EntryFits(b: Bytes, e: nat, name: Bytes)
    requires EntryHolds(b, e, name)
    ensures e + ENTRY_BYTES + |name| + 1 <= |b|
  {
  }

  lemma TabledKept(b: Bytes, b': Bytes, lo: nat, table: nat, entries: seq<nat>)
    requires Tabled(b, table, entries) && lo <= table && lo <= |b| && Agree(b, b', lo, |b|)
    ensures Tabled(b', table, entries)
  {
    hide WordAt, Agree;
    AgreeBounds(b, b', lo, |b|);
    forall k | 0 <= k < |entries| ensures WordAt(b', table + 4 * k) == entries[k] {
      WordKept(b, b', lo, |b|, table + 4 * k);
    }
  }

  // The finished bytes show the flat trie of the names.
  lemma FlatShown(r: Bytes, context: Bytes, names: seq<Bytes>, entries: seq<nat>, table: nat)
    requires HeadHolds(r, context) && AllListed(r, context, entries, names) && Tabled(r, table, entries)
    requires forall k | 0 <= k < |names| :: GoodEntryName(names[k])
    requires LastWords(r, context, |names|, table)
    ensures ShowsTrie(r, RootAt(context), FlatTrie(names)) && SortedTrie(FlatTrie(names))
  {
    hide WordAt, EntryName, TextAt, Utf8.WellFormed;
    var n := FlatTrie(names);
    forall k | 0 <= k < |names| ensures EntryAt(r, table, k, n.exact[k]) {
      assert EntryListed(r, context, entries[k], names[k]);
      EntryReads(r, entries[k], names[k]);
    }
    assert EntriesAt(r, table, n.exact);
  }

  lemma ContextRead(r: Bytes, context: Bytes)
    requires HeadHolds(r, context) && GoodContext(context)
    ensures ContextText(Info(r, CONTEXTS, RootAt(context)), 0) == Ok(Some(context))
  {
    hide WordAt, Utf8.WellFormed, Aligned;
    var tail := r[CONTEXT_TEXT..];
    assert tail[..|context|] == context;
    FirstNulAfter(tail, context, MAX_CONTEXT_BYTES + 1);
  }

  lemma {:induction false} FlatByName(names: seq<Bytes>, q: Bytes)
    ensures ByName(FlatTrie(names).exact, q) == if q in names then Some(0) else None
    decreases |names|
  {
    if names != [] {
      FlatByName(names[1..], q);
      assert FlatTrie(names).exact[1..] == FlatTrie(names[1..]).exact;
      assert names == [names[0]] + names[1..];
    }
  }

  lemma FlatResolve(names: seq<Bytes>, q: Bytes)
    ensures Resolve(FlatTrie(names), q, NONE) == if q in names then 0 else NONE
    ensures Visits(FlatTrie(names), q) == 1
  {
    FlatByName(names, q);
    assert Next(FlatTrie(names), q).None?;
  }

  // The index of this writer has entries with dots, and resolving a name in it is still decided by
  // the entry for that name.
  lemma FlatIsRegular(names: seq<Bytes>)
    ensures Segmented(FlatTrie(names)) && Unhidden(FlatTrie(names)) && Open(FlatTrie(names))
  {
    var n := FlatTrie(names);
    forall i | 0 <= i < |n.exact| ensures Kept(n, n.exact[i].name, n.exact[i].context) {
      FlatByName(names, n.exact[i].name);
    }
  }

  // ---- Writing it ----

  function EntriesSize(names: seq<Bytes>): nat {
    if names == [] then 0 else EntriesSize(names[..|names| - 1]) + EntrySize(names[|names| - 1])
  }

  function IndexSize(context: Bytes, names: seq<Bytes>): nat {
    HeadSize(context) + EntriesSize(names) + 4 * |names|
  }

  lemma {:induction false} EntriesSizeGrows(names: seq<Bytes>, k: nat)
    requires k <= |names|
    ensures EntriesSize(names[..k]) <= EntriesSize(names)
    decreases |names|
  {
    if k < |names| {
      EntriesSizeGrows(names[..|names| - 1], k);
      assert names[..|names| - 1][..k] == names[..k];
    } else {
      assert names[..k] == names;
    }
  }

  lemma EntriesSizeNext(names: seq<Bytes>, k: nat)
    requires k < |names|
    ensures EntriesSize(names[..k + 1]) == EntriesSize(names[..k]) + EntrySize(names[k])
  {
    assert names[..k + 1][..k] == names[..k];
  }

  // One more entry.
  lemma ListedMore(b: Bytes, context: Bytes, entries: seq<nat>, names: seq<Bytes>, k: nat)
    requires HeadHolds(b, context) && k < |names| && AllListed(b, context, entries, names[..k])
    requires |b| + ENTRY_BYTES <= U32_MAX && |names[k]| <= U32_MAX
    ensures var b' := WithEntry(b, names[k]);
            HeadHolds(b', context) && AllListed(b', context, entries + [|b|], names[..k + 1])
  {
    hide WordAt, Agree, EntryHolds, WithEntry, TextAt, HeadSize;
    var (b', name) := (WithEntry(b, names[k]), names[k]);
    EntryWritten(b, name);
    HeadFits(b, context);
    HeadKept(b, b', context, 0, |b|);
    Narrowed(b, b', 0, |b|, HeadSize(context), |b|);
    ListedKept(b, b', context, entries, names[..k]);
    assert names[..k + 1] == names[..k] + [name];
  }

  lemma HeadFits(b: Bytes, context: Bytes)
    requires HeadHolds(b, context)
    ensures CONTEXTS <= HeadSize(context) <= |b|
  {
  }

  lemma TabledMore(b: Bytes, table: nat, entries: seq<nat>, k: nat)
    requires k < |entries| && |b| == table + 4 * k && entries[k] <= U32_MAX && Tabled(b, table, entries[..k])
    ensures Tabled(b + WordBytes(entries[k]), table, entries[..k + 1])
  {
    hide WordAt, WordBytes, Agree;
    var b' := b + WordBytes(entries[k]);
    AppendedAgrees(b, WordBytes(entries[k]));
    PushedWord(b, entries[k]);
    forall j | 0 <= j < k + 1 ensures WordAt(b', table + 4 * j) == entries[..k + 1][j] {
      if j < k {
        assert WordAt(b, table + 4 * j) == entries[..k][j];
        WordKept(b, b', 0, |b|, table + 4 * j);
      }
    }
  }

  // What the finished index answers to any name.
  lemma IndexAnswers(r: Bytes, context: Bytes, names: seq<Bytes>, entries: seq<nat>, table: nat, q: Bytes)
    requires HeadHolds(r, context) && AllListed(r, context, entries, names) && Tabled(r, table, entries)
    requires LastWords(r, context, |names|, table) && GoodContext(context)
    requires forall k | 0 <= k < |names| :: GoodEntryName(names[k])
    ensures var i := Info(r, CONTEXTS, RootAt(context));
            && NewInfo(r) == Ok(i)
            && ContextFrom(i, i.root, q, NONE, 0) == Ok(if q in names then Some(context) else None)
  {
    hide WordAt, Agree, ContextFrom, ShowsTrie, SortedTrie, Resolve, Visits, ZeroTerminated, EntriesAt;
    hide AllListed, Tabled, GoodContext, GoodEntryName, TextAt, Aligned;
    var i := Info(r, CONTEXTS, RootAt(context));
    FlatShown(r, context, names, entries, table);
    FlatResolve(names, q);
    ContextRead(r, context);
    InfoAgrees(i, i.root, FlatTrie(names), q, NONE, 0);
  }

  // Writes the entries behind the head.
  method WriteEntries(context: Bytes, names: seq<Bytes>) returns (ok: bool, b: Bytes, entries: seq<nat>)
    requires GoodContext(context) && forall k | 0 <= k < |names| :: GoodEntryName(names[k])
    ensures ok ==> HeadHolds(b, context) && AllListed(b, context, entries, names)
    ensures ok ==> |b| == HeadSize(context) + EntriesSize(names)
    ensures ok ==> forall k | 0 <= k < |entries| :: entries[k] <= U32_MAX
    ensures !ok ==> IndexSize(context, names) > U32_MAX
  {
    hide HeadHolds, AllListed, EntriesSize, Head, WithEntry;
    HeadWritten(context);
    b, entries := Head(context), [];
    NothingYet(b, context);
    assert names[..0] == [];
    for k := 0 to |names|
      invariant HeadHolds(b, context) && |entries| == k && AllListed(b, context, entries, names[..k])
      invariant |b| == HeadSize(context) + EntriesSize(names[..k])
      invariant forall j | 0 <= j < k :: entries[j] <= U32_MAX
    {
      EntriesSizeNext(names, k);
      EntriesSizeGrows(names, k + 1);
      if |b| + ENTRY_BYTES > U32_MAX { return false, b, entries; }
      ListedMore(b, context, entries, names, k);
      entries, b := entries + [|b|], WithEntry(b, names[k]);
    }
    assert names[..|names|] == names;
    ok := true;
  }

  lemma NothingYet(b: Bytes, context: Bytes)
    ensures AllListed(b, context, [], []) && EntriesSize([]) == 0
  {
  }

  // The whole index. `None` stands for the panic of a size beyond 32 bits. Every name is
  // answered: the context for the names listed, none for any other.
  method BuildInfo(context: Bytes, names: seq<Bytes>) returns (r: Option<Bytes>)
    requires GoodContext(context) && forall k | 0 <= k < |names| :: GoodEntryName(names[k])
    ensures r.Some? <==> IndexSize(context, names) <= U32_MAX
    ensures r.Some? ==>
              && NewInfo(r.value).Ok?
              && forall q ::
                   ContextFrom(NewInfo(r.value).value, NewInfo(r.value).value.root, q, NONE, 0) ==
                   Ok(if q in names then Some(context) else None)
  {
    hide HeadHolds, AllListed, EntriesSize, Tabled, Finished, NewInfo, ContextFrom, LastWords, GoodEntryName;
    var ok, b, entries := WriteEntries(context, names);
    if !ok { return None; }
    var table := |b|;
    if table + 4 * |names| > U32_MAX { return None; }
    assert Tabled(b, table, []) by { EmptyTable(b); }
    assert entries[..0] == [];
    ListedCount(b, context, entries, names);
    for k := 0 to |entries|
      invariant HeadHolds(b, context) && AllListed(b, context, entries, names)
      invariant |b| == table + 4 * k && Tabled(b, table, entries[..k])
    {
      var word := WordBytes(entries[k]);
      TabledMore(b, table, entries, k);
      Appending(b, word, context, entries, names);
      b := b + word;
    }
    assert entries[..|entries|] == entries;
    HeadFits(b, context);
    var done := Finished(b, context, |names|, table);
    HeadFinished(b, context, |names|, table, done);
    ListedKept(b, done, context, entries, names);
    TabledKept(b, done, HeadSize(context), table, entries);
    forall q
      ensures var i := Info(done, CONTEXTS, RootAt(context));
              && NewInfo(done) == Ok(i)
              && ContextFrom(i, i.root, q, NONE, 0) == Ok(if q in names then Some(context) else None)
    {
      IndexAnswers(done, context, names, entries, table, q);
    }
    IndexAnswers(done, context, names, entries, table, []);
    r := Some(done);
  }

  lemma EmptyTable(b: Bytes)
    ensures Tabled(b, |b|, [])
  {
  }

  lemma ListedCount(b: Bytes, context: Bytes, entries: seq<nat>, names: seq<Bytes>)
    requires AllListed(b, context, entries, names)
    ensures |entries| == |names|
  {
  }

  lemma Appending(b: Bytes, tail: Bytes, context: Bytes, entries: seq<nat>, names: seq<Bytes>)
    requires HeadHolds(b, context) && AllListed(b, context, entries, names)
    ensures HeadHolds(b + tail, context) && AllListed(b + tail, context, entries, names)
  {
    hide HeadHolds, AllListed, Agree;
    AppendedAgrees(b, tail);
    HeadFits(b, context);
    HeadKept(b, b + tail, context, 0, |b|);
    Narrowed(b, b + tail, 0, |b|, HeadSize(context), |b|);
    ListedKept(b, b + tail, context, entries, names);
  }
}
