// The file-system effects of installing a group of secret files, as operations on the map from
// directory entries to contents, and the invariants they keep.
module SecretGroup {
  import opened Common
  import opened SecretNames

  type Files = map<Entry, Bytes>

  function At(fs: Files, e: Entry): Option<Bytes> { if e in fs then Some(fs[e]) else None }

  // What the next `prepare` makes of the destination: the backup if there is one.
  function Effective(fs: Files, n: Names): Option<Bytes> {
    if n.backup in fs then Some(fs[n.backup]) else At(fs, n.destination)
  }

  function Moved(fs: Files, source: Entry, target: Entry): Files
    requires source in fs
  {
    fs[target := fs[source]] - {source}
  }

  // ---- Single operations ----

  function Restored(fs: Files, n: Names): Files {
    if n.backup in fs then Moved(fs, n.backup, n.destination) else fs
  }

  function Recovered(fs: Files, n: Names): Files { Restored(fs, n) - {n.staging} }

  // How far one file of the group has come.
  datatype Marks = Marks(names: Names, staged: bool, backedUp: bool, committed: bool)

  function BackedUp(fs: Files, n: Names): Files {
    if n.destination in fs then Moved(fs, n.destination, n.backup) else fs
  }

  // What undoing one file does when every system call succeeds.
  function Undo(m: Marks, fs: Files): Files {
    var n := m.names;
    var fs1 := if m.committed then fs - {n.destination} else fs;
    var fs2 := if m.backedUp && n.backup in fs1 then Moved(fs1, n.backup, n.destination) else fs1;
    if m.staged then fs2 - {n.staging} else fs2
  }

  // Undoing a group starts with its last file.
  function UndoAll(ms: seq<Marks>, fs: Files): Files {
    if ms == [] then fs else UndoAll(ms[..|ms| - 1], Undo(ms[|ms| - 1], fs))
  }

  lemma {:induction false} UndoAllSplit(a: seq<Marks>, b: seq<Marks>, fs: Files)
    ensures UndoAll(a + b, fs) == UndoAll(a, UndoAll(b, fs))
    decreases |b|
  {
    if b == [] {
      assert a + b == a;
    } else {
      var (front, last) := (b[..|b| - 1], b[|b| - 1]);
      assert (a + b)[..|a + b| - 1] == a + front;
      UndoAllSplit(a, front, Undo(last, fs));
    }
  }

  // ---- Undoing restores the start ----

  ghost predicate OnlyStaged(ms: seq<Marks>) {
    forall i | 0 <= i < |ms| :: ms[i].staged && !ms[i].backedUp && !ms[i].committed
  }

  // Exactly the first `files` files are committed.
  ghost predicate CommittedTo(ms: seq<Marks>, files: nat) {
    files <= |ms| && forall k | 0 <= k < |ms| :: ms[k].committed <==> k < files
  }

  function Stagings(ms: seq<Marks>): set<Entry> { set i | 0 <= i < |ms| :: ms[i].names.staging }

  lemma {:induction false} UndoStaged(ms: seq<Marks>, fs: Files)
    requires OnlyStaged(ms)
    ensures UndoAll(ms, fs) == fs - Stagings(ms)
    decreases |ms|
  {
    if ms != [] {
      var (front, last) := (ms[..|ms| - 1], ms[|ms| - 1]);
      UndoStaged(front, Undo(last, fs));
      assert ms == front + [last];
      assert Stagings(ms) == Stagings(front) + {last.names.staging};
    }
  }

  // The marks a group can carry between two operations: some files committed, one perhaps
  // halfway, the others only staged.
  function Sealed(m: Marks, backedUp: bool): Marks {
    m.(staged := false, backedUp := backedUp, committed := true)
  }

  // One commit step is undone by the marks it leaves, on any files without a stale backup.
  lemma UndoBackup(m: Marks, fs: Files)
    requires m.staged && !m.backedUp && !m.committed
    requires m.names.destination in fs && m.names.backup !in fs
    requires m.names.backup != m.names.destination
    ensures Undo(m.(backedUp := true), BackedUp(fs, m.names)) == Undo(m, fs)
  {
  }

  lemma UndoCommit(m: Marks, fs: Files)
    requires m.staged && !m.committed && m.names.staging in fs
    requires m.names.staging != m.names.destination && m.names.staging != m.names.backup
    requires m.names.backup != m.names.destination
    requires m.names.destination !in fs && (m.backedUp ==> m.names.backup in fs)
    ensures Undo(Sealed(m, m.backedUp), Moved(fs, m.names.staging, m.names.destination)) == Undo(m, fs)
  {
  }

  // Removing entries that an operation does not touch commutes with it.
  lemma UndoIgnores(m: Marks, fs: Files, r: set<Entry>)
    requires m.names.destination !in r && m.names.staging !in r && m.names.backup !in r
    ensures Undo(m, fs - r) == Undo(m, fs) - r
  {
  }

  // Replacing the marks and files of one file by ones with the same undoing keeps the undoing
  // of the whole group, when the files after it are only staged.
  lemma UndoReplaced(ms: seq<Marks>, i: nat, m: Marks, fs: Files, fs': Files)
    requires i < |ms| && OnlyStaged(ms[i + 1..]) && m.names == ms[i].names
    requires m.names.destination !in Stagings(ms[i + 1..])
    requires m.names.staging !in Stagings(ms[i + 1..])
    requires m.names.backup !in Stagings(ms[i + 1..])
    requires Undo(m, fs') == Undo(ms[i], fs)
    ensures UndoAll(ms[i := m], fs') == UndoAll(ms, fs)
  {
    var (front, rest) := (ms[..i], ms[i + 1..]);
    var r := Stagings(rest);
    SplitAt(ms, i, ms[i], fs);
    SplitAt(ms, i, m, fs');
    assert ms[i := ms[i]] == ms;
    UndoIgnores(m, fs', r);
    UndoIgnores(ms[i], fs, r);
  }

  lemma SplitAt(ms: seq<Marks>, i: nat, m: Marks, fs: Files)
    requires i < |ms| && OnlyStaged(ms[i + 1..])
    ensures UndoAll(ms[i := m], fs) == UndoAll(ms[..i], Undo(m, fs - Stagings(ms[i + 1..])))
  {
    var (front, rest) := (ms[..i], ms[i + 1..]);
    assert ms[i := m] == (front + [m]) + rest;
    UndoAllSplit(front + [m], rest, fs);
    UndoStaged(rest, fs);
    assert (front + [m])[..|front|] == front;
  }

  // ---- The group invariant for a clean start ----

  predicate Known(group: seq<Option<Names>>, k: int) { 0 <= k < |group| && group[k].Some? }

  // No staging or backup entry is left over.
  ghost predicate Clean(fs: Files, group: seq<Option<Names>>) {
    forall k | Known(group, k) :: group[k].value.staging !in fs && group[k].value.backup !in fs
  }

  ghost predicate Tracks(ms: seq<Marks>, group: seq<Option<Names>>) {
    |ms| <= |group| && forall k | 0 <= k < |ms| :: Known(group, k) && ms[k].names == group[k].value
  }

  // Undoing the marks gives back `fs0`, and no entry the group still needs is in the way.
  ghost predicate Undoable(fs0: Files, fs: Files, ms: seq<Marks>, group: seq<Option<Names>>) {
    && UndoAll(ms, fs) == fs0
    && (forall k | Known(group, k) && (k < |ms| ==> !ms[k].backedUp) :: group[k].value.backup !in fs)
    && (forall k | Known(group, k) && k >= |ms| :: group[k].value.staging !in fs)
  }

  lemma PreparedUndoable(fs0: Files, fs: Files, ms: seq<Marks>, group: seq<Option<Names>>)
    requires Tracks(ms, group) && Undoable(fs0, fs, ms, group)
    requires Known(group, |ms|)
    ensures var n := group[|ms|].value;
            Recovered(fs, n) == fs && Restored(fs, n) == fs
    ensures Undoable(fs0, fs, ms + [Marks(group[|ms|].value, false, false, false)], group)
  {
    var m := Marks(group[|ms|].value, false, false, false);
    UndoAllSplit(ms, [m], fs);
    assert UndoAll([m], fs) == fs;
  }

  lemma StagedUndoable(fs0: Files, fs: Files, ms: seq<Marks>, group: seq<Option<Names>>, content: Bytes)
    requires Tracks(ms, group) && Separate(group) && ms != [] && Undoable(fs0, fs, ms, group)
    requires var m := ms[|ms| - 1];
             !m.staged && !m.backedUp && !m.committed && m.names.staging !in fs
    ensures var (last, m) := (|ms| - 1, ms[|ms| - 1]);
            Undoable(fs0, fs[m.names.staging := content], ms[last := m.(staged := true)], group)
  {
    var (last, m) := (|ms| - 1, ms[|ms| - 1]);
    var fs' := fs[m.names.staging := content];
    var m' := m.(staged := true);
    assert ms[last := m'][..last] == ms[..last];
    assert Undo(m', fs') == fs == Undo(m, fs);
    assert Known(group, last);
  }

  // The marks of file `i` that a commit attempt may leave, with the files it leaves.
  ghost predicate CommitResult(m: Marks, fs: Files, m': Marks, fs': Files) {
    var n := m.names;
    || (m' == m && fs' == fs)
    || (m' == m.(backedUp := true) && n.destination in fs && n.backup !in fs && fs' == BackedUp(fs, n))
    || (&& m' == Sealed(m, n.destination in fs) && (n.destination in fs ==> n.backup !in fs)
        && n.staging in BackedUp(fs, n)
        && fs' == Moved(BackedUp(fs, n), n.staging, n.destination))
  }

  lemma CommitUndone(m: Marks, fs: Files, m': Marks, fs': Files)
    requires m.staged && !m.backedUp && !m.committed && m.names.backup !in fs
    requires m.names.staging != m.names.destination && m.names.staging != m.names.backup
    requires m.names.backup != m.names.destination
    requires CommitResult(m, fs, m', fs')
    ensures Undo(m', fs') == Undo(m, fs) && m'.names == m.names
    ensures forall e | e != m.names.destination && e != m.names.staging && e != m.names.backup ::
              At(fs', e) == At(fs, e)
    ensures !m'.backedUp ==> m.names.backup !in fs'
  {
    if m'.backedUp && !m'.committed {
      UndoBackup(m, fs);
    } else if m'.committed {
      if m.names.destination in fs { UndoBackup(m, fs); }
      var fs1 := BackedUp(fs, m.names);
      var m1 := m.(backedUp := m.names.destination in fs);
      UndoCommit(m1, fs1);
      assert Sealed(m1, m1.backedUp) == m';
    }
  }

  lemma CommittedUndoable(
      fs0: Files, fs: Files, ms: seq<Marks>, group: seq<Option<Names>>, i: nat, m: Marks, fs': Files)
    requires Tracks(ms, group) && Separate(group) && Undoable(fs0, fs, ms, group) && i < |ms| == |group|
    requires OnlyStaged(ms[i..]) && CommitResult(ms[i], fs, m, fs')
    ensures Undoable(fs0, fs', ms[i := m], group) && Tracks(ms[i := m], group)
  {
    hide Undo, UndoAll, CommitResult, BackedUp;
    var n := ms[i].names;
    assert ms[i..][0] == ms[i];
    assert forall k | i + 1 <= k < |ms| :: ms[i..][k - i] == ms[k];
    assert Known(group, i);
    CommitUndone(ms[i], fs, m, fs');
    var rest := ms[i + 1..];
    forall j | 0 <= j < |rest|
      ensures rest[j].names.staging !in {n.destination, n.staging, n.backup}
    {
      assert rest[j] == ms[i + 1 + j] && Known(group, i + 1 + j);
    }
    UndoReplaced(ms, i, m, fs, fs');
    forall k | Known(group, k) && !ms[i := m][k].backedUp
      ensures group[k].value.backup !in fs'
    {
      if k != i {
        assert !ms[k].backedUp;
        assert At(fs', group[k].value.backup) == At(fs, group[k].value.backup);
      }
    }
  }

  // ---- The group invariant for distinct destinations ----

  // Only the three entries of `n` may differ.
  ghost predicate Touches(fs: Files, fs': Files, n: Names) {
    forall e | e != n.destination && e != n.staging && e != n.backup :: At(fs', e) == At(fs, e)
  }

  // Where a prepared file stands between its recoverable value at the start and its new value.
  ghost predicate Stands(fs0: Files, fs: Files, m: Marks, v: Bytes) {
    var n := m.names;
    var e0 := Effective(fs0, n);
    if m.committed then
      && At(fs, n.destination) == Some(v) && n.staging !in fs
      && At(fs, n.backup) == e0 && (m.backedUp <==> e0.Some?)
    else if m.backedUp then
      n.destination !in fs && At(fs, n.backup) == e0 && e0.Some?
    else
      At(fs, n.destination) == e0 && n.backup !in fs
  }

  // The old value or the whole new value, and nothing else, is what recovery will find.
  predicate Recoverable(fs0: Files, fs: Files, n: Names, v: Bytes) {
    Effective(fs, n) == Effective(fs0, n) || Effective(fs, n) == Some(v)
  }

  // Which of the two it is.
  predicate Found(fs0: Files, fs: Files, n: Names, v: Bytes, isNew: bool) {
    Effective(fs, n) == if isNew then Some(v) else Effective(fs0, n)
  }

  lemma RecoveredStands(fs0: Files, fs: Files, n: Names, v: Bytes)
    requires n.staging != n.destination && n.staging != n.backup && n.backup != n.destination
    requires At(fs, n.destination) == At(fs0, n.destination) && At(fs, n.backup) == At(fs0, n.backup)
    ensures Stands(fs0, Recovered(fs, n), Marks(n, false, false, false), v)
    ensures Found(fs0, Restored(fs, n), n, v, false) && Found(fs0, fs, n, v, false)
    ensures Touches(fs, Recovered(fs, n), n) && Touches(fs, Restored(fs, n), n)
  {
  }

  lemma CommitStands(fs0: Files, fs: Files, m: Marks, v: Bytes, m': Marks, fs': Files)
    requires Stands(fs0, fs, m, v) && m.staged && !m.backedUp && !m.committed
    requires m.names.staging in fs && fs[m.names.staging] == v
    requires m.names.staging != m.names.destination && m.names.staging != m.names.backup
    requires m.names.backup != m.names.destination
    requires CommitResult(m, fs, m', fs')
    ensures Stands(fs0, fs', m', v) && Touches(fs, fs', m.names)
  {
  }

  // A file whose backup still stands is found new exactly when it is committed and had no old value.
  lemma StandsFound(fs0: Files, fs: Files, m: Marks, v: Bytes)
    requires Stands(fs0, fs, m, v)
    ensures Found(fs0, fs, m.names, v, m.committed && Effective(fs0, m.names).None?)
  {
  }

  // The stages of undoing one file.
  function Unlinked(m: Marks, fs: Files): Files {
    if m.committed then fs - {m.names.destination} else fs
  }

  function PutBack(m: Marks, fs: Files): Files {
    if m.backedUp && m.names.backup in fs then Moved(fs, m.names.backup, m.names.destination) else fs
  }

  ghost predicate UndoStage(m: Marks, fs: Files, fs': Files) {
    || fs' == fs
    || fs' == Unlinked(m, fs)
    || fs' == PutBack(m, Unlinked(m, fs))
    || fs' == Undo(m, fs)
  }

  // While being undone it is found new exactly until its destination is removed.
  lemma UndoFound(fs0: Files, fs: Files, m: Marks, v: Bytes, fs': Files)
    requires Stands(fs0, fs, m, v) && UndoStage(m, fs, fs')
    requires m.names.staging != m.names.destination && m.names.staging != m.names.backup
    requires m.names.backup != m.names.destination
    ensures Touches(fs, fs', m.names)
    ensures Found(fs0, fs', m.names, v, m.committed && Effective(fs0, m.names).None? && m.names.destination in fs')
    ensures fs' == Undo(m, fs) && m.committed && Effective(fs0, m.names).None? ==> m.names.destination !in fs'
  {
  }

  ghost predicate Disjoint(a: Names, b: Names) {
    && a.destination != b.destination && a.destination != b.staging && a.destination != b.backup
    && a.staging != b.destination && a.staging != b.staging && a.staging != b.backup
    && a.backup != b.destination && a.backup != b.staging && a.backup != b.backup
  }

  lemma GroupDisjoint(group: seq<Option<Names>>, i: int, k: int)
    requires Separate(group) && DistinctDestinations(group) && Known(group, i) && Known(group, k) && i != k
    ensures Disjoint(group[i].value, group[k].value)
  {
    if i < k { assert group[i].value.destination != group[k].value.destination; }
    else { assert group[k].value.destination != group[i].value.destination; }
  }

  lemma OwnNamesDiffer(group: seq<Option<Names>>, i: int)
    requires Separate(group) && Known(group, i)
    ensures var n := group[i].value;
            n.staging != n.destination && n.staging != n.backup && n.backup != n.destination
  {
  }

  // ---- The whole group ----

  ghost predicate Apart(group: seq<Option<Names>>) { Separate(group) && DistinctDestinations(group) }

  predicate Owns(n: Names, e: Entry) { e == n.destination || e == n.staging || e == n.backup }

  // Entries that belong to no file of the group are as they were.
  ghost predicate Outside(fs0: Files, fs: Files, group: seq<Option<Names>>) {
    forall e | (forall k | Known(group, k) :: !Owns(group[k].value, e)) :: At(fs, e) == At(fs0, e)
  }

  // Files before `from` stand somewhere between old and new. Of the others, recovery finds those
  // in `kept` new and the rest old.
  ghost predicate AllStand(
      fs0: Files, fs: Files, ms: seq<Marks>, group: seq<Option<Names>>, values: seq<Bytes>, from: nat,
      kept: set<int>)
    requires Tracks(ms, group) && from <= |ms| && |values| == |group|
  {
    && (forall k | 0 <= k < from :: Stands(fs0, fs, ms[k], values[k]))
    && (forall k | Known(group, k) && from <= k :: Found(fs0, fs, group[k].value, values[k], k in kept))
  }

  // Files not prepared yet are as they were.
  ghost predicate Untouched(fs0: Files, fs: Files, group: seq<Option<Names>>, from: nat) {
    forall k | Known(group, k) && from <= k ::
      && At(fs, group[k].value.destination) == At(fs0, group[k].value.destination)
      && At(fs, group[k].value.backup) == At(fs0, group[k].value.backup)
  }

  // Nothing, a value tried for a file with this destination, or what recovery would have found
  // before under one of its spellings.
  predicate InPool(fs0: Files, group: seq<Option<Names>>, values: seq<Bytes>, d: Entry, found: Option<Bytes>)
    requires |values| == |group|
  {
    found.None? ||
    exists j | 0 <= j < |group| :: FromFile(fs0, group[j], values[j], d, found)
  }

  predicate FromFile(fs0: Files, names: Option<Names>, v: Bytes, d: Entry, found: Option<Bytes>) {
    names.Some? && names.value.destination == d && (found == Some(v) || found == Effective(fs0, names.value))
  }

  // Recovery of any file finds such a value, and the destinations of the first `prepared` files hold
  // one. Destinations may coincide.
  ghost predicate Pooled(
      fs0: Files, fs: Files, group: seq<Option<Names>>, values: seq<Bytes>, prepared: nat)
    requires |values| == |group|
  {
    && AllPooled(fs0, fs, group, values)
    && forall k | Known(group, k) && k < prepared ::
         InPool(fs0, group, values, group[k].value.destination, At(fs, group[k].value.destination))
  }

  ghost predicate AllPooled(fs0: Files, fs: Files, group: seq<Option<Names>>, values: seq<Bytes>)
    requires |values| == |group|
  {
    forall k | Known(group, k) ::
      InPool(fs0, group, values, group[k].value.destination, Effective(fs, group[k].value))
  }

  lemma PoolStarts(fs0: Files, group: seq<Option<Names>>, values: seq<Bytes>)
    requires |values| == |group|
    ensures Pooled(fs0, fs0, group, values, 0)
  {
    hide Effective;
    forall k | Known(group, k)
      ensures InPool(fs0, group, values, group[k].value.destination, Effective(fs0, group[k].value))
    {
      assert FromFile(fs0, group[k], values[k], group[k].value.destination, Effective(fs0, group[k].value));
    }
  }

  lemma TriedInPool(fs0: Files, group: seq<Option<Names>>, values: seq<Bytes>, i: int)
    requires |values| == |group| && Known(group, i)
    ensures InPool(fs0, group, values, group[i].value.destination, Some(values[i]))
  {
    assert FromFile(fs0, group[i], values[i], group[i].value.destination, Some(values[i]));
  }

  // An operation on one file moves no backup of another, and a destination only if it is the same.
  lemma SeparateKept(fs: Files, fs': Files, group: seq<Option<Names>>, i: int, k: int)
    requires Separate(group) && Known(group, i) && Known(group, k) && i != k
    requires Touches(fs, fs', group[i].value)
    ensures var n := group[k].value;
            && At(fs', n.backup) == At(fs, n.backup) && At(fs', n.staging) == At(fs, n.staging)
            && (n.destination != group[i].value.destination ==> At(fs', n.destination) == At(fs, n.destination))
  {
    var n := group[k].value;
    assert At(fs', n.backup) == At(fs, n.backup);
    assert At(fs', n.staging) == At(fs, n.staging);
  }

  // An operation on one file keeps the pool if what it leaves at the destination and as the backup
  // comes from it.
  lemma PoolKept(
      fs0: Files, fs: Files, fs': Files, group: seq<Option<Names>>, values: seq<Bytes>, prepared: nat, i: int)
    requires |values| == |group| && Separate(group) && Known(group, i) && Touches(fs, fs', group[i].value)
    requires Pooled(fs0, fs, group, values, prepared)
    requires var n := group[i].value;
             && InPool(fs0, group, values, n.destination, At(fs', n.destination))
             && InPool(fs0, group, values, n.destination, At(fs', n.backup))
    ensures Pooled(fs0, fs', group, values, prepared)
    ensures i == prepared ==> Pooled(fs0, fs', group, values, prepared + 1)
  {
    hide Touches, Separate, InPool;
    var d := group[i].value.destination;
    forall k | Known(group, k)
      ensures var n := group[k].value;
              && InPool(fs0, group, values, n.destination, Effective(fs', n))
              && (k < prepared || k == i ==> InPool(fs0, group, values, n.destination, At(fs', n.destination)))
    {
      if k != i { SeparateKept(fs, fs', group, i, k); }
    }
  }

  // Preparing puts at the destination what recovery finds.
  lemma PoolPrepared(
      fs0: Files, fs: Files, fs': Files, group: seq<Option<Names>>, values: seq<Bytes>, i: nat)
    requires |values| == |group| && Separate(group) && Known(group, i) && Pooled(fs0, fs, group, values, i)
    requires fs' == Restored(fs, group[i].value) || fs' == Recovered(fs, group[i].value)
    ensures Pooled(fs0, fs', group, values, i + 1) && Pooled(fs0, fs', group, values, i)
  {
    hide Separate, InPool;
    var n := group[i].value;
    OwnNamesDiffer(group, i);
    assert Touches(fs, fs', n);
    assert At(fs', n.destination) == Effective(fs, n) && At(fs', n.backup) == None;
    NothingInPool(fs0, group, values, n.destination);
    PoolKept(fs0, fs, fs', group, values, i, i);
  }

  lemma NothingInPool(fs0: Files, group: seq<Option<Names>>, values: seq<Bytes>, d: Entry)
    requires |values| == |group|
    ensures InPool(fs0, group, values, d, None)
  {
  }

  // What a prepared file has at its destination or as its backup is in the pool.
  lemma OwnInPool(fs0: Files, fs: Files, group: seq<Option<Names>>, values: seq<Bytes>, prepared: nat, i: int)
    requires |values| == |group| && Known(group, i) && i < prepared && Pooled(fs0, fs, group, values, prepared)
    ensures var n := group[i].value;
            && InPool(fs0, group, values, n.destination, At(fs, n.destination))
            && InPool(fs0, group, values, n.destination, At(fs, n.backup))
  {
    hide InPool;
    NothingInPool(fs0, group, values, group[i].value.destination);
  }

  // Writing, committing, undoing and removing a backup only move what is in the pool.
  lemma PoolMoved(
      fs0: Files, fs: Files, fs': Files, group: seq<Option<Names>>, values: seq<Bytes>, prepared: nat, i: int)
    requires |values| == |group| && Separate(group) && Known(group, i) && i < prepared
    requires Pooled(fs0, fs, group, values, prepared) && Touches(fs, fs', group[i].value)
    requires var n := group[i].value;
             && (At(fs', n.destination) == Some(values[i]) || Handed(fs, At(fs', n.destination), n))
             && Handed(fs, At(fs', n.backup), n)
    ensures Pooled(fs0, fs', group, values, prepared)
  {
    hide Touches, Separate, InPool, At, Pooled;
    OwnInPool(fs0, fs, group, values, prepared, i);
    NothingInPool(fs0, group, values, group[i].value.destination);
    TriedInPool(fs0, group, values, i);
    PoolKept(fs0, fs, fs', group, values, prepared, i);
  }

  predicate Handed(fs: Files, content: Option<Bytes>, n: Names) {
    content == None || content == At(fs, n.destination) || content == At(fs, n.backup)
  }

  lemma CommitPooled(
      fs0: Files, fs: Files, fs': Files, group: seq<Option<Names>>, values: seq<Bytes>, m: Marks, m': Marks, i: int)
    requires |values| == |group| && Separate(group) && Known(group, i) && m.names == group[i].value
    requires Pooled(fs0, fs, group, values, |group|) && CommitResult(m, fs, m', fs')
    requires At(fs, m.names.staging) == Some(values[i])
    ensures Pooled(fs0, fs', group, values, |group|)
  {
    hide Pooled, Separate;
    OwnNamesDiffer(group, i);
    PoolMoved(fs0, fs, fs', group, values, |group|, i);
  }

  lemma UndoPooled(
      fs0: Files, fs: Files, fs': Files, group: seq<Option<Names>>, values: seq<Bytes>, m: Marks, prepared: nat,
      i: int)
    requires |values| == |group| && Separate(group) && Known(group, i) && m.names == group[i].value
    requires i < prepared && Pooled(fs0, fs, group, values, prepared) && UndoStage(m, fs, fs')
    ensures Pooled(fs0, fs', group, values, prepared)
  {
    hide Pooled, Separate;
    OwnNamesDiffer(group, i);
    PoolMoved(fs0, fs, fs', group, values, prepared, i);
  }

  // What every run of an installation guarantees about every file, whenever it stops.
  ghost predicate Attempt(fs0: Files, fs: Files, group: seq<Option<Names>>, values: seq<Bytes>)
    requires |values| == |group|
  {
    && Outside(fs0, fs, group)
    && (Separate(group) ==> AllPooled(fs0, fs, group, values))
    && (Apart(group) ==>
          forall k | Known(group, k) :: Recoverable(fs0, fs, group[k].value, values[k]))
  }

  // ---- Where an installation stopped, and what that means for recovery ----

  // With so many files committed; while rolling back so many committed files, of
  // which these have been removed again; or with the backups of so many files removed.
  datatype Stop =
    | Committing(files: nat)
    | RollingBack(files: nat, removed: set<int>)
    | CleaningUp(files: nat)

  // The files recovery will find new: committed, and without an old value or without its backup.
  predicate IsNew(fs0: Files, n: Names, stop: Stop, k: int) {
    match stop
    case Committing(c) => k < c && Effective(fs0, n).None?
    case RollingBack(c, removed) => k < c && Effective(fs0, n).None? && k !in removed
    case CleaningUp(c) => k < c || Effective(fs0, n).None?
  }

  ghost predicate Splits(fs0: Files, fs: Files, group: seq<Option<Names>>, values: seq<Bytes>, stop: Stop)
    requires |values| == |group|
  {
    forall k | Known(group, k) :: Found(fs0, fs, group[k].value, values[k], IsNew(fs0, group[k].value, stop, k))
  }

  // What recovery makes of the group as a whole.
  ghost predicate AllOld(fs0: Files, fs: Files, group: seq<Option<Names>>) {
    forall k | Known(group, k) :: Effective(fs, group[k].value) == Effective(fs0, group[k].value)
  }

  ghost predicate AllNew(fs: Files, group: seq<Option<Names>>, values: seq<Bytes>)
    requires |values| == |group|
  {
    forall k | Known(group, k) :: Effective(fs, group[k].value) == Some(values[k])
  }

  // Every file is to change.
  ghost predicate Changes(fs0: Files, group: seq<Option<Names>>, values: seq<Bytes>)
    requires |values| == |group|
  {
    forall k | Known(group, k) :: Effective(fs0, group[k].value) != Some(values[k])
  }

  // The group is recovered old exactly when no file is new, and new exactly when all are: it is
  // mixed exactly in between.
  lemma MixedExactly(fs0: Files, fs: Files, group: seq<Option<Names>>, values: seq<Bytes>, stop: Stop)
    requires |values| == |group| && Splits(fs0, fs, group, values, stop) && Changes(fs0, group, values)
    ensures AllOld(fs0, fs, group) <==> forall k | Known(group, k) :: !IsNew(fs0, group[k].value, stop, k)
    ensures AllNew(fs, group, values) <==> forall k | Known(group, k) :: IsNew(fs0, group[k].value, stop, k)
  {
    hide Effective, IsNew;
    forall k | Known(group, k)
      ensures Effective(fs, group[k].value) == Effective(fs0, group[k].value) <==> !IsNew(fs0, group[k].value, stop, k)
      ensures Effective(fs, group[k].value) == Some(values[k]) <==> IsNew(fs0, group[k].value, stop, k)
    {
      assert Found(fs0, fs, group[k].value, values[k], IsNew(fs0, group[k].value, stop, k));
    }
  }

  // Stopped while committing, the group is mixed exactly when one of the committed files had no
  // old value and some file is not committed or had one.
  lemma MixedWhileCommitting(fs0: Files, fs: Files, group: seq<Option<Names>>, values: seq<Bytes>, c: nat)
    requires |values| == |group| && Splits(fs0, fs, group, values, Committing(c)) && Changes(fs0, group, values)
    ensures !AllOld(fs0, fs, group) && !AllNew(fs, group, values) <==>
            && (exists k | Known(group, k) :: k < c && Effective(fs0, group[k].value).None?)
            && (exists k | Known(group, k) :: c <= k || Effective(fs0, group[k].value).Some?)
  {
    hide Splits, Effective, AllOld, AllNew;
    MixedExactly(fs0, fs, group, values, Committing(c));
  }

  // Stopped or failed while rolling back, it is mixed exactly when a committed file without an old
  // value is not removed yet, and some other file is removed, not committed or had one.
  lemma MixedWhileRollingBack(
      fs0: Files, fs: Files, group: seq<Option<Names>>, values: seq<Bytes>, c: nat, removed: set<int>)
    requires |values| == |group| && Changes(fs0, group, values)
    requires Splits(fs0, fs, group, values, RollingBack(c, removed))
    ensures !AllOld(fs0, fs, group) && !AllNew(fs, group, values) <==>
            && (exists k | Known(group, k) :: k < c && k !in removed && Effective(fs0, group[k].value).None?)
            && (exists k | Known(group, k) :: c <= k || k in removed || Effective(fs0, group[k].value).Some?)
  {
    hide Splits, Effective, AllOld, AllNew;
    MixedExactly(fs0, fs, group, values, RollingBack(c, removed));
  }

  // Stopped while removing backups, it is mixed exactly when one backup is removed or one file had
  // no old value, and another backup is still there.
  lemma MixedWhileCleaning(fs0: Files, fs: Files, group: seq<Option<Names>>, values: seq<Bytes>, c: nat)
    requires |values| == |group| && Splits(fs0, fs, group, values, CleaningUp(c)) && Changes(fs0, group, values)
    ensures !AllOld(fs0, fs, group) && !AllNew(fs, group, values) <==>
            && (exists k | Known(group, k) :: k < c || Effective(fs0, group[k].value).None?)
            && (exists k | Known(group, k) :: c <= k && Effective(fs0, group[k].value).Some?)
  {
    hide Splits, Effective, AllOld, AllNew;
    MixedExactly(fs0, fs, group, values, CleaningUp(c));
  }

  lemma OutsideKept(fs0: Files, fs: Files, fs': Files, group: seq<Option<Names>>, i: int)
    requires Outside(fs0, fs, group) && Known(group, i) && Touches(fs, fs', group[i].value)
    ensures Outside(fs0, fs', group)
  {
    hide At;
    forall e | (forall k | Known(group, k) :: !Owns(group[k].value, e))
      ensures At(fs', e) == At(fs0, e)
    {
      assert !Owns(group[i].value, e);
    }
  }

  // An operation on one file does not move the others.
  lemma OthersKept(
      fs0: Files, fs: Files, fs': Files, group: seq<Option<Names>>, values: seq<Bytes>, i: int,
      k: int, m: Marks)
    requires |values| == |group| && Apart(group) && Known(group, i) && Known(group, k) && i != k
    requires Touches(fs, fs', group[i].value) && m.names == group[k].value
    ensures Stands(fs0, fs, m, values[k]) ==> Stands(fs0, fs', m, values[k])
    ensures Effective(fs', m.names) == Effective(fs, m.names)
    ensures At(fs', m.names.destination) == At(fs, m.names.destination)
    ensures At(fs', m.names.backup) == At(fs, m.names.backup)
    ensures At(fs', m.names.staging) == At(fs, m.names.staging)
  {
    GroupDisjoint(group, i, k);
    assert At(fs', m.names.destination) == At(fs, m.names.destination);
    assert At(fs', m.names.backup) == At(fs, m.names.backup);
    assert At(fs', m.names.staging) == At(fs, m.names.staging);
  }

  // After an operation on file `i`, every other file is where it was.
  lemma GroupKept(
      fs0: Files, fs: Files, fs': Files, ms: seq<Marks>, group: seq<Option<Names>>,
      values: seq<Bytes>, from: nat, kept: set<int>, i: int)
    requires Tracks(ms, group) && from <= |ms| && |values| == |group| && Apart(group) && Known(group, i)
    requires AllStand(fs0, fs, ms, group, values, from, kept) && Touches(fs, fs', group[i].value)
    ensures forall k | 0 <= k < from && k != i :: Stands(fs0, fs', ms[k], values[k])
    ensures forall k | Known(group, k) && from <= k && k != i ::
              Found(fs0, fs', group[k].value, values[k], k in kept)
  {
    hide Stands, Effective, Touches, Separate, DistinctDestinations;
    forall k | 0 <= k < from && k != i
      ensures Stands(fs0, fs', ms[k], values[k])
    {
      OthersKept(fs0, fs, fs', group, values, i, k, ms[k]);
    }
    forall k | Known(group, k) && from <= k && k != i
      ensures Found(fs0, fs', group[k].value, values[k], k in kept)
    {
      OthersKept(fs0, fs, fs', group, values, i, k, Marks(group[k].value, false, false, false));
    }
  }

  lemma UntouchedKept(
      fs0: Files, fs: Files, fs': Files, group: seq<Option<Names>>, values: seq<Bytes>, at: nat, from: nat, i: nat)
    requires |values| == |group| && Apart(group) && Known(group, i) && i < from && at <= from
    requires Untouched(fs0, fs, group, at) && Touches(fs, fs', group[i].value)
    ensures Untouched(fs0, fs', group, from)
  {
    hide Touches, Separate, DistinctDestinations, Stands;
    forall k | Known(group, k) && from <= k
      ensures At(fs', group[k].value.destination) == At(fs0, group[k].value.destination)
      ensures At(fs', group[k].value.backup) == At(fs0, group[k].value.backup)
    {
      OthersKept(fs0, fs, fs', group, values, i, k, Marks(group[k].value, false, false, false));
    }
  }
}
