// Installing a group of secret files. Every system call may fail, and the process may die
// before any of them; both are nondeterministic choices, so a contract speaks of every run.
module SecretFiles {
  import opened Common
  import opened SecretNames
  import opened SecretGroup

  datatype Outcome = Done | Failed | Died

  // The regular files below the root and the system calls that change them.
  class Kernel {
    var files: Files

    constructor (initial: Files)
      ensures files == initial
    {
      files := initial;
    }

    method Pick() returns (o: Outcome) {
      if * { o := Done; } else if * { o := Failed; } else { o := Died; }
    }

    method Stat(e: Entry) returns (o: Outcome, present: bool)
      ensures o == Done ==> present == (e in files)
    {
      o := Pick();
      present := e in files;
    }

    method Rename(source: Entry, target: Entry, noReplace: bool) returns (o: Outcome)
      modifies this
      ensures o == Done ==>
                && source in old(files) && (noReplace ==> target !in old(files))
                && files == Moved(old(files), source, target)
      ensures o != Done ==> files == old(files)
    {
      o := Pick();
      if o == Done {
        if source !in files || (noReplace && target in files) { return Failed; }
        files := Moved(files, source, target);
      }
    }

    // A missing entry is not an error.
    method Unlink(e: Entry) returns (o: Outcome)
      modifies this
      ensures files == if o == Done then old(files) - {e} else old(files)
    {
      o := Pick();
      if o == Done { files := files - {e}; }
    }

    // Exclusive creation of an empty file.
    method Create(e: Entry) returns (o: Outcome)
      modifies this
      ensures o == Done ==> e !in old(files) && files == old(files)[e := []]
      ensures o != Done ==> files == old(files)
    {
      o := Pick();
      if o == Done {
        if e in files { return Failed; }
        files := files[e := []];
      }
    }

    // An interrupted write may leave any content.
    method Fill(e: Entry, value: Bytes) returns (o: Outcome, ghost left: Bytes)
      modifies this
      ensures files == old(files)[e := left] && (o == Done ==> left == value)
    {
      o := Pick();
      var content: Bytes := *;
      if o == Done { content := value; }
      left := content;
      files := files[e := content];
    }
  }

  class PreparedFile {
    const names: Names
    var staged: bool
    var backedUp: bool
    var committed: bool

    constructor (names: Names)
      ensures this.names == names && Progress() == Marks(names, false, false, false)
    {
      this.names := names;
      staged, backedUp, committed := false, false, false;
    }

    ghost function Progress(): Marks
      reads this
    {
      Marks(names, staged, backedUp, committed)
    }

    method Write(kernel: Kernel, value: Bytes) returns (o: Outcome, ghost left: Bytes)
      requires !staged
      modifies this`staged, kernel
      ensures staged ==>
                names.staging !in old(kernel.files) && kernel.files == old(kernel.files)[names.staging := left]
      ensures !staged ==> kernel.files == old(kernel.files)
      ensures o == Done ==> staged && left == value
    {
      left := value;
      o := kernel.Create(names.staging);
      if o == Done {
        staged := true;
        o, left := kernel.Fill(names.staging, value);
      }
    }

    method Commit(kernel: Kernel) returns (o: Outcome)
      requires staged && !backedUp && !committed
      modifies this, kernel
      ensures CommitResult(old(Progress()), old(kernel.files), Progress(), kernel.files)
      ensures o == Done ==> committed
    {
      var present: bool;
      o, present := kernel.Stat(names.destination);
      if o != Done { return; }
      if present {
        o := kernel.Rename(names.destination, names.backup, true);
        if o != Done { return; }
        backedUp := true;
      }
      o := kernel.Rename(names.staging, names.destination, false);
      if o != Done { return; }
      staged := false;
      committed := true;
      o := kernel.Pick();
    }

    method Rollback(kernel: Kernel) returns (o: Outcome)
      modifies kernel
      ensures UndoStage(Progress(), old(kernel.files), kernel.files)
      ensures o == Done ==> kernel.files == Undo(Progress(), old(kernel.files))
    {
      if committed {
        o := kernel.Unlink(names.destination);
        if o != Done { return; }
      }
      if backedUp {
        o := kernel.Rename(names.backup, names.destination, false);
        if o != Done { return; }
      }
      if staged {
        o := kernel.Unlink(names.staging);
        if o != Done { return; }
      }
      o := kernel.Pick();
    }
  }

  // Resolves the path and recovers what an interrupted earlier installation left behind.
  method Prepare(kernel: Kernel, identity: string -> string, path: string)
    returns (o: Outcome, file: PreparedFile?)
    modifies kernel
    ensures o == Done <==> file != null
    ensures file != null ==>
              && fresh(file) && NamesOf(identity, path) == Some(file.names)
              && file.Progress() == Marks(file.names, false, false, false)
              && kernel.files == Recovered(old(kernel.files), file.names)
    ensures o != Done && kernel.files != old(kernel.files) ==>
              && NamesOf(identity, path).Some?
              && kernel.files == Restored(old(kernel.files), NamesOf(identity, path).value)
  {
    file := null;
    var resolved := NamesOf(identity, path);
    if resolved.None? { return Failed, null; }
    var names := resolved.value;
    o := kernel.Pick();
    if o != Done { return; }
    var present: bool;
    o, present := kernel.Stat(names.destination);
    if o != Done { return; }
    o, present := kernel.Stat(names.backup);
    if o != Done { return; }
    if present {
      o := kernel.Rename(names.backup, names.destination, false);
      if o != Done { return; }
    }
    o, present := kernel.Stat(names.staging);
    if o != Done { return; }
    if present {
      o := kernel.Unlink(names.staging);
      if o != Done { return; }
    }
    file := new PreparedFile(names);
  }

  // How an installation ended. `RolledBack` is the original error, `RollbackFailed` the rollback
  // error, `CleanupFailed` the installation error of the last loop, `Crashed` the process's end.
  datatype Report = Installed | RolledBack | RollbackFailed | CleanupFailed | Crashed

  // The handles in a list are different objects whose progress is `ms`.
  ghost predicate Handles(prepared: seq<PreparedFile>, ms: seq<Marks>)
    reads prepared
  {
    && |prepared| == |ms|
    && (forall i, j | 0 <= i < j < |prepared| :: prepared[i] != prepared[j])
    && (forall i | 0 <= i < |prepared| :: prepared[i].Progress() == ms[i])
  }

  // The invariant of the first two loops, for a clean start and for distinct destinations.
  ghost predicate Underway(
      fs0: Files, fs: Files, ms: seq<Marks>, group: seq<Option<Names>>, values: seq<Bytes>)
    requires |values| == |group|
  {
    && Tracks(ms, group) && Outside(fs0, fs, group)
    && (Separate(group) && Clean(fs0, group) ==> Undoable(fs0, fs, ms, group))
    && (Separate(group) ==> Pooled(fs0, fs, group, values, |ms|))
    && (Apart(group) ==> AllStand(fs0, fs, ms, group, values, |ms|, {}))
  }

  // The contents still waiting to be committed are complete.
  ghost predicate Complete(
      fs: Files, group: seq<Option<Names>>, values: seq<Bytes>, from: nat, to: nat)
    requires |values| == |group|
  {
    forall k | Known(group, k) && from <= k < to :: At(fs, group[k].value.staging) == Some(values[k])
  }

  lemma Starts(fs0: Files, group: seq<Option<Names>>, values: seq<Bytes>)
    requires |values| == |group|
    ensures Underway(fs0, fs0, [], group, values) && Untouched(fs0, fs0, group, 0)
    ensures Complete(fs0, group, values, 0, 0)
  {
    hide Pooled, Found;
    PoolStarts(fs0, group, values);
    forall k | Known(group, k) ensures Found(fs0, fs0, group[k].value, values[k], false) {
      NotChanged(fs0, group[k].value, values[k]);
    }
  }

  lemma NotChanged(fs: Files, n: Names, v: Bytes)
    ensures Found(fs, fs, n, v, false)
  {
  }

  // A failed `prepare` leaves the invariant as it was.
  lemma PrepareStopped(
      fs0: Files, fs: Files, fs': Files, ms: seq<Marks>, group: seq<Option<Names>>, values: seq<Bytes>)
    requires |values| == |group| && Underway(fs0, fs, ms, group, values) && |ms| < |group|
    requires Apart(group) ==> Untouched(fs0, fs, group, |ms|)
    requires fs' == fs || (Known(group, |ms|) && fs' == Restored(fs, group[|ms|].value))
    ensures Underway(fs0, fs', ms, group, values)
  {
    hide Touches, Undoable, Outside, Separate, DistinctDestinations, Clean, Found, Stands, Untouched, Pooled, Restored;
    if fs' != fs {
      var i := |ms|;
      RecoverTouches(fs, group[i].value);
      if Apart(group) { UntouchedAt(fs0, fs, group, i); }
      OutsideKept(fs0, fs, fs', group, i);
      if Separate(group) { PoolPrepared(fs0, fs, fs', group, values, i); }
      if Separate(group) && Clean(fs0, group) { PreparedUndoable(fs0, fs, ms, group); }
      if Apart(group) {
        GroupKept(fs0, fs, fs', ms, group, values, i, {}, i);
        OwnNamesDiffer(group, i);
        RecoveredStands(fs0, fs, group[i].value, values[i]);
      }
    }
  }

  lemma RecoverTouches(fs: Files, n: Names)
    ensures Touches(fs, Recovered(fs, n), n) && Touches(fs, Restored(fs, n), n)
  {
  }

  lemma UntouchedAt(fs0: Files, fs: Files, group: seq<Option<Names>>, i: nat)
    requires Untouched(fs0, fs, group, i) && Known(group, i)
    ensures At(fs, group[i].value.destination) == At(fs0, group[i].value.destination)
    ensures At(fs, group[i].value.backup) == At(fs0, group[i].value.backup)
  {
  }

  lemma PrepareDone(
      fs0: Files, fs: Files, ms: seq<Marks>, group: seq<Option<Names>>, values: seq<Bytes>)
    requires |values| == |group| && Underway(fs0, fs, ms, group, values) && Known(group, |ms|)
    requires Apart(group) ==> Untouched(fs0, fs, group, |ms|)
    ensures var (n, fs') := (group[|ms|].value, Recovered(fs, group[|ms|].value));
            var ms' := ms + [Marks(n, false, false, false)];
            && Underway(fs0, fs', ms', group, values)
            && (Apart(group) ==> Untouched(fs0, fs', group, |ms'|))
  {
    hide Recovered, Touches, Undoable, Outside, Separate, DistinctDestinations, Clean, Found, Stands, Untouched, Pooled;
    var (i, n, fs') := (|ms|, group[|ms|].value, Recovered(fs, group[|ms|].value));
    var ms' := ms + [Marks(n, false, false, false)];
    RecoverTouches(fs, n);
    OutsideKept(fs0, fs, fs', group, i);
    if Separate(group) { PoolPrepared(fs0, fs, fs', group, values, i); }
    if Separate(group) && Clean(fs0, group) { PreparedUndoable(fs0, fs, ms, group); }
    if Apart(group) {
      GroupKept(fs0, fs, fs', ms, group, values, i, {}, i);
      OwnNamesDiffer(group, i);
      UntouchedAt(fs0, fs, group, i);
      RecoveredStands(fs0, fs, n, values[i]);
      UntouchedKept(fs0, fs, fs', group, values, i, i + 1, i);
    }
  }

  lemma WriteStarted(
      fs0: Files, fs: Files, ms: seq<Marks>, group: seq<Option<Names>>, values: seq<Bytes>, left: Bytes)
    requires |values| == |group| && ms != [] && Underway(fs0, fs, ms, group, values)
    requires Apart(group) ==> Untouched(fs0, fs, group, |ms|)
    requires var m := ms[|ms| - 1];
             !m.staged && !m.backedUp && !m.committed && m.names.staging !in fs
    ensures var (i, m) := (|ms| - 1, ms[|ms| - 1]);
            var (ms', fs') := (ms[i := m.(staged := true)], fs[m.names.staging := left]);
            && Underway(fs0, fs', ms', group, values)
            && (Apart(group) ==> Untouched(fs0, fs', group, |ms'|))
  {
    hide Undoable, Outside, Separate, DistinctDestinations, Clean, Found, Stands, Untouched, Pooled, Touches;
    var (i, m) := (|ms| - 1, ms[|ms| - 1]);
    var (ms', fs') := (ms[i := m.(staged := true)], fs[m.names.staging := left]);
    assert Known(group, i) && m.names == group[i].value;
    FillTouches(fs, m, left);
    OutsideKept(fs0, fs, fs', group, i);
    if Separate(group) {
      OwnNamesDiffer(group, i);
      PoolMoved(fs0, fs, fs', group, values, |ms|, i);
    }
    if Separate(group) && Clean(fs0, group) { StagedUndoable(fs0, fs, ms, group, left); }
    if Apart(group) {
      GroupKept(fs0, fs, fs', ms, group, values, |ms|, {}, i);
      FillStands(fs0, fs, m, values[i], left);
      UntouchedKept(fs0, fs, fs', group, values, |ms|, |ms|, i);
    }
  }

  lemma FillTouches(fs: Files, m: Marks, left: Bytes)
    ensures Touches(fs, fs[m.names.staging := left], m.names)
  {
  }

  lemma FillStands(fs0: Files, fs: Files, m: Marks, v: Bytes, left: Bytes)
    requires Stands(fs0, fs, m, v) && !m.staged && !m.backedUp && !m.committed
    requires m.names.staging != m.names.destination && m.names.staging != m.names.backup
    ensures Stands(fs0, fs[m.names.staging := left], m.(staged := true), v)
  {
  }

  lemma StagedComplete(
      before: Files, fs: Files, group: seq<Option<Names>>, values: seq<Bytes>, i: nat)
    requires |values| == |group| && Separate(group) && Known(group, i)
    requires Complete(before, group, values, 0, i)
    requires var n := group[i].value; fs == Recovered(before, n)[n.staging := values[i]]
    ensures Complete(fs, group, values, 0, i + 1)
  {
    var n := group[i].value;
    assert Touches(before, fs, n);
    forall k | Known(group, k) && 0 <= k < i + 1
      ensures At(fs, group[k].value.staging) == Some(values[k])
    {
      if k != i { SeparateKept(before, fs, group, i, k); }
    }
  }

  lemma CommitTouches(m: Marks, fs: Files, m': Marks, fs': Files)
    requires CommitResult(m, fs, m', fs')
    ensures Touches(fs, fs', m.names) && m'.names == m.names
  {
  }

  lemma CommitTried(
      fs0: Files, fs: Files, ms: seq<Marks>, group: seq<Option<Names>>, values: seq<Bytes>,
      i: nat, m: Marks, fs': Files)
    requires |values| == |group| == |ms| && i < |ms| && Underway(fs0, fs, ms, group, values)
    requires OnlyStaged(ms[i..]) && CommitResult(ms[i], fs, m, fs')
    requires Separate(group) ==> Complete(fs, group, values, i, |group|)
    ensures Underway(fs0, fs', ms[i := m], group, values)
    ensures Separate(group) ==> Complete(fs', group, values, i + 1, |group|)
  {
    hide CommitResult, Touches, Stands, Undoable, Outside, Separate, DistinctDestinations, Clean, Found, Pooled;
    assert ms[i..][0] == ms[i] && Known(group, i) && ms[i].names == group[i].value;
    CommitTouches(ms[i], fs, m, fs');
    OutsideKept(fs0, fs, fs', group, i);
    if Separate(group) && Clean(fs0, group) { CommittedUndoable(fs0, fs, ms, group, i, m, fs'); }
    if Apart(group) {
      GroupKept(fs0, fs, fs', ms, group, values, |ms|, {}, i);
      OwnNamesDiffer(group, i);
      CommitStands(fs0, fs, ms[i], values[i], m, fs');
    }
    if Separate(group) {
      CommitPooled(fs0, fs, fs', group, values, ms[i], m, i);
      forall k | Known(group, k) && i < k < |group|
        ensures At(fs', group[k].value.staging) == Some(values[k])
      {
        SeparateKept(fs, fs', group, i, k);
      }
    }
  }

  // One round of the first loop: prepare and write the next file.
  method StageOne(
      kernel: Kernel, identity: string -> string, path: string, value: Bytes,
      ghost fs0: Files, ghost group: seq<Option<Names>>, ghost values: seq<Bytes>, ghost ms: seq<Marks>)
    returns (o: Outcome, file: PreparedFile?)
    requires |values| == |group| && |ms| < |group| && Underway(fs0, kernel.files, ms, group, values)
    requires group[|ms|] == NamesOf(identity, path) && values[|ms|] == value
    requires Apart(group) ==> Untouched(fs0, kernel.files, group, |ms|)
    requires Separate(group) ==> Complete(kernel.files, group, values, 0, |ms|)
    modifies kernel
    ensures file == null ==> o != Done && Underway(fs0, kernel.files, ms, group, values)
    ensures file != null ==>
              fresh(file) && Underway(fs0, kernel.files, ms + [file.Progress()], group, values)
    ensures file != null ==> !file.committed
    ensures o == Done ==> file != null && file.staged && !file.backedUp && !file.committed
    ensures o == Done && Apart(group) ==> Untouched(fs0, kernel.files, group, |ms| + 1)
    ensures o == Done && Separate(group) ==> Complete(kernel.files, group, values, 0, |ms| + 1)
  {
    hide Underway, Untouched, Apart, Separate, Complete, Recovered, Restored, NamesOf;
    ghost var before := kernel.files;
    o, file := Prepare(kernel, identity, path);
    if file == null {
      PrepareStopped(fs0, before, kernel.files, ms, group, values);
      return;
    }
    PrepareDone(fs0, before, ms, group, values);
    ghost var (recovered, marks) := (kernel.files, ms + [file.Progress()]);
    ghost var left;
    o, left := file.Write(kernel, value);
    if file.staged {
      WriteStarted(fs0, recovered, marks, group, values, left);
      assert marks[|ms| := marks[|ms|].(staged := true)] == ms + [file.Progress()];
    }
    if Separate(group) && o == Done { StagedComplete(before, kernel.files, group, values, |ms|); }
  }

  // The first loop.
  method StageAll(kernel: Kernel, identity: string -> string, paths: seq<string>, values: seq<Bytes>)
    returns (o: Outcome, prepared: seq<PreparedFile>, ghost ms: seq<Marks>)
    requires |paths| == |values|
    modifies kernel
    ensures Handles(prepared, ms) && forall i | 0 <= i < |prepared| :: fresh(prepared[i])
    ensures Underway(old(kernel.files), kernel.files, ms, GroupOf(identity, paths), values)
    ensures CommittedTo(ms, 0)
    ensures o == Done ==> |ms| == |paths| && OnlyStaged(ms)
    ensures o == Done && Separate(GroupOf(identity, paths)) ==>
              Complete(kernel.files, GroupOf(identity, paths), values, 0, |paths|)
  {
    hide Underway, Untouched, Apart, Separate, Complete, NamesOf;
    ghost var (fs0, group) := (kernel.files, GroupOf(identity, paths));
    prepared, ms, o := [], [], Done;
    Starts(fs0, group, values);
    for i := 0 to |paths|
      invariant |prepared| == i && Handles(prepared, ms) && OnlyStaged(ms)
      invariant forall k | 0 <= k < |prepared| :: fresh(prepared[k])
      invariant Underway(fs0, kernel.files, ms, group, values)
      invariant Apart(group) ==> Untouched(fs0, kernel.files, group, i)
      invariant Separate(group) ==> Complete(kernel.files, group, values, 0, i)
    {
      var file: PreparedFile?;
      o, file := StageOne(kernel, identity, paths[i], values[i], fs0, group, values, ms);
      if file != null {
        prepared := prepared + [file];
        ms := ms + [file.Progress()];
      }
      if o != Done { return; }
    }
  }

  // The second loop: commit every file in turn. Before each commit the caller may refuse.
  method CommitAll(
      kernel: Kernel, prepared: seq<PreparedFile>,
      ghost fs0: Files, ghost group: seq<Option<Names>>, ghost values: seq<Bytes>, ghost start: seq<Marks>)
    returns (o: Outcome, ghost ms: seq<Marks>, ghost files: nat)
    requires |values| == |group| == |start| && Handles(prepared, start) && OnlyStaged(start)
    requires Underway(fs0, kernel.files, start, group, values)
    requires Separate(group) ==> Complete(kernel.files, group, values, 0, |group|)
    modifies kernel, prepared
    ensures Handles(prepared, ms) && Underway(fs0, kernel.files, ms, group, values)
    ensures |ms| == |group| && CommittedTo(ms, files)
    ensures o == Done ==> files == |ms|
    ensures Apart(group) ==> Splits(fs0, kernel.files, group, values, Committing(files))
  {
    hide Underway, Apart, Separate, Complete, CommitResult, Splits, OnlyStaged, CommittedTo;
    ms, o, files := start, Done, 0;
    assert CommittedTo(ms, 0) by { NoneCommitted(ms); }
    assert ms[0..] == ms;
    UnderwaySplits(fs0, kernel.files, ms, group, values, 0);
    for i := 0 to |prepared|
      invariant Handles(prepared, ms) && Underway(fs0, kernel.files, ms, group, values)
      invariant OnlyStaged(ms[i..]) && files == i && |ms| == |group|
      invariant CommittedTo(ms, files)
      invariant Apart(group) ==> Splits(fs0, kernel.files, group, values, Committing(files))
      invariant Separate(group) ==> Complete(kernel.files, group, values, i, |group|)
    {
      o := kernel.Pick();
      if o != Done { return; }
      ghost var before := kernel.files;
      NextStaged(ms, i);
      o := prepared[i].Commit(kernel);
      ghost var m := prepared[i].Progress();
      CommitTried(fs0, before, ms, group, values, i, m, kernel.files);
      MarksMoved(ms, i, m);
      ms := ms[i := m];
      files := if m.committed then i + 1 else i;
      UnderwaySplits(fs0, kernel.files, ms, group, values, files);
      if o != Done { return; }
    }
  }

  lemma NoneCommitted(ms: seq<Marks>)
    requires OnlyStaged(ms)
    ensures CommittedTo(ms, 0)
  {
  }

  lemma NextStaged(ms: seq<Marks>, i: nat)
    requires i < |ms| && OnlyStaged(ms[i..])
    ensures ms[i].staged && !ms[i].backedUp && !ms[i].committed
  {
    assert ms[i..][0] == ms[i];
  }

  lemma MarksMoved(ms: seq<Marks>, i: nat, m: Marks)
    requires i < |ms| && OnlyStaged(ms[i..]) && CommittedTo(ms, i)
    ensures OnlyStaged(ms[i := m][i + 1..]) && CommittedTo(ms[i := m], if m.committed then i + 1 else i)
  {
    assert ms[i := m][i + 1..] == ms[i..][1..];
  }

  // With so many files committed, recovery finds those new that had no old value.
  lemma UnderwaySplits(
      fs0: Files, fs: Files, ms: seq<Marks>, group: seq<Option<Names>>, values: seq<Bytes>, files: nat)
    requires |values| == |group| && Underway(fs0, fs, ms, group, values)
    requires CommittedTo(ms, files)
    ensures Apart(group) ==> Splits(fs0, fs, group, values, Committing(files))
  {
    hide Stands, Effective, Outside, Undoable, Separate, DistinctDestinations, Clean, Pooled;
    if Apart(group) {
      forall k | Known(group, k)
        ensures Found(fs0, fs, group[k].value, values[k], IsNew(fs0, group[k].value, Committing(files), k))
      {
        if k < |ms| { StandsFound(fs0, fs, ms[k], values[k]); }
      }
    }
  }

  lemma UndoTouches(m: Marks, fs: Files, fs': Files)
    requires UndoStage(m, fs, fs')
    ensures Touches(fs, fs', m.names)
  {
  }

  lemma RollbackTried(
      fs0: Files, fs: Files, ms: seq<Marks>, group: seq<Option<Names>>, values: seq<Bytes>,
      j: nat, kept: set<int>, fs': Files)
    requires |values| == |group| && j < |ms| && Tracks(ms, group) && Outside(fs0, fs, group)
    requires Separate(group) ==> Pooled(fs0, fs, group, values, |ms|)
    requires Apart(group) ==> AllStand(fs0, fs, ms, group, values, j + 1, kept)
    requires UndoStage(ms[j], fs, fs') && forall k | k in kept :: j < k
    ensures Outside(fs0, fs', group)
    ensures Separate(group) ==> Pooled(fs0, fs', group, values, |ms|)
    ensures var isNew := ms[j].committed && Effective(fs0, ms[j].names).None? && ms[j].names.destination in fs';
            && (Apart(group) ==> AllStand(fs0, fs', ms, group, values, j, if isNew then kept + {j} else kept))
            && (Apart(group) && fs' == Undo(ms[j], fs) ==> !isNew)
  {
    hide UndoStage, Undo, Touches, Outside, Stands, Effective, Separate, DistinctDestinations, Pooled;
    assert Known(group, j) && ms[j].names == group[j].value;
    UndoTouches(ms[j], fs, fs');
    OutsideKept(fs0, fs, fs', group, j);
    if Separate(group) { UndoPooled(fs0, fs, fs', group, values, ms[j], |ms|, j); }
    if Apart(group) {
      GroupKept(fs0, fs, fs', ms, group, values, j + 1, kept, j);
      OwnNamesDiffer(group, j);
      UndoFound(fs0, fs, ms[j], values[j], fs');
    }
  }

  // Undoing the whole group, last file first. An error does not stop the loop. `removed` are the
  // committed files whose destination has been removed again.
  method RollbackAll(
      kernel: Kernel, prepared: seq<PreparedFile>,
      ghost fs0: Files, ghost group: seq<Option<Names>>, ghost values: seq<Bytes>, ghost ms: seq<Marks>,
      ghost files: nat)
    returns (o: Outcome, ghost removed: set<int>)
    requires |values| == |group| && Handles(prepared, ms) && Underway(fs0, kernel.files, ms, group, values)
    requires CommittedTo(ms, files)
    modifies kernel
    ensures Attempt(fs0, kernel.files, group, values)
    ensures Apart(group) ==> Splits(fs0, kernel.files, group, values, RollingBack(files, removed))
    ensures o == Done && Apart(group) ==> forall k | 0 <= k < files :: k in removed
    ensures o == Done && Separate(group) && Clean(fs0, group) ==> kernel.files == fs0
  {
    hide Apart, Outside, AllStand, UndoStage, Undo, Separate, Clean, Attempt, Splits, Effective, Pooled;
    o := Done;
    ghost var kept: set<int> := {};
    assert ms[..|ms|] == ms;
    for j := |prepared| downto 0
      invariant Handles(prepared, ms) && Tracks(ms, group) && Outside(fs0, kernel.files, group)
      invariant Separate(group) ==> Pooled(fs0, kernel.files, group, values, |ms|)
      invariant Apart(group) ==> AllStand(fs0, kernel.files, ms, group, values, j, kept)
      invariant forall k | k in kept :: j <= k < |ms| && ms[k].committed && Effective(fs0, ms[k].names).None?
      invariant o != Died && (o == Done && Apart(group) ==> kept == {})
      invariant o == Done && Separate(group) && Clean(fs0, group) ==> UndoAll(ms[..j], kernel.files) == fs0
    {
      ghost var before := kernel.files;
      var one := prepared[j].Rollback(kernel);
      RollbackTried(fs0, before, ms, group, values, j, kept, kernel.files);
      assert ms[..j + 1][..j] == ms[..j];
      if ms[j].committed && Effective(fs0, ms[j].names).None? && ms[j].names.destination in kernel.files {
        kept := kept + {j};
      }
      if one == Died {
        removed := Removed(j, files, kept);
        StandsAttempt(fs0, kernel.files, ms, group, values, j, files, kept);
        return Died, removed;
      }
      if one == Failed { o := Failed; }
    }
    removed := Removed(0, files, kept);
    StandsAttempt(fs0, kernel.files, ms, group, values, 0, files, kept);
  }

  ghost function Removed(from: nat, files: nat, kept: set<int>): set<int> {
    set k | from <= k < files && k !in kept
  }

  lemma StandsAttempt(
      fs0: Files, fs: Files, ms: seq<Marks>, group: seq<Option<Names>>, values: seq<Bytes>, from: nat,
      files: nat, kept: set<int>)
    requires |values| == |group| && Tracks(ms, group) && from <= |ms| && Outside(fs0, fs, group)
    requires Separate(group) ==> Pooled(fs0, fs, group, values, |ms|)
    requires Apart(group) ==> AllStand(fs0, fs, ms, group, values, from, kept)
    requires CommittedTo(ms, files)
    requires forall k | k in kept :: from <= k < |ms| && ms[k].committed && Effective(fs0, ms[k].names).None?
    ensures Attempt(fs0, fs, group, values)
    ensures Apart(group) ==> Splits(fs0, fs, group, values, RollingBack(files, Removed(from, files, kept)))
  {
    hide Stands, Outside, Effective, Separate, DistinctDestinations, AllPooled, InPool;
    if Apart(group) {
      forall k | Known(group, k)
        ensures Found(fs0, fs, group[k].value, values[k],
                      IsNew(fs0, group[k].value, RollingBack(files, Removed(from, files, kept)), k))
      {
        if k < from { StandsFound(fs0, fs, ms[k], values[k]); }
      }
      SplitsRecoverable(fs0, fs, group, values, RollingBack(files, Removed(from, files, kept)));
    }
  }

  lemma UnderwayStopped(
      fs0: Files, fs: Files, ms: seq<Marks>, group: seq<Option<Names>>, values: seq<Bytes>, files: nat)
    requires |values| == |group| && Underway(fs0, fs, ms, group, values)
    requires CommittedTo(ms, files)
    ensures Attempt(fs0, fs, group, values)
    ensures Apart(group) ==> Splits(fs0, fs, group, values, Committing(files))
  {
    hide Stands, Outside, Effective, Separate, DistinctDestinations, Undoable, Pooled, AllPooled;
    StandsAttempt(fs0, fs, ms, group, values, |ms|, files, {});
    UnderwaySplits(fs0, fs, ms, group, values, files);
  }

  lemma SplitsRecoverable(fs0: Files, fs: Files, group: seq<Option<Names>>, values: seq<Bytes>, stop: Stop)
    requires |values| == |group| && Splits(fs0, fs, group, values, stop)
    ensures forall k | Known(group, k) :: Recoverable(fs0, fs, group[k].value, values[k])
  {
    hide Effective, IsNew;
  }

  // The new value is in place and neither staging nor backup is left.
  predicate Finished(fs: Files, n: Names, v: Bytes) {
    At(fs, n.destination) == Some(v) && n.staging !in fs && n.backup !in fs
  }

  // Files before `upTo` are finished, the others committed.
  ghost predicate Cleaning(
      fs0: Files, fs: Files, ms: seq<Marks>, group: seq<Option<Names>>, values: seq<Bytes>, upTo: nat)
    requires |values| == |group| == |ms|
  {
    && (forall k | 0 <= k < upTo && k < |ms| :: Finished(fs, ms[k].names, values[k]))
    && (forall k | upTo <= k < |ms| :: ms[k].committed && Stands(fs0, fs, ms[k], values[k]))
  }

  lemma CleaningStarts(
      fs0: Files, fs: Files, ms: seq<Marks>, group: seq<Option<Names>>, values: seq<Bytes>)
    requires |values| == |group| == |ms| && Underway(fs0, fs, ms, group, values)
    requires forall k | 0 <= k < |ms| :: ms[k].committed
    ensures Tracks(ms, group) && Outside(fs0, fs, group)
    ensures Separate(group) ==> Pooled(fs0, fs, group, values, |ms|)
    ensures Apart(group) ==> Cleaning(fs0, fs, ms, group, values, 0)
  {
    hide Pooled, Outside, Stands, Found, Undoable;
  }

  lemma CleanupStep(
      fs0: Files, fs: Files, ms: seq<Marks>, group: seq<Option<Names>>, values: seq<Bytes>, i: nat)
    requires |values| == |group| == |ms| && Tracks(ms, group) && i < |ms| && Apart(group)
    requires Cleaning(fs0, fs, ms, group, values, i)
    ensures var fs' := if ms[i].backedUp then fs - {ms[i].names.backup} else fs;
            Cleaning(fs0, fs', ms, group, values, i + 1)
  {
    var fs' := if ms[i].backedUp then fs - {ms[i].names.backup} else fs;
    assert Known(group, i) && ms[i].names == group[i].value;
    assert Touches(fs, fs', group[i].value);
    OwnNamesDiffer(group, i);
    forall k | 0 <= k < |ms| && k != i
      ensures k < i ==> Finished(fs', ms[k].names, values[k])
      ensures i < k ==> Stands(fs0, fs', ms[k], values[k])
    {
      assert Known(group, k);
      OthersKept(fs0, fs, fs', group, values, i, k, ms[k]);
    }
  }

  lemma CleaningAttempt(
      fs0: Files, fs: Files, ms: seq<Marks>, group: seq<Option<Names>>, values: seq<Bytes>, i: nat)
    requires |values| == |group| == |ms| && Tracks(ms, group) && Outside(fs0, fs, group)
    requires Separate(group) ==> Pooled(fs0, fs, group, values, |ms|)
    requires Apart(group) ==> Cleaning(fs0, fs, ms, group, values, i)
    ensures Attempt(fs0, fs, group, values)
    ensures Apart(group) ==> Splits(fs0, fs, group, values, CleaningUp(i))
    ensures Apart(group) ==>
              forall k | 0 <= k < |ms| :: At(fs, ms[k].names.destination) == Some(values[k])
  {
    hide Outside, Separate, DistinctDestinations, AllPooled, InPool;
    if Apart(group) {
      forall k | Known(group, k)
        ensures Found(fs0, fs, group[k].value, values[k], IsNew(fs0, group[k].value, CleaningUp(i), k))
      {
        if k >= i { StandsFound(fs0, fs, ms[k], values[k]); }
      }
      SplitsRecoverable(fs0, fs, group, values, CleaningUp(i));
    }
  }

  lemma RemovalPooled(
      fs0: Files, fs: Files, fs': Files, group: seq<Option<Names>>, values: seq<Bytes>, prepared: nat, i: int)
    requires |values| == |group| && Separate(group) && Known(group, i) && i < prepared
    requires Pooled(fs0, fs, group, values, prepared) && (fs' == fs || fs' == fs - {group[i].value.backup})
    ensures Pooled(fs0, fs', group, values, prepared)
  {
    hide Pooled, Separate;
    OwnNamesDiffer(group, i);
    PoolMoved(fs0, fs, fs', group, values, prepared, i);
  }

  // The last loop: remove the backups of committed files.
  method Cleanup(
      kernel: Kernel, prepared: seq<PreparedFile>,
      ghost fs0: Files, ghost group: seq<Option<Names>>, ghost values: seq<Bytes>, ghost ms: seq<Marks>)
    returns (o: Outcome, ghost files: nat)
    requires |values| == |group| == |ms| && Handles(prepared, ms)
    requires Tracks(ms, group) && Outside(fs0, kernel.files, group)
    requires Separate(group) ==> Pooled(fs0, kernel.files, group, values, |ms|)
    requires Apart(group) ==> Cleaning(fs0, kernel.files, ms, group, values, 0)
    modifies kernel
    ensures Attempt(fs0, kernel.files, group, values)
    ensures Apart(group) ==>
              forall k | 0 <= k < |ms| :: At(kernel.files, ms[k].names.destination) == Some(values[k])
    ensures Apart(group) ==> Splits(fs0, kernel.files, group, values, CleaningUp(files))
    ensures o == Done ==> files == |ms|
    ensures o == Done && Apart(group) ==>
              forall k | 0 <= k < |ms| :: Finished(kernel.files, ms[k].names, values[k])
  {
    hide Apart, Outside, Attempt, Finished, Stands, Splits, Separate, Pooled;
    o, files := Done, 0;
    for i := 0 to |prepared|
      invariant Handles(prepared, ms) && Outside(fs0, kernel.files, group)
      invariant Separate(group) ==> Pooled(fs0, kernel.files, group, values, |ms|)
      invariant Apart(group) ==> Cleaning(fs0, kernel.files, ms, group, values, i)
    {
      ghost var before := kernel.files;
      assert Known(group, i) && ms[i].names == group[i].value;
      if prepared[i].backedUp {
        o := kernel.Unlink(prepared[i].names.backup);
        if o != Done {
          CleaningAttempt(fs0, kernel.files, ms, group, values, i);
          return o, i;
        }
      }
      OutsideKept(fs0, before, kernel.files, group, i);
      if Separate(group) { RemovalPooled(fs0, before, kernel.files, group, values, |ms|, i); }
      if Apart(group) { CleanupStep(fs0, before, ms, group, values, i); }
      o := kernel.Pick();
      if o != Done {
        CleaningAttempt(fs0, kernel.files, ms, group, values, i + 1);
        return o, i + 1;
      }
    }
    CleaningAttempt(fs0, kernel.files, ms, group, values, |ms|);
    files := |ms|;
  }

  // Installs the whole group.
  method InstallAt(kernel: Kernel, identity: string -> string, paths: seq<string>, values: seq<Bytes>)
    returns (r: Report, ghost stop: Stop)
    requires |paths| == |values|
    modifies kernel
    // However the run ends, every file is recoverable as its old or its whole new value, and
    // entries outside the group are untouched. If destinations coincide, recovery finds nothing, a
    // value tried for that destination, or what it would have found under one of its spellings.
    ensures Attempt(old(kernel.files), kernel.files, GroupOf(identity, paths), values)
    // Which of the two it is follows from where the run stopped.
    ensures Apart(GroupOf(identity, paths)) ==>
              Splits(old(kernel.files), kernel.files, GroupOf(identity, paths), values, stop)
    ensures r == Installed ==> stop == CleaningUp(|paths|)
    ensures r == CleanupFailed ==> stop.CleaningUp?
    ensures r == RollbackFailed ==> stop.RollingBack?
    ensures r == RolledBack && Apart(GroupOf(identity, paths)) ==>
              stop.RollingBack? && forall k | 0 <= k < stop.files :: k in stop.removed
    // A clean start whose preparation, writing or committing fails ends as it began, even when
    // two paths share a destination.
    ensures var g := GroupOf(identity, paths);
            r == RolledBack && Separate(g) && Clean(old(kernel.files), g) ==> kernel.files == old(kernel.files)
    // Success installs every value and leaves no trace of the installation.
    ensures var g := GroupOf(identity, paths);
            r == Installed && Apart(g) ==>
              forall k | 0 <= k < |g| :: g[k].Some? && Finished(kernel.files, g[k].value, values[k])
    // An error while removing backups comes with all new values in place.
    ensures var g := GroupOf(identity, paths);
            r == CleanupFailed && Apart(g) ==>
              forall k | 0 <= k < |g| ::
                g[k].Some? && At(kernel.files, g[k].value.destination) == Some(values[k])
  {
    hide Apart, Outside, Underway, Separate, Clean, Attempt, Complete, Finished, Cleaning, NamesOf, Splits, Pooled;
    ghost var (fs0, group) := (kernel.files, GroupOf(identity, paths));
    var prepared: seq<PreparedFile>;
    ghost var ms: seq<Marks>;
    ghost var files: nat := 0;
    var o: Outcome;
    o, prepared, ms := StageAll(kernel, identity, paths, values);
    if o == Done { o, ms, files := CommitAll(kernel, prepared, fs0, group, values, ms); }
    if o == Died {
      UnderwayStopped(fs0, kernel.files, ms, group, values, files);
      return Crashed, Committing(files);
    }
    if o == Failed {
      ghost var removed;
      o, removed := RollbackAll(kernel, prepared, fs0, group, values, ms, files);
      r := if o == Done then RolledBack else if o == Failed then RollbackFailed else Crashed;
      return r, RollingBack(files, removed);
    }
    CleaningStarts(fs0, kernel.files, ms, group, values);
    o, files := Cleanup(kernel, prepared, fs0, group, values, ms);
    r := if o == Done then Installed else if o == Failed then CleanupFailed else Crashed;
    return r, CleaningUp(files);
  }

  // ---- Many starts ----

  lemma RecoveredValue(fs: Files, n: Names)
    requires n.staging != n.destination && n.backup != n.destination
    ensures At(Recovered(fs, n), n.destination) == Effective(fs, n)
  {
  }

  // One start as seen by the file with names `n`: the list of the start holds it at `at`, or holds
  // nothing that shares an entry with it.
  datatype Start = Start(group: seq<Option<Names>>, values: seq<Bytes>, at: Option<nat>)

  ghost predicate Concerns(s: Start, n: Names) {
    && |s.values| == |s.group| && Apart(s.group)
    && (s.at.Some? ==> Known(s.group, s.at.value) && s.group[s.at.value].value == n)
    && (s.at.None? ==>
          forall k | Known(s.group, k) ::
            var g := s.group[k].value; !Owns(g, n.destination) && !Owns(g, n.staging) && !Owns(g, n.backup))
  }

  // The value a start tries to install for the file, if it lists it.
  function Tried(s: Start): Option<Bytes> {
    if s.at.Some? && s.at.value < |s.values| then Some(s.values[s.at.value]) else None
  }

  // A start leaves the file as it was, or with the value it tried.
  lemma OneStart(s: Start, n: Names, fs: Files, fs': Files)
    requires Concerns(s, n) && Attempt(fs, fs', s.group, s.values)
    ensures Effective(fs', n) == Effective(fs, n) || (Tried(s).Some? && Effective(fs', n) == Tried(s))
  {
    if s.at.None? {
      assert At(fs', n.destination) == At(fs, n.destination) && At(fs', n.backup) == At(fs, n.backup);
    } else {
      assert Recoverable(fs, fs', n, s.values[s.at.value]);
    }
  }

  // After any number of starts, with whatever lists, each stopped anywhere, the next `prepare`
  // finds for a file that is never listed under two spellings the value from before all of them or
  // one of the values they tried to install for it, complete. A file that existed at the beginning
  // still does.
  lemma {:induction false} ManyStarts(states: seq<Files>, starts: seq<Start>, n: Names)
    requires |states| == |starts| + 1 && n.staging != n.destination && n.backup != n.destination
    requires forall j | 0 <= j < |starts| ::
               Concerns(starts[j], n) && Attempt(states[j], states[j + 1], starts[j].group, starts[j].values)
    ensures var found := At(Recovered(states[|starts|], n), n.destination);
            && (found == Effective(states[0], n) ||
                exists j | 0 <= j < |starts| :: Tried(starts[j]).Some? && found == Tried(starts[j]))
            && (Effective(states[0], n).Some? ==> found.Some?)
    decreases |starts|
  {
    hide Attempt, Effective, Tried, Apart, Owns;
    RecoveredValue(states[|starts|], n);
    if |starts| > 0 {
      var last := |starts| - 1;
      ManyStarts(states[..|starts|], starts[..last], n);
      RecoveredValue(states[last], n);
      OneStart(starts[last], n, states[last], states[last + 1]);
      assert forall j | 0 <= j < last :: starts[..last][j] == starts[j];
    }
  }

  // A backup left under another spelling of the same destination stays as long as no start lists
  // that spelling. The first one that does puts it over whatever has been installed since: a value
  // that was installed survives exactly if there was no such backup, or one of the same value.
  lemma OtherSpelling(fs: Files, fs': Files, group: seq<Option<Names>>, values: seq<Bytes>, other: Names)
    requires |values| == |group| && Attempt(fs, fs', group, values)
    requires forall k | Known(group, k) :: !Owns(group[k].value, other.backup)
    requires other.staging != other.destination && other.backup != other.destination
    ensures At(fs', other.backup) == At(fs, other.backup)
    ensures other.backup in fs ==> At(Recovered(fs', other), other.destination) == At(fs, other.backup)
    ensures forall i | Known(group, i) && group[i].value.destination == other.destination
                       && Finished(fs', group[i].value, values[i]) ::
              At(Recovered(fs', other), other.destination) == Some(values[i]) <==>
              other.backup !in fs || fs[other.backup] == values[i]
  {
    RecoveredValue(fs', other);
  }

  // Such a backup is left by a crash after the first rename of a commit under the other spelling. The
  // next start installs the file, and the one after it, which lists the other spelling, finds the
  // value from before both.
  lemma OtherSpellingReached(fs0: Files, a: Names, other: Names, tried: Bytes, installed: Bytes)
    requires Separate([Some(a), Some(other)]) && Clean(fs0, [Some(a), Some(other)])
    requires a.destination == other.destination && a.destination in fs0
    ensures var staged := fs0[other.staging := tried];
            var crashed := BackedUp(staged, other);
            && CommitResult(Marks(other, true, false, false), staged, Marks(other, true, true, false), crashed)
            && Recovered(crashed, a) == crashed
            && var again := crashed[a.staging := installed];
               && a.staging in BackedUp(again, a)
               && var done := Moved(BackedUp(again, a), a.staging, a.destination);
                  && CommitResult(Marks(a, true, false, false), again, Marks(a, false, false, true), done)
                  && Finished(done, a, installed)
                  && At(Recovered(done, other), other.destination) == At(fs0, other.destination)
  {
    var group := [Some(a), Some(other)];
    assert Known(group, 0) && Known(group, 1) && group[0].value == a && group[1].value == other;
    OwnNamesDiffer(group, 0);
    OwnNamesDiffer(group, 1);
    assert a.staging != other.staging && a.backup != other.backup && a.staging != other.backup;
    var again := BackedUp(fs0[other.staging := tried], other)[a.staging := installed];
    RecoveredValue(Moved(BackedUp(again, a), a.staging, a.destination), other);
  }

  // The files once two values are staged.
  function TwoStaged(fs0: Files, a: Names, b: Names, newA: Bytes, newB: Bytes): Files {
    fs0[a.staging := newA][b.staging := newB]
  }

  // A crash right after the first commit: the first file had no old value and is recovered new, the
  // second is recovered old.
  lemma CommitCrashMixesGroup(fs0: Files, a: Names, b: Names, newA: Bytes, newB: Bytes)
    requires Apart([Some(a), Some(b)]) && Clean(fs0, [Some(a), Some(b)])
    requires a.destination !in fs0 && b.destination in fs0
    ensures var fs := TwoStaged(fs0, a, b, newA, newB);
            && a.staging in fs
            && var crashed := Moved(fs, a.staging, a.destination);
               && CommitResult(Marks(a, true, false, false), fs, Marks(a, false, false, true), crashed)
               && At(Recovered(crashed, a), a.destination) == Some(newA)
               && At(Recovered(crashed, b), b.destination) == At(fs0, b.destination)
  {
    var group := [Some(a), Some(b)];
    assert Known(group, 0) && Known(group, 1) && group[0].value == a && group[1].value == b;
    GroupDisjoint(group, 0, 1);
    OwnNamesDiffer(group, 0);
    OwnNamesDiffer(group, 1);
    var crashed := Moved(TwoStaged(fs0, a, b, newA, newB), a.staging, a.destination);
    RecoveredValue(crashed, a);
    RecoveredValue(crashed, b);
  }

  // A crash between two backup removals: both files had old values and both are committed; the
  // first is recovered new and the second old.
  lemma CleanupCrashMixesGroup(fs0: Files, a: Names, b: Names, newA: Bytes, newB: Bytes)
    requires Apart([Some(a), Some(b)]) && Clean(fs0, [Some(a), Some(b)])
    requires a.destination in fs0 && b.destination in fs0
    ensures var fs := TwoStaged(fs0, a, b, newA, newB);
            && a.staging in BackedUp(fs, a)
            && var one := Moved(BackedUp(fs, a), a.staging, a.destination);
               && CommitResult(Marks(a, true, false, false), fs, Marks(a, false, true, true), one)
               && b.staging in BackedUp(one, b)
               && var both := Moved(BackedUp(one, b), b.staging, b.destination);
                  && CommitResult(Marks(b, true, false, false), one, Marks(b, false, true, true), both)
                  && var crashed := both - {a.backup};
                     && At(Recovered(crashed, a), a.destination) == Some(newA)
                     && At(Recovered(crashed, b), b.destination) == At(fs0, b.destination)
  {
    var group := [Some(a), Some(b)];
    assert Known(group, 0) && Known(group, 1) && group[0].value == a && group[1].value == b;
    GroupDisjoint(group, 0, 1);
    OwnNamesDiffer(group, 0);
    OwnNamesDiffer(group, 1);
    var one := Moved(BackedUp(TwoStaged(fs0, a, b, newA, newB), a), a.staging, a.destination);
    var both := Moved(BackedUp(one, b), b.staging, b.destination);
    RecoveredValue(both - {a.backup}, a);
    RecoveredValue(both - {a.backup}, b);
  }
}
