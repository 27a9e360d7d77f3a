// Choosing the records of the next batch and encoding it.
module LogBatch {
  import opened Common
  import opened LogRecords

  const MAX_BATCH_RECORDS: nat := 32
  const MAX_BATCH_BYTES: nat := 262144

  // The head of a sink's chain: the next sequence number and the hash to link to.
  datatype Chain = Chain(next: nat, hash: Option<string>)

  datatype Batch = Batch(
    start: nat, end: nat, previous: Option<string>, createdAt: string, origin: Origin,
    records: seq<Record>, id: Option<string>)

  // The canonical encoding and its digest are only used through a length and a name.
  datatype Codec = Codec(size: Batch -> nat, digest: Batch -> string)

  function WithoutId(chain: Chain, records: seq<Record>, o: Origin, at: string): Option<Batch> {
    if records == [] || chain.next + (|records| - 1) > U64_MAX then None
    else Some(Batch(chain.next, chain.next + (|records| - 1), chain.hash, at, o, records, None))
  }

  // The records the batch may draw on: the leading ones of one origin, at most 32.
  function FrontRun(pending: seq<Record>, o: Origin, limit: nat): (r: seq<Record>)
    ensures r <= pending && |r| <= limit && AllOf(r, o)
    ensures |r| < limit && |r| < |pending| ==> pending[|r|].origin != o
  {
    if pending == [] || limit == 0 || pending[0].origin != o then []
    else [pending[0]] + FrontRun(pending[1..], o, limit - 1)
  }

  predicate Oversized(c: Codec, b: Batch) { c.size(b) > MAX_BATCH_BYTES }

  // How many leading records of `run` to take, given that `n` have been; `None` on overflow of
  // the sequence. `clock` gives the successive readings of the time.
  function Grow(c: Codec, chain: Chain, run: seq<Record>, o: Origin, clock: nat -> string, n: nat): (r: Option<nat>)
    requires n <= |run|
    ensures r.Some? ==> n <= r.value <= |run|
    decreases |run| - n
  {
    if n == |run| then Some(n)
    else
      match WithoutId(chain, run[..n + 1], o, clock(n))
      case None => None
      case Some(b) => if Oversized(c, b) then Some(n) else Grow(c, chain, run, o, clock, n + 1)
  }

  function Build(c: Codec, chain: Chain, pending: seq<Record>, clock: nat -> string): Option<Batch> {
    if pending == [] then None
    else
      var o := pending[0].origin;
      var run := FrontRun(pending, o, MAX_BATCH_RECORDS);
      match Grow(c, chain, run, o, clock, 0)
      case None => None
      case Some(n) =>
        if n == 0 then None
        else
          match WithoutId(chain, run[..n], o, clock(n))
          case None => None
          case Some(bare) =>
            var b := bare.(id := Some(c.digest(bare)));
            if Oversized(c, b) then None else Some(b)
  }

  // The loop of `build_batch`.
  method BuildBatch(c: Codec, chain: Chain, pending: seq<Record>, clock: nat -> string)
    returns (r: Option<Batch>)
    ensures r == Build(c, chain, pending, clock)
  {
    if pending == [] { return None; }
    var o := pending[0].origin;
    var run := FrontRun(pending, o, MAX_BATCH_RECORDS);
    var selected: seq<Record> := [];
    while |selected| < |run|
      invariant |selected| <= |run| && selected == run[..|selected|]
      invariant Grow(c, chain, run, o, clock, |selected|) == Grow(c, chain, run, o, clock, 0)
      decreases |run| - |selected|
    {
      ghost var n := |selected|;
      var reading := clock(|selected|);
      selected := selected + [run[|selected|]];
      assert selected == run[..n + 1];
      var candidate := WithoutId(chain, selected, o, reading);
      if candidate.None? { return None; }
      if Oversized(c, candidate.value) {
        selected := selected[..|selected| - 1];
        assert selected == run[..n];
        break;
      }
    }
    assert Grow(c, chain, run, o, clock, 0) == Some(|selected|);
    if selected == [] { return None; }
    var bare := WithoutId(chain, selected, o, clock(|selected|));
    if bare.None? { return None; }
    var b := bare.value.(id := Some(c.digest(bare.value)));
    if Oversized(c, b) { return None; }
    return Some(b);
  }

  // A batch of one origin whose sequence numbers count its records.
  predicate WellFormed(b: Batch) {
    0 < |b.records| <= MAX_BATCH_RECORDS && AllOf(b.records, b.origin) && b.end == b.start + |b.records| - 1
  }

  // A built batch is the front of the queue, numbered and linked from the chain head.
  lemma BuildFront(c: Codec, chain: Chain, pending: seq<Record>, clock: nat -> string)
    requires Build(c, chain, pending, clock).Some?
    ensures var b := Build(c, chain, pending, clock).value;
            && WellFormed(b) && b.records <= pending && b.origin == pending[0].origin
            && b.start == chain.next && b.end <= U64_MAX && b.previous == chain.hash
            && c.size(b) <= MAX_BATCH_BYTES
  {
    var o := pending[0].origin;
    var run := FrontRun(pending, o, MAX_BATCH_RECORDS);
    var n := Grow(c, chain, run, o, clock, 0).value;
    assert forall i | 0 <= i < n :: run[..n][i] == run[i];
    assert run[..n] <= run;
  }

  // Greedy selection: every shorter candidate fits, and the next longer one, if the origin and
  // the record limit allow one, is too large.
  lemma {:induction false} GrowIsMaximal(
      c: Codec, chain: Chain, run: seq<Record>, o: Origin, clock: nat -> string, n: nat)
    requires n <= |run| && Grow(c, chain, run, o, clock, n).Some?
    ensures var k := Grow(c, chain, run, o, clock, n).value;
            && (forall j | n <= j < k ::
                  var b := WithoutId(chain, run[..j + 1], o, clock(j)); b.Some? && !Oversized(c, b.value))
            && (k < |run| ==>
                  var b := WithoutId(chain, run[..k + 1], o, clock(k)); b.Some? && Oversized(c, b.value))
    decreases |run| - n
  {
    if n < |run| {
      var b := WithoutId(chain, run[..n + 1], o, clock(n)).value;
      if !Oversized(c, b) { GrowIsMaximal(c, chain, run, o, clock, n + 1); }
    }
  }

  // ---- When building succeeds ----

  // The batch over these records, without regard to the range of sequence numbers.
  function Bare(chain: Chain, records: seq<Record>, o: Origin, at: string): Batch
    requires records != []
  {
    Batch(chain.next, chain.next + (|records| - 1), chain.hash, at, o, records, None)
  }

  // How many leading records fit one after the other, from the `n`th on.
  function Fitting(c: Codec, chain: Chain, run: seq<Record>, o: Origin, clock: nat -> string, n: nat): (m: nat)
    requires n <= |run|
    ensures n <= m <= |run|
    decreases |run| - n
  {
    if n == |run| || Oversized(c, Bare(chain, run[..n + 1], o, clock(n))) then n
    else Fitting(c, chain, run, o, clock, n + 1)
  }

  // The loop looks at one record more than it takes, and each look needs a sequence number.
  lemma {:induction false} GrowExactly(
      c: Codec, chain: Chain, run: seq<Record>, o: Origin, clock: nat -> string, n: nat)
    requires n < |run|
    ensures var m := Fitting(c, chain, run, o, clock, n);
            Grow(c, chain, run, o, clock, n) ==
            if chain.next + Min(m, |run| - 1) <= U64_MAX then Some(m) else None
    decreases |run| - n
  {
    assert |run[..n + 1]| == n + 1;
    if n + 1 < |run| { GrowExactly(c, chain, run, o, clock, n + 1); }
  }

  // Naming a batch adds a fixed number of bytes: the key, the punctuation, the prefix and 64 digits.
  ghost predicate NameCosts(c: Codec, k: nat) {
    forall b: Batch | b.id.None? :: c.size(b.(id := Some(c.digest(b)))) == c.size(b) + k
  }

  const NAME_BYTES: nat := 79

  // What building selects from a queue.
  function Selection(c: Codec, chain: Chain, pending: seq<Record>, clock: nat -> string): (r: seq<Record>)
    ensures r <= pending
  {
    if pending == [] then []
    else
      var run := FrontRun(pending, pending[0].origin, MAX_BATCH_RECORDS);
      run[..Fitting(c, chain, run, pending[0].origin, clock, 0)]
  }

  // The highest sequence number the selection needs, counting the record it stops at.
  function LastLooked(c: Codec, chain: Chain, pending: seq<Record>, clock: nat -> string): nat
    requires pending != []
  {
    var run := FrontRun(pending, pending[0].origin, MAX_BATCH_RECORDS);
    chain.next + Min(|Selection(c, chain, pending, clock)|, |run| - 1)
  }

  // Building succeeds exactly when there is a record, the first one fits, the numbering does not
  // overflow, and the selection still fits with the name.
  lemma BuildSucceedsExactly(c: Codec, k: nat, chain: Chain, pending: seq<Record>, clock: nat -> string)
    requires NameCosts(c, k)
    ensures var chosen := Selection(c, chain, pending, clock);
            Build(c, chain, pending, clock).Some? <==>
            && chosen != [] && LastLooked(c, chain, pending, clock) <= U64_MAX
            && c.size(Bare(chain, chosen, pending[0].origin, clock(|chosen|))) + k <= MAX_BATCH_BYTES
  {
    hide Grow, Fitting, FrontRun, NameCosts;
    if pending != [] {
      var o := pending[0].origin;
      var run := FrontRun(pending, o, MAX_BATCH_RECORDS);
      RunStarts(pending, o);
      GrowExactly(c, chain, run, o, clock, 0);
      var n := Fitting(c, chain, run, o, clock, 0);
      assert |run[..n]| == n;
      if n > 0 { Named(c, k, Bare(chain, run[..n], o, clock(n))); }
    }
  }

  lemma RunStarts(pending: seq<Record>, o: Origin)
    requires pending != [] && pending[0].origin == o
    ensures FrontRun(pending, o, MAX_BATCH_RECORDS) != []
  {
  }

  lemma Named(c: Codec, k: nat, bare: Batch)
    requires NameCosts(c, k) && bare.id.None?
    ensures c.size(bare.(id := Some(c.digest(bare)))) == c.size(bare) + k
  {
  }

  // ---- The window that the name opens ----

  // Timestamps have a fixed length and the size depends on nothing else of them.
  const TIMESTAMP_BYTES: nat := 24

  ghost predicate Ticks(clock: nat -> string) { forall i: nat :: |clock(i)| == TIMESTAMP_BYTES }

  ghost predicate Timeless(c: Codec) {
    forall b: Batch, t: string | |t| == |b.createdAt| :: c.size(b.(createdAt := t)) == c.size(b)
  }

  lemma SameSize(c: Codec, chain: Chain, records: seq<Record>, o: Origin, t: string, t': string)
    requires Timeless(c) && records != [] && |t| == |t'|
    ensures c.size(Bare(chain, records, o, t)) == c.size(Bare(chain, records, o, t'))
  {
    assert Bare(chain, records, o, t).(createdAt := t') == Bare(chain, records, o, t');
  }

  lemma {:induction false} FittingTimeless(
      c: Codec, chain: Chain, run: seq<Record>, o: Origin, clock: nat -> string, clock': nat -> string, n: nat)
    requires Timeless(c) && Ticks(clock) && Ticks(clock') && n <= |run|
    ensures Fitting(c, chain, run, o, clock, n) == Fitting(c, chain, run, o, clock', n)
    decreases |run| - n
  {
    if n < |run| {
      SameSize(c, chain, run[..n + 1], o, clock(n), clock'(n));
      FittingTimeless(c, chain, run, o, clock, clock', n + 1);
    }
  }

  lemma {:induction false} FittingFits(
      c: Codec, chain: Chain, run: seq<Record>, o: Origin, clock: nat -> string, n: nat)
    requires n <= |run|
    ensures var m := Fitting(c, chain, run, o, clock, n);
            m > n ==> !Oversized(c, Bare(chain, run[..m], o, clock(m - 1)))
    decreases |run| - n
  {
    if n < |run| && !Oversized(c, Bare(chain, run[..n + 1], o, clock(n))) {
      FittingFits(c, chain, run, o, clock, n + 1);
      assert Fitting(c, chain, run, o, clock, n) == Fitting(c, chain, run, o, clock, n + 1);
    }
  }

  // The unnamed size of the selection lies within a name's length of the limit.
  predicate InWindow(c: Codec, k: nat, chain: Chain, pending: seq<Record>, clock: nat -> string) {
    var chosen := Selection(c, chain, pending, clock);
    && chosen != []
    && MAX_BATCH_BYTES - k < c.size(Bare(chain, chosen, pending[0].origin, clock(|chosen|))) <= MAX_BATCH_BYTES
  }

  // If a record can be selected and numbered, building fails exactly in that window.
  lemma FailsInWindow(c: Codec, k: nat, chain: Chain, pending: seq<Record>, clock: nat -> string)
    requires NameCosts(c, k) && Timeless(c) && Ticks(clock)
    requires Selection(c, chain, pending, clock) != [] && LastLooked(c, chain, pending, clock) <= U64_MAX
    ensures Build(c, chain, pending, clock).None? <==> InWindow(c, k, chain, pending, clock)
  {
    hide Fitting, FrontRun, Build, NameCosts, Timeless;
    BuildSucceedsExactly(c, k, chain, pending, clock);
    var o := pending[0].origin;
    var run := FrontRun(pending, o, MAX_BATCH_RECORDS);
    var m := Fitting(c, chain, run, o, clock, 0);
    FittingFits(c, chain, run, o, clock, 0);
    SameSize(c, chain, run[..m], o, clock(m - 1), clock(m));
  }

  // The window does not depend on the time: a queue that hits it is hit at every attempt.
  lemma WindowStays(c: Codec, k: nat, chain: Chain, pending: seq<Record>, clock: nat -> string, clock': nat -> string)
    requires NameCosts(c, k) && Timeless(c) && Ticks(clock) && Ticks(clock') && InWindow(c, k, chain, pending, clock)
    ensures InWindow(c, k, chain, pending, clock') && Build(c, chain, pending, clock').None?
  {
    hide Fitting, FrontRun, Build, NameCosts, Timeless;
    var o := pending[0].origin;
    var run := FrontRun(pending, o, MAX_BATCH_RECORDS);
    FittingTimeless(c, chain, run, o, clock, clock', 0);
    var chosen := Selection(c, chain, pending, clock);
    SameSize(c, chain, chosen, o, clock(|chosen|), clock'(|chosen|));
    BuildSucceedsExactly(c, k, chain, pending, clock');
  }

  // ---- The window is hit ----

  function ValueBytes(records: seq<Record>): nat {
    if records == [] then 0 else |records[0].value| + ValueBytes(records[1..])
  }

  // An encoding that grows with what it encodes: a frame, every record, and the name.
  function Plain(frame: nat): Codec {
    Codec((b: Batch) => frame + ValueBytes(b.records) + (if b.id.Some? then NAME_BYTES else 0),
          (b: Batch) => "0x")
  }

  lemma PlainIsRegular(frame: nat)
    ensures NameCosts(Plain(frame), NAME_BYTES) && Timeless(Plain(frame))
  {
  }

  lemma {:induction false} ValuePrefix(records: seq<Record>, n: nat)
    requires n <= |records|
    ensures ValueBytes(records[..n]) <= ValueBytes(records)
    decreases |records|
  {
    if n > 0 {
      ValuePrefix(records[1..], n - 1);
      assert records[..n][1..] == records[1..][..n - 1];
    }
  }

  lemma {:induction false} AllFit(frame: nat, chain: Chain, run: seq<Record>, o: Origin, clock: nat -> string, n: nat)
    requires frame + ValueBytes(run) <= MAX_BATCH_BYTES && n <= |run|
    ensures Fitting(Plain(frame), chain, run, o, clock, n) == |run|
    decreases |run| - n
  {
    if n < |run| {
      ValuePrefix(run, n + 1);
      AllFit(frame, chain, run, o, clock, n + 1);
    }
  }

  lemma {:induction false} WholeRun(records: seq<Record>, o: Origin, limit: nat)
    requires AllOf(records, o) && |records| <= limit
    ensures FrontRun(records, o, limit) == records
    decreases |records|
  {
    if records != [] { WholeRun(records[1..], o, limit - 1); }
  }

  // Any queue of at most 32 records of one origin whose encoding ends just below the limit cannot
  // be built, now or later: for instance 20 records of 13056 bytes in a frame of 1000.
  lemma NameCanOverflowBatch(frame: nat, chain: Chain, pending: seq<Record>, o: Origin, clock: nat -> string)
    requires 0 < |pending| <= MAX_BATCH_RECORDS && AllOf(pending, o) && Ticks(clock)
    requires MAX_BATCH_BYTES - NAME_BYTES < frame + ValueBytes(pending) <= MAX_BATCH_BYTES
    ensures InWindow(Plain(frame), NAME_BYTES, chain, pending, clock)
    ensures Build(Plain(frame), chain, pending, clock).None?
  {
    hide Build;
    PlainIsRegular(frame);
    WholeRun(pending, o, MAX_BATCH_RECORDS);
    AllFit(frame, chain, pending, o, clock, 0);
    assert pending[..|pending|] == pending;
    WindowStays(Plain(frame), NAME_BYTES, chain, pending, clock, clock);
  }
}
