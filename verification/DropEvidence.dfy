// Which drops a record of drop evidence speaks of. Every drop gets a number, and beside each counter
// stands the set of the drops counted in it; the counters themselves are those of the accounting.
module DropEvidence {
  import opened Common
  import opened DropAccounting

  // The sets of drops behind one pair taken from the counters.
  datatype Pair = Pair(chunks: set<nat>, bytes: set<nat>)

  // `sizes` holds the bytes of every drop; `ids` the drop each thread is recording, the worker
  // last; `chunks` and `bytes` the drops in the counters; `swapped` those taken by a first swap;
  // `gone` those in pairs taken before; `pairs` lists these.
  datatype Labels = Labels(
    sizes: seq<nat>, ids: seq<nat>, chunks: set<nat>, bytes: set<nat>, swapped: set<nat>,
    gone: Pair, pairs: seq<Pair>)

  // All threads that record drops.
  function Threads(s: State): (ts: seq<Thread>)
    ensures |ts| == |s.producers| + 1
  {
    s.producers + [if s.worker.Recording? then s.worker.drop else Idle]
  }

  // ---- What a step does to the labels ----

  function Begun(l: Labels, k: nat, n: nat): Labels
    requires k < |l.ids|
  {
    l.(sizes := l.sizes + [n], ids := l.ids[k := |l.sizes|])
  }

  function Counted(l: Labels, t: Thread, id: nat): Labels {
    match t
    case Idle => l
    case Dropping(_) => l.(chunks := l.chunks + {id})
    case HalfCounted(_) => l.(bytes := l.bytes + {id})
  }

  function TookChunks(l: Labels): Labels { l.(swapped := l.chunks, chunks := {}) }

  function TookBytes(l: Labels): Labels {
    l.(swapped := {}, bytes := {}, gone := Pair(l.gone.chunks + l.swapped, l.gone.bytes + l.bytes),
       pairs := l.pairs + [Pair(l.swapped, l.bytes)])
  }

  function Relabel(s: State, l: Labels, step: Step): Labels
    requires |l.ids| == |s.producers| + 1
  {
    match step
    case Offer(i, n, refused) =>
      if i < |s.producers| && s.producers[i].Idle? && (refused || |s.channel| >= QUEUE_CAPACITY) then Begun(l, i, n)
      else l
    case Record(i) => if i < |s.producers| then Counted(l, s.producers[i], l.ids[i]) else l
    case Admit(refused) =>
      if s.worker.Holding? && refused then Begun(l, |s.producers|, s.worker.bytes) else l
    case WorkerRecord => if s.worker.Recording? then Counted(l, s.worker.drop, l.ids[|s.producers|]) else l
    case SwapChunks => if s.worker.Ready? then TookChunks(l) else l
    case SwapBytes(_) => if s.worker.Swapped? then TookBytes(l) else l
    case _ => l
  }

  // ---- What the labels always satisfy ----

  predicate ChunkStands(l: Labels, id: nat) { id in l.chunks || id in l.swapped || id in l.gone.chunks }

  predicate BytesStand(l: Labels, id: nat) { id in l.bytes || id in l.gone.bytes }

  // What is known of the drop a thread is recording.
  predicate Active(l: Labels, t: Thread, id: nat) {
    && id < |l.sizes| && !BytesStand(l, id)
    && (t.Dropping? ==> l.sizes[id] == t.bytes && !ChunkStands(l, id))
    && (t.HalfCounted? ==> l.sizes[id] == t.bytes && ChunkStands(l, id))
  }

  ghost predicate Recorder(ts: seq<Thread>, l: Labels, id: nat)
    requires |l.ids| == |ts|
  {
    exists k | 0 <= k < |ts| :: !ts[k].Idle? && l.ids[k] == id
  }

  ghost predicate Good(ts: seq<Thread>, l: Labels) {
    && |l.ids| == |ts|
    && (forall k | 0 <= k < |ts| && !ts[k].Idle? :: Active(l, ts[k], l.ids[k]))
    && (forall j, k | 0 <= j < k < |ts| && !ts[j].Idle? && !ts[k].Idle? :: l.ids[j] != l.ids[k])
    && (forall id: nat | id < |l.sizes| :: Recorder(ts, l, id) || (ChunkStands(l, id) && BytesStand(l, id)))
    && (forall id: nat | ChunkStands(l, id) || BytesStand(l, id) :: id < |l.sizes|)
    && l.chunks !! l.swapped && l.chunks !! l.gone.chunks && l.swapped !! l.gone.chunks && l.bytes !! l.gone.bytes
  }

  lemma BeginGood(ts: seq<Thread>, l: Labels, k: nat, n: nat)
    requires Good(ts, l) && k < |ts| && ts[k].Idle?
    ensures Good(ts[k := Dropping(n)], Begun(l, k, n))
  {
    var (ts', l', new_) := (ts[k := Dropping(n)], Begun(l, k, n), |l.sizes|);
    assert !ChunkStands(l, new_) && !BytesStand(l, new_);
    forall id: nat | id < |l'.sizes| ensures Recorder(ts', l', id) || (ChunkStands(l', id) && BytesStand(l', id)) {
      if id == new_ {
        assert !ts'[k].Idle? && l'.ids[k] == id;
      } else if Recorder(ts, l, id) {
        var j :| 0 <= j < |ts| && !ts[j].Idle? && l.ids[j] == id;
        assert !ts'[j].Idle? && l'.ids[j] == id;
      }
    }
    forall id: nat | ChunkStands(l', id) || BytesStand(l', id) ensures id < |l'.sizes| {
      assert ChunkStands(l, id) || BytesStand(l, id);
    }
    forall j | 0 <= j < |ts'| && !ts'[j].Idle? ensures Active(l', ts'[j], l'.ids[j]) {
      if j != k { assert Active(l, ts[j], l.ids[j]); }
    }
  }

  // One atomic addition.
  function Moved(t: Thread): Thread { if t.Dropping? then HalfCounted(t.bytes) else Idle }

  lemma CountGood(ts: seq<Thread>, l: Labels, k: nat)
    requires Good(ts, l) && k < |ts|
    ensures Good(ts[k := Moved(ts[k])], Counted(l, ts[k], l.ids[k]))
  {
    if ts[k].Idle? {
      assert ts[k := Moved(ts[k])] == ts;
    } else {
      var (ts', l', mine) := (ts[k := Moved(ts[k])], Counted(l, ts[k], l.ids[k]), l.ids[k]);
      assert Active(l, ts[k], mine);
      forall id: nat | id < |l'.sizes| ensures Recorder(ts', l', id) || (ChunkStands(l', id) && BytesStand(l', id)) {
        if id == mine {
          assert ts[k].Dropping? ==> !ts'[k].Idle? && l'.ids[k] == id;
        } else if Recorder(ts, l, id) {
          var j :| 0 <= j < |ts| && !ts[j].Idle? && l.ids[j] == id;
          assert !ts'[j].Idle? && l'.ids[j] == id;
        }
      }
      forall id: nat | ChunkStands(l', id) || BytesStand(l', id) ensures id < |l'.sizes| {
        assert id == mine || ChunkStands(l, id) || BytesStand(l, id);
      }
      forall j | 0 <= j < |ts'| && !ts'[j].Idle? ensures Active(l', ts'[j], l'.ids[j]) {
        assert Active(l, ts[j], l.ids[j]);
        assert j != k ==> l.ids[j] != mine;
      }
    }
  }

  lemma TakeGood(ts: seq<Thread>, l: Labels)
    requires Good(ts, l)
    ensures l.swapped == {} ==> Good(ts, TookChunks(l))
    ensures Good(ts, TookBytes(l))
  {
    KeepStanding(ts, l, TookBytes(l));
    if l.swapped == {} { KeepStanding(ts, l, TookChunks(l)); }
  }

  // Labels under which the same drops stand.
  lemma KeepStanding(ts: seq<Thread>, l: Labels, l': Labels)
    requires Good(ts, l) && l'.sizes == l.sizes && l'.ids == l.ids
    requires forall id: nat :: ChunkStands(l', id) == ChunkStands(l, id)
    requires forall id: nat :: BytesStand(l', id) == BytesStand(l, id)
    requires l'.chunks !! l'.swapped && l'.chunks !! l'.gone.chunks && l'.swapped !! l'.gone.chunks
    requires l'.bytes !! l'.gone.bytes
    ensures Good(ts, l')
  {
    hide ChunkStands, BytesStand;
    forall j | 0 <= j < |ts| && !ts[j].Idle? ensures Active(l', ts[j], l'.ids[j]) { assert Active(l, ts[j], l.ids[j]); }
    forall id: nat | id < |l'.sizes| ensures Recorder(ts, l', id) || (ChunkStands(l', id) && BytesStand(l', id)) {
      if Recorder(ts, l, id) {
        var j :| 0 <= j < |ts| && !ts[j].Idle? && l.ids[j] == id;
        assert !ts[j].Idle? && l'.ids[j] == id;
      }
    }
  }

  ghost predicate Labelled(s: State, l: Labels) {
    && Good(Threads(s), l) && (!s.worker.Swapped? ==> l.swapped == {})
    && (s.worker.Recording? ==> !s.worker.drop.Idle?)
  }

  lemma StepLabelled(s: State, l: Labels, step: Step)
    requires Labelled(s, l)
    ensures |l.ids| == |s.producers| + 1 && Labelled(Next(s, step), Relabel(s, l, step))
  {
    hide Good;
    GoodIds(Threads(s), l);
    var (ts, s') := (Threads(s), Next(s, step));
    match step {
      case Offer(i, n, refused) =>
        if i < |s.producers| && s.producers[i].Idle? && (refused || |s.channel| >= QUEUE_CAPACITY) {
          BeginGood(ts, l, i, n);
          assert Threads(s') == ts[i := Dropping(n)];
        }
      case Record(i) =>
        if i < |s.producers| {
          CountGood(ts, l, i);
          assert Threads(s') == ts[i := Moved(ts[i])];
        }
      case Admit(refused) =>
        if s.worker.Holding? && refused {
          BeginGood(ts, l, |s.producers|, s.worker.bytes);
          assert Threads(s') == ts[|s.producers| := Dropping(s.worker.bytes)];
        }
      case WorkerRecord =>
        if s.worker.Recording? {
          CountGood(ts, l, |s.producers|);
          assert Threads(s') == ts[|s.producers| := Moved(s.worker.drop)];
        }
      case SwapChunks => TakeGood(ts, l);
      case SwapBytes(_) => TakeGood(ts, l);
      case Receive =>
      case Accept(_) =>
    }
  }

  lemma GoodIds(ts: seq<Thread>, l: Labels)
    requires Good(ts, l)
    ensures |l.ids| == |ts|
  {
  }

  // ---- The sets are what the counters count ----

  // The bytes of the drops in a set.
  function Total(sizes: seq<nat>, of: set<nat>): nat {
    if sizes == [] then 0
    else
      var n := |sizes| - 1;
      Total(sizes[..n], of) + (if n in of then sizes[n] else 0)
  }

  lemma {:induction false} TotalWith(sizes: seq<nat>, of: set<nat>, id: nat)
    requires id < |sizes| && id !in of
    ensures Total(sizes, of + {id}) == Total(sizes, of) + sizes[id]
    decreases |sizes|
  {
    var n := |sizes| - 1;
    if id < n { TotalWith(sizes[..n], of, id); } else { TotalBelow(sizes[..n], of, id); }
  }

  lemma {:induction false} TotalBelow(sizes: seq<nat>, of: set<nat>, id: nat)
    requires |sizes| <= id
    ensures Total(sizes, of + {id}) == Total(sizes, of)
    decreases |sizes|
  {
    if sizes != [] { TotalBelow(sizes[..|sizes| - 1], of, id); }
  }

  lemma {:induction false} TotalNone(sizes: seq<nat>)
    ensures Total(sizes, {}) == 0
  {
    if sizes != [] { TotalNone(sizes[..|sizes| - 1]); }
  }

  ghost predicate Matches(s: State, l: Labels) {
    && s.counted.chunks == |l.chunks| && s.counted.bytes == Total(l.sizes, l.bytes)
    && (s.worker.Swapped? ==> s.worker.chunks == |l.swapped|)
  }

  lemma BeginMatches(l: Labels, k: nat, n: nat)
    requires k < |l.ids| && |l.sizes| !in l.bytes
    ensures Total(Begun(l, k, n).sizes, l.bytes) == Total(l.sizes, l.bytes)
  {
    assert (l.sizes + [n])[..|l.sizes|] == l.sizes;
  }

  // The addition that a thread is about to make does not saturate.
  lemma CountMatches(ts: seq<Thread>, l: Labels, k: nat, counted: Tally)
    requires Good(ts, l) && k < |ts| && counted == Tally(|l.chunks|, Total(l.sizes, l.bytes))
    requires ts[k].Dropping? ==> counted.chunks + 1 <= U64_MAX
    requires ts[k].HalfCounted? ==> counted.bytes + ts[k].bytes <= U64_MAX
    ensures var l' := Counted(l, ts[k], l.ids[k]);
            Recorded(ts[k], counted).1 == Tally(|l'.chunks|, Total(l'.sizes, l'.bytes))
  {
    if !ts[k].Idle? {
      assert Active(l, ts[k], l.ids[k]);
      if ts[k].HalfCounted? { TotalWith(l.sizes, l.bytes, l.ids[k]); }
    }
  }

  // What a thread has still to count is among what was offered.
  lemma RoomToCount(s: State, k: nat)
    requires Conserved(s) && Countable(s) && k < |Threads(s)|
    ensures var t := Threads(s)[k];
            && (t.Dropping? ==> s.counted.chunks + 1 <= U64_MAX)
            && (t.HalfCounted? ==> s.counted.bytes + t.bytes <= U64_MAX)
  {
    if k < |s.producers| {
      ThreadMoves(s.producers, k, Idle, OwesChunks);
      ThreadMoves(s.producers, k, Idle, OwesBytes);
    }
  }

  lemma FreshNumber(ts: seq<Thread>, l: Labels)
    requires Good(ts, l)
    ensures |l.sizes| !in l.bytes
  {
    assert BytesStand(l, |l.sizes|) ==> |l.sizes| < |l.sizes|;
  }

  lemma StepMatches(s: State, l: Labels, step: Step)
    requires Labelled(s, l) && Matches(s, l) && Conserved(s) && Countable(s)
    ensures |l.ids| == |s.producers| + 1 && Matches(Next(s, step), Relabel(s, l, step))
  {
    hide Good, Total, Conserved;
    var ts := Threads(s);
    GoodIds(ts, l);
    FreshNumber(ts, l);
    match step {
      case Offer(i, n, refused) => if i < |s.producers| { BeginMatches(l, i, n); }
      case Record(i) =>
        if i < |s.producers| {
          RoomToCount(s, i);
          CountMatches(ts, l, i, s.counted);
        }
      case Admit(refused) => if s.worker.Holding? { BeginMatches(l, |s.producers|, s.worker.bytes); }
      case WorkerRecord =>
        if s.worker.Recording? {
          RoomToCount(s, |s.producers|);
          CountMatches(ts, l, |s.producers|, s.counted);
        }
      case SwapChunks =>
      case SwapBytes(_) => TotalNone(l.sizes);
      case Receive =>
      case Accept(_) =>
    }
  }

  // ---- Runs ----

  ghost predicate Sound(s: State, l: Labels) { Labelled(s, l) && Matches(s, l) && Conserved(s) }

  ghost function LabelsAfter(s: State, l: Labels, steps: seq<Step>): Labels
    requires Labelled(s, l)
    decreases |steps|
  {
    if steps == [] then l
    else
      StepLabelled(s, l, steps[0]);
      LabelsAfter(Next(s, steps[0]), Relabel(s, l, steps[0]), steps[1..])
  }

  lemma NothingLabelled(count: nat, l: Labels)
    requires l == Labels([], seq(count + 1, _ => 0), {}, {}, {}, Pair({}, {}), [])
    ensures Labelled(Start(count), l)
  {
    assert forall k | 0 <= k < |Threads(Start(count))| :: Threads(Start(count))[k].Idle?;
  }

  ghost function StartLabels(count: nat): (l: Labels)
    ensures Labelled(Start(count), l)
  {
    var l := Labels([], seq(count + 1, _ => 0), {}, {}, {}, Pair({}, {}), []);
    NothingLabelled(count, l);
    l
  }

  lemma StartSound(count: nat)
    ensures Sound(Start(count), StartLabels(count))
  {
    StartConserved(count);
  }

  lemma {:induction false} RunSound(s: State, l: Labels, steps: seq<Step>)
    requires Sound(s, l) && Countable(Run(s, steps))
    ensures Sound(Run(s, steps), LabelsAfter(s, l, steps))
    decreases |steps|
  {
    hide Labelled, Matches, Conserved, Next, Relabel;
    if steps != [] {
      OfferedNeverShrinks(Next(s, steps[0]), steps[1..]);
      OfferedGrows(s, steps[0]);
      StepLabelled(s, l, steps[0]);
      StepMatches(s, l, steps[0]);
      StepConserves(s, steps[0]);
      RunSound(Next(s, steps[0]), Relabel(s, l, steps[0]), steps[1..]);
    }
  }

  // ---- When a record is whole ----

  // Between the two swaps the worker does nothing else: drops are only added.
  lemma {:induction false} BetweenSwaps(s: State, l: Labels, steps: seq<Step>)
    requires Labelled(s, l) && s.worker.Swapped? && forall i | 0 <= i < |steps| :: !steps[i].SwapBytes?
    ensures var (s', l') := (Run(s, steps), LabelsAfter(s, l, steps));
            && Labelled(s', l') && s'.worker == s.worker && l'.swapped == l.swapped && l'.gone == l.gone
            && l'.pairs == l.pairs && l.bytes <= l'.bytes
    decreases |steps|
  {
    hide Labelled;
    if steps != [] {
      StepLabelled(s, l, steps[0]);
      BetweenSwaps(Next(s, steps[0]), Relabel(s, l, steps[0]), steps[1..]);
    }
  }

  // The drops that are half counted, of those whose chunk stands in the counter.
  ghost function Halves(ts: seq<Thread>, l: Labels): set<nat>
    requires |l.ids| == |ts|
  {
    set k | 0 <= k < |ts| && ts[k].HalfCounted? && l.ids[k] in l.chunks :: l.ids[k]
  }

  // Nothing of a drop that was reported in part is waiting: no chunk whose bytes are gone and no
  // bytes whose chunk is gone.
  ghost predicate NothingTorn(l: Labels) { l.chunks !! l.gone.bytes && l.bytes !! l.gone.chunks }

  // A chunk in the counter is half counted, or its bytes stand in the other counter or are gone.
  lemma ChunkCases(ts: seq<Thread>, l: Labels, id: nat)
    requires Good(ts, l) && id in l.chunks
    ensures id in Halves(ts, l) || id in l.bytes || id in l.gone.bytes
    ensures id in Halves(ts, l) ==> id !in l.bytes && id !in l.gone.bytes
  {
    assert ChunkStands(l, id);
    if Recorder(ts, l, id) {
      var k :| 0 <= k < |ts| && !ts[k].Idle? && l.ids[k] == id;
      assert Active(l, ts[k], l.ids[k]);
    }
    if id in Halves(ts, l) {
      var k :| 0 <= k < |ts| && ts[k].HalfCounted? && l.ids[k] in l.chunks && l.ids[k] == id;
      assert Active(l, ts[k], l.ids[k]);
    }
  }

  lemma BytesCases(ts: seq<Thread>, l: Labels, id: nat)
    requires Good(ts, l) && l.swapped == {} && id in l.bytes
    ensures id in l.chunks || id in l.gone.chunks
  {
    assert BytesStand(l, id);
  }

  // The pair speaks of one set of drops exactly when nothing torn was waiting and the byte
  // additions between the swaps are those of the drops half counted at the first one.
  lemma WholeExactly(ts: seq<Thread>, l: Labels, bytes: set<nat>)
    requires Good(ts, l) && l.swapped == {} && l.bytes <= bytes && bytes !! l.gone.bytes
    ensures l.chunks == bytes <==> NothingTorn(l) && bytes - l.bytes == Halves(ts, l)
  {
    hide Good;
    GoodIds(ts, l);
    forall id: nat | id in l.chunks
      ensures id in Halves(ts, l) || id in l.bytes || id in l.gone.bytes
      ensures id in Halves(ts, l) ==> id !in l.bytes && id !in l.gone.bytes
    {
      ChunkCases(ts, l, id);
    }
    forall id: nat | id in l.bytes ensures id in l.chunks || id in l.gone.chunks { BytesCases(ts, l, id); }
    ChunksNotGone(ts, l);
    assert Halves(ts, l) <= l.chunks;
    if NothingTorn(l) && bytes - l.bytes == Halves(ts, l) {
      assert forall id | id in bytes :: id in l.bytes || id in bytes - l.bytes;
      assert forall id | id in l.chunks :: id in bytes;
    }
    if l.chunks == bytes {
      assert forall id | id in bytes - l.bytes :: id in Halves(ts, l);
      assert forall id | id in Halves(ts, l) :: id in bytes - l.bytes;
    }
  }

  lemma ChunksNotGone(ts: seq<Thread>, l: Labels)
    requires Good(ts, l)
    ensures l.chunks !! l.gone.chunks
  {
  }

  // In every run, for every record: the numbers taken are those of two sets of drops, and the two
  // are the same set exactly under that condition.
  lemma RecordIsWholeExactly(count: nat, before: seq<Step>, between: seq<Step>)
    requires Run(Start(count), before).worker.Ready? && forall i | 0 <= i < |between| :: !between[i].SwapBytes?
    requires Countable(Run(Next(Run(Start(count), before), SwapChunks), between))
    ensures var (s, l) := (Run(Start(count), before), LabelsAfter(Start(count), StartLabels(count), before));
            && Labelled(s, l) && |l.ids| == |Threads(s)|
            && Labelled(Next(s, SwapChunks), Relabel(s, l, SwapChunks))
            && var (s', l') := (Run(Next(s, SwapChunks), between),
                                LabelsAfter(Next(s, SwapChunks), Relabel(s, l, SwapChunks), between));
               && s'.worker.Swapped? && l'.swapped == l.chunks
               && Tally(s'.worker.chunks, s'.counted.bytes) == Tally(|l.chunks|, Total(l'.sizes, l'.bytes))
               && (l.chunks == l'.bytes <==> NothingTorn(l) && l'.bytes - l.bytes == Halves(Threads(s), l))
  {
    hide Good, Matches, Conserved, Total, Halves, NothingTorn, Run, LabelsAfter;
    StartSound(count);
    var (s0, l0) := (Start(count), StartLabels(count));
    var (s, l) := (Run(s0, before), LabelsAfter(s0, l0, before));
    OfferedNeverShrinks(Next(s, SwapChunks), between);
    RunSound(s0, l0, before);
    GoodIds(Threads(s), l);
    StepLabelled(s, l, SwapChunks);
    StepMatches(s, l, SwapChunks);
    StepConserves(s, SwapChunks);
    var (s1, l1) := (Next(s, SwapChunks), Relabel(s, l, SwapChunks));
    RunSound(s1, l1, between);
    BetweenSwaps(s1, l1, between);
    var (s', l') := (Run(s1, between), LabelsAfter(s1, l1, between));
    assert s'.worker.chunks == |l'.swapped| && s'.counted.bytes == Total(l'.sizes, l'.bytes) by { MatchesHere(s', l'); }
    BytesNotGone(Threads(s'), l');
    WholeExactly(Threads(s), l, l'.bytes);
  }

  lemma MatchesHere(s: State, l: Labels)
    requires Matches(s, l) && s.worker.Swapped?
    ensures s.worker.chunks == |l.swapped| && s.counted.bytes == Total(l.sizes, l.bytes)
  {
  }

  lemma BytesNotGone(ts: seq<Thread>, l: Labels)
    requires Good(ts, l)
    ensures l.bytes !! l.gone.bytes
  {
  }

  // ---- Whole records leave nothing torn behind ----

  ghost predicate Clean(ts: seq<Thread>, l: Labels)
    requires |l.ids| == |ts|
  {
    NothingTorn(l) && forall k | 0 <= k < |ts| && ts[k].HalfCounted? :: l.ids[k] !in l.gone.chunks
  }

  lemma CountClean(ts: seq<Thread>, l: Labels, k: nat)
    requires Good(ts, l) && Clean(ts, l) && k < |ts|
    ensures Clean(ts[k := Moved(ts[k])], Counted(l, ts[k], l.ids[k]))
  {
    if !ts[k].Idle? { assert Active(l, ts[k], l.ids[k]); }
  }

  lemma TakeClean(ts: seq<Thread>, l: Labels)
    requires Good(ts, l) && Clean(ts, l) && l.swapped == l.bytes
    ensures Clean(ts, TookBytes(l))
  {
    forall k | 0 <= k < |ts| && ts[k].HalfCounted? ensures l.ids[k] !in TookBytes(l).gone.chunks {
      assert Active(l, ts[k], l.ids[k]);
    }
  }

  lemma StepClean(s: State, l: Labels, step: Step)
    requires Labelled(s, l) && |l.ids| == |Threads(s)| && Clean(Threads(s), l)
    requires step.SwapBytes? && s.worker.Swapped? ==> l.swapped == l.bytes
    ensures var l' := Relabel(s, l, step); |l'.ids| == |Threads(Next(s, step))| && Clean(Threads(Next(s, step)), l')
  {
    hide Good;
    var (ts, s') := (Threads(s), Next(s, step));
    StepLabelled(s, l, step);
    GoodIds(Threads(s'), Relabel(s, l, step));
    match step {
      case Offer(i, n, refused) =>
      case Record(i) =>
        if i < |s.producers| {
          CountClean(ts, l, i);
          assert Threads(s') == ts[i := Moved(ts[i])];
        }
      case Admit(refused) =>
      case WorkerRecord =>
        if s.worker.Recording? {
          CountClean(ts, l, |s.producers|);
          assert Threads(s') == ts[|s.producers| := Moved(s.worker.drop)];
        }
      case SwapChunks =>
      case SwapBytes(_) => if s.worker.Swapped? { TakeClean(ts, l); }
      case Receive =>
      case Accept(_) =>
    }
  }

  predicate WholePair(p: Pair) { p.chunks == p.bytes }

  lemma {:induction false} PairsGrow(s: State, l: Labels, steps: seq<Step>)
    requires Labelled(s, l)
    ensures l.pairs <= LabelsAfter(s, l, steps).pairs
    decreases |steps|
  {
    hide Labelled, Next;
    if steps != [] {
      StepLabelled(s, l, steps[0]);
      PairsGrow(Next(s, steps[0]), Relabel(s, l, steps[0]), steps[1..]);
    }
  }

  // As long as every record taken was whole, nothing torn is waiting.
  lemma {:induction false} RunClean(s: State, l: Labels, steps: seq<Step>)
    requires Labelled(s, l) && |l.ids| == |Threads(s)| && Clean(Threads(s), l)
    requires var pairs := LabelsAfter(s, l, steps).pairs; forall i | |l.pairs| <= i < |pairs| :: WholePair(pairs[i])
    ensures var (s', l') := (Run(s, steps), LabelsAfter(s, l, steps));
            |l'.ids| == |Threads(s')| && Clean(Threads(s'), l') && NothingTorn(l')
    decreases |steps|
  {
    hide Clean, Next, NothingTorn, Good;
    if steps == [] {
      CleanIs(Threads(s), l);
    } else {
      StepLabelled(s, l, steps[0]);
      var (s1, l1) := (Next(s, steps[0]), Relabel(s, l, steps[0]));
      PairsGrow(s1, l1, steps[1..]);
      if steps[0].SwapBytes? && s.worker.Swapped? {
        assert l1.pairs == l.pairs + [Pair(l.swapped, l.bytes)];
        assert l1.pairs[|l.pairs|] == LabelsAfter(s, l, steps).pairs[|l.pairs|];
        assert WholePair(LabelsAfter(s, l, steps).pairs[|l.pairs|]);
      }
      StepClean(s, l, steps[0]);
      assert |l.pairs| <= |l1.pairs|;
      var pairs := LabelsAfter(s, l, steps).pairs;
      assert LabelsAfter(s1, l1, steps[1..]).pairs == pairs;
      assert forall i | |l1.pairs| <= i < |pairs| :: WholePair(pairs[i]);
      RunClean(s1, l1, steps[1..]);
    }
  }

  lemma CleanIs(ts: seq<Thread>, l: Labels)
    requires |l.ids| == |ts| && Clean(ts, l)
    ensures NothingTorn(l)
  {
  }

  // From the start on, while no record was torn, the next one is whole exactly when the byte
  // additions between its swaps are those of the drops half counted at the first swap.
  lemma NextRecordIsWhole(count: nat, before: seq<Step>, between: seq<Step>)
    requires Run(Start(count), before).worker.Ready? && forall i | 0 <= i < |between| :: !between[i].SwapBytes?
    requires Countable(Run(Next(Run(Start(count), before), SwapChunks), between))
    requires var l := LabelsAfter(Start(count), StartLabels(count), before);
             forall i | 0 <= i < |l.pairs| :: WholePair(l.pairs[i])
    ensures var (s, l) := (Run(Start(count), before), LabelsAfter(Start(count), StartLabels(count), before));
            && Labelled(s, l) && |l.ids| == |Threads(s)|
            && Labelled(Next(s, SwapChunks), Relabel(s, l, SwapChunks))
            && var l' := LabelsAfter(Next(s, SwapChunks), Relabel(s, l, SwapChunks), between);
               l.chunks == l'.bytes <==> l'.bytes - l.bytes == Halves(Threads(s), l)
  {
    hide Good, Halves, NothingTorn, LabelsAfter, Run, Countable, Relabel;
    RecordIsWholeExactly(count, before, between);
    assert Clean(Threads(Start(count)), StartLabels(count)) by { StartClean(count); }
    RunClean(Start(count), StartLabels(count), before);
  }

  lemma StartClean(count: nat)
    ensures |StartLabels(count).ids| == |Threads(Start(count))| && Clean(Threads(Start(count)), StartLabels(count))
  {
  }

  // A thread that is half counted at the first swap does no harm if it finishes before the second.
  lemma HalfCountedCanBeWhole(n: nat)
    requires 0 < n <= U64_MAX
    ensures Run(Start(1), [Offer(0, n, true), Record(0), SwapChunks, Record(0), SwapBytes(true)]).evidence
            == [Tally(1, n)]
  {
    var steps := [Offer(0, n, true), Record(0), SwapChunks, Record(0), SwapBytes(true)];
    var s0 := Start(1);
    var s1 := s0.(offered := Tally(1, n), producers := [Dropping(n)]);
    var s2 := s1.(producers := [HalfCounted(n)], counted := Tally(1, 0));
    var s3 := s2.(worker := Swapped(1), counted := Tally(0, 0));
    var s4 := s3.(producers := [Idle], counted := Tally(0, n));
    var s5 := s4.(worker := Ready, counted := Tally(0, 0), reported := Tally(1, n), evidence := [Tally(1, n)]);
    assert s0.producers[0 := Dropping(n)] == [Dropping(n)];
    TwoStepsOn(s0, steps, 0, s1, s2);
    TwoStepsOn(s2, steps, 2, s3, s4);
    assert steps[4..][1..] == [] && steps[0..] == steps;
    assert Run(s4, steps[4..]) == Run(s5, []);
  }
}
