// Where every chunk of customer output goes. Producers record drops with two separate atomic
// additions and the worker takes them with two separate atomic swaps; all interleave freely.
module DropAccounting {
  import opened Common
  import opened Sums

  const QUEUE_CAPACITY: nat := 128

  // A thread that records a drop: nothing added yet, or the chunk but not its bytes.
  datatype Thread = Idle | Dropping(bytes: nat) | HalfCounted(bytes: nat)

  // The worker: between jobs, holding a received chunk, recording its own drop, or between the
  // two swaps of `take`.
  datatype Worker = Ready | Holding(bytes: nat) | Recording(drop: Thread) | Swapped(chunks: nat)

  datatype Tally = Tally(chunks: nat, bytes: nat)

  // `pending` are admitted chunks; `accepted` were delivered; `counted` are the two counters;
  // `reported` is the sum of all drop evidence; `lost` what failed evidence took with it.
  // `evidence` lists the pairs reported, in order.
  datatype State = State(
    offered: Tally, producers: seq<Thread>, channel: seq<nat>, worker: Worker, pending: seq<nat>,
    accepted: Tally, counted: Tally, reported: Tally, lost: Tally, evidence: seq<Tally>)

  datatype Step =
    | Offer(who: nat, bytes: nat, refused: bool)
    | Record(who: nat)
    | Receive
    | Admit(refused: bool)
    | WorkerRecord
    | SwapChunks
    | SwapBytes(sealed: bool)
    | Accept(count: nat)

  function Plus(t: Tally, chunks: nat, bytes: nat): Tally { Tally(t.chunks + chunks, t.bytes + bytes) }

  function Saturating(a: nat, b: nat): nat { Min(a + b, U64_MAX) }

  // One atomic addition of a recording thread: first the chunk, then its bytes.
  function Recorded(t: Thread, counted: Tally): (Thread, Tally) {
    match t
    case Idle => (Idle, counted)
    case Dropping(n) => (HalfCounted(n), counted.(chunks := Saturating(counted.chunks, 1)))
    case HalfCounted(n) => (Idle, counted.(bytes := Saturating(counted.bytes, n)))
  }

  function Next(s: State, step: Step): State {
    match step
    case Offer(i, n, refused) =>
      // `refused` stands for the byte budget; a full channel refuses as well.
      if i >= |s.producers| || !s.producers[i].Idle? then s
      else if refused || |s.channel| >= QUEUE_CAPACITY then
        s.(offered := Plus(s.offered, 1, n), producers := s.producers[i := Dropping(n)])
      else s.(offered := Plus(s.offered, 1, n), channel := s.channel + [n])
    case Record(i) =>
      if i >= |s.producers| then s
      else
        var (t, counted) := Recorded(s.producers[i], s.counted);
        s.(producers := s.producers[i := t], counted := counted)
    case Receive =>
      if s.worker.Ready? && s.channel != [] then
        s.(channel := s.channel[1..], worker := Holding(s.channel[0]))
      else s
    case Admit(refused) =>
      // `refused` stands for a full queue or a failed encryption.
      if !s.worker.Holding? then s
      else if refused then s.(worker := Recording(Dropping(s.worker.bytes)))
      else s.(worker := Ready, pending := s.pending + [s.worker.bytes])
    case WorkerRecord =>
      if !s.worker.Recording? then s
      else
        var (t, counted) := Recorded(s.worker.drop, s.counted);
        s.(worker := if t.Idle? then Ready else Recording(t), counted := counted)
    case SwapChunks =>
      if s.worker.Ready? then
        s.(worker := Swapped(s.counted.chunks), counted := s.counted.(chunks := 0))
      else s
    case SwapBytes(sealed) =>
      if !s.worker.Swapped? then s
      else
        var taken := Tally(s.worker.chunks, s.counted.bytes);
        var s' := s.(worker := Ready, counted := s.counted.(bytes := 0));
        if taken == Tally(0, 0) then s'
        else if sealed then
          s'.(reported := Plus(s.reported, taken.chunks, taken.bytes), evidence := s.evidence + [taken])
        else s'.(lost := Plus(s.lost, taken.chunks, taken.bytes))
    case Accept(k) =>
      if k <= |s.pending| then
        s.(pending := s.pending[k..], accepted := Plus(s.accepted, k, Sum(s.pending[..k])))
      else s
  }

  function Run(s: State, steps: seq<Step>): State
    decreases |steps|
  {
    if steps == [] then s else Run(Next(s, steps[0]), steps[1..])
  }

  // ---- What a thread still has to count ----

  function OwesChunks(t: Thread): nat { if t.Dropping? then 1 else 0 }

  function OwesBytes(t: Thread): nat { if t.Idle? then 0 else t.bytes }

  function AllOwe(ts: seq<Thread>, owes: Thread -> nat): (r: seq<nat>)
    ensures |r| == |ts| && forall i | 0 <= i < |ts| :: r[i] == owes(ts[i])
  {
    seq(|ts|, i requires 0 <= i < |ts| => owes(ts[i]))
  }

  function WorkerChunks(w: Worker): nat {
    match w
    case Ready => 0
    case Holding(_) => 1
    case Recording(t) => OwesChunks(t)
    case Swapped(c) => c
  }

  function WorkerBytes(w: Worker): nat {
    match w
    case Ready => 0
    case Holding(n) => n
    case Recording(t) => OwesBytes(t)
    case Swapped(_) => 0
  }

  function ChunksFound(s: State): nat {
    |s.channel| + |s.pending| + s.accepted.chunks + s.counted.chunks + s.reported.chunks
    + s.lost.chunks + Sum(AllOwe(s.producers, OwesChunks)) + WorkerChunks(s.worker)
  }

  function BytesFound(s: State): nat {
    Sum(s.channel) + Sum(s.pending) + s.accepted.bytes + s.counted.bytes + s.reported.bytes
    + s.lost.bytes + Sum(AllOwe(s.producers, OwesBytes)) + WorkerBytes(s.worker)
  }

  // Everything offered is somewhere, in chunks and in bytes.
  predicate Conserved(s: State) {
    s.offered.chunks == ChunksFound(s) && s.offered.bytes == BytesFound(s)
  }

  predicate Countable(s: State) { s.offered.chunks <= U64_MAX && s.offered.bytes <= U64_MAX }

  lemma ThreadMoves(ts: seq<Thread>, i: nat, t: Thread, owes: Thread -> nat)
    requires i < |ts|
    ensures Sum(AllOwe(ts[i := t], owes)) + owes(ts[i]) == Sum(AllOwe(ts, owes)) + owes(t)
    ensures owes(ts[i]) <= Sum(AllOwe(ts, owes))
  {
    assert AllOwe(ts[i := t], owes) == AllOwe(ts, owes)[i := owes(t)];
    SumUpdated(AllOwe(ts, owes), i, owes(t));
    SumAtLeast(AllOwe(ts, owes), i);
  }

  lemma SplitSum(s: seq<nat>, k: nat)
    requires k <= |s|
    ensures Sum(s) == Sum(s[..k]) + Sum(s[k..])
  {
    SumConcat(s[..k], s[k..]);
    assert s == s[..k] + s[k..];
  }

  lemma OfferConserves(s: State, i: nat, n: nat, refused: bool)
    requires Conserved(s)
    ensures Conserved(Next(s, Offer(i, n, refused)))
  {
    hide Sum, AllOwe;
    if i < |s.producers| {
      ThreadMoves(s.producers, i, Dropping(n), OwesChunks);
      ThreadMoves(s.producers, i, Dropping(n), OwesBytes);
      SumAppended(s.channel, n);
    }
  }

  lemma RecordConserves(s: State, i: nat)
    requires Conserved(s) && Countable(s)
    ensures Conserved(Next(s, Record(i)))
  {
    hide Sum, AllOwe;
    if i < |s.producers| {
      var t := Recorded(s.producers[i], s.counted).0;
      ThreadMoves(s.producers, i, t, OwesChunks);
      ThreadMoves(s.producers, i, t, OwesBytes);
    }
  }

  // The worker's own steps.
  lemma WorkerConserves(s: State, step: Step)
    requires Conserved(s) && Countable(s) && !step.Offer? && !step.Record?
    ensures Conserved(Next(s, step))
  {
    hide Sum, AllOwe;
    match step {
      case Receive => if s.channel != [] { SumFirst(s.channel); }
      case Admit(refused) => if s.worker.Holding? { SumAppended(s.pending, s.worker.bytes); }
      case WorkerRecord =>
      case SwapChunks =>
      case SwapBytes(sealed) =>
      case Accept(k) => if k <= |s.pending| { SplitSum(s.pending, k); }
    }
  }

  // While the totals fit 64 bits, the counters do not saturate and every step conserves.
  lemma StepConserves(s: State, step: Step)
    requires Conserved(s) && Countable(s)
    ensures Conserved(Next(s, step))
  {
    hide Conserved, Next;
    match step
    case Offer(i, n, refused) => OfferConserves(s, i, n, refused);
    case Record(i) => RecordConserves(s, i);
    case _ => WorkerConserves(s, step);
  }

  lemma OfferedGrows(s: State, step: Step)
    ensures s.offered.chunks <= Next(s, step).offered.chunks
    ensures s.offered.bytes <= Next(s, step).offered.bytes
  {
  }

  // In every interleaving whose totals fit 64 bits, everything offered is accounted for.
  lemma {:induction false} EveryInterleaving(s: State, steps: seq<Step>)
    requires Conserved(s) && Countable(Run(s, steps))
    ensures Conserved(Run(s, steps)) && Countable(s)
    decreases |steps|
  {
    hide Conserved, Next;
    if steps != [] {
      OfferedNeverShrinks(Next(s, steps[0]), steps[1..]);
      OfferedGrows(s, steps[0]);
      StepConserves(s, steps[0]);
      EveryInterleaving(Next(s, steps[0]), steps[1..]);
    }
  }

  lemma {:induction false} OfferedNeverShrinks(s: State, steps: seq<Step>)
    ensures s.offered.chunks <= Run(s, steps).offered.chunks
    ensures s.offered.bytes <= Run(s, steps).offered.bytes
    decreases |steps|
  {
    hide Next;
    if steps != [] {
      OfferedGrows(s, steps[0]);
      OfferedNeverShrinks(Next(s, steps[0]), steps[1..]);
    }
  }

  function Start(count: nat): State {
    State(Tally(0, 0), seq(count, _ => Idle), [], Ready, [], Tally(0, 0), Tally(0, 0), Tally(0, 0),
          Tally(0, 0), [])
  }

  lemma StartConserved(count: nat)
    ensures Conserved(Start(count))
  {
    SumZeros(AllOwe(Start(count).producers, OwesChunks));
    SumZeros(AllOwe(Start(count).producers, OwesBytes));
  }

  // From the start on, any number of producers and any schedule.
  lemma EveryRun(count: nat, steps: seq<Step>)
    requires Countable(Run(Start(count), steps))
    ensures Conserved(Run(Start(count), steps))
  {
    StartConserved(count);
    EveryInterleaving(Start(count), steps);
  }

  predicate Quiet(s: State) {
    s.worker.Ready? && forall i | 0 <= i < |s.producers| :: s.producers[i].Idle?
  }

  // Between calls the books of the code alone balance exactly when no evidence was lost to a
  // failed encryption.
  lemma QuietBooks(s: State)
    requires Conserved(s) && Quiet(s)
    ensures s.offered.chunks ==
              |s.channel| + |s.pending| + s.accepted.chunks + s.counted.chunks + s.reported.chunks
            <==> s.lost.chunks == 0
    ensures s.offered.bytes ==
              Sum(s.channel) + Sum(s.pending) + s.accepted.bytes + s.counted.bytes + s.reported.bytes
            <==> s.lost.bytes == 0
  {
    SumZeros(AllOwe(s.producers, OwesChunks));
    SumZeros(AllOwe(s.producers, OwesBytes));
  }

  // ---- Single evidence records ----

  function Chunks(ts: seq<Tally>): seq<nat> { seq(|ts|, i requires 0 <= i < |ts| => ts[i].chunks) }

  function ByteCounts(ts: seq<Tally>): seq<nat> { seq(|ts|, i requires 0 <= i < |ts| => ts[i].bytes) }

  // The reported totals are the sums of the evidence records.
  predicate EvidenceAddsUp(s: State) {
    s.reported.chunks == Sum(Chunks(s.evidence)) && s.reported.bytes == Sum(ByteCounts(s.evidence))
  }

  lemma StepAddsUp(s: State, step: Step)
    requires EvidenceAddsUp(s)
    ensures EvidenceAddsUp(Next(s, step))
  {
    hide Sum, Recorded;
    var s' := Next(s, step);
    if s'.evidence != s.evidence {
      var t := s'.evidence[|s.evidence|];
      assert Chunks(s'.evidence) == Chunks(s.evidence) + [t.chunks];
      assert ByteCounts(s'.evidence) == ByteCounts(s.evidence) + [t.bytes];
      SumAppended(Chunks(s.evidence), t.chunks);
      SumAppended(ByteCounts(s.evidence), t.bytes);
    }
  }

  // So they are in every run.
  lemma {:induction false} RunAddsUp(s: State, steps: seq<Step>)
    requires EvidenceAddsUp(s)
    ensures EvidenceAddsUp(Run(s, steps))
    decreases |steps|
  {
    hide EvidenceAddsUp, Next;
    if steps != [] {
      StepAddsUp(s, steps[0]);
      RunAddsUp(Next(s, steps[0]), steps[1..]);
    }
  }

  lemma EveryRunAddsUp(count: nat, steps: seq<Step>)
    ensures EvidenceAddsUp(Run(Start(count), steps))
  {
    assert EvidenceAddsUp(Start(count));
    RunAddsUp(Start(count), steps);
  }

  // A single record may be torn: the swaps can fall between the two additions of one drop, so
  // that one record reports the chunk without its bytes and the next the bytes without a chunk.
  lemma EvidenceCanBeTorn(n: nat)
    requires 0 < n <= U64_MAX
    ensures var s := Run(Start(1), [Offer(0, n, true), Record(0), SwapChunks, SwapBytes(true),
                                    Record(0), SwapChunks, SwapBytes(true)]);
            s.evidence == [Tally(1, 0), Tally(0, n)] && s.offered == Tally(1, n)
  {
    var steps := [Offer(0, n, true), Record(0), SwapChunks, SwapBytes(true), Record(0), SwapChunks,
                  SwapBytes(true)];
    var s0 := Start(1);
    var s1 := s0.(offered := Tally(1, n), producers := [Dropping(n)]);
    var s2 := s1.(producers := [HalfCounted(n)], counted := Tally(1, 0));
    var s3 := s2.(worker := Swapped(1), counted := Tally(0, 0));
    var s4 := s3.(worker := Ready, reported := Tally(1, 0), evidence := [Tally(1, 0)]);
    var s5 := s4.(producers := [Idle], counted := Tally(0, n));
    var s6 := s5.(worker := Swapped(0));
    var s7 := s6.(worker := Ready, counted := Tally(0, 0), reported := Tally(1, n),
                  evidence := [Tally(1, 0), Tally(0, n)]);
    assert s0.producers[0 := Dropping(n)] == [Dropping(n)];
    TwoStepsOn(s0, steps, 0, s1, s2);
    TwoStepsOn(s2, steps, 2, s3, s4);
    TwoStepsOn(s4, steps, 4, s5, s6);
    assert steps[6..][1..] == [];
    assert Run(s6, steps[6..]) == Run(s7, []);
    assert steps[0..] == steps;
  }

  lemma TwoStepsOn(s: State, steps: seq<Step>, k: nat, s1: State, s2: State)
    requires k + 2 <= |steps| && Next(s, steps[k]) == s1 && Next(s1, steps[k + 1]) == s2
    ensures Run(s, steps[k..]) == Run(s2, steps[k + 2..])
  {
    hide Next;
    assert steps[k..][1..] == steps[k + 1..] && steps[k + 1..][1..] == steps[k + 2..];
    assert Run(s, steps[k..]) == Run(s1, steps[k + 1..]);
  }
}
