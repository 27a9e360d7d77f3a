// The log worker, its sink and the network between them as one machine. The worker's own steps
// are functions of its state; encryption results, lost messages and late deliveries are chosen
// by the environment through the events.
module LogMachine {
  import opened Common
  import opened LogRecords
  import opened LogBatch

  const MAX_RUNTIME_RECORDS: nat := 96

  // ---- The worker ----

  // Counters of output that will only be reported as dropped. Both saturate.
  datatype Drops = Drops(chunks: nat, bytes: nat)

  function Bump(d: Drops, bytes: nat): Drops {
    Drops(Min(d.chunks + 1, U64_MAX), Min(d.bytes + bytes, U64_MAX))
  }

  // `admitted` is the history of admissions; the worker itself never looks at it.
  datatype Worker = Worker(
    pending: seq<Record>, batch: Option<Batch>, chain: Option<Chain>,
    dropped: Drops, runtimeDropped: Drops, admitted: seq<Record>)

  function Count(s: seq<Record>, o: Origin): nat { |Of(s, o)| }

  // The position of the first runtime record.
  function RuntimeStart(s: seq<Record>): (i: nat)
    ensures i <= |s| && AllOf(s[..i], Customer) && (i < |s| ==> s[i].origin == RuntimeSsh)
  {
    if s == [] || s[0].origin == RuntimeSsh then 0
    else
      var i := RuntimeStart(s[1..]);
      assert s[..i + 1] == [s[0]] + s[1..][..i];
      i + 1
  }

  // Customer records go in front of all runtime records, runtime records to the end.
  function Place(s: seq<Record>, o: Origin): (i: nat)
    ensures i <= |s|
  {
    if o == Customer then RuntimeStart(s) else |s|
  }

  function Enqueued(w: Worker, o: Origin, value: string): Worker {
    var r := Record(|w.admitted|, o, value);
    var i := Place(w.pending, o);
    w.(pending := w.pending[..i] + [r] + w.pending[i..], admitted := w.admitted + [r])
  }

  predicate HoldsRuntimeBatch(w: Worker) { w.batch.Some? && w.batch.value.origin == RuntimeSsh }

  // `sealed` is the encrypted record, or `None` when encryption fails.
  function AdmitChunk(w: Worker, bytes: nat, sealed: Option<string>): Worker {
    if Count(w.pending, Customer) >= MAX_BATCH_RECORDS || sealed.None? then
      w.(dropped := Bump(w.dropped, bytes))
    else
      Enqueued(if HoldsRuntimeBatch(w) then w.(batch := None) else w, Customer, sealed.value)
  }

  function RuntimeCap(critical: bool): nat {
    if critical then MAX_RUNTIME_RECORDS else MAX_BATCH_RECORDS
  }

  function AdmitRuntimeSsh(w: Worker, bytes: nat, critical: bool, sealed: Option<string>): Worker {
    if Count(w.pending, RuntimeSsh) >= RuntimeCap(critical) || sealed.None? then
      w.(runtimeDropped := Bump(w.runtimeDropped, bytes))
    else
      Enqueued(w, RuntimeSsh, sealed.value)
  }

  function DropsOf(w: Worker, o: Origin): Drops {
    if o == Customer then w.dropped else w.runtimeDropped
  }

  function Taken(w: Worker, o: Origin): Worker {
    if o == Customer then w.(dropped := Drops(0, 0)) else w.(runtimeDropped := Drops(0, 0))
  }

  predicate HasEvidence(w: Worker, o: Origin) {
    Count(w.pending, o) < MAX_BATCH_RECORDS && DropsOf(w, o) != Drops(0, 0)
  }

  function AdmitDropEvidence(w: Worker, o: Origin, sealed: Option<string>): Worker {
    if !HasEvidence(w, o) then w
    else if sealed.None? then Taken(w, o)
    else Enqueued(Taken(w, o), o, sealed.value)
  }

  // After an acceptance: take over the chain, drop the sent records from the front. A chain
  // that does not move past the batch is refused.
  function Settled(w: Worker, b: Batch, chain: Chain): Worker {
    if chain.next <= b.end then w
    else
      w.(chain := Some(chain), batch := None,
         pending := w.pending[Min(|b.records|, |w.pending|)..])
  }

  // After a conflict: take over the chain and build again. If building fails, the old batch stays.
  function Rebased(c: Codec, w: Worker, chain: Chain, clock: nat -> string): Worker {
    var built := Build(c, chain, w.pending, clock);
    w.(chain := Some(chain), batch := if built.Some? then built else w.batch)
  }

  // ---- The sink and the network ----

  // An append-only log that accepts a batch only at its own next sequence and hash. `log` holds
  // what it accepted during this run.
  datatype Sink = Sink(log: seq<Record>, chain: Chain)

  predicate Accepts(s: Sink, b: Batch) { b.start == s.chain.next && b.previous == s.chain.hash }

  // The hash of an accepted batch is the sink's choice.
  function Delivered(s: Sink, b: Batch, hash: string): Sink {
    if Accepts(s, b) then Sink(s.log + b.records, Chain(b.end + 1, Some(hash))) else s
  }

  // What becomes of one posted batch: the request is lost or refused; it is handled but the
  // answer is lost; or it is answered. An acceptance may come without the chain; whether the
  // request that asks for it succeeds is `chainKnown`.
  datatype Fate = Lost | ReplyLost(hash: string) | Answered(hash: string, chainKnown: bool)

  datatype Event =
    | Chunk(bytes: nat, sealed: Option<string>)
    | Line(bytes: nat, critical: bool, sealed: Option<string>)
    | Evidence(origin: Origin, sealed: Option<string>)
    | Discard(origin: Origin, bytes: nat)
    | Resolve
    | Assemble(clock: nat -> string)
    | Post(fate: Fate, rebase: bool, clock: nat -> string)
    | Late(batch: Batch, hash: string)

  // `sent` holds every batch ever posted; each of them may still arrive.
  datatype System = System(worker: Worker, sink: Sink, sent: set<Batch>)

  function Posted(c: Codec, s: System, e: Event): System
    requires e.Post? && s.worker.batch.Some?
  {
    var (w, b) := (s.worker, s.worker.batch.value);
    var s1 := s.(sent := s.sent + {b});
    match e.fate
    case Lost => s1
    case ReplyLost(h) => s1.(sink := Delivered(s.sink, b, h))
    case Answered(h, chainKnown) =>
      if Accepts(s.sink, b) then
        var sink := Delivered(s.sink, b, h);
        s1.(sink := sink, worker := if chainKnown then Settled(w, b, sink.chain) else w)
      else if e.rebase then s1.(worker := Rebased(c, w, s.sink.chain, e.clock))
      else s1
  }

  function Apply(c: Codec, s: System, e: Event): System {
    var w := s.worker;
    match e
    case Chunk(bytes, sealed) => s.(worker := AdmitChunk(w, bytes, sealed))
    case Line(bytes, critical, sealed) => s.(worker := AdmitRuntimeSsh(w, bytes, critical, sealed))
    case Evidence(o, sealed) => s.(worker := AdmitDropEvidence(w, o, sealed))
    case Discard(o, bytes) =>
      s.(worker := if o == Customer then w.(dropped := Bump(w.dropped, bytes))
                   else w.(runtimeDropped := Bump(w.runtimeDropped, bytes)))
    case Resolve => if w.chain.None? then s.(worker := w.(chain := Some(s.sink.chain))) else s
    case Assemble(clock) =>
      if w.batch.Some? || w.chain.None? then s
      else s.(worker := w.(batch := Build(c, w.chain.value, w.pending, clock)))
    case Post(_, _, _) => if w.batch.Some? && w.chain.Some? then Posted(c, s, e) else s
    case Late(b, h) => if b in s.sent then s.(sink := Delivered(s.sink, b, h)) else s
  }

  function Run(c: Codec, s: System, events: seq<Event>): System
    decreases |events|
  {
    if events == [] then s else Run(c, Apply(c, s, events[0]), events[1..])
  }

  // A sink whose numbering starts anywhere, and a worker that has done nothing.
  function Start(chain: Chain): System {
    System(Worker([], None, None, Drops(0, 0), Drops(0, 0), []), Sink([], chain), {})
  }

  // ---- The invariant ----

  // All customer records come before all runtime records.
  predicate Prioritised(s: seq<Record>) { AllOf(s[RuntimeStart(s)..], RuntimeSsh) }

  predicate Numbered(s: seq<Record>) { forall i | 0 <= i < |s| :: s[i].id == i }

  // Of one origin: the queue is what is left of the admissions, and the log first mentions the
  // admissions in order, at least up to where the queue starts.
  predicate Told(admitted: seq<Record>, pending: seq<Record>, log: seq<Record>) {
    var firsts := Firsts(log);
    && |pending| <= |admitted| && pending == admitted[|admitted| - |pending|..]
    && |firsts| <= |admitted| && firsts == admitted[..|firsts|]
    && |admitted| - |pending| <= |firsts|
  }

  predicate ToldOf(s: System, o: Origin) {
    Told(Of(s.worker.admitted, o), Of(s.worker.pending, o), Of(s.sink.log, o))
  }

  // A batch that the sink would accept now repeats the front of its origin's queue.
  predicate InFlight(s: System, b: Batch) {
    && WellFormed(b) && b.start <= s.sink.chain.next
    && (b.start == s.sink.chain.next ==> b.records <= Of(s.worker.pending, b.origin))
  }

  // The retained batch is the front of the queue.
  predicate Aligned(s: System) {
    s.worker.batch.Some? ==>
      var b := s.worker.batch.value;
      WellFormed(b) && b.records <= s.worker.pending && b.start <= s.sink.chain.next
  }

  ghost predicate Inv(s: System) {
    var w := s.worker;
    && Prioritised(w.pending)
    && Count(w.pending, Customer) <= MAX_BATCH_RECORDS
    && Count(w.pending, RuntimeSsh) <= MAX_RUNTIME_RECORDS
    && Numbered(w.admitted) && ToldOf(s, Customer) && ToldOf(s, RuntimeSsh)
    && Aligned(s) && (w.chain.Some? ==> w.chain.value.next <= s.sink.chain.next)
    && forall b | b in s.sent :: InFlight(s, b)
  }

  lemma StartInv(chain: Chain)
    ensures Inv(Start(chain))
  {
  }

  // ---- Admissions ----

  lemma EnqueuedOf(w: Worker, o: Origin, value: string, x: Origin)
    requires Prioritised(w.pending)
    ensures var r := Record(|w.admitted|, o, value);
            var more := if x == o then [r] else [];
            && Of(Enqueued(w, o, value).pending, x) == Of(w.pending, x) + more
            && Of(Enqueued(w, o, value).admitted, x) == Of(w.admitted, x) + more
  {
    hide Of;
    var (s, i) := (w.pending, Place(w.pending, o));
    var r := Record(|w.admitted|, o, value);
    var more := if x == o then [r] else [];
    OfInserted(s[..i], r, s[i..], x);
    OfConcat(s[..i], s[i..], x);
    assert s == s[..i] + s[i..];
    OfInserted(w.admitted, r, [], x);
    OfUniform([], o, x);
    assert w.admitted + [r] + [] == w.admitted + [r];
    if o == Customer {
      OfUniform(s[i..], RuntimeSsh, x);
    } else {
      assert s[i..] == [];
    }
  }

  lemma OfInserted(a: seq<Record>, r: Record, b: seq<Record>, x: Origin)
    ensures Of(a + [r] + b, x) == Of(a, x) + (if x == r.origin then [r] else []) + Of(b, x)
  {
    OfConcat(a + [r], b, x);
    OfConcat(a, [r], x);
    OfUniform([r], r.origin, x);
  }

  lemma EnqueuedPrioritised(w: Worker, o: Origin, value: string)
    requires Prioritised(w.pending)
    ensures Prioritised(Enqueued(w, o, value).pending)
  {
    hide RuntimeStart;
    var (s, i, r) := (w.pending, RuntimeStart(w.pending), Record(|w.admitted|, o, value));
    var s' := Enqueued(w, o, value).pending;
    if o == Customer {
      assert s'[..i + 1] == s[..i] + [r] && s'[i + 1..] == s[i..];
      assert i + 1 < |s'| ==> s'[i + 1] == s[i];
      StartAt(s', i + 1);
    } else {
      assert s' == s + [r];
      assert s'[..i] == s[..i] && s'[i..] == s[i..] + [r];
      assert s'[i] == if i < |s| then s[i] else r;
      StartAt(s', i);
    }
  }

  // The first runtime record lies where customer records end.
  lemma {:induction false} StartAt(s: seq<Record>, i: nat)
    requires i <= |s| && AllOf(s[..i], Customer) && (i < |s| ==> s[i].origin == RuntimeSsh)
    ensures RuntimeStart(s) == i
    decreases |s|
  {
    if i > 0 {
      assert s[..i][0] == s[0] && s[1..][..i - 1] == s[..i][1..];
      StartAt(s[1..], i - 1);
    }
  }

  lemma EnqueuedAligned(s: System, w: Worker, o: Origin, value: string)
    requires Aligned(s) && w.pending == s.worker.pending && w.batch == s.worker.batch
    requires o == Customer ==> !HoldsRuntimeBatch(w)
    ensures Aligned(s.(worker := Enqueued(w, o, value)))
  {
    if w.batch.Some? && o == Customer {
      var (b, p, i) := (w.batch.value, w.pending, RuntimeStart(w.pending));
      assert forall j | 0 <= j < |b.records| :: p[j] == b.records[j];
      assert b.records <= p[..i];
    }
  }

  lemma ToldMore(admitted: seq<Record>, pending: seq<Record>, log: seq<Record>, more: seq<Record>)
    requires Told(admitted, pending, log)
    ensures Told(admitted + more, pending + more, log)
  {
    hide Firsts;
  }

  // Unless a customer record is put in front of a retained runtime batch, admitting keeps the
  // invariant.
  lemma EnqueuedInv(s: System, w: Worker, o: Origin, value: string)
    requires Inv(s) && w.pending == s.worker.pending && w.admitted == s.worker.admitted
    requires w.batch == s.worker.batch && w.chain == s.worker.chain
    requires Count(w.pending, o) < (if o == Customer then MAX_BATCH_RECORDS else MAX_RUNTIME_RECORDS)
    requires o == Customer ==> !HoldsRuntimeBatch(w)
    ensures Inv(s.(worker := Enqueued(w, o, value)))
  {
    hide Prioritised, Told, Aligned, WellFormed, Of, Place, Firsts;
    var s' := s.(worker := Enqueued(w, o, value));
    var r := Record(|w.admitted|, o, value);
    EnqueuedPrioritised(w, o, value);
    EnqueuedAligned(s, w, o, value);
    EnqueuedOf(w, o, value, Customer);
    EnqueuedOf(w, o, value, RuntimeSsh);
    forall x: Origin
      ensures ToldOf(s', x)
    {
      EnqueuedOf(w, o, value, x);
      assert ToldOf(s, x) by { if x == Customer { } else { } }
      ToldMore(Of(w.admitted, x), Of(w.pending, x), Of(s.sink.log, x), if x == o then [r] else []);
    }
    forall b | b in s'.sent
      ensures InFlight(s', b)
    {
      assert InFlight(s, b);
      EnqueuedOf(w, o, value, b.origin);
    }
  }

  // Letting go of the retained batch is always safe.
  lemma ForgetBatch(s: System)
    requires Inv(s)
    ensures Inv(s.(worker := s.worker.(batch := None)))
  {
    hide Prioritised, Told, WellFormed, Of;
    var s' := s.(worker := s.worker.(batch := None));
    forall b | b in s'.sent
      ensures InFlight(s', b)
    {
      assert InFlight(s, b);
    }
  }

  // ---- Deliveries ----

  // A batch the sink accepts repeats admissions from where the queue starts.
  lemma ToldDelivered(admitted: seq<Record>, pending: seq<Record>, log: seq<Record>, records: seq<Record>)
    requires Told(admitted, pending, log) && Distinct(admitted) && records <= pending
    ensures Told(admitted, pending, log + records)
    ensures Told(admitted, pending[|records|..], log + records)
  {
    hide Firsts, Distinct;
    var (k, n, m) := (|admitted| - |pending|, |records|, |Firsts(log)|);
    assert records == admitted[k..k + n];
    FirstsExtended(log, admitted, m, k, n);
    assert pending[n..] == admitted[k + n..];
  }

  lemma {:induction false} NumberedOf(s: seq<Record>, o: Origin, from: nat)
    requires forall i | 0 <= i < |s| :: s[i].id == from + i
    ensures Distinct(Of(s, o)) && forall i | 0 <= i < |Of(s, o)| :: Of(s, o)[i].id >= from
    decreases |s|
  {
    if s != [] {
      NumberedOf(s[1..], o, from + 1);
    }
  }

  // Acceptance of a batch in flight, with the worker not hearing of it.
  lemma DeliveredInv(s: System, b: Batch, hash: string)
    requires Inv(s) && InFlight(s, b)
    ensures Inv(s.(sink := Delivered(s.sink, b, hash)))
  {
    hide Prioritised, Told, Of, Firsts, Distinct;
    var s' := s.(sink := Delivered(s.sink, b, hash));
    if Accepts(s.sink, b) {
      forall x: Origin
        ensures ToldOf(s', x)
      {
        assert ToldOf(s, x) by { if x == Customer { } else { } }
        DeliveredTold(s, b, x);
      }
      assert s'.sink.chain.next > s.sink.chain.next;
      forall f | f in s'.sent
        ensures InFlight(s', f)
      {
        assert InFlight(s, f);
      }
    }
  }

  lemma DeliveredTold(s: System, b: Batch, x: Origin)
    requires ToldOf(s, x) && Numbered(s.worker.admitted) && WellFormed(b)
    requires b.records <= Of(s.worker.pending, b.origin)
    ensures var (a, p) := (Of(s.worker.admitted, x), Of(s.worker.pending, x));
            var l := Of(s.sink.log + b.records, x);
            && Told(a, p, l)
            && Told(a, if x == b.origin then p[|b.records|..] else p, l)
  {
    hide Told, Firsts, Distinct;
    OfConcat(s.sink.log, b.records, x);
    OfUniform(b.records, b.origin, x);
    NumberedOf(s.worker.admitted, x, 0);
    if x == b.origin {
      ToldDelivered(Of(s.worker.admitted, x), Of(s.worker.pending, x), Of(s.sink.log, x), b.records);
    } else {
      assert Of(s.sink.log, x) + [] == Of(s.sink.log, x);
    }
  }

  // The front of the queue is the front of its origin's queue.
  lemma FrontOf(pending: seq<Record>, records: seq<Record>, o: Origin, x: Origin)
    requires records <= pending && AllOf(records, o)
    ensures Of(pending, x) == (if x == o then records else []) + Of(pending[|records|..], x)
  {
    assert pending == records + pending[|records|..];
    OfConcat(records, pending[|records|..], x);
    OfUniform(records, o, x);
  }

  lemma RetainedInFlight(s: System)
    requires Inv(s) && s.worker.batch.Some?
    ensures InFlight(s, s.worker.batch.value)
  {
    hide Told, Of, Prioritised;
    var b := s.worker.batch.value;
    FrontOf(s.worker.pending, b.records, b.origin, b.origin);
  }

  lemma PrioritisedTail(s: seq<Record>, n: nat)
    requires Prioritised(s) && n <= |s|
    ensures Prioritised(s[n..])
  {
    var (i, t) := (RuntimeStart(s), s[n..]);
    if n <= i {
      assert t[..i - n] == s[..i][n..];
      StartAt(t, i - n);
      assert t[i - n..] == s[i..];
    } else {
      assert t == s[i..][n - i..];
      StartAt(t, 0);
      assert t[0..] == t;
    }
  }

  // Acceptance of the retained batch with the worker told: exactly its records leave the queue.
  lemma SettledInv(s: System, hash: string)
    requires Inv(s) && s.worker.batch.Some? && Accepts(s.sink, s.worker.batch.value)
    ensures var b := s.worker.batch.value;
            var sink := Delivered(s.sink, b, hash);
            && Inv(s.(sink := sink, worker := Settled(s.worker, b, sink.chain)))
            && s.worker.pending == b.records + Settled(s.worker, b, sink.chain).pending
  {
    hide Prioritised, Told, Of, Firsts, Distinct;
    var (w, b) := (s.worker, s.worker.batch.value);
    var sink := Delivered(s.sink, b, hash);
    var w' := Settled(w, b, sink.chain);
    var s' := s.(sink := sink, worker := w');
    assert w'.pending == w.pending[|b.records|..];
    RetainedInFlight(s);
    PrioritisedTail(w.pending, |b.records|);
    forall x: Origin
      ensures ToldOf(s', x) && Count(w'.pending, x) <= Count(w.pending, x)
    {
      assert ToldOf(s, x) by { if x == Customer { } else { } }
      DeliveredTold(s, b, x);
      FrontOf(w.pending, b.records, b.origin, x);
      if x == b.origin {
        assert Of(w.pending, x)[|b.records|..] == Of(w'.pending, x);
      } else {
        assert [] + Of(w'.pending, x) == Of(w'.pending, x);
      }
    }
    forall f | f in s'.sent
      ensures InFlight(s', f)
    {
      assert InFlight(s, f);
    }
  }

  // ---- Every step ----

  // The one admission that does not respect a retained batch: drop evidence for customer output
  // while a runtime batch waits for its answer.
  predicate Respects(s: System, e: Event) {
    !(e.Evidence? && e.origin == Customer && e.sealed.Some?
      && HasEvidence(s.worker, Customer) && HoldsRuntimeBatch(s.worker))
  }

  lemma CountersInv(s: System, w: Worker)
    requires Inv(s) && w.pending == s.worker.pending && w.admitted == s.worker.admitted
    requires w.batch == s.worker.batch && w.chain == s.worker.chain
    ensures Inv(s.(worker := w))
  {
    hide Prioritised, Told, Of, WellFormed;
    forall b | b in s.sent
      ensures InFlight(s.(worker := w), b)
    {
      assert InFlight(s, b);
    }
  }

  // A new batch built from the queue, on a chain head no newer than the sink's.
  lemma BuiltInv(s: System, c: Codec, chain: Chain, clock: nat -> string, keep: Option<Batch>)
    requires Inv(s) && chain.next <= s.sink.chain.next && (keep == None || keep == s.worker.batch)
    ensures var built := Build(c, chain, s.worker.pending, clock);
            Inv(s.(worker := s.worker.(chain := Some(chain), batch := if built.Some? then built else keep)))
  {
    hide Prioritised, Told, Of, Build;
    var built := Build(c, chain, s.worker.pending, clock);
    if built.Some? { BuildFront(c, chain, s.worker.pending, clock); }
    var s' := s.(worker := s.worker.(chain := Some(chain), batch := if built.Some? then built else keep));
    forall b | b in s'.sent
      ensures InFlight(s', b)
    {
      assert InFlight(s, b);
    }
  }

  lemma SentInv(s: System)
    requires Inv(s) && s.worker.batch.Some?
    ensures Inv(s.(sent := s.sent + {s.worker.batch.value}))
  {
    hide Prioritised, Told, Of;
    var s' := s.(sent := s.sent + {s.worker.batch.value});
    RetainedInFlight(s);
    forall b | b in s'.sent
      ensures InFlight(s', b)
    {
      if b in s.sent { assert InFlight(s, b); }
    }
  }

  lemma PostedInv(c: Codec, s: System, e: Event)
    requires Inv(s) && e.Post? && s.worker.batch.Some?
    ensures Inv(Posted(c, s, e))
  {
    hide Inv, Build, Settled, Delivered, InFlight;
    var b := s.worker.batch.value;
    var s1 := s.(sent := s.sent + {b});
    SentInv(s);
    RetainedInFlight(s1);
    match e.fate {
      case Lost =>
      case ReplyLost(h) => DeliveredInv(s1, b, h);
      case Answered(h, chainKnown) =>
        if Accepts(s.sink, b) {
          if chainKnown { SettledInv(s1, h); } else { DeliveredInv(s1, b, h); }
        } else if e.rebase {
          BuiltInv(s1, c, s.sink.chain, e.clock, s.worker.batch);
        }
    }
  }

  lemma StepInv(c: Codec, s: System, e: Event)
    requires Inv(s) && Respects(s, e)
    ensures Inv(Apply(c, s, e))
  {
    hide Posted, Build, Enqueued, Prioritised, ToldOf, Aligned, InFlight;
    var w := s.worker;
    match e {
      case Chunk(bytes, sealed) =>
        if Count(w.pending, Customer) >= MAX_BATCH_RECORDS || sealed.None? {
          CountersInv(s, AdmitChunk(w, bytes, sealed));
        } else if HoldsRuntimeBatch(w) {
          ForgetBatch(s);
          EnqueuedInv(s.(worker := w.(batch := None)), w.(batch := None), Customer, sealed.value);
        } else {
          EnqueuedInv(s, w, Customer, sealed.value);
        }
      case Line(bytes, critical, sealed) =>
        if Count(w.pending, RuntimeSsh) >= RuntimeCap(critical) || sealed.None? {
          CountersInv(s, AdmitRuntimeSsh(w, bytes, critical, sealed));
        } else {
          EnqueuedInv(s, w, RuntimeSsh, sealed.value);
        }
      case Evidence(o, sealed) =>
        if HasEvidence(w, o) && sealed.Some? {
          EnqueuedInv(s, Taken(w, o), o, sealed.value);
        } else {
          CountersInv(s, AdmitDropEvidence(w, o, sealed));
        }
      case Discard(o, bytes) => CountersInv(s, Apply(c, s, e).worker);
      case Resolve => ResolvedInv(s);
      case Assemble(clock) =>
        if w.batch.None? && w.chain.Some? { BuiltInv(s, c, w.chain.value, clock, None); }
      case Post(_, _, _) =>
        if w.batch.Some? && w.chain.Some? { PostedInv(c, s, e); }
      case Late(b, h) =>
        if b in s.sent { DeliveredInv(s, b, h); }
    }
  }

  lemma ResolvedInv(s: System)
    requires Inv(s)
    ensures Inv(s.(worker := s.worker.(chain := Some(s.sink.chain))))
  {
    hide Prioritised, Told, Of, WellFormed;
    var s' := s.(worker := s.worker.(chain := Some(s.sink.chain)));
    forall b | b in s'.sent
      ensures InFlight(s', b)
    {
      assert InFlight(s, b);
    }
  }
}
