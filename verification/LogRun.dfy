// What holds in every run of the log machine, and where the code falls short of it.
module LogRun {
  import opened Common
  import opened LogRecords
  import opened LogBatch
  import opened LogMachine

  // No step of the run puts customer drop evidence in front of a retained runtime batch.
  ghost predicate Respected(c: Codec, s: System, events: seq<Event>)
    decreases |events|
  {
    events == [] || (Respects(s, events[0]) && Respected(c, Apply(c, s, events[0]), events[1..]))
  }

  lemma {:induction false} RunInv(c: Codec, s: System, events: seq<Event>)
    requires Inv(s) && Respected(c, s, events)
    ensures Inv(Run(c, s, events))
    decreases |events|
  {
    hide Inv, Apply, Respects;
    if events != [] {
      StepInv(c, s, events[0]);
      RunInv(c, Apply(c, s, events[0]), events[1..]);
    }
  }

  // ---- What the invariant means ----

  // Nothing that left the queue is missing from the log.
  lemma NothingLost(s: System, r: Record)
    requires Inv(s) && r in s.worker.admitted
    ensures r in s.worker.pending || r in s.sink.log
  {
    hide Firsts, Of, Prioritised, Aligned, InFlight;
    var o := r.origin;
    var (a, p, l) := (Of(s.worker.admitted, o), Of(s.worker.pending, o), Of(s.sink.log, o));
    assert ToldOf(s, o) by { if o == Customer { } else { } }
    OfMember(s.worker.admitted, o, r);
    OfMember(s.worker.pending, o, r);
    OfMember(s.sink.log, o, r);
    var i :| 0 <= i < |a| && a[i] == r;
    var k := |a| - |p|;
    if i < k {
      assert Firsts(l)[i] == a[i];
      assert r in Firsts(l);
    } else {
      assert p[i - k] == a[i];
    }
  }

  // Nothing is in the log that was not admitted.
  lemma NothingInvented(s: System, r: Record)
    requires Inv(s) && (r in s.sink.log || r in s.worker.pending)
    ensures r in s.worker.admitted
  {
    hide Firsts, Of, Prioritised, Aligned, InFlight;
    var o := r.origin;
    var (a, p, l) := (Of(s.worker.admitted, o), Of(s.worker.pending, o), Of(s.sink.log, o));
    assert ToldOf(s, o) by { if o == Customer { } else { } }
    OfMember(s.worker.admitted, o, r);
    OfMember(s.worker.pending, o, r);
    OfMember(s.sink.log, o, r);
    if r in s.sink.log {
      assert r in Firsts(l);
      var i :| 0 <= i < |Firsts(l)| && Firsts(l)[i] == r;
      assert a[i] == r;
    } else {
      var i :| 0 <= i < |p| && p[i] == r;
      assert a[|a| - |p| + i] == r;
    }
  }

  // In every run, whatever is lost, answered late or delivered twice: records that left the
  // queue are in the sink's log; of each origin the log first mentions a prefix of the
  // admissions, in admission order; the queue stays prioritised and bounded; and a retained
  // batch is the single-origin front of the queue.
  lemma EveryRun(c: Codec, chain: Chain, events: seq<Event>)
    requires Respected(c, Start(chain), events)
    ensures var s := Run(c, Start(chain), events);
            var w := s.worker;
            && (forall r | r in w.admitted :: r in w.pending || r in s.sink.log)
            && (forall r | r in s.sink.log :: r in w.admitted)
            && (forall o: Origin :: Firsts(Of(s.sink.log, o)) <= Of(w.admitted, o))
            && Prioritised(w.pending)
            && Count(w.pending, Customer) <= MAX_BATCH_RECORDS
            && Count(w.pending, RuntimeSsh) <= MAX_RUNTIME_RECORDS
            && (w.batch.Some? ==>
                  AllOf(w.batch.value.records, w.batch.value.origin) && w.batch.value.records <= w.pending)
  {
    hide Run, Respected, Firsts, Of, Prioritised;
    StartInv(chain);
    RunInv(c, Start(chain), events);
    var s := Run(c, Start(chain), events);
    forall r | r in s.worker.admitted
      ensures r in s.worker.pending || r in s.sink.log
    {
      NothingLost(s, r);
    }
    forall r | r in s.sink.log
      ensures r in s.worker.admitted
    {
      NothingInvented(s, r);
    }
    forall o: Origin
      ensures Firsts(Of(s.sink.log, o)) <= Of(s.worker.admitted, o)
    {
      assert ToldOf(s, o) by { if o == Customer { } else { } }
    }
  }

  // An acceptance the worker hears of removes exactly the accepted records.
  lemma PopsAreExact(c: Codec, s: System, hash: string, rebase: bool, clock: nat -> string)
    requires Inv(s) && s.worker.batch.Some? && s.worker.chain.Some?
    requires Accepts(s.sink, s.worker.batch.value)
    ensures var b := s.worker.batch.value;
            var s' := Apply(c, s, Post(Answered(hash, true), rebase, clock));
            && s.worker.pending == b.records + s'.worker.pending
            && s'.sink.log == s.sink.log + b.records && s'.worker.batch == None
            && s'.worker.chain == Some(s'.sink.chain)
  {
    hide Inv;
    SettledInv(s, hash);
    BatchEnd(s);
  }

  lemma BatchEnd(s: System)
    requires Inv(s) && s.worker.batch.Some?
    ensures var b := s.worker.batch.value; b.end == b.start + |b.records| - 1 && |b.records| > 0
  {
  }

  // A conflict that is answered is settled by the next answered post, if the queue's front can
  // be encoded on the sink's chain: the queue shrinks.
  lemma RebaseMakesProgress(c: Codec, s: System, h1: string, h2: string, clock: nat -> string)
    requires Inv(s) && s.worker.batch.Some? && s.worker.chain.Some?
    requires !Accepts(s.sink, s.worker.batch.value)
    requires Build(c, s.sink.chain, s.worker.pending, clock).Some?
    ensures var s1 := Apply(c, s, Post(Answered(h1, true), true, clock));
            var s2 := Apply(c, s1, Post(Answered(h2, true), true, clock));
            && |s2.worker.pending| < |s.worker.pending|
            && s2.sink.log == s.sink.log + s.worker.pending[..|s.worker.pending| - |s2.worker.pending|]
  {
    hide Inv, Build;
    var e := Post(Answered(h1, true), true, clock);
    var s1 := Apply(c, s, e);
    StepInv(c, s, e);
    BuildFront(c, s.sink.chain, s.worker.pending, clock);
    assert s1.worker.pending == s.worker.pending && s1.sink == s.sink;
    assert Accepts(s1.sink, s1.worker.batch.value);
    PopsAreExact(c, s1, h2, true, clock);
    BatchEnd(s1);
  }

  // ---- Where the code does not keep the invariant ----

  // A step keeps the invariant exactly when it respects the retained batch.
  lemma StepKeepsInvExactly(c: Codec, s: System, e: Event)
    requires Inv(s)
    ensures Inv(Apply(c, s, e)) <==> Respects(s, e)
  {
    hide Told, Of, Prioritised;
    if Respects(s, e) {
      StepInv(c, s, e);
    } else {
      EvidenceGoesFirst(s, e.sealed.value);
      var s' := Apply(c, s, e);
      var b := s'.worker.batch.value;
      assert b == s.worker.batch.value && b.records[0].origin == RuntimeSsh;
      assert s'.worker.pending[0].origin == Customer;
    }
  }

  // With a runtime batch retained there is no customer record waiting, so the evidence becomes
  // the very front of the queue.
  lemma EvidenceGoesFirst(s: System, value: string)
    requires Inv(s) && HoldsRuntimeBatch(s.worker)
    ensures var w := Enqueued(Taken(s.worker, Customer), Customer, value);
            && w.pending == [Record(|s.worker.admitted|, Customer, value)] + s.worker.pending
            && w.batch == s.worker.batch
  {
    hide Told, Of;
    var (b, p) := (s.worker.batch.value, s.worker.pending);
    assert p[0] == b.records[0];
    assert RuntimeStart(p) == 0;
    assert p[..0] == [] && p[0..] == p;
  }

  // If the sink then accepts the retained batch, the evidence is removed from the queue and is
  // in no log, while the last runtime record sent stays queued and will be sent again.
  lemma EvidenceIsLost(c: Codec, s: System, e: Event, hash: string, clock: nat -> string)
    requires Inv(s) && !Respects(s, e) && s.worker.chain.Some?
    requires Accepts(s.sink, s.worker.batch.value)
    ensures var s1 := Apply(c, s, e);
            var s2 := Apply(c, s1, Post(Answered(hash, true), true, clock));
            var evidence := Record(|s.worker.admitted|, Customer, e.sealed.value);
            && evidence in s2.worker.admitted
            && evidence !in s2.worker.pending && evidence !in s2.sink.log
            && var b := s.worker.batch.value; b.records[|b.records| - 1] == s2.worker.pending[0]
  {
    hide ToldOf, Of, Prioritised, Build;
    var (w, b) := (s.worker, s.worker.batch.value);
    var evidence := Record(|w.admitted|, Customer, e.sealed.value);
    EvidenceGoesFirst(s, e.sealed.value);
    var s1 := Apply(c, s, e);
    var s2 := Apply(c, s1, Post(Answered(hash, true), true, clock));
    var n := |b.records|;
    assert s1.worker.pending == [evidence] + w.pending;
    assert s2.worker.pending == s1.worker.pending[n..] == w.pending[n - 1..];
    assert s2.sink.log == s.sink.log + b.records;
    assert w.pending[n - 1] == b.records[n - 1];
    NotAdmittedYet(s, evidence);
    assert forall i | 0 <= i < n :: b.records[i] == w.pending[i] && w.pending[i] in w.pending;
    assert forall i | 0 <= i < |s2.worker.pending| :: s2.worker.pending[i] == w.pending[n - 1 + i];
    assert s2.worker.admitted == w.admitted + [evidence];
  }

  lemma NotAdmittedYet(s: System, r: Record)
    requires Inv(s) && r.id == |s.worker.admitted|
    ensures r !in s.worker.pending && r !in s.sink.log
  {
    hide ToldOf, Of, Prioritised, Aligned;
    if r in s.worker.pending || r in s.sink.log { NothingInvented(s, r); }
  }

  // The system after one runtime record was admitted and its batch posted without an answer.
  function Waiting(chain: Chain, r: Record, b: Batch): System {
    System(Worker([r], Some(b), Some(chain), Drops(0, 0), Drops(0, 0), [r]), Sink([], chain), {b})
  }

  lemma FirstRecord(c: Codec, chain: Chain, value: string)
    ensures var r := Record(0, RuntimeSsh, value);
            var s1 := Apply(c, Start(chain), Line(1, true, Some(value)));
            var w := Worker([r], None, Some(chain), Drops(0, 0), Drops(0, 0), [r]);
            Apply(c, s1, Resolve) == System(w, Sink([], chain), {})
  {
    hide Enqueued, Of, RuntimeStart, Build, Posted;
    OfUniform([], RuntimeSsh, RuntimeSsh);
    EnqueuedAlone(Start(chain).worker, value);
  }

  lemma EnqueuedAlone(w: Worker, value: string)
    requires w.pending == [] && w.admitted == []
    ensures var r := Record(0, RuntimeSsh, value);
            Enqueued(w, RuntimeSsh, value) == w.(pending := [r], admitted := [r])
  {
    var r := Record(0, RuntimeSsh, value);
    assert w.pending[..0] + [r] + w.pending[0..] == [r];
    assert w.admitted + [r] == [r];
  }

  lemma FirstBatch(c: Codec, chain: Chain, r: Record, clock: nat -> string)
    requires Build(c, chain, [r], clock).Some?
    ensures var w := Worker([r], None, Some(chain), Drops(0, 0), Drops(0, 0), [r]);
            var s := Apply(c, System(w, Sink([], chain), {}), Assemble(clock));
            Apply(c, s, Post(Lost, false, clock)) == Waiting(chain, r, Build(c, chain, [r], clock).value)
  {
    hide Build;
  }

  lemma DiscardBreaks(c: Codec, chain: Chain, r: Record, b: Batch, value: string)
    requires r.origin == RuntimeSsh && b.origin == RuntimeSsh
    ensures var s := Apply(c, Waiting(chain, r, b), Discard(Customer, 1));
            && s.worker.chain.Some? && s.worker.batch == Some(b) && s.sink == Sink([], chain)
            && !Respects(s, Evidence(Customer, Some(value)))
  {
    OfUniform([r], RuntimeSsh, Customer);
  }

  // Such a state is reachable whenever one runtime record can be encoded: one runtime record, a post
  // whose request is lost, one dropped customer chunk, and the evidence of it.
  lemma EvidenceCanMeetRuntimeBatch(c: Codec, chain: Chain, value: string, clock: nat -> string)
    requires Build(c, chain, [Record(0, RuntimeSsh, value)], clock).Some?
    ensures var s := Run(c, Start(chain),
                         [Line(1, true, Some(value)), Resolve, Assemble(clock),
                          Post(Lost, false, clock), Discard(Customer, 1)]);
            && Inv(s) && s.worker.chain.Some? && s.worker.batch.Some?
            && Accepts(s.sink, s.worker.batch.value)
            && !Respects(s, Evidence(Customer, Some(value)))
  {
    hide Run, Apply, Build, Inv, Respects, Start;
    var r := Record(0, RuntimeSsh, value);
    var s0 := Start(chain);
    var (e0, e1, e2) := (Line(1, true, Some(value)), Event.Resolve, Assemble(clock));
    var (e3, e4) := (Post(Lost, false, clock), Discard(Customer, 1));
    FiveSteps(c, s0, e0, e1, e2, e3, e4);
    BuildFront(c, chain, [r], clock);
    FirstRecord(c, chain, value);
    FirstBatch(c, chain, r, clock);
    DiscardBreaks(c, chain, r, Build(c, chain, [r], clock).value, value);
    StartInv(chain);
    OtherEventsRespect(s0, e0);
    StepInv(c, s0, e0);
    var s1 := Apply(c, s0, e0);
    OtherEventsRespect(s1, e1);
    StepInv(c, s1, e1);
    var s2 := Apply(c, s1, e1);
    OtherEventsRespect(s2, e2);
    StepInv(c, s2, e2);
    var s3 := Apply(c, s2, e2);
    OtherEventsRespect(s3, e3);
    StepInv(c, s3, e3);
    var s4 := Apply(c, s3, e3);
    OtherEventsRespect(s4, e4);
    StepInv(c, s4, e4);
  }

  lemma OtherEventsRespect(s: System, e: Event)
    requires !e.Evidence?
    ensures Respects(s, e)
  {
  }

  lemma FiveSteps(c: Codec, s: System, e0: Event, e1: Event, e2: Event, e3: Event, e4: Event)
    ensures Run(c, s, [e0, e1, e2, e3, e4]) ==
            Apply(c, Apply(c, Apply(c, Apply(c, Apply(c, s, e0), e1), e2), e3), e4)
  {
    hide Apply;
    assert [e0, e1, e2, e3, e4][1..] == [e1, e2, e3, e4];
    assert [e1, e2, e3, e4][1..] == [e2, e3, e4];
    assert [e2, e3, e4][1..] == [e3, e4];
    assert [e3, e4][1..] == [e4];
    assert Run(c, s, [e0, e1, e2, e3, e4]) == Run(c, Apply(c, s, e0), [e1, e2, e3, e4]);
    var s2 := Apply(c, Apply(c, s, e0), e1);
    assert Run(c, s2, [e2, e3, e4]) == Run(c, Apply(c, s2, e2), [e3, e4]);
    var s4 := Apply(c, Apply(c, s2, e2), e3);
    assert Run(c, s4, [e4]) == Apply(c, s4, e4);
  }

  // What was offered is queued last of its origin, with the other origin's records as they
  // were, or it is counted as dropped and the queue is as it was; never both and never neither.
  // It is queued exactly when the origin has room and the record could be encrypted.
  lemma QueuedOrCounted(w: Worker, o: Origin, bytes: nat, critical: bool, sealed: Option<string>)
    requires Prioritised(w.pending) && w.dropped.chunks < U64_MAX && w.runtimeDropped.chunks < U64_MAX
    ensures var w' := if o == Customer then AdmitChunk(w, bytes, sealed)
                      else AdmitRuntimeSsh(w, bytes, critical, sealed);
            var other := if o == Customer then RuntimeSsh else Customer;
            var room := if o == RuntimeSsh && critical then MAX_RUNTIME_RECORDS else MAX_BATCH_RECORDS;
            && Of(w'.pending, other) == Of(w.pending, other) && DropsOf(w', other) == DropsOf(w, other)
            && (if sealed.Some? && Count(w.pending, o) < room then
                  && Of(w'.pending, o) == Of(w.pending, o) + [Record(|w.admitted|, o, sealed.value)]
                  && DropsOf(w', o) == DropsOf(w, o)
                else
                  && w'.pending == w.pending && w'.batch == w.batch
                  && DropsOf(w', o).chunks == DropsOf(w, o).chunks + 1)
  {
    hide Enqueued, Of, Prioritised, Place;
    if sealed.Some? {
      var held := if o == Customer && HoldsRuntimeBatch(w) then w.(batch := None) else w;
      EnqueuedOf(held, o, sealed.value, Customer);
      EnqueuedOf(held, o, sealed.value, RuntimeSsh);
      EnqueuedCounters(held, o, sealed.value);
      assert forall x: Origin :: Of(w.pending, x) + [] == Of(w.pending, x);
    }
  }

  lemma EnqueuedCounters(w: Worker, o: Origin, value: string)
    ensures var w' := Enqueued(w, o, value);
            w'.dropped == w.dropped && w'.runtimeDropped == w.runtimeDropped && w'.batch == w.batch
  {
  }

  // ---- A queue that cannot be sent ----

  // The head that the next batch will be built on.
  function Head(s: System): Chain { if s.worker.chain.Some? then s.worker.chain.value else s.sink.chain }

  // Trying to send: resolving, building and posting.
  ghost predicate Tries(e: Event) {
    e.Resolve? || (e.Assemble? && Ticks(e.clock)) || (e.Post? && Ticks(e.clock))
  }

  // The selection lies in the window that the name opens: on the head of the next batch if none is
  // retained, on the sink's head if one is retained that the sink refuses.
  ghost predicate Stuck(c: Codec, k: nat, s: System, clock: nat -> string) {
    match s.worker.batch
    case None => InWindow(c, k, Head(s), s.worker.pending, clock)
    case Some(b) => !Accepts(s.sink, b) && InWindow(c, k, s.sink.chain, s.worker.pending, clock)
  }

  lemma StuckStep(c: Codec, k: nat, s: System, e: Event, clock: nat -> string)
    requires NameCosts(c, k) && Timeless(c) && Ticks(clock) && Stuck(c, k, s, clock) && Tries(e)
    ensures var s' := Apply(c, s, e);
            && Stuck(c, k, s', clock) && s'.sink == s.sink
            && s'.worker.pending == s.worker.pending && s'.worker.batch == s.worker.batch
  {
    hide NameCosts, Timeless, InWindow, Ticks, Build, Accepts;
    var chain := if s.worker.batch.None? then Head(s) else s.sink.chain;
    if e.Assemble? || e.Post? { WindowStays(c, k, chain, s.worker.pending, clock, e.clock); }
  }

  // While the queue stays as it is, no number of attempts shortens it, replaces a retained batch or
  // reaches the sink.
  lemma {:induction false} StuckForEver(c: Codec, k: nat, s: System, events: seq<Event>, clock: nat -> string)
    requires NameCosts(c, k) && Timeless(c) && Ticks(clock) && Stuck(c, k, s, clock)
    requires forall i | 0 <= i < |events| :: Tries(events[i])
    ensures var s' := Run(c, s, events);
            s'.worker.pending == s.worker.pending && s'.worker.batch == s.worker.batch && s'.sink == s.sink
    decreases |events|
  {
    hide NameCosts, Timeless, InWindow, Ticks, Apply, Tries, Stuck;
    if events != [] {
      StuckStep(c, k, s, events[0], clock);
      StuckForEver(c, k, Apply(c, s, events[0]), events[1..], clock);
    }
  }
}
