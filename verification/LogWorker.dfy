// The log worker as it runs: a queue, a retained batch and a chain head updated in place, and a
// flush loop that talks to the sink over a lossy network. Every method is a run of the machine.
module LogWorker {
  import opened Common
  import opened LogRecords
  import opened LogBatch
  import opened LogMachine
  import opened LogRun

  const MAX_SEQUENCE_REBASE_ATTEMPTS: nat := 3

  datatype Reply = NoReply | Accepted(chain: Option<Chain>) | Conflict(head: Chain)

  datatype Verdict = Sent | Retry | GiveUp

  lemma {:induction false} RunAppend(c: Codec, s: System, a: seq<Event>, b: seq<Event>)
    ensures Run(c, s, a + b) == Run(c, Run(c, s, a), b)
    decreases |a|
  {
    hide Apply;
    if a == [] {
      assert a + b == b;
    } else {
      assert (a + b)[0] == a[0] && (a + b)[1..] == a[1..] + b;
      RunAppend(c, Apply(c, s, a[0]), a[1..], b);
    }
  }

  lemma RunOne(c: Codec, s: System, events: seq<Event>, e: Event)
    ensures Run(c, s, events + [e]) == Apply(c, Run(c, s, events), e)
  {
    hide Apply;
    RunAppend(c, s, events, [e]);
    assert [e][1..] == [];
    var s1 := Run(c, s, events);
    assert Run(c, s1, [e]) == Run(c, Apply(c, s1, e), []);
  }

  // Runs without customer drop evidence respect every retained batch.
  predicate NoCustomerEvidence(events: seq<Event>) {
    forall i | 0 <= i < |events| :: !(events[i].Evidence? && events[i].origin == Customer)
  }

  lemma {:induction false} QuietRunsRespect(c: Codec, s: System, events: seq<Event>)
    requires NoCustomerEvidence(events)
    ensures Respected(c, s, events)
    decreases |events|
  {
    hide Apply;
    if events != [] { QuietRunsRespect(c, Apply(c, s, events[0]), events[1..]); }
  }

  // The sink behind the network.
  class Wire {
    var sink: Sink
    var sent: set<Batch>

    constructor (chain: Chain)
      ensures sink == Sink([], chain) && sent == {}
    {
      sink := Sink([], chain);
      sent := {};
    }

    // Any batch posted earlier may arrive now.
    method Straggler() returns (ghost e: Event)
      modifies this`sink
      ensures e.Late? && (e.batch in sent ==> sink == Delivered(old(sink), e.batch, e.hash))
      ensures e.batch !in sent ==> sink == old(sink)
    {
      var b: Batch := *;
      var hash: string := *;
      if b in sent { sink := Delivered(sink, b, hash); }
      e := Late(b, hash);
    }

    // Posts a batch. The request or its reply may be lost; an acceptance may omit the chain.
    method Deliver(b: Batch) returns (r: Reply, ghost hash: string)
      modifies this
      ensures sent == old(sent) + {b}
      ensures r.Accepted? ==>
                && Accepts(old(sink), b) && sink == Delivered(old(sink), b, hash)
                && (r.chain.Some? ==> r.chain.value == sink.chain)
      ensures r.Conflict? ==> !Accepts(old(sink), b) && sink == old(sink) && r.head == sink.chain
      ensures r.NoReply? ==> sink == old(sink) || sink == Delivered(old(sink), b, hash)
    {
      var h: string := *;
      hash := h;
      sent := sent + {b};
      if * { return NoReply, hash; }
      var accepts := Accepts(sink, b);
      sink := Delivered(sink, b, h);
      if * { return NoReply, hash; }
      if !accepts { return Conflict(sink.chain), hash; }
      if * { return Accepted(None), hash; }
      return Accepted(Some(sink.chain)), hash;
    }
  }

  class LogWorker {
    const codec: Codec
    var pending: seq<Record>
    var batch: Option<Batch>
    var chain: Option<Chain>
    var dropped: Drops
    var runtimeDropped: Drops
    var admitted: seq<Record>

    constructor (codec: Codec)
      ensures this.codec == codec
      ensures State() == Worker([], None, None, Drops(0, 0), Drops(0, 0), [])
    {
      this.codec := codec;
      pending, batch, chain := [], None, None;
      dropped, runtimeDropped, admitted := Drops(0, 0), Drops(0, 0), [];
    }

    ghost function State(): Worker
      reads this
    {
      Worker(pending, batch, chain, dropped, runtimeDropped, admitted)
    }

    ghost function View(wire: Wire): System
      reads this, wire
    {
      System(State(), wire.sink, wire.sent)
    }

    // A record that could not be encrypted is counted as dropped.
    method AdmitChunk(bytes: nat, sealed: Option<string>)
      modifies this`pending, this`batch, this`dropped, this`admitted
      ensures State() == LogMachine.AdmitChunk(old(State()), bytes, sealed)
    {
      if Count(pending, Customer) >= MAX_BATCH_RECORDS {
        dropped := Bump(dropped, bytes);
        return;
      }
      if sealed.None? {
        dropped := Bump(dropped, bytes);
        return;
      }
      if batch.Some? && batch.value.origin == RuntimeSsh { batch := None; }
      var r := Record(|admitted|, Customer, sealed.value);
      var at := RuntimeStart(pending);
      pending := pending[..at] + [r] + pending[at..];
      admitted := admitted + [r];
    }

    method AdmitRuntimeSsh(bytes: nat, critical: bool, sealed: Option<string>)
      modifies this`pending, this`runtimeDropped, this`admitted
      ensures State() == LogMachine.AdmitRuntimeSsh(old(State()), bytes, critical, sealed)
    {
      if Count(pending, RuntimeSsh) >= RuntimeCap(critical) {
        runtimeDropped := Bump(runtimeDropped, bytes);
        return;
      }
      if sealed.None? {
        runtimeDropped := Bump(runtimeDropped, bytes);
        return;
      }
      var r := Record(|admitted|, RuntimeSsh, sealed.value);
      assert pending[..|pending|] + [r] + pending[|pending|..] == pending + [r];
      pending := pending + [r];
      admitted := admitted + [r];
    }

    method AdmitDropEvidenceFor(o: Origin, sealed: Option<string>)
      modifies this`pending, this`dropped, this`runtimeDropped, this`admitted
      ensures State() == AdmitDropEvidence(old(State()), o, sealed)
    {
      if Count(pending, o) >= MAX_BATCH_RECORDS { return; }
      var taken := if o == Customer then dropped else runtimeDropped;
      if taken == Drops(0, 0) { return; }
      if o == Customer { dropped := Drops(0, 0); } else { runtimeDropped := Drops(0, 0); }
      if sealed.None? { return; }
      var r := Record(|admitted|, o, sealed.value);
      if o == Customer {
        var at := RuntimeStart(pending);
        pending := pending[..at] + [r] + pending[at..];
      } else {
        assert pending[..|pending|] + [r] + pending[|pending|..] == pending + [r];
        pending := pending + [r];
      }
      admitted := admitted + [r];
    }

    // Makes sure there is a retained batch, unless there is nothing to send.
    method Arm(wire: Wire, clock: nat -> string) returns (ok: bool, ghost events: seq<Event>)
      requires batch.None? && pending != []
      modifies this`batch, this`chain
      ensures View(wire) == Run(codec, old(View(wire)), events) && NoCustomerEvidence(events)
      ensures ok ==> batch.Some? && chain.Some?
    {
      hide Build, Posted;
      ghost var start := View(wire);
      events := [];
      if chain.None? {
        if * { return false, events; }
        chain := Some(wire.sink.chain);
        RunOne(codec, start, events, Resolve);
        events := events + [Resolve];
      }
      RunOne(codec, start, events, Assemble(clock));
      events := events + [Assemble(clock)];
      batch := BuildBatch(codec, chain.value, pending, clock);
      ok := batch.Some?;
    }

    // Popping an empty queue does nothing.
    method PopFront(count: nat)
      modifies this`pending
      ensures pending == old(pending)[Min(count, |old(pending)|)..]
    {
      ghost var before := pending;
      for popped := 0 to count
        invariant pending == before[Min(popped, |before|)..]
      {
        if pending != [] { pending := pending[1..]; }
      }
    }

    // Posts the retained batch once and acts on the answer. After the last allowed conflict the
    // answer is an error.
    method PostOnce(wire: Wire, mayRebase: bool, clock: nat -> string) returns (v: Verdict, ghost e: Event)
      requires batch.Some? && chain.Some?
      modifies this`pending, this`batch, this`chain, wire
      ensures e.Post? && View(wire) == Apply(codec, old(View(wire)), e)
      ensures v == Sent ==> batch.None?
      ensures v == Retry ==> mayRebase && batch.Some? && chain.Some?
    {
      hide Build;
      ghost var (s, b) := (View(wire), batch.value);
      var (sent, count) := (batch.value, |batch.value.records|);
      var reply: Reply;
      ghost var hash: string;
      reply, hash := wire.Deliver(sent);
      match reply {
        case NoReply =>
          e := Post(if wire.sink == s.sink then Lost else ReplyLost(hash), false, clock);
          return GiveUp, e;
        case Accepted(known) =>
          var head := known;
          if head.None? {
            if * { return GiveUp, Post(Answered(hash, false), false, clock); }
            head := Some(wire.sink.chain);
          }
          e := Post(Answered(hash, true), false, clock);
          if head.value.next <= sent.end { return GiveUp, e; }
          chain := head;
          PopFront(count);
          batch := None;
          return Sent, e;
        case Conflict(head) =>
          if !mayRebase { return GiveUp, Post(Answered(hash, true), false, clock); }
          e := Post(Answered(hash, true), true, clock);
          chain := Some(head);
          var built := BuildBatch(codec, head, pending, clock);
          if built.None? { return GiveUp, e; }
          batch := built;
          return Retry, e;
      }
    }

    // Sends the retained batch, building it first if there is none, and rebases on conflicts.
    method FlushOnce(wire: Wire, clocks: nat -> nat -> string) returns (ok: bool, ghost events: seq<Event>)
      modifies this`pending, this`batch, this`chain, wire
      ensures View(wire) == Run(codec, old(View(wire)), events) && NoCustomerEvidence(events)
      ensures ok ==> batch.None?
    {
      hide Apply;
      ghost var start := View(wire);
      events := [];
      if batch.None? {
        if pending == [] { return true, events; }
        ok, events := Arm(wire, clocks(0));
        if !ok { return; }
      }
      if chain.None? { return false, events; }
      var attempts := 0;
      while true
        invariant View(wire) == Run(codec, start, events) && NoCustomerEvidence(events)
        invariant batch.Some? && chain.Some? && attempts <= MAX_SEQUENCE_REBASE_ATTEMPTS
        decreases MAX_SEQUENCE_REBASE_ATTEMPTS - attempts
      {
        ghost var late := wire.Straggler();
        StragglerStep(codec, Run(codec, start, events), late, View(wire));
        RunOne(codec, start, events, late);
        events := events + [late];
        var v: Verdict;
        ghost var e: Event;
        v, e := PostOnce(wire, attempts < MAX_SEQUENCE_REBASE_ATTEMPTS, clocks(attempts + 1));
        RunOne(codec, start, events, e);
        events := events + [e];
        if v == Sent { return true, events; }
        if v == GiveUp { return false, events; }
        attempts := attempts + 1;
      }
    }

    // Moves waiting work into the queue, customer output first. The arguments are what the two
    // channels will yield before they are found empty; `None` asks the worker to finish.
    method DrainPrioritized(
        wire: Wire, chunks: seq<Option<nat>>, lines: seq<(nat, bool)>)
      returns (finish: bool, ghost events: seq<Event>)
      modifies this
      ensures View(wire) == Run(codec, old(View(wire)), events) && NoCustomerEvidence(events)
    {
      hide Apply;
      ghost var start := View(wire);
      events, finish := [], false;
      var i := 0;
      while |pending| < MAX_BATCH_RECORDS * 2 && i < |chunks| && !finish
        invariant 0 <= i <= |chunks|
        invariant View(wire) == Run(codec, start, events) && NoCustomerEvidence(events)
        decreases |chunks| - i, !finish
      {
        if chunks[i].None? {
          finish := true;
        } else {
          var sealed: Option<string> := *;
          ghost var e := Chunk(chunks[i].value, sealed);
          ChunkStep(codec, View(wire), e);
          RunOne(codec, start, events, e);
          AdmitChunk(chunks[i].value, sealed);
          events := events + [e];
        }
        i := i + 1;
      }
      i := 0;
      while |pending| < MAX_BATCH_RECORDS * 2 && i < |lines|
        invariant 0 <= i <= |lines|
        invariant View(wire) == Run(codec, start, events) && NoCustomerEvidence(events)
      {
        var sealed: Option<string> := *;
        ghost var e := Line(lines[i].0, lines[i].1, sealed);
        LineStep(codec, View(wire), e);
        RunOne(codec, start, events, e);
        AdmitRuntimeSsh(lines[i].0, lines[i].1, sealed);
        events := events + [e];
        i := i + 1;
      }
      ghost var e := Report(wire, RuntimeSsh, start, events);
      events := events + [e];
    }

    // Admits drop evidence of one origin, as one event.
    method Report(wire: Wire, o: Origin, ghost start: System, ghost events: seq<Event>) returns (ghost e: Event)
      requires View(wire) == Run(codec, start, events)
      modifies this`pending, this`dropped, this`runtimeDropped, this`admitted
      ensures e.Evidence? && e.origin == o && View(wire) == Run(codec, start, events + [e])
    {
      hide Apply;
      var sealed: Option<string> := *;
      e := Evidence(o, sealed);
      EvidenceStep(codec, View(wire), e);
      RunOne(codec, start, events, e);
      AdmitDropEvidenceFor(o, sealed);
    }

    // The last words: evidence of both origins, then flushes until the queue is empty, an error
    // occurs or the grace period ends. The evidence respects a retained batch exactly when no
    // runtime batch is retained or there is nothing to report.
    method FinishPrioritized(wire: Wire, clocks: nat -> nat -> nat -> string, rounds: nat)
      returns (ghost events: seq<Event>)
      modifies this, wire
      ensures View(wire) == Run(codec, old(View(wire)), events)
      ensures events != [] && NoCustomerEvidence(events[1..])
      ensures Respected(codec, old(View(wire)), events) <==> Respects(old(View(wire)), events[0])
      ensures old(!HoldsRuntimeBatch(State()) || !HasEvidence(State(), Customer)) ==>
                Respected(codec, old(View(wire)), events)
    {
      hide Apply, Run, HasEvidence, HoldsRuntimeBatch;
      ghost var start := View(wire);
      RunNothing(codec, start);
      ghost var e := Report(wire, Customer, start, []);
      ghost var first := [e];
      assert [] + [e] == first;
      ghost var tail: seq<Event> := [];
      ghost var middle := View(wire);
      RunNothing(codec, middle);
      e := Report(wire, RuntimeSsh, middle, []);
      tail := [e];
      assert [] + [e] == tail;
      var round := 0;
      while pending != [] && round < rounds
        invariant View(wire) == Run(codec, middle, tail) && NoCustomerEvidence(tail)
        decreases rounds - round
      {
        ghost var more: seq<Event>;
        ghost var now := View(wire);
        var ok: bool;
        ok, more := FlushOnce(wire, clocks(round));
        RunAppend(codec, middle, tail, more);
        tail := tail + more;
        if !ok { break; }
        round := round + 1;
      }
      events := first + tail;
      RunAppend(codec, start, first, tail);
      QuietRunsRespect(codec, middle, tail);
      FirstThenQuiet(codec, start, first[0], tail);
      assert events[1..] == tail;
    }

    // Producer threads may count drops at any time.
    method CountedMeanwhile(wire: Wire) returns (ghost events: seq<Event>)
      modifies this`dropped, this`runtimeDropped
      ensures View(wire) == Run(codec, old(View(wire)), events) && NoCustomerEvidence(events)
    {
      hide Apply;
      var count: nat :| 0 <= count;
      ghost var start := View(wire);
      events := [];
      for i := 0 to count
        invariant View(wire) == Run(codec, start, events) && NoCustomerEvidence(events)
      {
        var o: Origin := *;
        var bytes: nat := *;
        ghost var e := Discard(o, bytes);
        DiscardStep(codec, View(wire), e);
        RunOne(codec, start, events, e);
        if o == Customer { dropped := Bump(dropped, bytes); } else { runtimeDropped := Bump(runtimeDropped, bytes); }
        events := events + [e];
      }
    }

    // One turn of the outer loop: what it receives, and what a drain then finds in the channels.
    method Turn(wire: Wire, work: Work, clocks: nat -> nat -> string) returns (finish: bool, ghost events: seq<Event>)
      modifies this, wire
      ensures View(wire) == Run(codec, old(View(wire)), events) && NoCustomerEvidence(events)
      ensures !finish ==> !work.Finish?
    {
      hide Apply, Run, NoCustomerEvidence;
      ghost var start := View(wire);
      ghost var more: seq<Event>;
      events := CountedMeanwhile(wire);
      finish := false;
      match work {
        case Idle =>
        case Output(bytes, chunks, lines) =>
          var sealed: Option<string> := *;
          ghost var e := Chunk(bytes, sealed);
          ChunkStep(codec, View(wire), e);
          RunOne(codec, start, events, e);
          AdmitChunk(bytes, sealed);
          QuietMore(events, [e]);
          events := events + [e];
          finish, more := DrainPrioritized(wire, chunks, lines);
          RunAppend(codec, start, events, more);
          QuietMore(events, more);
          events := events + more;
          if finish { return; }
        case RuntimeLine(bytes, critical) =>
          var sealed: Option<string> := *;
          ghost var e := Line(bytes, critical, sealed);
          LineStep(codec, View(wire), e);
          RunOne(codec, start, events, e);
          AdmitRuntimeSsh(bytes, critical, sealed);
          QuietMore(events, [e]);
          events := events + [e];
        case Disconnected(chunks, lines) =>
          var ignored: bool;
          ignored, more := DrainPrioritized(wire, chunks, lines);
          RunAppend(codec, start, events, more);
          QuietMore(events, more);
          events := events + more;
        case Finish(chunks, lines) =>
          var ignored: bool;
          ignored, more := DrainPrioritized(wire, chunks, lines);
          RunAppend(codec, start, events, more);
          QuietMore(events, more);
          return true, events + more;
      }
      if work.Output? || work.RuntimeLine? {
        var ok: bool;
        ok, more := FlushOnce(wire, clocks);
        RunAppend(codec, start, events, more);
        QuietMore(events, more);
        events := events + more;
      }
    }

    // The outer loop over any work. Until it finishes, no step can put customer evidence before a
    // retained runtime batch, so the invariant holds without any hypothesis. Finishing keeps it
    // exactly when no runtime batch meets evidence at that moment.
    method RunPrioritized(wire: Wire, work: seq<Work>, clocks: nat -> nat -> nat -> string, rounds: nat)
      returns (finished: bool, ghost quiet: seq<Event>, ghost last: seq<Event>)
      requires Inv(View(wire))
      modifies this, wire
      ensures View(wire) == Run(codec, Run(codec, old(View(wire)), quiet), last)
      ensures Inv(Run(codec, old(View(wire)), quiet)) && (finished <==> last != [])
      ensures finished ==>
                var s := Run(codec, old(View(wire)), quiet);
                && (Inv(Apply(codec, s, last[0])) <==> Respects(s, last[0]))
                && (Respects(s, last[0]) ==> Inv(View(wire)))
    {
      hide Apply, Run, Inv, Respects, NoCustomerEvidence, Respected;
      ghost var start := View(wire);
      quiet, last, finished := [], [], false;
      RunNothing(codec, start);
      NothingQuiet();
      for i := 0 to |work|
        invariant View(wire) == Run(codec, start, quiet) && NoCustomerEvidence(quiet)
      {
        ghost var more: seq<Event>;
        finished, more := Turn(wire, work[i], clocks(i));
        RunAppend(codec, start, quiet, more);
        QuietMore(quiet, more);
        quiet := quiet + more;
        if finished || work[i].Disconnected? { break; }
      }
      ghost var meanwhile := CountedMeanwhile(wire);
      RunAppend(codec, start, quiet, meanwhile);
      QuietMore(quiet, meanwhile);
      quiet := quiet + meanwhile;
      QuietRunsRespect(codec, start, quiet);
      RunInv(codec, start, quiet);
      ghost var s := View(wire);
      if finished {
        last := FinishPrioritized(wire, clocks, rounds);
        StepKeepsInvExactly(codec, s, last[0]);
        if Respected(codec, s, last) { RunInv(codec, s, last); }
      } else {
        RunNothing(codec, s);
      }
    }
  }

  // What the outer loop receives: nothing, customer output, a runtime line, the news that no output
  // can come any more, or the request to finish. With output and at the end both channels are
  // drained of what is listed.
  datatype Work =
    | Idle
    | Output(bytes: nat, chunks: seq<Option<nat>>, lines: seq<(nat, bool)>)
    | RuntimeLine(size: nat, critical: bool)
    | Disconnected(chunks: seq<Option<nat>>, lines: seq<(nat, bool)>)
    | Finish(chunks: seq<Option<nat>>, lines: seq<(nat, bool)>)

  lemma QuietMore(a: seq<Event>, b: seq<Event>)
    requires NoCustomerEvidence(a) && NoCustomerEvidence(b)
    ensures NoCustomerEvidence(a + b)
  {
  }

  lemma NothingQuiet()
    ensures NoCustomerEvidence([])
  {
  }

  lemma DiscardStep(c: Codec, s: System, e: Event)
    requires e.Discard?
    ensures Apply(c, s, e) ==
            s.(worker := if e.origin == Customer then s.worker.(dropped := Bump(s.worker.dropped, e.bytes))
                         else s.worker.(runtimeDropped := Bump(s.worker.runtimeDropped, e.bytes)))
  {
  }

  lemma RunNothing(c: Codec, s: System)
    ensures Run(c, s, []) == s
  {
  }

  lemma FirstThenQuiet(c: Codec, s: System, e: Event, tail: seq<Event>)
    requires e.Evidence? && e.origin == Customer && Respected(c, Run(c, s, [e]), tail)
    ensures Respected(c, s, [e] + tail) <==> Respects(s, e)
    ensures !HoldsRuntimeBatch(s.worker) || !HasEvidence(s.worker, Customer) ==>
              Respected(c, s, [e] + tail)
  {
    hide Apply;
    assert ([e] + tail)[0] == e && ([e] + tail)[1..] == tail;
    assert [e][1..] == [];
    assert Run(c, s, [e]) == Run(c, Apply(c, s, e), []);
  }

  lemma StragglerStep(c: Codec, s: System, e: Event, s': System)
    requires e.Late? && s'.worker == s.worker && s'.sent == s.sent
    requires s'.sink == if e.batch in s.sent then Delivered(s.sink, e.batch, e.hash) else s.sink
    ensures s' == Apply(c, s, e)
  {
  }

  lemma ChunkStep(c: Codec, s: System, e: Event)
    requires e.Chunk?
    ensures Apply(c, s, e) == s.(worker := LogMachine.AdmitChunk(s.worker, e.bytes, e.sealed))
  {
  }

  lemma LineStep(c: Codec, s: System, e: Event)
    requires e.Line?
    ensures Apply(c, s, e) ==
            s.(worker := LogMachine.AdmitRuntimeSsh(s.worker, e.bytes, e.critical, e.sealed))
  {
  }

  lemma EvidenceStep(c: Codec, s: System, e: Event)
    requires e.Evidence?
    ensures Apply(c, s, e) == s.(worker := AdmitDropEvidence(s.worker, e.origin, e.sealed))
  {
  }
}
