// The byte counter that bounds the runtime log channel, shared by any number of emitting
// threads and the worker. Each atomic operation is one step; steps interleave freely.
module QueueMemory {
  import opened Common
  import opened Sums

  const QUEUE_MEMORY_BYTES: nat := 1048576
  const QUEUE_CAPACITY: nat := 128

  // Where an emitter is: between calls, holding a reservation, or about to give it back.
  datatype Emitter = Idle | Reserved(bytes: nat) | Returning(bytes: nat)

  // The worker between receiving a record and releasing its bytes.
  datatype Reader = Waiting | Received(bytes: nat) | Gone

  datatype State = State(queued: nat, channel: seq<nat>, emitters: seq<Emitter>, reader: Reader)

  datatype Step =
    | Reserve(who: nat, bytes: nat)
    | Send(who: nat)
    | GiveBack(who: nat)
    | Receive
    | Release
    | Leave

  function Saturated(current: nat, bytes: nat): nat { if bytes <= current then current - bytes else 0 }

  // An addition that would overflow 64 bits or pass the limit reserves nothing.
  predicate Fits(current: nat, bytes: nat) {
    current + bytes <= U64_MAX && current + bytes <= QUEUE_MEMORY_BYTES
  }

  function Next(s: State, step: Step): State {
    match step
    case Reserve(i, n) =>
      if i < |s.emitters| && s.emitters[i].Idle? && Fits(s.queued, n) then
        s.(queued := s.queued + n, emitters := s.emitters[i := Reserved(n)])
      else s
    case Send(i) =>
      if i < |s.emitters| && s.emitters[i].Reserved? then
        var n := s.emitters[i].bytes;
        if s.reader.Gone? || |s.channel| >= QUEUE_CAPACITY then
          s.(emitters := s.emitters[i := Returning(n)])
        else s.(channel := s.channel + [n], emitters := s.emitters[i := Idle])
      else s
    case GiveBack(i) =>
      if i < |s.emitters| && s.emitters[i].Returning? then
        s.(queued := Saturated(s.queued, s.emitters[i].bytes), emitters := s.emitters[i := Idle])
      else s
    case Receive =>
      if s.reader.Waiting? && s.channel != [] then
        s.(channel := s.channel[1..], reader := Received(s.channel[0]))
      else s
    case Release =>
      if s.reader.Received? then s.(queued := Saturated(s.queued, s.reader.bytes), reader := Waiting)
      else s
    case Leave => if s.reader.Waiting? then s.(reader := Gone) else s
  }

  function Run(s: State, steps: seq<Step>): State
    decreases |steps|
  {
    if steps == [] then s else Run(Next(s, steps[0]), steps[1..])
  }

  function Held(e: Emitter): nat { if e.Idle? then 0 else e.bytes }

  function HeldBy(es: seq<Emitter>): (r: seq<nat>)
    ensures |r| == |es| && forall i | 0 <= i < |es| :: r[i] == Held(es[i])
  {
    seq(|es|, i requires 0 <= i < |es| => Held(es[i]))
  }

  function Unreleased(r: Reader): nat { if r.Received? then r.bytes else 0 }

  // The counter is exactly the bytes in the channel, reserved but not sent, and received but
  // not released, and it is within the limit.
  predicate Balanced(s: State) {
    && s.queued == Sum(s.channel) + Sum(HeldBy(s.emitters)) + Unreleased(s.reader)
    && s.queued <= QUEUE_MEMORY_BYTES
  }

  // The release of a step, if it has one, takes away at most what is counted.
  predicate ReleaseIsExact(s: State, step: Step) {
    && (step.GiveBack? && step.who < |s.emitters| && s.emitters[step.who].Returning? ==>
          s.emitters[step.who].bytes <= s.queued)
    && (step.Release? && s.reader.Received? ==> s.reader.bytes <= s.queued)
  }

  lemma EmitterMoves(es: seq<Emitter>, i: nat, e: Emitter)
    requires i < |es|
    ensures Sum(HeldBy(es[i := e])) + Held(es[i]) == Sum(HeldBy(es)) + Held(e)
    ensures Held(es[i]) <= Sum(HeldBy(es))
  {
    assert HeldBy(es[i := e]) == HeldBy(es)[i := Held(e)];
    SumUpdated(HeldBy(es), i, Held(e));
    SumAtLeast(HeldBy(es), i);
  }

  lemma StepBalanced(s: State, step: Step)
    requires Balanced(s)
    ensures Balanced(Next(s, step)) && ReleaseIsExact(s, step)
  {
    hide Sum, HeldBy;
    match step {
      case Reserve(i, n) =>
        if i < |s.emitters| { EmitterMoves(s.emitters, i, Reserved(n)); }
      case Send(i) =>
        if i < |s.emitters| && s.emitters[i].Reserved? {
          var n := s.emitters[i].bytes;
          EmitterMoves(s.emitters, i, Returning(n));
          EmitterMoves(s.emitters, i, Idle);
          SumAppended(s.channel, n);
        }
      case GiveBack(i) =>
        if i < |s.emitters| { EmitterMoves(s.emitters, i, Idle); }
      case Receive =>
        if s.channel != [] { SumFirst(s.channel); }
      case Release =>
      case Leave =>
    }
  }

  // In every interleaving of any number of emitters with the worker the counter is balanced and
  // no release ever saturates.
  lemma {:induction false} EveryInterleaving(s: State, steps: seq<Step>)
    requires Balanced(s)
    ensures Balanced(Run(s, steps))
    ensures forall k | 0 <= k < |steps| :: ReleaseIsExact(Run(s, steps[..k]), steps[k])
    decreases |steps|
  {
    hide Balanced, Next, ReleaseIsExact;
    if steps != [] {
      StepBalanced(s, steps[0]);
      EveryInterleaving(Next(s, steps[0]), steps[1..]);
      forall k | 0 <= k < |steps|
        ensures ReleaseIsExact(Run(s, steps[..k]), steps[k])
      {
        if k == 0 {
          assert steps[..0] == [];
        } else {
          assert steps[..k][1..] == steps[1..][..k - 1] && steps[k] == steps[1..][k - 1];
        }
      }
    }
  }

  lemma StartBalanced(count: nat)
    ensures Balanced(State(0, [], seq(count, _ => Idle), Waiting))
  {
    SumZeros(HeldBy(seq(count, _ => Idle)));
  }

  // From the start on, any number of emitters and any schedule.
  lemma EveryRun(count: nat, steps: seq<Step>)
    ensures var s := State(0, [], seq(count, _ => Idle), Waiting);
            Balanced(Run(s, steps)) && forall k | 0 <= k < |steps| :: ReleaseIsExact(Run(s, steps[..k]), steps[k])
  {
    StartBalanced(count);
    EveryInterleaving(State(0, [], seq(count, _ => Idle), Waiting), steps);
  }
}
