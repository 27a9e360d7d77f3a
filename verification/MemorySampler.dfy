// The memory sampler: a caller and one reader thread joined by two channels of one place each.
// Every interleaving of their steps is a run; a reader may also stop at any point.
module MemorySampler {
  import opened Common

  type Workload = nat

  // A request carries the number of the call that made it.
  datatype Request = Request(call: nat, workload: Option<Workload>)

  // What was read, and for which request.
  datatype Summary = Summary(readFor: Request)

  datatype Reader = Waiting | Reading(request: Request) | Replying(summary: Summary) | Stopped

  // Where the caller is: between calls, about to look for a late reply, about to send, or
  // waiting for the reply.
  datatype Caller = Outside | Draining | Sending | Receiving

  datatype Return = Return(call: nat, workload: Option<Workload>, summary: Option<Summary>)

  datatype State = State(
    alive: bool, outstanding: bool, caller: Caller, call: nat, workload: Option<Workload>,
    requests: Option<Request>, replies: Option<Summary>, reader: Reader,
    returned: seq<Return>, foundFull: bool)

  datatype Event =
    | Call(asked: Option<Workload>)
    | TryRecv
    | TrySend
    | Recv
    | TimeOut
    | Take
    | Read
    | Reply
    | Stop

  function Start(): State {
    State(true, false, Outside, 0, None, None, None, Waiting, [], false)
  }

  // The caller returns; a worker found dead is dropped.
  function Give(s: State, summary: Option<Summary>, usable: bool): State {
    s.(caller := Outside, alive := usable, returned := s.returned + [Return(s.call, s.workload, summary)])
  }

  function Begin(s: State, w: Option<Workload>): State {
    var s' := s.(call := s.call + 1, workload := w);
    if !s.alive then Give(s', None, false)
    else s'.(caller := if s.outstanding then Draining else Sending)
  }

  // A late reply belongs to an earlier call and is dropped.
  function DrainStep(s: State): State {
    if s.replies.Some? then s.(replies := None, outstanding := false, caller := Sending)
    else Give(s, None, !s.reader.Stopped?)
  }

  function SendStep(s: State): State {
    if s.reader.Stopped? then Give(s, None, false)
    else if s.requests.Some? then Give(s.(foundFull := true), None, true)
    else s.(requests := Some(Request(s.call, s.workload)), caller := Receiving)
  }

  function ReceiveStep(s: State): State {
    if s.replies.Some? then Give(s.(replies := None), Some(s.replies.value), true)
    else if s.reader.Stopped? then Give(s, None, false)
    else s
  }

  function Apply(s: State, e: Event): State {
    match e
    case Call(w) => if s.caller.Outside? then Begin(s, w) else s
    case TryRecv => if s.caller.Draining? then DrainStep(s) else s
    case TrySend => if s.caller.Sending? then SendStep(s) else s
    case Recv => if s.caller.Receiving? then ReceiveStep(s) else s
    case TimeOut =>
      if s.caller.Receiving? && s.replies.None? then Give(s.(outstanding := true), None, true) else s
    case Take =>
      if s.reader.Waiting? && s.requests.Some? then s.(requests := None, reader := Reading(s.requests.value)) else s
    case Read => if s.reader.Reading? then s.(reader := Replying(Summary(s.reader.request))) else s
    case Reply =>
      if !s.reader.Replying? then s
      else if !s.alive then s.(reader := Stopped)
      else if s.replies.None? then s.(replies := Some(s.reader.summary), reader := Waiting)
      else s
    case Stop => s.(reader := Stopped)
  }

  function Run(s: State, events: seq<Event>): State
    decreases |events|
  {
    if events == [] then s else Run(Apply(s, events[0]), events[1..])
  }

  // ---- What every reachable state satisfies ----

  // Every request that has been sent and not yet received back, wherever it stands.
  function InFlight(s: State): seq<Request> {
    (if s.requests.Some? then [s.requests.value] else [])
    + (match s.reader
       case Reading(r) => [r]
       case Replying(m) => [m.readFor]
       case _ => [])
    + (if s.replies.Some? then [s.replies.value.readFor] else [])
  }

  ghost predicate Inv(s: State) {
    && |InFlight(s)| <= 1
    && (s.alive && !s.outstanding && !s.caller.Receiving? ==> InFlight(s) == [])
    && (s.caller.Receiving? ==> InFlight(s) == [] || InFlight(s) == [Request(s.call, s.workload)])
    && (s.outstanding && s.alive ==> !s.caller.Receiving? && !s.caller.Sending?)
    && (s.caller != Outside ==> s.alive)
    && !s.foundFull
    && (forall i | 0 <= i < |s.returned| && s.returned[i].summary.Some? ::
          s.returned[i].summary.value.readFor == Request(s.returned[i].call, s.returned[i].workload))
  }

  lemma StepKeepsInv(s: State, e: Event)
    requires Inv(s)
    ensures Inv(Apply(s, e))
  {
    if s.replies.Some? { assert InFlight(s)[|InFlight(s)| - 1] == s.replies.value.readFor; }
  }

  lemma {:induction false} RunKeepsInv(s: State, events: seq<Event>)
    requires Inv(s)
    ensures Inv(Run(s, events))
    decreases |events|
  {
    if events != [] {
      StepKeepsInv(s, events[0]);
      RunKeepsInv(Apply(s, events[0]), events[1..]);
    }
  }

  // In every run at most one request is in flight, a full request channel is never met, and a
  // summary that is returned was read for the very call that returns it.
  lemma EveryRun(events: seq<Event>)
    ensures var s := Run(Start(), events);
            && |InFlight(s)| <= 1 && !s.foundFull
            && forall i | 0 <= i < |s.returned| && s.returned[i].summary.Some? ::
                 s.returned[i].summary.value.readFor == Request(s.returned[i].call, s.returned[i].workload)
  {
    RunKeepsInv(Start(), events);
  }

  // ---- One call, with the reader running beside it ----

  predicate ReaderEvent(e: Event) { e == Take || e == Read || e == Reply || e == Stop }

  lemma {:induction false} ReaderLeavesCaller(s: State, events: seq<Event>)
    requires forall i | 0 <= i < |events| :: ReaderEvent(events[i])
    ensures var s' := Run(s, events);
            && s'.alive == s.alive && s'.outstanding == s.outstanding && s'.caller == s.caller
            && s'.call == s.call && s'.workload == s.workload && s'.returned == s.returned
    decreases |events|
  {
    if events != [] { ReaderLeavesCaller(Apply(s, events[0]), events[1..]); }
  }

  // Call number `call` for `w` is under way, or has just returned.
  ghost predicate InCall(s: State, call: nat, w: Option<Workload>, before: seq<Return>) {
    && s.call == call && s.workload == w
    && (if s.caller.Outside? then
          s.returned != [] && s.returned == before + [Return(call, w, s.returned[|s.returned| - 1].summary)]
        else s.returned == before)
  }

  lemma CallBegins(s: State, w: Option<Workload>)
    requires s.caller.Outside?
    ensures var s' := Apply(s, Call(w));
            InCall(s', s.call + 1, w, s.returned) && s'.caller in {Outside, Draining, Sending}
            && (!s.alive ==> s'.caller.Outside? && !s'.alive && s'.returned[|s.returned|].summary.None?)
  {
  }

  // The caller's own steps, each from the place it belongs to.
  lemma CallGoesOn(s: State, e: Event, call: nat, w: Option<Workload>, before: seq<Return>)
    requires InCall(s, call, w, before)
    requires
      || (e == TryRecv && s.caller.Draining?) || (e == TrySend && s.caller.Sending?)
      || (e == Recv && s.caller.Receiving?) || (e == TimeOut && s.caller.Receiving? && s.replies.None?)
    ensures var s' := Apply(s, e);
            && InCall(s', call, w, before)
            && (e == TryRecv ==> s'.caller in {Outside, Sending})
            && (e == TrySend ==> s'.caller in {Outside, Receiving})
            && (e == Recv ==> s'.caller.Outside? || (s'.caller.Receiving? && s'.replies.None?))
            && (e == TimeOut ==> s'.caller.Outside?)
  {
  }

  class Sampler {
    var state: State

    constructor ()
      ensures Inv(state) && state == Start()
    {
      state := Start();
    }

    // Whatever the reader does meanwhile.
    method Meanwhile(ghost call: nat, ghost w: Option<Workload>, ghost before: seq<Return>)
      requires Inv(state) && InCall(state, call, w, before)
      modifies this
      ensures Inv(state) && InCall(state, call, w, before) && state.caller == old(state.caller)
      ensures state.alive == old(state.alive) && state.returned == old(state.returned)
    {
      assert forall i | 0 <= i < |[Stop]| :: ReaderEvent([Stop][i]);
      var events: seq<Event> :| forall i | 0 <= i < |events| :: ReaderEvent(events[i]);
      RunKeepsInv(state, events);
      ReaderLeavesCaller(state, events);
      state := Run(state, events);
    }

    method Step(e: Event)
      requires Inv(state)
      modifies this
      ensures Inv(state) && state == Apply(old(state), e)
    {
      StepKeepsInv(state, e);
      state := Apply(state, e);
    }

    // A call returns a summary read for this very call, or none.
    method SampleWithin(workload: Option<Workload>) returns (summary: Option<Summary>)
      requires Inv(state) && state.caller == Outside
      modifies this
      ensures Inv(state) && state.caller == Outside && state.call == old(state.call) + 1
      ensures summary.Some? ==> summary.value.readFor == Request(state.call, workload)
      ensures state.returned == old(state.returned) + [Return(state.call, workload, summary)]
      ensures !old(state.alive) ==> summary.None? && !state.alive
    {
      hide Inv, InFlight, Run, Apply, InCall;
      ghost var (call, before) := (state.call + 1, state.returned);
      CallBegins(state, workload);
      Step(Call(workload));
      Meanwhile(call, workload, before);
      if state.caller == Draining {
        CallGoesOn(state, TryRecv, call, workload, before);
        Step(TryRecv);
        Meanwhile(call, workload, before);
      }
      if state.caller == Sending {
        CallGoesOn(state, TrySend, call, workload, before);
        Step(TrySend);
        Meanwhile(call, workload, before);
      }
      if state.caller == Receiving {
        CallGoesOn(state, Recv, call, workload, before);
        Step(Recv);
        if state.caller == Receiving {
          CallGoesOn(state, TimeOut, call, workload, before);
          Step(TimeOut);
        }
      }
      CallEnds(state, call, workload, before);
      summary := state.returned[|state.returned| - 1].summary;
    }
  }

  lemma CallEnds(s: State, call: nat, w: Option<Workload>, before: seq<Return>)
    requires Inv(s) && InCall(s, call, w, before) && s.caller.Outside?
    ensures s.call == call && s.returned != []
    ensures var last := s.returned[|s.returned| - 1];
            && s.returned == before + [Return(call, w, last.summary)]
            && (last.summary.Some? ==> last.summary.value.readFor == Request(call, w))
  {
  }
}
