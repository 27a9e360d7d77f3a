// The resumable payload download: bounded attempts, each asking for exactly the bytes that are
// still missing, hashed as they are written.
module PayloadDownload {
  import opened Common
  import opened PayloadRange

  const MAX_TRANSFER_ATTEMPTS: nat := 64
  const STREAM_BUFFER_BYTES: nat := 16384
  const MAX_VALIDITY_MS: int := 60_000
  const I64_MAX: int := 0x7FFF_FFFF_FFFF_FFFF

  datatype Error =
    | Budget | Binding | Bridge | Runtime | Refused | Response | Incomplete | Integrity | Write
    | Protocol(refusal: Refusal)

  // The negotiated facts a transfer depends on.
  datatype Context = Context(
    size: nat, artifactDigest: string, descriptorDigest: string, authorizationExpires: int)

  datatype Policy = Policy(maxAttempts: nat, maxElapsed: nat)

  datatype Request = Request(range: Range, issued: int, expires: int, nonce: string)

  datatype Answer = Answer(
    status: nat, contentLength: Option<nat>, contentRange: Option<string>,
    descriptorDigest: string, artifactDigest: string, contentEncoding: Option<string>)

  datatype Exchange = Transport | Rejected | Answered(answer: Answer)

  datatype Verified = Verified(artifactDigest: string, descriptorDigest: string, sizeBytes: nat)

  // ---- A hash that is fed piece by piece ----

  datatype Hash<!S> = Hash(init: S, feed: (S, byte) -> S, finish: S -> string)

  function Fed<S>(h: Hash<S>, s: S, bytes: Bytes): S
    decreases |bytes|
  {
    if bytes == [] then s else Fed(h, h.feed(s, bytes[0]), bytes[1..])
  }

  function Digest<S>(h: Hash<S>, bytes: Bytes): string { h.finish(Fed(h, h.init, bytes)) }

  lemma {:induction false} FedInPieces<S>(h: Hash<S>, s: S, a: Bytes, b: Bytes)
    ensures Fed(h, Fed(h, s, a), b) == Fed(h, s, a + b)
    decreases |a|
  {
    if a == [] {
      assert a + b == b;
    } else {
      FedInPieces(h, h.feed(s, a[0]), a[1..], b);
      assert (a + b)[1..] == a[1..] + b;
    }
  }

  // ---- Requests and answers ----

  // A request as the context signs it.
  function MakeRequest(context: Context, range: Range, now: int, nonce: string): Result<Request, Error> {
    if now < 0 || now >= context.authorizationExpires then Err(Protocol(Expired))
    else if now + MAX_VALIDITY_MS > I64_MAX then Err(Protocol(Overflow))
    else
      var expires := Min(now + MAX_VALIDITY_MS, context.authorizationExpires);
      match Validate(range)
      case Some(e) => Err(Protocol(e))
      case None =>
        if expires > MAX_SAFE_INTEGER then Err(Protocol(InvalidTime))
        else Ok(Request(range, now, expires, nonce))
  }

  function ValidateTransport(q: Request, header: Option<string>, now: int): Option<Refusal> {
    match FromHeader(header)
    case Err(e) => Some(e)
    case Ok(range) =>
      if range != q.range then Some(RangeMismatch)
      else if now < q.issued then Some(NotYetValid)
      else if now >= q.expires then Some(Expired)
      else None
  }

  // The client's own header always matches its request: only the clock can refuse it.
  lemma OnlyTheClockRefuses(q: Request, now: int)
    requires Fits(q.range) && Validate(q.range).None?
    ensures ValidateTransport(q, Header(q.range), now) ==
            if now < q.issued then Some(NotYetValid) else if now >= q.expires then Some(Expired) else None
  {
    hide FromHeader, Header, Validate;
    HeaderRoundTrip(q.range);
  }

  function ValidateAnswer(context: Context, q: Request, a: Answer): Option<Error> {
    match Select(q.range, context.size)
    case Err(e) => Some(Protocol(e))
    case Ok(selection) =>
      var range :=
        if q.range.Whole? then None
        else Some(ContentRange(q.range.start, q.range.endInclusive, context.size));
      if a.status != (if range.Some? then 206 else 200) then
        Some(if a.status == 401 || a.status == 403 then Refused else Response)
      else if
        || a.contentLength != Some(selection.length)
        || a.contentRange != range
        || a.descriptorDigest != context.descriptorDigest
        || a.artifactDigest != context.artifactDigest
        || (a.contentEncoding.Some? && a.contentEncoding.value != "identity")
      then Some(Response)
      else None
  }

  predicate Retried(status: nat) { status == 408 || status == 429 || 500 <= status <= 599 }

  // ---- What a run leaves behind ----

  // One successful read of an answer's body, with the clock and the elapsed time read before it.
  datatype Read = Read(at: int, elapsed: nat, bytes: Bytes)

  // One attempt: the elapsed time read before it, the reads whose bytes were written, and the read
  // whose write failed, if any.
  datatype Attempt = Attempt(
    offset: nat, elapsed: nat, request: Request, exchange: Exchange, pieces: seq<Read>, unwritten: Option<Read>)

  function UnwrittenBytes(a: Attempt): Bytes { if a.unwritten.Some? then a.unwritten.value.bytes else [] }

  function Joined(pieces: seq<Read>): (r: Bytes)
    ensures pieces == [] ==> r == []
  {
    if pieces == [] then [] else Joined(pieces[..|pieces| - 1]) + pieces[|pieces| - 1].bytes
  }

  function Received(log: seq<Attempt>): (r: Bytes)
    ensures log == [] ==> r == []
  {
    if log == [] then [] else Received(log[..|log| - 1]) + Joined(log[|log| - 1].pieces)
  }

  // Every read is a piece of at most one buffer, taken while the request is valid and the time
  // budget lasts.
  predicate GoodRead(budget: nat, q: Request, read: Read) {
    && 0 < |read.bytes| <= STREAM_BUFFER_BYTES
    && q.issued <= read.at < q.expires && read.elapsed < budget
  }

  predicate GoodRequest(context: Context, offset: nat, q: Request) {
    && offset < context.size && q.range == Missing(offset, context.size)
    && Fits(q.range) && Validate(q.range).None?
    && 0 <= q.issued < q.expires <= q.issued + MAX_VALIDITY_MS
    && q.expires <= context.authorizationExpires
  }

  predicate GoodAttempt(context: Context, budget: nat, a: Attempt) {
    && GoodRequest(context, a.offset, a.request) && a.elapsed < budget
    && (forall i | 0 <= i < |a.pieces| :: GoodRead(budget, a.request, a.pieces[i]))
    && (a.unwritten.Some? ==> GoodRead(budget, a.request, a.unwritten.value))
    && a.offset + |Joined(a.pieces)| + |UnwrittenBytes(a)| <= context.size
    && (a.pieces != [] || a.unwritten.Some? ==>
          && a.exchange.Answered? && !Retried(a.exchange.answer.status)
          && ValidateAnswer(context, a.request, a.exchange.answer).None?)
  }

  // A run: every attempt is good and starts where the bytes received so far end, and a failed
  // write ends the run.
  ghost predicate GoodRun(context: Context, budget: nat, log: seq<Attempt>) {
    && (forall i | 0 <= i < |log| :: GoodAttempt(context, budget, log[i]))
    && (forall i | 0 <= i < |log| :: log[i].offset == |Received(log[..i])|)
    && (forall i | 0 <= i < |log| - 1 :: log[i].unwritten.None?)
    && (forall i, j | 0 <= i < j < |log| :: log[i].request.nonce != log[j].request.nonce)
  }

  // What a failed write may have left on the sink behind the bytes received.
  function Spilled(log: seq<Attempt>): Bytes { if log == [] then [] else UnwrittenBytes(log[|log| - 1]) }

  lemma GoodRunGrows(context: Context, budget: nat, log: seq<Attempt>, a: Attempt)
    requires GoodRun(context, budget, log) && GoodAttempt(context, budget, a) && a.offset == |Received(log)|
    requires log != [] ==> log[|log| - 1].unwritten.None?
    requires forall i | 0 <= i < |log| :: log[i].request.nonce != a.request.nonce
    ensures GoodRun(context, budget, log + [a]) && Received(log + [a]) == Received(log) + Joined(a.pieces)
    ensures |Received(log + [a])| <= context.size && Spilled(log + [a]) == UnwrittenBytes(a)
  {
    hide GoodAttempt, Joined, Received, UnwrittenBytes;
    var log' := log + [a];
    ReceivedGrows(log, a);
    assert forall i | 0 <= i < |log| :: log'[i] == log[i];
    forall i | 0 <= i < |log'| ensures log'[i].offset == |Received(log'[..i])| {
      assert log'[..i] == log[..i];
      assert log[..|log|] == log;
    }
    AttemptFits(context, budget, a);
  }

  lemma ReceivedGrows(log: seq<Attempt>, a: Attempt)
    ensures Received(log + [a]) == Received(log) + Joined(a.pieces)
  {
    hide Joined;
    assert (log + [a])[..|log|] == log;
  }

  lemma AttemptFits(context: Context, budget: nat, a: Attempt)
    requires GoodAttempt(context, budget, a)
    ensures a.offset + |Joined(a.pieces)| <= context.size
  {
  }

  // ---- The body of one answer ----

  // Saturating subtraction of two readings of the running time.
  function Since(reading: nat, started: nat): nat { if reading >= started then reading - started else 0 }

  method Receive<S>(context: Context, hash: Hash<S>, budget: nat, started: nat, q: Request,
                    offset0: nat, state0: S, sink0: Bytes)
    returns (stop: Option<Error>, pieces: seq<Read>, unwritten: Option<Read>,
             offset: nat, state: S, sink: Bytes, remaining: nat)
    requires GoodRequest(context, offset0, q) && |sink0| == offset0
    ensures forall i | 0 <= i < |pieces| :: GoodRead(budget, q, pieces[i])
    ensures unwritten.Some? ==> stop == Some(Write) && GoodRead(budget, q, unwritten.value)
    ensures unwritten.Some? ==> |unwritten.value.bytes| <= remaining
    ensures offset == offset0 + |Joined(pieces)| && remaining == context.size - offset
    ensures state == Fed(hash, state0, Joined(pieces))
    ensures sink0 + Joined(pieces) <= sink
    ensures sink <= sink0 + Joined(pieces) + (if unwritten.Some? then unwritten.value.bytes else [])
    ensures unwritten.None? ==> sink == sink0 + Joined(pieces)
    ensures stop != Some(Budget) && stop != Some(Integrity)
  {
    hide Validate, FromHeader, Header, Fits;
    stop, pieces, unwritten, offset, state, sink := None, [], None, offset0, state0, sink0;
    remaining := context.size - offset;
    while remaining > 0
      invariant forall i | 0 <= i < |pieces| :: GoodRead(budget, q, pieces[i])
      invariant offset == offset0 + |Joined(pieces)| && remaining == context.size - offset
      invariant state == Fed(hash, state0, Joined(pieces))
      invariant sink == sink0 + Joined(pieces)
    {
      if * { stop := Some(Runtime); return; }
      var now: int := *;
      if now >= context.authorizationExpires { stop := Some(Protocol(Expired)); return; }
      OnlyTheClockRefuses(q, now);
      match ValidateTransport(q, Header(q.range), now) {
        case None =>
        case Some(e) =>
          if e == Expired { break; }
          stop := Some(Protocol(e));
          return;
      }
      var reading: nat := *;
      var elapsed := Since(reading, started);
      if elapsed >= budget { stop := Some(Incomplete); return; }
      var count := Min(remaining, STREAM_BUFFER_BYTES);
      var bytes: Bytes :| |bytes| <= count;
      var failed: bool := *;
      if failed || bytes == [] { break; }
      if * {
        var part: nat :| part <= |bytes|;
        stop, unwritten, sink := Some(Write), Some(Read(now, elapsed, bytes)), sink + bytes[..part];
        return;
      }
      FedInPieces(hash, state0, Joined(pieces), bytes);
      var pieces' := pieces + [Read(now, elapsed, bytes)];
      assert pieces'[..|pieces|] == pieces;
      pieces, state, sink := pieces', Fed(hash, state, bytes), sink + bytes;
      offset, remaining := offset + |bytes|, remaining - |bytes|;
    }
  }

  // ---- One attempt ----

  // What follows a complete body: nothing may be left to read, the authorization must still
  // stand, and the digest must be the promised one.
  method Complete<S>(context: Context, hash: Hash<S>, q: Request, offset: nat, state: S, ghost sink: Bytes)
    returns (r: Result<Verified, Error>)
    requires state == Fed(hash, hash.init, sink) && offset == |sink| == context.size
    ensures r.Ok? ==> r.value == Verified(context.artifactDigest, context.descriptorDigest, |sink|)
    ensures r.Ok? ==> Digest(hash, sink) == context.artifactDigest
    ensures r == Err(Integrity) ==> Digest(hash, sink) != context.artifactDigest
    ensures r != Err(Budget)
  {
    hide Fed, FromHeader, Header;
    if * { return Err(Response); }
    if * { return Err(Incomplete); }
    if * { return Err(Runtime); }
    var now: int := *;
    if now >= context.authorizationExpires { return Err(Protocol(Expired)); }
    match ValidateTransport(q, Header(q.range), now) {
      case None =>
      case Some(e) => if e != Expired { return Err(Protocol(e)); }
    }
    if hash.finish(state) != context.artifactDigest { return Err(Integrity); }
    if * { return Err(Write); }
    return Ok(Verified(context.artifactDigest, context.descriptorDigest, offset));
  }

  // What one exchange may leave on the sink, and with which verdict: none means try again.
  ghost predicate Outcome<S(!new)>(context: Context, hash: Hash<S>, v: Option<Result<Verified, Error>>,
                                   received: Bytes, spilled: Bytes, sink: Bytes)
  {
    && received <= sink <= received + spilled && |sink| <= context.size
    && (v != Some(Err(Write)) ==> spilled == [] && sink == received)
    && (v.None? ==> |sink| < context.size)
    && (v.Some? && v.value.Ok? ==>
          && |sink| == context.size && Digest(hash, sink) == context.artifactDigest
          && v.value.value == Verified(context.artifactDigest, context.descriptorDigest, |sink|))
    && (v == Some(Err(Integrity)) ==> |sink| == context.size && Digest(hash, sink) != context.artifactDigest)
    && v != Some(Err(Budget))
  }

  method Try<S(!new)>(context: Context, hash: Hash<S>, budget: nat, started: nat, elapsed: nat, q: Request,
                      offset0: nat, state0: S, sink0: Bytes)
    returns (v: Option<Result<Verified, Error>>, a: Attempt, offset: nat, state: S, sink: Bytes)
    requires GoodRequest(context, offset0, q) && |sink0| == offset0
    requires state0 == Fed(hash, hash.init, sink0) && elapsed < budget
    ensures GoodAttempt(context, budget, a) && a.offset == offset0 && a.request == q
    ensures Outcome(context, hash, v, sink0 + Joined(a.pieces), UnwrittenBytes(a), sink)
    ensures v != Some(Err(Write)) ==> a.unwritten.None?
    ensures v.None? ==> offset == |sink| && state == Fed(hash, hash.init, sink)
  {
    hide Fed, Joined, ValidateAnswer, GoodRead, Digest;
    offset, state, sink := offset0, state0, sink0;
    var exchange: Exchange := *;
    a := Attempt(offset0, elapsed, q, exchange, [], None);
    match exchange {
      case Transport => v := None;
      case Rejected => v := Some(Err(Refused));
      case Answered(answer) =>
        if Retried(answer.status) { v := None; return; }
        var bad := ValidateAnswer(context, q, answer);
        AnswerVerdict(context, q, answer);
        if bad.Some? { v := Some(Err(bad.value)); return; }
        var stop, pieces, unwritten, remaining;
        stop, pieces, unwritten, offset, state, sink, remaining :=
          Receive(context, hash, budget, started, q, offset0, state0, sink0);
        a := Attempt(offset0, elapsed, q, exchange, pieces, unwritten);
        FedInPieces(hash, hash.init, sink0, Joined(pieces));
        if stop.Some? { v := Some(Err(stop.value)); return; }
        if remaining > 0 { v := None; return; }
        var r := Complete(context, hash, q, offset, state, sink);
        v := Some(r);
    }
  }

  lemma AnswerVerdict(context: Context, q: Request, a: Answer)
    ensures ValidateAnswer(context, q, a) != Some(Budget) && ValidateAnswer(context, q, a) != Some(Integrity)
    ensures ValidateAnswer(context, q, a) != Some(Write)
  {
  }

  // A request for the missing suffix is refused for its time only, and is otherwise good.
  lemma RequestMade(context: Context, offset: nat, now: int, nonce: string)
    requires offset < context.size <= MAX_SAFE_INTEGER
    ensures var made := MakeRequest(context, Missing(offset, context.size), now, nonce);
            if made.Ok? then GoodRequest(context, offset, made.value) && made.value.nonce == nonce
            else made.error in {Protocol(Expired), Protocol(Overflow), Protocol(InvalidTime)}
  {
  }

  // ---- The transfer ----

  method DownloadPayload<S(!new)>(context: Context, hash: Hash<S>, policy: Policy)
    returns (r: Result<Verified, Error>, sink: Bytes, log: seq<Attempt>)
    requires 0 < context.size <= MAX_SAFE_INTEGER
    ensures GoodRun(context, policy.maxElapsed, log) && |log| <= policy.maxAttempts
    ensures Received(log) <= sink <= Received(log) + Spilled(log) && |sink| <= context.size
    ensures r != Err(Write) ==> sink == Received(log) && Spilled(log) == []
    ensures r.Ok? ==> |sink| == context.size && Digest(hash, sink) == context.artifactDigest
    ensures r.Ok? ==> r.value == Verified(context.artifactDigest, context.descriptorDigest, |sink|)
    ensures r == Err(Integrity) ==> |sink| == context.size && Digest(hash, sink) != context.artifactDigest
    ensures r == Err(Budget) <==> !(1 <= policy.maxAttempts <= MAX_TRANSFER_ATTEMPTS) || policy.maxElapsed == 0
    ensures r == Err(Budget) ==> log == []
  {
    hide GoodRun, GoodAttempt, GoodRequest, Received, Joined, MakeRequest, Missing, Fed, Digest, Header, FromHeader;
    sink, log := [], [];
    StartOfRun(context, policy.maxElapsed, hash);
    if !(1 <= policy.maxAttempts <= MAX_TRANSFER_ATTEMPTS) || policy.maxElapsed == 0 {
      return Err(Budget), sink, log;
    }
    if * { return Err(Bridge), sink, log; }
    if * { return Err(Binding), sink, log; }
    var started: nat := *;
    var offset, state, nonces := 0, hash.init, {};
    for attempt := 0 to policy.maxAttempts
      invariant |log| <= attempt && GoodRun(context, policy.maxElapsed, log) && Spilled(log) == []
      invariant log != [] ==> log[|log| - 1].unwritten.None?
      invariant sink == Received(log) && offset == |sink| < context.size
      invariant state == Fed(hash, hash.init, sink)
      invariant forall i | 0 <= i < |log| :: log[i].request.nonce in nonces
    {
      var reading: nat := *;
      var elapsed := Since(reading, started);
      if elapsed >= policy.maxElapsed { break; }
      if * { return Err(Runtime), sink, log; }
      var nonce: string := *;
      if nonce in nonces { return Err(Protocol(NonceReplayed)), sink, log; }
      nonces := nonces + {nonce};
      if * { return Err(Runtime), sink, log; }
      var now: int := *;
      var made := MakeRequest(context, Missing(offset, context.size), now, nonce);
      RequestMade(context, offset, now, nonce);
      if made.Err? { return Err(made.error), sink, log; }
      var q := made.value;
      if * { return Err(Bridge), sink, log; }
      var refusal: Refusal := *;
      if * { return Err(Protocol(refusal)), sink, log; }
      if * { return Err(Runtime), sink, log; }
      now := *;
      match ValidateTransport(q, Header(q.range), now) {
        case None =>
        case Some(e) => return Err(Protocol(e)), sink, log;
      }
      var v, a;
      v, a, offset, state, sink := Try(context, hash, policy.maxElapsed, started, elapsed, q, offset, state, sink);
      GoodRunGrows(context, policy.maxElapsed, log, a);
      log := log + [a];
      if v.Some? { return v.value, sink, log; }
    }
    return Err(Incomplete), sink, log;
  }

  lemma StartOfRun<S>(context: Context, budget: nat, hash: Hash<S>)
    ensures GoodRun(context, budget, []) && Received([]) == [] && Fed(hash, hash.init, []) == hash.init
  {
  }

  // ---- What every run means ----

  // Each request of a run names exactly the bytes that had not been received before it, and an
  // answer whose bytes are used declares exactly their number.
  lemma AsksForMissing(context: Context, budget: nat, log: seq<Attempt>, i: nat, k: nat)
    requires GoodRun(context, budget, log) && i < |log| && context.size <= MAX_SAFE_INTEGER
    ensures Names(log[i].request.range, context.size, k) <==> |Received(log[..i])| <= k < context.size
    ensures log[i].pieces != [] ==>
              && log[i].exchange.Answered?
              && log[i].exchange.answer.contentLength == Some(context.size - |Received(log[..i])|)
  {
    hide Validate, Received, Joined, Names;
    var a := log[i];
    assert GoodAttempt(context, budget, a);
    MissingIsSuffix(a.offset, context.size, k);
  }

  // Every attempt's body was taken from the artifact at the place the request asked for.
  ghost predicate Honest(artifact: Bytes, log: seq<Attempt>) {
    forall i | 0 <= i < |log| ::
      log[i].offset <= |artifact| && Joined(log[i].pieces) + UnwrittenBytes(log[i]) <= artifact[log[i].offset..]
  }

  // With an honest server the bytes received are a prefix of the artifact after every attempt,
  // however the answers were cut short, and so are they with the bytes whose write failed.
  lemma {:induction false} HonestPrefix(context: Context, budget: nat, log: seq<Attempt>, artifact: Bytes)
    requires GoodRun(context, budget, log) && Honest(artifact, log)
    ensures Received(log) + Spilled(log) <= artifact
    decreases |log|
  {
    hide GoodAttempt, Joined, GoodRun, UnwrittenBytes;
    if log != [] {
      var (front, a) := (log[..|log| - 1], log[|log| - 1]);
      FrontOfRun(context, budget, log, artifact);
      HonestPrefix(context, budget, front, artifact);
      Shorter(Received(front), Spilled(front), artifact);
      Extends(Received(front), Joined(a.pieces) + UnwrittenBytes(a), artifact);
      assert Received(log) + Spilled(log) == Received(front) + (Joined(a.pieces) + UnwrittenBytes(a));
    }
  }

  lemma FrontOfRun(context: Context, budget: nat, log: seq<Attempt>, artifact: Bytes)
    requires GoodRun(context, budget, log) && Honest(artifact, log) && log != []
    ensures var front := log[..|log| - 1];
            && GoodRun(context, budget, front) && Honest(artifact, front)
            && log[|log| - 1].offset == |Received(front)| <= |artifact|
            && Joined(log[|log| - 1].pieces) + UnwrittenBytes(log[|log| - 1]) <= artifact[|Received(front)|..]
  {
    hide GoodAttempt, Joined, Received, UnwrittenBytes;
    var front := log[..|log| - 1];
    assert forall i | 0 <= i < |front| :: front[i] == log[i] && front[..i] == log[..i];
  }

  lemma Shorter(a: Bytes, b: Bytes, whole: Bytes)
    requires a + b <= whole
    ensures a <= whole
  {
    assert a == (a + b)[..|a|] == whole[..|a|];
  }

  lemma Extends(a: Bytes, b: Bytes, whole: Bytes)
    requires a <= whole && b <= whole[|a|..]
    ensures a + b <= whole
  {
    assert whole == a + whole[|a|..];
  }

  // Whatever the result of the transfer, an honest server's bytes leave a prefix of the artifact
  // on the sink, and a full sink is the artifact.
  lemma HonestSink(context: Context, budget: nat, log: seq<Attempt>, sink: Bytes, artifact: Bytes)
    requires GoodRun(context, budget, log) && Honest(artifact, log) && |artifact| == context.size
    requires Received(log) <= sink <= Received(log) + Spilled(log)
    ensures sink <= artifact
    ensures |sink| == context.size ==> sink == artifact
  {
    hide GoodRun, Honest, Received, Spilled;
    HonestPrefix(context, budget, log, artifact);
    var rest := (Received(log) + Spilled(log))[|sink|..];
    assert Received(log) + Spilled(log) == sink + rest;
    Shorter(sink, rest, artifact);
  }
}
