// One network sample: how it is collected under its time budget, and what its validator accepts.
module NetworkSample {
  import opened Common
  import opened NetworkMetrics

  const SAMPLE_BUDGET_MS: nat := 30_000
  const BUDGET_US: nat := 30_000_000
  const WORK_US: nat := 29_000_000
  const UDP_US: nat := 3_000_000
  const LATEST_START_MS: nat := 9_007_199_254_710_991

  datatype ReceiptLeg = ReceiptLeg(id: LegId, bytes: nat, duration: nat, complete: bool)

  datatype Receipt = Receipt(version: nat, region: string, legs: seq<ReceiptLeg>, udpEchoes: nat)

  datatype Sample = Sample(
    version: nat, startedAt: nat, durationMs: nat, region: string, ipv4: bool, ipv6: bool,
    legs: seq<Leg>, udp: Udp, metrics: Metrics, receipt: Option<Receipt>, errors: seq<NetworkError>)

  // Saturating 64-bit addition.
  function Plus(a: nat, b: nat): nat { Min(a + b, U64_MAX) }

  // ---- What a sample must satisfy ----

  function PriorOf(id: LegId): Option<LegId> {
    match id
    case Download10m => Some(Download1m)
    case Upload10m => Some(Upload1m)
    case Download100m => Some(Download10m)
    case _ => None
  }

  // The leg lets the ladder go on to `id`.
  predicate Qualifies(l: Leg, id: LegId) {
    && PriorOf(id) == Some(l.id) && l.status == Succeeded && l.duration > 0
    && (if id == Download100m then l.duration < 4_000_000
        else l.bytes * 8_000 <= U64_MAX && l.bytes * 8_000 / l.duration >= 4_000)
  }

  predicate Allowed(legs: seq<Leg>, id: LegId) {
    PriorOf(id).None? || exists i | 0 <= i < |legs| :: Qualifies(legs[i], id)
  }

  predicate Bounded(s: Sample) {
    && s.version == 1 && s.region == "lhr" && s.durationMs <= SAMPLE_BUDGET_MS
    && s.startedAt <= LATEST_START_MS && |s.errors| <= 4 && |s.legs| <= 5
    && |s.udp.sent| <= 20 && |s.udp.echoes| <= |s.udp.sent|
  }

  predicate Ordered(legs: seq<Leg>, udp: Udp) {
    && (forall i | 0 <= i < |legs| - 1 ::
          Rank(legs[i].id) < Rank(legs[i + 1].id) && Plus(legs[i].start, legs[i].duration) <= legs[i + 1].start)
    && (legs != [] ==> Plus(udp.start, udp.duration) <= legs[0].start)
  }

  // A leg on its own, without its place in time.
  predicate LegShape(l: Leg) {
    && l.bytes <= SizeOf(l.id)
    && l.duration <= TimeoutMs(l.id) * 1_000
    && (l.status == Succeeded ==> l.bytes == SizeOf(l.id) && l.error.None?)
    && (l.status == SkippedBudget ==> l.bytes == 0 && l.duration == 0)
  }

  predicate EchoShape(udp: Udp, e: Echo) {
    && e.sequence < |udp.sent|
    && udp.sent[e.sequence] <= e.received <= udp.duration
  }

  predicate UdpShape(udp: Udp) {
    && udp.duration <= UDP_US
    && (forall i | 0 <= i < |udp.sent| - 1 :: udp.sent[i] < udp.sent[i + 1])
    && (forall i | 0 <= i < |udp.sent| :: udp.sent[i] <= udp.duration)
    && (forall i | 0 <= i < |udp.echoes| - 1 :: udp.echoes[i].received <= udp.echoes[i + 1].received)
    && (forall i | 0 <= i < |udp.echoes| :: EchoShape(udp, udp.echoes[i]))
    && (forall i, j | 0 <= i < j < |udp.echoes| :: udp.echoes[i].sequence != udp.echoes[j].sequence)
    && (udp.status == Succeeded ==> udp.echoes != [])
    && (udp.status == SkippedBudget ==> udp.sent == [])
  }

  predicate ReceiptShape(r: Receipt) {
    && r.version == 1 && |r.legs| <= 5 && r.udpEchoes <= 64
    && (forall i | 0 <= i < |r.legs| :: r.legs[i].bytes <= SizeOf(r.legs[i].id) && r.legs[i].duration <= BUDGET_US)
    && (forall i, j | 0 <= i < j < |r.legs| :: r.legs[i].id != r.legs[j].id)
  }

  predicate Confirmed(r: Receipt, l: Leg) {
    exists j | 0 <= j < |r.legs| :: r.legs[j].id == l.id && r.legs[j].complete && r.legs[j].bytes == l.bytes
  }

  // The receipt speaks of the same sample.
  predicate Agrees(r: Receipt, s: Sample) {
    && ReceiptShape(r) && r.region == s.region
    && (forall i | 0 <= i < |s.legs| && s.legs[i].status == Succeeded :: Confirmed(r, s.legs[i]))
    && |s.udp.echoes| <= r.udpEchoes
  }

  predicate Within(start: nat, duration: nat, limit: nat) { Plus(start, duration) <= limit }

  // Everything but the receipt.
  predicate Sound(s: Sample) {
    && Bounded(s) && Ordered(s.legs, s.udp)
    && (forall i | 0 <= i < |s.legs| :: Allowed(s.legs, s.legs[i].id))
    && (forall i | 0 <= i < |s.legs| ::
          LegShape(s.legs[i]) && Within(s.legs[i].start, s.legs[i].duration, s.durationMs * 1_000))
    && (forall i, j | 0 <= i < j < |s.legs| :: s.legs[i].id != s.legs[j].id)
    && UdpShape(s.udp) && Within(s.udp.start, s.udp.duration, s.durationMs * 1_000)
    && s.metrics == Derive(s.legs, s.udp)
  }

  predicate Valid(s: Sample) { Sound(s) && (s.receipt.Some? ==> Agrees(s.receipt.value, s)) }

  // ---- The validator ----

  // Each loop stops at the first bad element; a growing set finds repeated ones.

  method ValidateLegs(legs: seq<Leg>, limit: nat) returns (ok: bool)
    ensures ok <==>
            && (forall i | 0 <= i < |legs| ::
                  LegShape(legs[i]) && Within(legs[i].start, legs[i].duration, limit))
            && (forall i, j | 0 <= i < j < |legs| :: legs[i].id != legs[j].id)
  {
    hide LegShape, Within;
    var ids: set<LegId> := {};
    for k := 0 to |legs|
      invariant forall i | 0 <= i < k :: LegShape(legs[i]) && Within(legs[i].start, legs[i].duration, limit)
      invariant forall i, j | 0 <= i < j < k :: legs[i].id != legs[j].id
      invariant ids == set i | 0 <= i < k :: legs[i].id
    {
      var leg := legs[k];
      if leg.id in ids || !LegShape(leg) || !Within(leg.start, leg.duration, limit) { return false; }
      ids := ids + {leg.id};
    }
    return true;
  }

  method ValidateEchoes(udp: Udp) returns (ok: bool)
    ensures ok <==>
            && (forall i | 0 <= i < |udp.echoes| :: EchoShape(udp, udp.echoes[i]))
            && (forall i, j | 0 <= i < j < |udp.echoes| :: udp.echoes[i].sequence != udp.echoes[j].sequence)
  {
    hide EchoShape;
    var echoes := udp.echoes;
    var sequences: set<nat> := {};
    for k := 0 to |echoes|
      invariant forall i | 0 <= i < k :: EchoShape(udp, echoes[i])
      invariant forall i, j | 0 <= i < j < k :: echoes[i].sequence != echoes[j].sequence
      invariant sequences == set i | 0 <= i < k :: echoes[i].sequence
    {
      var echo := echoes[k];
      if !EchoShape(udp, echo) || echo.sequence in sequences { return false; }
      sequences := sequences + {echo.sequence};
    }
    return true;
  }

  method ValidateReceipt(r: Receipt, s: Sample) returns (ok: bool)
    ensures ok <==> Agrees(r, s)
  {
    hide Confirmed;
    if r.version != 1 || r.region != s.region || |r.legs| > 5 || r.udpEchoes > 64 { return false; }
    var ids: set<LegId> := {};
    for k := 0 to |r.legs|
      invariant forall i | 0 <= i < k ::
                  r.legs[i].bytes <= SizeOf(r.legs[i].id) && r.legs[i].duration <= BUDGET_US
      invariant forall i, j | 0 <= i < j < k :: r.legs[i].id != r.legs[j].id
      invariant ids == set i | 0 <= i < k :: r.legs[i].id
    {
      var leg := r.legs[k];
      if leg.id in ids || leg.bytes > SizeOf(leg.id) || leg.duration > BUDGET_US { return false; }
      ids := ids + {leg.id};
    }
    for k := 0 to |s.legs|
      invariant forall i | 0 <= i < k && s.legs[i].status == Succeeded :: Confirmed(r, s.legs[i])
    {
      if s.legs[k].status == Succeeded && !Confirmed(r, s.legs[k]) { return false; }
    }
    return r.udpEchoes >= |s.udp.echoes|;
  }

  method Validate(s: Sample) returns (ok: bool)
    ensures ok <==> Valid(s)
  {
    hide Ordered, Allowed, LegShape, Within, EchoShape, Derive, Agrees;
    if !Bounded(s) || !Ordered(s.legs, s.udp) { return false; }
    for k := 0 to |s.legs|
      invariant forall i | 0 <= i < k :: Allowed(s.legs, s.legs[i].id)
    {
      if !Allowed(s.legs, s.legs[k].id) { return false; }
    }
    var limit := s.durationMs * 1_000;
    var legs := ValidateLegs(s.legs, limit);
    if !legs { return false; }
    var (udp, sent, echoes) := (s.udp, s.udp.sent, s.udp.echoes);
    if
      || udp.duration > UDP_US || !Within(udp.start, udp.duration, limit)
      || (exists i | 0 <= i < |sent| - 1 :: sent[i] >= sent[i + 1])
      || (exists i | 0 <= i < |sent| :: sent[i] > udp.duration)
      || (exists i | 0 <= i < |echoes| - 1 :: echoes[i].received > echoes[i + 1].received)
    { return false; }
    var answered := ValidateEchoes(udp);
    if !answered { return false; }
    var metrics := DeriveMetrics(s.legs, udp);
    if
      || (udp.status == Succeeded && echoes == [])
      || (udp.status == SkippedBudget && sent != [])
      || s.metrics != metrics
    { return false; }
    if s.receipt.Some? { ok := ValidateReceipt(s.receipt.value, s); } else { ok := true; }
  }

  // ---- The transport ----

  // What one transfer may report, between two readings of the clock. It may start as late as it
  // likes.
  predicate LegContract(id: LegId, before: nat, after: nat, l: Leg) {
    && l.id == id && LegShape(l)
    && before <= l.start && l.start + l.duration <= after
  }

  predicate UdpContract(before: nat, after: nat, udp: Udp) {
    && UdpShape(udp) && |udp.sent| <= 20 && |udp.echoes| <= |udp.sent|
    && before <= udp.start && udp.start + udp.duration <= after
  }

  // A transport whose clock never goes back.
  class Transport {
    var now: nat

    method Advance()
      modifies this
      ensures now >= old(now)
    {
      var later: nat :| later >= now;
      now := later;
    }

    method ElapsedUs() returns (t: nat)
      modifies this
      ensures t == now >= old(now)
    {
      Advance();
      t := now;
    }

    method Prepare() returns (ipv4: bool, ipv6: bool, error: Option<NetworkError>)
      modifies this
      ensures now >= old(now)
    {
      Advance();
      ipv4, ipv6, error := *, *, *;
    }

    method MeasureUdp() returns (udp: Udp)
      modifies this
      ensures now >= old(now) && UdpContract(old(now), now, udp)
    {
      var before := now;
      Advance();
      assert UdpContract(before, now, Udp(Unreachable, before, 0, [], [], Some(ConnectFailed)));
      udp :| UdpContract(before, now, udp);
    }

    method Transfer(id: LegId) returns (leg: Leg)
      modifies this
      ensures now >= old(now) && LegContract(id, old(now), now, leg)
    {
      var before := now;
      Advance();
      assert LegContract(id, before, now, Leg(id, Unreachable, before, 0, 0, Some(ConnectFailed)));
      leg :| LegContract(id, before, now, leg);
    }

    method FetchReceipt() returns (r: Result<Receipt, NetworkError>)
      modifies this
      ensures now >= old(now)
    {
      Advance();
      r := *;
    }
  }

  // ---- Collecting ----

  function SkippedUdp(start: nat): Udp { Udp(SkippedBudget, start, 0, [], [], Some(BudgetExhausted)) }

  const LADDER: seq<LegId> := [Download1m, Upload1m, Download10m, Upload10m, Download100m]

  lemma LadderRanks(k: nat)
    requires k < |LADDER|
    ensures Rank(LADDER[k]) == k
  {
    assert |LADDER| == 5 && LADDER[0] == Download1m && LADDER[1] == Upload1m && LADDER[2] == Download10m;
    assert LADDER[3] == Upload10m && LADDER[4] == Download100m;
  }

  // Everything measured ends within the budget.
  predicate InTime(legs: seq<Leg>, udp: Udp) {
    && udp.start + udp.duration <= BUDGET_US
    && forall i | 0 <= i < |legs| :: legs[i].start + legs[i].duration <= BUDGET_US
  }

  // How soon after the clock was read for it a leg must start to end in time in any case: the
  // second that is reserved for accounting.
  const PROMPT_US: nat := 1_000_000

  // Everything measured so far lies before `horizon`, in order.
  ghost predicate Standing(legs: seq<Leg>, udp: Udp, horizon: nat) {
    && Ordered(legs, udp)
    && (forall i | 0 <= i < |legs| :: LegShape(legs[i]) && Plus(legs[i].start, legs[i].duration) <= horizon)
    && UdpShape(udp) && Plus(udp.start, udp.duration) <= horizon
  }

  // The ladder has been climbed through rank `k`: a leg is there exactly when it is allowed.
  ghost predicate Climbed(legs: seq<Leg>, k: nat) {
    && (forall i | 0 <= i < |legs| :: Rank(legs[i].id) < k)
    && (forall id | Rank(id) < k :: Present(legs, id) <==> Allowed(legs, id))
  }

  predicate Present(legs: seq<Leg>, id: LegId) { exists i | 0 <= i < |legs| :: legs[i].id == id }

  lemma StandingGrows(legs: seq<Leg>, udp: Udp, horizon: nat, leg: Leg, horizon': nat)
    requires Standing(legs, udp, horizon) && LegShape(leg)
    requires horizon <= leg.start && Plus(leg.start, leg.duration) <= horizon' && horizon <= horizon'
    requires forall i | 0 <= i < |legs| :: Rank(legs[i].id) < Rank(leg.id)
    ensures Standing(legs + [leg], udp, horizon')
  {
    hide LegShape, UdpShape, Plus;
    var legs' := legs + [leg];
    assert forall i | 0 <= i < |legs| :: legs'[i] == legs[i];
  }

  lemma AllowedGrows(legs: seq<Leg>, leg: Leg, id: LegId)
    requires PriorOf(id) != Some(leg.id)
    ensures Allowed(legs + [leg], id) <==> Allowed(legs, id)
    ensures id != leg.id ==> (Present(legs + [leg], id) <==> Present(legs, id))
  {
    hide PriorOf;
    var legs' := legs + [leg];
    assert forall i | 0 <= i < |legs| :: legs'[i] == legs[i];
    if Allowed(legs, id) && PriorOf(id).Some? {
      var i :| 0 <= i < |legs| && Qualifies(legs[i], id);
      assert Qualifies(legs'[i], id);
    }
    if Present(legs, id) {
      var i :| 0 <= i < |legs| && legs[i].id == id;
      assert legs'[i].id == id;
    }
  }

  lemma ClimbedGrows(legs: seq<Leg>, leg: Leg, k: nat)
    requires Climbed(legs, k) && Rank(leg.id) == k && Allowed(legs, leg.id)
    ensures Climbed(legs + [leg], k + 1)
  {
    hide Allowed, Present;
    var legs' := legs + [leg];
    forall id | Rank(id) < k + 1 ensures Present(legs', id) <==> Allowed(legs', id) {
      AllowedGrows(legs, leg, id);
      if id == leg.id { IsPresent(legs', |legs|); }
      assert Rank(id) == k ==> id == leg.id;
    }
  }

  lemma IsPresent(legs: seq<Leg>, i: nat)
    requires i < |legs|
    ensures Present(legs, legs[i].id)
  {
  }

  lemma ClimbedPast(legs: seq<Leg>, id: LegId, k: nat)
    requires Climbed(legs, k) && Rank(id) == k && !Allowed(legs, id)
    ensures Climbed(legs, k + 1)
  {
    hide Allowed;
    assert forall other | Rank(other) < k + 1 :: Rank(other) < k || other == id;
  }

  lemma StandingLater(legs: seq<Leg>, udp: Udp, horizon: nat, horizon': nat)
    requires Standing(legs, udp, horizon) && horizon <= horizon'
    ensures Standing(legs, udp, horizon')
  {
  }

  // While everything is in time, it stands before the clock and the end of the budget.
  ghost predicate Kept(legs: seq<Leg>, udp: Udp, now: nat) {
    InTime(legs, udp) ==> Standing(legs, udp, Min(now, BUDGET_US))
  }

  lemma KeptStart(udp: Udp, now: nat)
    requires UdpShape(udp) && udp.start + udp.duration <= now
    ensures Kept([], udp, now) && Climbed([], 0)
  {
  }

  lemma KeptLater(legs: seq<Leg>, udp: Udp, now: nat, now': nat)
    requires Kept(legs, udp, now) && now <= now'
    ensures Kept(legs, udp, now')
  {
    hide InTime, Standing;
    if InTime(legs, udp) { StandingLater(legs, udp, Min(now, BUDGET_US), Min(now', BUDGET_US)); }
  }

  lemma KeptGrows(legs: seq<Leg>, udp: Udp, before: nat, leg: Leg, after: nat)
    requires Kept(legs, udp, before) && LegShape(leg) && before <= after
    requires Min(before, BUDGET_US) <= leg.start
    requires leg.start + leg.duration <= after
    requires forall i | 0 <= i < |legs| :: Rank(legs[i].id) < Rank(leg.id)
    ensures Kept(legs + [leg], udp, after)
  {
    hide Standing, LegShape;
    var legs' := legs + [leg];
    if InTime(legs', udp) {
      assert forall i | 0 <= i < |legs| :: legs'[i] == legs[i];
      assert legs'[|legs|] == leg;
      StandingGrows(legs, udp, Min(before, BUDGET_US), leg, Min(after, BUDGET_US));
    }
  }

  // The budget arithmetic: a leg that may start, and starts promptly, ends within the budget.
  lemma LegInTime(id: LegId, before: nat, after: nat, l: Leg)
    requires LegContract(id, before, after, l) && l.start <= before + PROMPT_US
    requires Min(before, BUDGET_US) + TimeoutMs(id) * 1_000 <= WORK_US
    ensures l.start + l.duration <= BUDGET_US
  {
  }

  // A skipped leg stands at the clock, or at the end of the budget.
  function SkippedLeg(id: LegId, start: nat): Leg {
    Leg(id, SkippedBudget, start, 0, 0, Some(BudgetExhausted))
  }

  lemma {:induction false} RanksIncrease(legs: seq<Leg>, udp: Udp, i: nat, j: nat)
    requires Ordered(legs, udp) && i < j < |legs|
    ensures Rank(legs[i].id) < Rank(legs[j].id)
    decreases j
  {
    if i < j - 1 { RanksIncrease(legs, udp, i, j - 1); }
    assert Rank(legs[j - 1].id) < Rank(legs[j - 1 + 1].id);
  }

  // What was collected in time is sound once the total duration is filled in.
  lemma CollectedSound(s: Sample, now: nat)
    requires Standing(s.legs, s.udp, Min(now, BUDGET_US)) && Climbed(s.legs, 5) && Bounded(s)
    requires s.durationMs == Min((now + 999) / 1_000, SAMPLE_BUDGET_MS)
    requires s.metrics == Derive(s.legs, s.udp)
    ensures Sound(s)
  {
    hide Derive, UdpShape, LegShape, Allowed, Bounded, Present;
    var limit := s.durationMs * 1_000;
    assert Min(now, BUDGET_US) <= limit;
    forall i | 0 <= i < |s.legs| ensures Allowed(s.legs, s.legs[i].id) { IsPresent(s.legs, i); }
    forall i, j | 0 <= i < j < |s.legs| ensures s.legs[i].id != s.legs[j].id {
      RanksIncrease(s.legs, s.udp, i, j);
    }
  }

  // A sound sample ends within the budget, whatever its total duration.
  lemma SoundInTime(s: Sample)
    requires Sound(s)
    ensures InTime(s.legs, s.udp)
  {
    hide Derive, UdpShape, LegShape, Allowed, Ordered;
    assert Within(s.udp.start, s.udp.duration, s.durationMs * 1_000);
    forall i | 0 <= i < |s.legs| ensures s.legs[i].start + s.legs[i].duration <= BUDGET_US {
      assert Within(s.legs[i].start, s.legs[i].duration, s.durationMs * 1_000);
    }
  }

  // The legs of the ladder, each skipped or run as the clock allows. `prompt` tells whether every
  // leg that ran started within a second of the reading that let it.
  method ClimbLadder(transport: Transport, udp: Udp) returns (legs: seq<Leg>, ghost prompt: bool)
    requires Kept([], udp, transport.now) && Climbed([], 0)
    modifies transport
    ensures transport.now >= old(transport.now)
    ensures Kept(legs, udp, transport.now) && Climbed(legs, 5) && |legs| <= 5
    ensures prompt ==> forall i | 0 <= i < |legs| :: legs[i].start + legs[i].duration <= BUDGET_US
  {
    hide Kept, Climbed, Allowed, LegContract, UdpShape;
    legs, prompt := [], true;
    for k := 0 to |LADDER|
      invariant transport.now >= old(transport.now)
      invariant Kept(legs, udp, transport.now) && Climbed(legs, k) && |legs| <= k
      invariant prompt ==> forall i | 0 <= i < |legs| :: legs[i].start + legs[i].duration <= BUDGET_US
    {
      var id := LADDER[k];
      LadderRanks(k);
      if !Allowed(legs, id) {
        ClimbedPast(legs, id, k);
        continue;
      }
      ghost var earlier := transport.now;
      var now := transport.ElapsedUs();
      KeptLater(legs, udp, earlier, now);
      var start := Min(now, BUDGET_US);
      var leg;
      if start + TimeoutMs(id) * 1_000 > WORK_US {
        leg := SkippedLeg(id, start);
      } else {
        leg := transport.Transfer(id);
        prompt := prompt && leg.start <= now + PROMPT_US;
        if prompt { LegInTime(id, now, transport.now, leg); }
      }
      LegFits(id, leg, now, transport.now);
      RanksBelow(legs, k);
      KeptGrows(legs, udp, now, leg, transport.now);
      ClimbedGrows(legs, leg, k);
      legs := legs + [leg];
    }
  }

  lemma LegFits(id: LegId, leg: Leg, before: nat, after: nat)
    requires leg == SkippedLeg(id, Min(before, BUDGET_US)) || LegContract(id, before, after, leg)
    requires before <= after
    ensures leg.id == id && LegShape(leg) && Min(before, BUDGET_US) <= leg.start
    ensures leg.start + leg.duration <= after
  {
  }

  lemma RanksBelow(legs: seq<Leg>, k: nat)
    requires Climbed(legs, k)
    ensures forall i | 0 <= i < |legs| :: Rank(legs[i].id) < k
  {
  }

  // A sample collected over a transport that keeps its contract is accepted exactly when the
  // start time it was given is representable and everything it measured ended within the budget.
  // That is so whenever every part that ran started promptly. Every leg the ladder allows is in it.
  method CollectSample(transport: Transport, startedAt: nat) returns (sample: Sample, ghost prompt: bool)
    modifies transport
    ensures Valid(sample) <==> startedAt <= LATEST_START_MS && InTime(sample.legs, sample.udp)
    ensures prompt ==> InTime(sample.legs, sample.udp)
    ensures sample.receipt.Some? ==> Valid(sample)
    ensures sample.startedAt == startedAt
    ensures forall id :: Present(sample.legs, id) <==> Allowed(sample.legs, id)
  {
    hide Kept, Climbed, Allowed, UdpShape, Derive, Agrees, Sound;
    var ipv4, ipv6, error := transport.Prepare();
    var errors := if error.Some? then [error.value] else [];
    var now := transport.ElapsedUs();
    var udp := SkippedUdp(Min(now, BUDGET_US));
    ghost var udpPrompt := true;
    SkippedUdpShape(Min(now, BUDGET_US));
    now := transport.ElapsedUs();
    if now + UDP_US <= WORK_US {
      udp := transport.MeasureUdp();
      udpPrompt := udp.start <= now + PROMPT_US;
      UdpShapeOf(udp, now, transport.now);
    }
    KeptStart(udp, transport.now);
    var legs, legsPrompt := ClimbLadder(transport, udp);
    prompt := udpPrompt && legsPrompt;
    ghost var earlier := transport.now;
    var receipt: Option<Receipt>;
    receipt, errors := TakeReceipt(transport, errors);
    now := transport.ElapsedUs();
    var duration := Min((now + 999) / 1_000, SAMPLE_BUDGET_MS);
    var metrics := DeriveMetrics(legs, udp);
    sample := Sample(1, startedAt, duration, "lhr", ipv4, ipv6, legs, udp, metrics, receipt, errors);
    KeptLater(legs, udp, earlier, now);
    sample := KeepReceipt(sample, now);
  }

  // The receipt, if there is time left to ask for it.
  method TakeReceipt(transport: Transport, errors: seq<NetworkError>)
    returns (receipt: Option<Receipt>, noted: seq<NetworkError>)
    modifies transport
    ensures transport.now >= old(transport.now) && |noted| <= |errors| + 1
    ensures noted == errors <==> receipt.Some?
  {
    var now := transport.ElapsedUs();
    if now > WORK_US { return None, errors + [ReceiptUnavailable]; }
    var answer := transport.FetchReceipt();
    match answer
    case Ok(r) => return Some(r), errors;
    case Err(e) => return None, errors + [e];
  }

  // A receipt that the sample is not accepted with is dropped.
  method KeepReceipt(full: Sample, ghost now: nat) returns (sample: Sample)
    requires Kept(full.legs, full.udp, now) && Climbed(full.legs, 5)
    requires full.durationMs == Min((now + 999) / 1_000, SAMPLE_BUDGET_MS)
    requires full.metrics == Derive(full.legs, full.udp)
    requires full.version == 1 && full.region == "lhr" && |full.errors| <= 3 && |full.legs| <= 5
    requires |full.udp.sent| <= 20 && |full.udp.echoes| <= |full.udp.sent|
    ensures sample.legs == full.legs && sample.udp == full.udp && sample.startedAt == full.startedAt
    ensures Valid(sample) <==> full.startedAt <= LATEST_START_MS && InTime(full.legs, full.udp)
    ensures sample.receipt.Some? ==> Valid(sample)
    ensures Valid(full) ==> sample == full
    ensures forall id :: Present(sample.legs, id) <==> Allowed(sample.legs, id)
  {
    hide Kept, Climbed, Allowed, Present, UdpShape, Derive, Agrees, Sound;
    sample := full;
    Finished(full, now);
    if full.receipt.Some? {
      var ok := Validate(full);
      if !ok {
        sample := full.(receipt := None, errors := full.errors + [ReceiptUnavailable]);
        Finished(sample, now);
      }
    }
  }

  lemma SkippedUdpShape(start: nat)
    ensures UdpShape(SkippedUdp(start))
  {
  }

  lemma UdpShapeOf(udp: Udp, before: nat, after: nat)
    requires UdpContract(before, after, udp) && before + UDP_US <= WORK_US
    ensures UdpShape(udp) && udp.start + udp.duration <= after
    ensures udp.start <= before + PROMPT_US ==> udp.start + udp.duration <= BUDGET_US
  {
  }

  lemma Finished(s: Sample, now: nat)
    requires Kept(s.legs, s.udp, now) && Climbed(s.legs, 5)
    requires s.durationMs == Min((now + 999) / 1_000, SAMPLE_BUDGET_MS)
    requires s.metrics == Derive(s.legs, s.udp)
    requires s.version == 1 && s.region == "lhr" && |s.errors| <= 4 && |s.legs| <= 5
    requires |s.udp.sent| <= 20 && |s.udp.echoes| <= |s.udp.sent|
    ensures Sound(s) <==> s.startedAt <= LATEST_START_MS && InTime(s.legs, s.udp)
    ensures forall id :: Present(s.legs, id) <==> Allowed(s.legs, id)
  {
    hide Standing, Derive, Allowed, Present, InTime, UdpShape, LegShape, Ordered;
    if s.startedAt <= LATEST_START_MS && InTime(s.legs, s.udp) { CollectedSound(s, now); }
    if Sound(s) { SoundInTime(s); }
    assert forall id :: Rank(id) < 5;
  }

  // A transfer that keeps the contract may be too late: the clock lets a four-second leg start
  // at once, and it starts after 29 seconds. As late a leg that takes half a second is in time.
  lemma LateLegs(late: Leg, short: Leg)
    requires late == Leg(Download1m, Failed, 29_000_000, 4_000_000, 0, Some(Timeout))
    requires short == Leg(Download1m, Failed, 29_000_000, 500_000, 0, Some(ConnectFailed))
    ensures 0 + TimeoutMs(Download1m) * 1_000 <= WORK_US
    ensures LegContract(Download1m, 0, 33_000_000, late) && LegContract(Download1m, 0, 33_000_000, short)
    ensures forall udp :: !InTime([late], udp)
    ensures InTime([short], SkippedUdp(0))
  {
    assert [late][0] == late;
  }

  // ---- A sample that was given up ----

  function SkippedSample(startedAt: nat): Sample {
    Sample(1, startedAt, 0, "lhr", false, false, [], SkippedUdp(0),
           Metrics(None, None, None, None, None, None), None, [BudgetExhausted])
  }

  // The deadline around the collection: a collection that does not finish is replaced whole.
  method CollectBounded(transport: Transport, startedAt: nat) returns (sample: Sample)
    modifies transport
    ensures Valid(sample) <==> startedAt <= LATEST_START_MS && InTime(sample.legs, sample.udp)
  {
    if * {
      ghost var prompt;
      sample, prompt := CollectSample(transport, startedAt);
    } else {
      sample := SkippedSample(startedAt).(durationMs := SAMPLE_BUDGET_MS, errors := [Timeout]);
      SkippedIsValid(startedAt, SAMPLE_BUDGET_MS, Timeout);
    }
  }

  lemma SkippedIsValid(startedAt: nat, duration: nat, error: NetworkError)
    requires duration <= SAMPLE_BUDGET_MS
    ensures Valid(SkippedSample(startedAt).(durationMs := duration, errors := [error])) <==>
            startedAt <= LATEST_START_MS
  {
    assert Rtts([], []) == [] && Best([], true).None? && Best([], false).None?;
  }

  // ---- What the metrics of an accepted sample mean ----

  lemma {:induction false} RttsBounded(udp: Udp, echoes: seq<Echo>)
    requires forall i | 0 <= i < |echoes| :: EchoShape(udp, echoes[i])
    ensures |Rtts(udp.sent, echoes)| == |echoes|
    ensures forall i | 0 <= i < |echoes| ::
              && echoes[i].sequence < |udp.sent|
              && Rtts(udp.sent, echoes)[i] == echoes[i].received - udp.sent[echoes[i].sequence] <= udp.duration
    decreases |echoes|
  {
    if echoes != [] { RttsBounded(udp, echoes[..|echoes| - 1]); }
  }

  lemma SortedMember(s: seq<nat>, i: nat)
    requires i < |s|
    ensures Sort(s)[i] in s
  {
    var r := Sort(s);
    assert r[i] in multiset(r) && multiset(r) == multiset(s);
  }

  // Round trips are those of the datagrams answered; the median does not exceed the 90th
  // percentile, which is one of them; jitter and loss stay in range.
  lemma ValidMetrics(s: Sample)
    requires Sound(s)
    ensures var rtts := Rtts(s.udp.sent, s.udp.echoes);
            && |rtts| == |s.udp.echoes|
            && (rtts != [] ==>
                  && s.metrics.medianRtt.Some? && s.metrics.p90Rtt.Some?
                  && s.metrics.medianRtt.value <= s.metrics.p90Rtt.value <= UDP_US
                  && s.metrics.p90Rtt.value in rtts)
            && (s.metrics.jitter.Some? ==> s.metrics.jitter.value <= UDP_US)
            && (s.metrics.lossBps.Some? ==> s.metrics.lossBps.value <= 10_000)
  {
    hide Sort, Rate, Loss, Median, P90, JitterState, Rtts;
    var rtts := Rtts(s.udp.sent, s.udp.echoes);
    SoundEchoes(s);
    RttsBounded(s.udp, s.udp.echoes);
    RttsInRange(rtts, UDP_US);
    assert s.metrics == Derive(s.legs, s.udp);
    if s.udp.sent != [] { LossBounded(|s.udp.sent|, |rtts|); }
  }

  lemma SoundEchoes(s: Sample)
    requires Sound(s)
    ensures s.udp.duration <= UDP_US
    ensures forall i | 0 <= i < |s.udp.echoes| :: EchoShape(s.udp, s.udp.echoes[i])
  {
  }

  lemma RttsInRange(rtts: seq<nat>, bound: nat)
    requires forall i | 0 <= i < |rtts| :: rtts[i] <= bound
    ensures JitterState(rtts) / 16 <= bound
    ensures rtts != [] ==> Median(Sort(rtts)) <= P90(Sort(rtts)) <= bound && P90(Sort(rtts)) in rtts
  {
    hide Sort, JitterState;
    JitterBounded(rtts, bound);
    if rtts != [] {
      OrderStatistics(Sort(rtts));
      SortedMember(rtts, (|rtts| * 9 + 9) / 10 - 1);
    }
  }
}
