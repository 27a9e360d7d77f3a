// The network sample's records and the metrics derived from them.
module NetworkMetrics {
  import opened Common

  datatype Status = Succeeded | Failed | SkippedBudget | Unreachable

  datatype NetworkError =
    | DnsFailed | ConnectFailed | TlsFailed | Timeout | HttpStatus | InvalidResponse
    | ByteCountMismatch | RateLimited | TokenRefused | BudgetExhausted | ReceiptUnavailable

  datatype LegId = Download1m | Upload1m | Download10m | Upload10m | Download100m

  // Position in the declared order.
  function Rank(id: LegId): nat {
    match id
    case Download1m => 0
    case Upload1m => 1
    case Download10m => 2
    case Upload10m => 3
    case Download100m => 4
  }

  function SizeOf(id: LegId): nat {
    match id
    case Download1m => 1_000_000
    case Upload1m => 1_000_000
    case Download10m => 10_000_000
    case Upload10m => 10_000_000
    case Download100m => 100_000_000
  }

  predicate IsDownload(id: LegId) { id != Upload1m && id != Upload10m }

  function TimeoutMs(id: LegId): nat {
    match id
    case Download1m => 4_000
    case Upload1m => 4_000
    case Download10m => 8_000
    case Upload10m => 8_000
    case Download100m => 12_000
  }

  datatype Leg = Leg(id: LegId, status: Status, start: nat, duration: nat, bytes: nat, error: Option<NetworkError>)

  datatype Echo = Echo(sequence: nat, received: nat)

  datatype Udp = Udp(
    status: Status, start: nat, duration: nat, sent: seq<nat>, echoes: seq<Echo>, error: Option<NetworkError>)

  datatype Metrics = Metrics(
    downloadKbps: Option<nat>, uploadKbps: Option<nat>, medianRtt: Option<nat>,
    p90Rtt: Option<nat>, jitter: Option<nat>, lossBps: Option<nat>)

  // ---- Throughput ----

  predicate Counts(l: Leg, download: bool) {
    IsDownload(l.id) == download && l.status == Succeeded && l.duration > 0
  }

  // The last of the biggest legs that count.
  function Best(legs: seq<Leg>, download: bool): (r: Option<Leg>)
    ensures r.Some? ==> r.value in legs && Counts(r.value, download)
    ensures forall l | l in legs && Counts(l, download) :: r.Some? && SizeOf(l.id) <= SizeOf(r.value.id)
  {
    if legs == [] then None
    else
      var (front, l) := (legs[..|legs| - 1], legs[|legs| - 1]);
      var best := Best(front, download);
      assert legs == front + [l];
      if Counts(l, download) && (best.None? || SizeOf(best.value.id) <= SizeOf(l.id)) then Some(l) else best
  }

  function Rate(legs: seq<Leg>, download: bool): (r: Option<nat>)
    ensures r.None? <==> forall l | l in legs :: !Counts(l, download)
  {
    match Best(legs, download)
    case None => None
    case Some(l) => Some(l.bytes * 8_000 / l.duration)
  }

  // ---- Round trips ----

  // Saturating subtraction.
  function Elapsed(received: nat, sent: nat): nat { if received >= sent then received - sent else 0 }

  // The round-trip times of the echoes that answer a packet sent, in arrival order.
  function Rtts(sent: seq<nat>, echoes: seq<Echo>): (r: seq<nat>)
    ensures |r| <= |echoes|
    ensures (forall i | 0 <= i < |echoes| :: echoes[i].sequence < |sent|) ==> |r| == |echoes|
  {
    if echoes == [] then []
    else
      var (front, e) := (echoes[..|echoes| - 1], echoes[|echoes| - 1]);
      Rtts(sent, front) + (if e.sequence < |sent| then [Elapsed(e.received, sent[e.sequence])] else [])
  }

  function Distance(a: int, b: int): nat { if a <= b then b - a else a - b }

  // The estimator of Appendix A.8 of RFC 3550, scaled by sixteen.
  function Estimate(state: int, difference: int): int { state + difference - (state + 8) / 16 }

  function JitterState(rtts: seq<nat>): (state: int)
    ensures state >= 0
  {
    if |rtts| < 2 then 0
    else
      var n := |rtts|;
      Estimate(JitterState(rtts[..n - 1]), Distance(rtts[n - 1], rtts[n - 2]))
  }

  predicate Steady(rtts: seq<nat>, m: nat) {
    forall i | 1 <= i < |rtts| :: Distance(rtts[i], rtts[i - 1]) <= m
  }

  // One step keeps the state between nothing and sixteen times the largest difference.
  lemma EstimateBounded(state: int, difference: nat, m: nat)
    requires 0 <= state <= 16 * m && difference <= m
    ensures 0 <= Estimate(state, difference) <= 16 * m
  {
  }

  lemma {:induction false} JitterBounded(rtts: seq<nat>, m: nat)
    requires Steady(rtts, m)
    ensures 0 <= JitterState(rtts) <= 16 * m && 0 <= JitterState(rtts) / 16 <= m
    decreases |rtts|
  {
    if |rtts| >= 2 {
      var n := |rtts|;
      var front := rtts[..n - 1];
      assert forall i | 1 <= i < |front| :: Distance(front[i], front[i - 1]) == Distance(rtts[i], rtts[i - 1]);
      JitterBounded(front, m);
      EstimateBounded(JitterState(front), Distance(rtts[n - 1], rtts[n - 2]), m);
    }
  }

  // ---- Order statistics ----

  predicate Sorted(s: seq<nat>) { forall i, j | 0 <= i <= j < |s| :: s[i] <= s[j] }

  function Insert(x: nat, s: seq<nat>): (r: seq<nat>)
    requires Sorted(s)
    ensures Sorted(r) && multiset(r) == multiset(s) + multiset{x}
    ensures r != [] && (r[0] == x || (s != [] && r[0] == s[0]))
  {
    if s == [] then [x]
    else if x <= s[0] then [x] + s
    else
      var r := Insert(x, s[1..]);
      assert s == [s[0]] + s[1..];
      Cons(s[0], r)
  }

  function Cons(x: nat, s: seq<nat>): (r: seq<nat>)
    requires s != [] && Sorted(s) && x <= s[0]
    ensures Sorted(r) && r == [x] + s && multiset(r) == multiset{x} + multiset(s)
  {
    [x] + s
  }

  function Sort(s: seq<nat>): (r: seq<nat>)
    ensures Sorted(r) && multiset(r) == multiset(s) && |r| == |s|
  {
    if s == [] then []
    else
      assert s == s[..|s| - 1] + [s[|s| - 1]];
      var r := Insert(s[|s| - 1], Sort(s[..|s| - 1]));
      assert |multiset(r)| == |multiset(s)|;
      r
  }

  function Median(s: seq<nat>): nat
    requires s != []
  {
    (s[(|s| - 1) / 2] + s[|s| / 2]) / 2
  }

  function P90(s: seq<nat>): nat
    requires s != []
  {
    s[(|s| * 9 + 9) / 10 - 1]
  }

  lemma OrderStatistics(s: seq<nat>)
    requires s != [] && Sorted(s)
    ensures s[0] <= Median(s) <= P90(s) <= s[|s| - 1]
  {
    var (low, high, p) := ((|s| - 1) / 2, |s| / 2, (|s| * 9 + 9) / 10 - 1);
    assert 0 <= low <= high <= p < |s|;
    assert s[0] <= s[low] <= s[high] <= s[p];
  }

  // ---- All metrics ----

  function Loss(sent: nat, answered: nat): nat
    requires sent > 0
  {
    Elapsed(sent, answered) * 10_000 / sent
  }

  lemma LossBounded(sent: nat, answered: nat)
    requires sent > 0
    ensures 0 <= Loss(sent, answered) <= 10_000
    ensures answered == 0 ==> Loss(sent, answered) == 10_000
    ensures answered >= sent ==> Loss(sent, answered) == 0
  {
    Share(Elapsed(sent, answered), sent, 10_000);
  }

  lemma Share(part: nat, whole: nat, scale: nat)
    requires part <= whole && whole > 0
    ensures 0 <= part * scale / whole <= scale
    ensures part == whole ==> part * scale / whole == scale
  {
    Product(part, whole, scale);
    Quotient(part * scale, whole, scale);
  }

  lemma Quotient(x: nat, d: nat, bound: nat)
    requires d > 0 && x <= d * bound
    ensures 0 <= x / d <= bound
    ensures x == d * bound ==> x / d == bound
  {
    Cancel(x / d, bound, d);
    if x == d * bound { Cancel(bound, x / d, d); }
  }

  // A product of less than one more `d` is a product of no more.
  lemma {:induction false} Cancel(a: nat, b: nat, d: nat)
    requires d > 0 && a * d < b * d + d
    ensures a <= b
  {
    if a > 0 && b > 0 {
      Distribute(a - 1, d);
      Distribute(b - 1, d);
      Cancel(a - 1, b - 1, d);
    } else if a > 0 {
      Product(1, a, d);
    }
  }

  lemma Distribute(a: nat, d: nat)
    ensures (a + 1) * d == a * d + d
  {
  }

  lemma Product(a: nat, b: nat, c: nat)
    requires a <= b
    ensures a * c <= b * c
  {
  }

  function Derive(legs: seq<Leg>, udp: Udp): Metrics {
    var rtts := Rtts(udp.sent, udp.echoes);
    var sorted := Sort(rtts);
    Metrics(
      Rate(legs, true),
      Rate(legs, false),
      if rtts == [] then None else Some(Median(sorted)),
      if rtts == [] then None else Some(P90(sorted)),
      if |rtts| < 2 then None else Some(JitterState(rtts) / 16),
      if udp.sent == [] then None else Some(Loss(|udp.sent|, |rtts|)))
  }

  lemma RttsStep(sent: seq<nat>, echoes: seq<Echo>, i: nat)
    requires i < |echoes|
    ensures var (e, before) := (echoes[i], Rtts(sent, echoes[..i]));
            Rtts(sent, echoes[..i + 1]) ==
            if e.sequence < |sent| then before + [Elapsed(e.received, sent[e.sequence])] else before
  {
    assert echoes[..i + 1][..i] == echoes[..i];
  }

  lemma JitterStep(rtts: seq<nat>, rtt: nat)
    ensures JitterState(rtts + [rtt]) ==
            if rtts == [] then 0 else Estimate(JitterState(rtts), Distance(rtt, rtts[|rtts| - 1]))
  {
    assert (rtts + [rtt])[..|rtts|] == rtts;
  }

  // The loop over the echoes, keeping the round trips, the estimator and the previous round trip.
  method RoundTrips(sent: seq<nat>, echoes: seq<Echo>) returns (rtts: seq<nat>, jitter: int)
    ensures rtts == Rtts(sent, echoes) && jitter == JitterState(rtts)
  {
    hide *;
    rtts, jitter := [], 0;
    var previous: Option<nat> := None;
    RoundTripsStart(sent, echoes);
    for i := 0 to |echoes|
      invariant rtts == Rtts(sent, echoes[..i]) && jitter == JitterState(rtts)
      invariant previous == if rtts == [] then None else Some(rtts[|rtts| - 1])
    {
      var echo := echoes[i];
      RttsStep(sent, echoes, i);
      if echo.sequence < |sent| {
        var rtt := Elapsed(echo.received, sent[echo.sequence]);
        JitterStep(rtts, rtt);
        if previous.Some? { jitter := Estimate(jitter, Distance(rtt, previous.value)); }
        rtts, previous := rtts + [rtt], Some(rtt);
      }
    }
    assert echoes[..|echoes|] == echoes;
  }

  lemma RoundTripsStart(sent: seq<nat>, echoes: seq<Echo>)
    ensures Rtts(sent, echoes[..0]) == [] && JitterState([]) == 0
  {
  }

  method DeriveMetrics(legs: seq<Leg>, udp: Udp) returns (m: Metrics)
    ensures m == Derive(legs, udp)
  {
    var rtts, jitter := RoundTrips(udp.sent, udp.echoes);
    var sorted := Sort(rtts);
    m := Metrics(
      Rate(legs, true),
      Rate(legs, false),
      if rtts == [] then None else Some(Median(sorted)),
      if rtts == [] then None else Some(P90(sorted)),
      if |rtts| < 2 then None else Some(jitter / 16),
      if udp.sent == [] then None else Some(Loss(|udp.sent|, |rtts|)));
  }

  // ---- What the metrics mean ----

  // How many of the values are at most `x`.
  function AtMost(s: seq<nat>, x: nat): (n: nat)
    ensures n <= |s|
  {
    if s == [] then 0 else AtMost(s[1..], x) + (if s[0] <= x then 1 else 0)
  }

  lemma {:induction false} AtMostAppend(s: seq<nat>, y: nat, x: nat)
    ensures AtMost(s + [y], x) == AtMost(s, x) + (if y <= x then 1 else 0)
    decreases |s|
  {
    if s != [] {
      AtMostAppend(s[1..], y, x);
      assert (s + [y])[1..] == s[1..] + [y];
    }
  }

  lemma {:induction false} AtMostInsert(y: nat, s: seq<nat>, x: nat)
    requires Sorted(s)
    ensures AtMost(Insert(y, s), x) == AtMost(s, x) + (if y <= x then 1 else 0)
    decreases |s|
  {
    if s != [] {
      if y <= s[0] {
        assert ([y] + s)[1..] == s;
      } else {
        AtMostInsert(y, s[1..], x);
        assert ([s[0]] + Insert(y, s[1..]))[1..] == Insert(y, s[1..]);
      }
    }
  }

  lemma {:induction false} AtMostSort(s: seq<nat>, x: nat)
    ensures AtMost(Sort(s), x) == AtMost(s, x)
    decreases |s|
  {
    hide Insert, AtMost, Sorted;
    if s == [] {
      assert Sort(s) == s;
    } else {
      var (front, y) := (s[..|s| - 1], s[|s| - 1]);
      AtMostSort(front, x);
      AtMostInsert(y, Sort(front), x);
      AtMostAppend(front, y, x);
      assert s == front + [y];
    }
  }

  // In a sorted sequence the value at `i` has `i` values or fewer below it, and more than `i` up to it.
  lemma {:induction false} RankOf(s: seq<nat>, i: nat, x: nat)
    requires Sorted(s) && i < |s|
    ensures s[i] <= x ==> AtMost(s, x) > i
    ensures x < s[i] ==> AtMost(s, x) <= i
    decreases |s|
  {
    var tail := s[1..];
    assert forall j | 0 <= j < |tail| :: tail[j] == s[j + 1];
    if i > 0 {
      assert s[0] <= s[i];
      RankOf(tail, i - 1, x);
    } else if x < s[0] {
      NoneAtMost(s, x);
    }
  }

  lemma {:induction false} NoneAtMost(s: seq<nat>, x: nat)
    requires forall i | 0 <= i < |s| :: x < s[i]
    ensures AtMost(s, x) == 0
    decreases |s|
  {
    if s != [] { NoneAtMost(s[1..], x); }
  }

  // The 90th percentile is the least value that at least nine tenths of the values do not exceed.
  lemma Percentile(rtts: seq<nat>, x: nat)
    requires rtts != []
    ensures P90(Sort(rtts)) <= x <==> AtMost(rtts, x) * 10 >= |rtts| * 9
  {
    hide Sort, AtMost;
    var sorted := Sort(rtts);
    var i := (|sorted| * 9 + 9) / 10 - 1;
    AtMostSort(rtts, x);
    RankOf(sorted, i, x);
  }

  // Half of the values or more do not exceed the median, and half or fewer lie below it.
  lemma Middle(rtts: seq<nat>)
    requires rtts != []
    ensures var median := Median(Sort(rtts));
            && AtMost(rtts, median) * 2 >= |rtts|
            && forall x: nat | x < median :: AtMost(rtts, x) * 2 <= |rtts|
  {
    hide Sort, AtMost;
    var sorted := Sort(rtts);
    var (median, half) := (Median(sorted), |sorted| / 2);
    OrderStatistics(sorted);
    AtMostSort(rtts, median);
    RankOf(sorted, if |sorted| % 2 == 1 then half else half - 1, median);
    forall x: nat | x < median ensures AtMost(rtts, x) * 2 <= |rtts| {
      AtMostSort(rtts, x);
      RankOf(sorted, half, x);
    }
  }

  // The rate is that of a biggest leg that counts.
  predicate IsRate(legs: seq<Leg>, download: bool, rate: nat) {
    exists l | l in legs && Counts(l, download) ::
      && rate == l.bytes * 8_000 / l.duration
      && forall o | o in legs && Counts(o, download) :: SizeOf(o.id) <= SizeOf(l.id)
  }

  lemma RateMeans(legs: seq<Leg>, download: bool)
    ensures var r := Rate(legs, download);
            && (r.None? <==> forall l | l in legs :: !Counts(l, download))
            && (r.Some? ==> IsRate(legs, download, r.value))
  {
  }

  // What each metric says about the legs and echoes, where consecutive round trips differ by at
  // most `d`.
  lemma DerivedMeans(legs: seq<Leg>, udp: Udp, d: nat)
    requires Steady(Rtts(udp.sent, udp.echoes), d)
    ensures var (m, rtts) := (Derive(legs, udp), Rtts(udp.sent, udp.echoes));
            && (m.downloadKbps.None? <==> forall l | l in legs :: !Counts(l, true))
            && (m.downloadKbps.Some? ==> IsRate(legs, true, m.downloadKbps.value))
            && (m.uploadKbps.None? <==> forall l | l in legs :: !Counts(l, false))
            && (m.uploadKbps.Some? ==> IsRate(legs, false, m.uploadKbps.value))
            && (m.medianRtt.Some? <==> rtts != []) && (m.p90Rtt.Some? <==> rtts != [])
            && (rtts != [] ==>
                  && m.medianRtt.value <= m.p90Rtt.value
                  && AtMost(rtts, m.medianRtt.value) * 2 >= |rtts|
                  && (forall x: nat | x < m.medianRtt.value :: AtMost(rtts, x) * 2 <= |rtts|)
                  && AtMost(rtts, m.p90Rtt.value) * 10 >= |rtts| * 9
                  && forall x: nat | x < m.p90Rtt.value :: AtMost(rtts, x) * 10 < |rtts| * 9)
            && (m.jitter.Some? <==> |rtts| >= 2) && (m.jitter.Some? ==> m.jitter.value <= d)
            && (m.lossBps.Some? <==> udp.sent != []) && (m.lossBps.Some? ==> m.lossBps.value <= 10_000)
  {
    hide Sort, Median, P90, JitterState, Rtts, Rate, Loss, AtMost, IsRate, Steady, Counts;
    var rtts := Rtts(udp.sent, udp.echoes);
    RateMeans(legs, true);
    RateMeans(legs, false);
    JitterBounded(rtts, d);
    if rtts != [] {
      OrderStatistics(Sort(rtts));
      Middle(rtts);
      Percentile(rtts, P90(Sort(rtts)));
      forall x: nat | x < P90(Sort(rtts)) ensures AtMost(rtts, x) * 10 < |rtts| * 9 { Percentile(rtts, x); }
    }
    if udp.sent != [] { LossBounded(|udp.sent|, |rtts|); }
  }
}
