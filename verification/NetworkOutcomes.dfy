// The coverage outcomes that are reported for a network sample.
module NetworkOutcomes {
  import opened Common
  import opened NetworkMetrics
  import opened NetworkSample

  datatype Outcome = Outcome(
    probe: string, status: Status, startedAt: nat, completedAt: nat, durationMs: int,
    sent: nat, received: nat, errors: seq<NetworkError>)

  function Make(s: Sample, probe: string, status: Status, start: nat, end: nat, sent: nat, received: nat,
                errors: seq<NetworkError>): Outcome
  {
    var (started, completed) := (s.startedAt + start / 1_000, s.startedAt + end / 1_000);
    Outcome(probe, status, started, completed, completed - started, sent, received, errors)
  }

  // The legs of one direction, in order.
  function Only(legs: seq<Leg>, download: bool): (r: seq<Leg>)
    ensures forall l :: l in r <==> l in legs && IsDownload(l.id) == download
  {
    if legs == [] then []
    else
      var (front, l) := (legs[..|legs| - 1], legs[|legs| - 1]);
      assert legs == front + [l];
      Only(front, download) + (if IsDownload(l.id) == download then [l] else [])
  }

  predicate AnyIs(legs: seq<Leg>, status: Status) { exists i | 0 <= i < |legs| :: legs[i].status == status }

  function StatusOf(legs: seq<Leg>): Status {
    if AnyIs(legs, Succeeded) then Succeeded
    else if AnyIs(legs, Failed) then Failed
    else if AnyIs(legs, Unreachable) then Unreachable
    else SkippedBudget
  }

  function TotalBytes(legs: seq<Leg>): nat {
    if legs == [] then 0 else TotalBytes(legs[..|legs| - 1]) + legs[|legs| - 1].bytes
  }

  function EarliestStart(legs: seq<Leg>): (r: nat)
    requires legs != []
    ensures exists l | l in legs :: l.start == r
    ensures forall l | l in legs :: r <= l.start
  {
    var l := legs[|legs| - 1];
    if |legs| == 1 then l.start
    else
      assert legs == legs[..|legs| - 1] + [l];
      Min(EarliestStart(legs[..|legs| - 1]), l.start)
  }

  function LatestEnd(legs: seq<Leg>): (r: nat)
    requires legs != []
    ensures exists l | l in legs :: l.start + l.duration == r
    ensures forall l | l in legs :: l.start + l.duration <= r
  {
    var l := legs[|legs| - 1];
    if |legs| == 1 then l.start + l.duration
    else
      assert legs == legs[..|legs| - 1] + [l];
      Max(LatestEnd(legs[..|legs| - 1]), l.start + l.duration)
  }

  function ErrorsOf(legs: seq<Leg>): seq<NetworkError> {
    if legs == [] then []
    else
      var l := legs[|legs| - 1];
      ErrorsOf(legs[..|legs| - 1]) + (if l.error.Some? then [l.error.value] else [])
  }

  function Bandwidth(s: Sample, download: bool): Outcome {
    var legs := Only(s.legs, download);
    var start := if legs == [] then 0 else EarliestStart(legs);
    var end := if legs == [] then start else LatestEnd(legs);
    var bytes := TotalBytes(legs);
    Make(s, if download then "bandwidth-download" else "bandwidth-upload", StatusOf(legs), start, end,
         if download then 0 else bytes, if download then bytes else 0, ErrorsOf(legs))
  }

  function UdpPath(s: Sample): Outcome {
    Make(s, "udp-path", s.udp.status, s.udp.start, s.udp.start + s.udp.duration,
         |s.udp.sent| * 64, |s.udp.echoes| * 64, if s.udp.error.Some? then [s.udp.error.value] else [])
  }

  function CoverageOutcomes(s: Sample): seq<Outcome> { [Bandwidth(s, true), Bandwidth(s, false), UdpPath(s)] }

  // An outcome lies within the sample, and all its times are safe integers.
  predicate Inside(s: Sample, o: Outcome) {
    && s.startedAt <= o.startedAt <= o.completedAt <= s.startedAt + s.durationMs <= MAX_SAFE_INTEGER
    && o.durationMs == o.completedAt - o.startedAt && 0 <= o.durationMs <= SAMPLE_BUDGET_MS
  }

  lemma MadeInside(s: Sample, probe: string, status: Status, start: nat, end: nat, sent: nat, received: nat,
                   errors: seq<NetworkError>)
    requires s.startedAt <= LATEST_START_MS && s.durationMs <= SAMPLE_BUDGET_MS
    requires start <= end <= s.durationMs * 1_000
    ensures Inside(s, Make(s, probe, status, start, end, sent, received, errors))
  {
  }

  lemma LegInside(s: Sample, l: Leg)
    requires Sound(s) && l in s.legs
    ensures l.start + l.duration <= s.durationMs * 1_000
  {
    var i :| 0 <= i < |s.legs| && s.legs[i] == l;
    assert Within(s.legs[i].start, s.legs[i].duration, s.durationMs * 1_000);
  }

  // No outcome of an accepted sample ends before it starts or lies outside the sample.
  lemma OutcomesInside(s: Sample)
    requires Sound(s)
    ensures forall i | 0 <= i < 3 :: Inside(s, CoverageOutcomes(s)[i])
  {
    hide Sound, Inside, Bandwidth, UdpPath;
    BandwidthInside(s, true);
    BandwidthInside(s, false);
    UdpInside(s);
  }

  lemma UdpInside(s: Sample)
    requires Sound(s)
    ensures Inside(s, UdpPath(s))
  {
    assert Within(s.udp.start, s.udp.duration, s.durationMs * 1_000);
    MadeInside(s, "udp-path", s.udp.status, s.udp.start, s.udp.start + s.udp.duration,
               |s.udp.sent| * 64, |s.udp.echoes| * 64, if s.udp.error.Some? then [s.udp.error.value] else []);
  }

  lemma BandwidthInside(s: Sample, download: bool)
    requires Sound(s)
    ensures Inside(s, Bandwidth(s, download))
  {
    hide Derive, Ordered, Allowed, UdpShape, LegShape;
    var legs := Only(s.legs, download);
    var start := if legs == [] then 0 else EarliestStart(legs);
    var end := if legs == [] then start else LatestEnd(legs);
    if legs != [] {
      var l :| l in legs && l.start + l.duration == end;
      LegInside(s, l);
    }
    var bytes := TotalBytes(legs);
    MadeInside(s, if download then "bandwidth-download" else "bandwidth-upload", StatusOf(legs), start, end,
               if download then 0 else bytes, if download then bytes else 0, ErrorsOf(legs));
  }

  lemma {:induction false} DirectionsAddUp(legs: seq<Leg>)
    ensures TotalBytes(Only(legs, true)) + TotalBytes(Only(legs, false)) == TotalBytes(legs)
    decreases |legs|
  {
    if legs != [] {
      var (front, l) := (legs[..|legs| - 1], legs[|legs| - 1]);
      DirectionsAddUp(front);
      TotalAppended(Only(front, true), l);
      TotalAppended(Only(front, false), l);
      assert Only(front, true) + [] == Only(front, true) && Only(front, false) + [] == Only(front, false);
    }
  }

  lemma TotalAppended(legs: seq<Leg>, l: Leg)
    ensures TotalBytes(legs + [l]) == TotalBytes(legs) + l.bytes
  {
    assert (legs + [l])[..|legs|] == legs;
  }

  // Bytes received and sent over both directions are the bytes of all legs, and a direction
  // counts as succeeded exactly when one of its legs did.
  lemma OutcomesAccount(s: Sample)
    ensures Bandwidth(s, true).received + Bandwidth(s, false).sent == TotalBytes(s.legs)
    ensures Bandwidth(s, true).sent == 0 && Bandwidth(s, false).received == 0
    ensures forall d: bool ::
              Bandwidth(s, d).status == Succeeded <==>
              exists l | l in s.legs :: IsDownload(l.id) == d && l.status == Succeeded
  {
    DirectionsAddUp(s.legs);
    forall d: bool
      ensures Bandwidth(s, d).status == Succeeded <==>
              exists l | l in s.legs :: IsDownload(l.id) == d && l.status == Succeeded
    {
      SucceededOnce(s.legs, d);
    }
  }

  lemma SucceededOnce(legs: seq<Leg>, d: bool)
    ensures StatusOf(Only(legs, d)) == Succeeded <==>
            exists l | l in legs :: IsDownload(l.id) == d && l.status == Succeeded
  {
    var only := Only(legs, d);
    if AnyIs(only, Succeeded) {
      var i :| 0 <= i < |only| && only[i].status == Succeeded;
      assert only[i] in legs;
    }
    if l :| l in legs && IsDownload(l.id) == d && l.status == Succeeded {
      assert l in only;
      var i :| 0 <= i < |only| && only[i] == l;
    }
  }
}
