// Which listed processes belong to a workload, and how much memory they hold together.
module ProcessTree {
  import opened Common

  datatype Process = Process(parent: Option<nat>, group: Option<nat>, rssKib: Option<nat>, peakKib: Option<nat>)

  type Listing = map<nat, Process>

  // The root itself and the members of its process group.
  predicate Seed(ps: Listing, root: nat, pid: nat) {
    pid in ps && (pid == root || ps[pid].group == Some(root))
  }

  // A parent path of listed processes from `pid` to a seed.
  predicate Path(ps: Listing, root: nat, pid: nat, path: seq<nat>) {
    && path != [] && path[0] == pid
    && (forall i | 0 <= i < |path| :: path[i] in ps)
    && (forall i | 0 <= i < |path| - 1 :: ps[path[i]].parent == Some(path[i + 1]))
    && Seed(ps, root, path[|path| - 1])
  }

  ghost predicate Descends(ps: Listing, root: nat, pid: nat) { exists path :: Path(ps, root, pid, path) }

  // The set holds the seeds and every listed process whose parent it holds.
  ghost predicate Closed(ps: Listing, root: nat, members: set<nat>) {
    && (forall pid :: Seed(ps, root, pid) ==> pid in members)
    && (forall pid | pid in ps && ps[pid].parent.Some? && ps[pid].parent.value in members :: pid in members)
  }

  lemma SeedDescends(ps: Listing, root: nat, pid: nat)
    requires Seed(ps, root, pid)
    ensures Descends(ps, root, pid)
  {
    assert Path(ps, root, pid, [pid]);
  }

  lemma ChildDescends(ps: Listing, root: nat, pid: nat)
    requires pid in ps && ps[pid].parent.Some? && Descends(ps, root, ps[pid].parent.value)
    ensures Descends(ps, root, pid)
  {
    var path :| Path(ps, root, ps[pid].parent.value, path);
    assert Path(ps, root, pid, [pid] + path);
  }

  // A closed set holds everything that descends from a seed.
  lemma {:induction false} ClosedHolds(ps: Listing, root: nat, members: set<nat>, pid: nat, path: seq<nat>)
    requires Closed(ps, root, members) && Path(ps, root, pid, path)
    ensures pid in members
    decreases |path|
  {
    if |path| > 1 {
      assert ps[path[0]].parent == Some(path[1]);
      ClosedHolds(ps, root, members, path[1], path[1..]);
    }
  }

  // The set of descendants is closed, and it is the least closed set.
  lemma LeastClosed(ps: Listing, root: nat, members: set<nat>)
    ensures Closed(ps, root, members) ==> forall pid | Descends(ps, root, pid) :: pid in members
    ensures (forall pid :: pid in members <==> Descends(ps, root, pid)) ==> Closed(ps, root, members)
  {
    if Closed(ps, root, members) {
      forall pid | Descends(ps, root, pid) ensures pid in members {
        var path :| Path(ps, root, pid, path);
        ClosedHolds(ps, root, members, pid, path);
      }
    }
    if forall pid :: pid in members <==> Descends(ps, root, pid) {
      forall pid | Seed(ps, root, pid) ensures pid in members { SeedDescends(ps, root, pid); }
      forall pid | pid in ps && ps[pid].parent.Some? && ps[pid].parent.value in members
        ensures pid in members
      {
        ChildDescends(ps, root, pid);
      }
    }
  }

  // Adds descendants until a round adds none; parent links may form cycles.
  method Tree(ps: Listing, root: nat) returns (members: set<nat>)
    ensures members <= ps.Keys
    ensures forall pid :: pid in members <==> Descends(ps, root, pid)
    ensures Closed(ps, root, members)
  {
    hide Path, Descends;
    members := set pid | pid in ps && Seed(ps, root, pid);
    forall pid | pid in members ensures Descends(ps, root, pid) { SeedDescends(ps, root, pid); }
    while true
      invariant members <= ps.Keys
      invariant forall pid :: Seed(ps, root, pid) ==> pid in members
      invariant forall pid | pid in members :: Descends(ps, root, pid)
      decreases ps.Keys - members
    {
      var before := |members|;
      var added := set pid | pid in ps && pid !in members && ps[pid].parent.Some? && ps[pid].parent.value in members;
      forall pid | pid in added ensures Descends(ps, root, pid) { ChildDescends(ps, root, pid); }
      Grown(members, added);
      members := members + added;
      if |members| == before { break; }
    }
    LeastClosed(ps, root, members);
  }

  lemma Grown(a: set<nat>, b: set<nat>)
    requires a !! b
    ensures |a + b| == |a| + |b| && (|a + b| == |a| <==> b == {})
  {
  }

  // ---- Memory ----

  function Rss(ps: Listing, pid: nat): nat {
    if pid in ps && ps[pid].rssKib.Some? then ps[pid].rssKib.value else 0
  }

  ghost function TotalRss(ps: Listing, s: set<nat>): nat {
    if s == {} then 0
    else
      var pid :| pid in s;
      Rss(ps, pid) + TotalRss(ps, s - {pid})
  }

  // The total does not depend on the order of adding.
  lemma {:induction false} TotalWithout(ps: Listing, s: set<nat>, pid: nat)
    requires pid in s
    ensures TotalRss(ps, s) == Rss(ps, pid) + TotalRss(ps, s - {pid})
    decreases |s|
  {
    var first :| first in s && TotalRss(ps, s) == Rss(ps, first) + TotalRss(ps, s - {first});
    if first != pid {
      TotalWithout(ps, s - {first}, pid);
      TotalWithout(ps, s - {pid}, first);
      assert s - {first} - {pid} == s - {pid} - {first};
    }
  }

  predicate IsPeak(ps: Listing, s: set<nat>, peak: Option<nat>) {
    && (forall pid | pid in s && pid in ps && ps[pid].peakKib.Some? ::
          peak.Some? && ps[pid].peakKib.value <= peak.value)
    && (peak.Some? ==> exists pid | pid in s && pid in ps :: ps[pid].peakKib == peak)
  }

  function SaturatingAdd(a: nat, b: nat): nat { Min(a + b, U64_MAX) }

  function Higher(a: Option<nat>, b: Option<nat>): Option<nat> {
    if b.None? then a else if a.None? then b else Some(Max(a.value, b.value))
  }

  lemma NoPeak(ps: Listing)
    ensures IsPeak(ps, {}, None)
  {
  }

  lemma PeakStep(ps: Listing, s: set<nat>, pid: nat, peak: Option<nat>)
    requires IsPeak(ps, s, peak) && pid in ps
    ensures IsPeak(ps, s + {pid}, Higher(peak, ps[pid].peakKib))
  {
    if peak.Some? {
      var top :| top in s && top in ps && ps[top].peakKib == peak;
      assert top in s + {pid};
    }
    assert pid in s + {pid};
  }

  // A root that is gone or has no memory left is not read. Otherwise sums the resident sizes of
  // the tree, saturating, and keeps the largest peak.
  method ReadWorkload(ps: Listing, root: nat) returns (members: set<nat>, rss: Option<nat>, peak: Option<nat>)
    ensures rss.Some? <==> root in ps && ps[root].rssKib.Some?
    ensures rss.Some? ==>
              && (forall pid :: pid in members <==> Descends(ps, root, pid))
              && rss.value == Min(TotalRss(ps, members), U64_MAX) && IsPeak(ps, members, peak)
  {
    hide Descends, Closed, IsPeak, Higher, Rss;
    members, rss, peak := {}, None, None;
    if root !in ps || ps[root].rssKib.None? { return; }
    members := Tree(ps, root);
    var sum := 0;
    assert IsPeak(ps, {}, None) by { NoPeak(ps); }
    var done: set<nat>, left: set<nat> := {}, members;
    while left != {}
      invariant done + left == members && done !! left
      invariant sum == Min(TotalRss(ps, done), U64_MAX) && IsPeak(ps, done, peak)
      decreases |left|
    {
      var pid :| pid in left;
      sum := SaturatingAdd(sum, Rss(ps, pid));
      PeakStep(ps, done, pid, peak);
      peak := Higher(peak, ps[pid].peakKib);
      TotalWithout(ps, done + {pid}, pid);
      assert done + {pid} - {pid} == done;
      done, left := done + {pid}, left - {pid};
    }
    assert done == members;
    rss := Some(sum);
  }
}
