// Records, and the order in which a log first mentions them.
module LogRecords {
  import opened Common

  datatype Origin = Customer | RuntimeSsh

  // An encrypted record. `id` numbers admissions; it is not transmitted and only lets a
  // statement tell two records apart.
  datatype Record = Record(id: nat, origin: Origin, value: string)

  // The records of one origin, in order.
  function Of(s: seq<Record>, o: Origin): seq<Record> {
    if s == [] then []
    else if s[0].origin == o then [s[0]] + Of(s[1..], o)
    else Of(s[1..], o)
  }

  lemma {:induction false} OfConcat(a: seq<Record>, b: seq<Record>, o: Origin)
    ensures Of(a + b, o) == Of(a, o) + Of(b, o)
    decreases |a|
  {
    if a == [] {
      assert a + b == b;
    } else {
      assert (a + b)[1..] == a[1..] + b;
      OfConcat(a[1..], b, o);
    }
  }

  predicate AllOf(s: seq<Record>, o: Origin) { forall i | 0 <= i < |s| :: s[i].origin == o }

  lemma {:induction false} OfUniform(s: seq<Record>, o: Origin, x: Origin)
    requires AllOf(s, o)
    ensures Of(s, x) == if x == o then s else []
    decreases |s|
  {
    if s != [] {
      OfUniform(s[1..], o, x);
      assert s == [s[0]] + s[1..];
    }
  }

  lemma {:induction false} OfMember(s: seq<Record>, o: Origin, r: Record)
    ensures r in Of(s, o) <==> r in s && r.origin == o
    decreases |s|
  {
    if s != [] {
      OfMember(s[1..], o, r);
      assert r in s <==> r == s[0] || r in s[1..];
    }
  }

  // The first occurrence of every record, in order.
  function Firsts(s: seq<Record>): (r: seq<Record>)
    ensures forall x :: x in r <==> x in s
  {
    if s == [] then []
    else
      var (front, last) := (s[..|s| - 1], s[|s| - 1]);
      assert s == front + [last];
      if last in front then Firsts(front) else Firsts(front) + [last]
  }

  predicate Distinct(s: seq<Record>) { forall i, j | 0 <= i < j < |s| :: s[i] != s[j] }

  lemma FirstsAppended(s: seq<Record>, x: Record)
    ensures Firsts(s + [x]) == if x in s then Firsts(s) else Firsts(s) + [x]
  {
    assert (s + [x])[..|s|] == s;
  }

  lemma InPrefix(all: seq<Record>, m: nat, i: nat)
    requires Distinct(all) && m <= |all| && i < |all|
    ensures all[i] in all[..m] <==> i < m
  {
    if i < m { assert all[..m][i] == all[i]; }
  }

  // A log whose first mentions are the first `m` of `all`, extended by a stretch of `all` that
  // starts no later than `m`, still first-mentions a prefix of `all`.
  lemma {:induction false} FirstsExtended(
      log: seq<Record>, all: seq<Record>, m: nat, k: nat, n: nat)
    requires Distinct(all) && k <= m <= |all| && k + n <= |all| && Firsts(log) == all[..m]
    ensures Firsts(log + all[k..k + n]) == all[..Max(m, k + n)]
    decreases n
  {
    hide Firsts, Distinct;
    if n == 0 {
      assert log + all[k..k] == log;
    } else {
      FirstsExtended(log, all, m, k, n - 1);
      var (front, last) := (log + all[k..k + n - 1], all[k + n - 1]);
      assert log + all[k..k + n] == front + [last];
      FirstsAppended(front, last);
      var m' := Max(m, k + n - 1);
      InPrefix(all, m', k + n - 1);
      assert last in front <==> last in Firsts(front);
      if k + n - 1 >= m' { assert all[..m'] + [last] == all[..m' + 1]; }
    }
  }
}
