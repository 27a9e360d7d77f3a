// The per-second byte budget of a log stream.
module ByteBudget {
  import opened Common

  const SECOND: nat := 1_000_000_000

  // A window and what it has admitted.
  datatype Window = Window(started: nat, admitted: nat)

  // One call: the clock is read once to test the window and, if it has run out, once more to
  // restart it.
  datatype Call = Call(checked: nat, restarted: nat, bytes: nat)

  predicate Expired(w: Window, c: Call) { c.checked - w.started >= SECOND }

  function Opened(w: Window, c: Call): Window { if Expired(w, c) then Window(c.restarted, 0) else w }

  predicate Admits(w: Window, c: Call, limit: nat) {
    var o := Opened(w, c);
    o.admitted + c.bytes <= U64_MAX && o.admitted + c.bytes <= limit
  }

  function After(w: Window, c: Call, limit: nat): Window {
    var o := Opened(w, c);
    if Admits(w, c, limit) then o.(admitted := o.admitted + c.bytes) else o
  }

  // The moment a call takes effect: its last look at the clock.
  function Moment(w: Window, c: Call): nat { if Expired(w, c) then c.restarted else c.checked }

  class Budget {
    var windowStarted: nat
    var admitted: nat
    const limit: nat

    constructor (now: nat, limit: nat)
      ensures View() == Window(now, 0) && this.limit == limit
    {
      windowStarted, admitted := now, 0;
      this.limit := limit;
    }

    ghost function View(): Window
      reads this
    {
      Window(windowStarted, admitted)
    }

    method Admit(c: Call) returns (ok: bool)
      modifies this
      ensures View() == After(old(View()), c, limit) && ok == Admits(old(View()), c, limit)
    {
      if c.checked - windowStarted >= SECOND {
        windowStarted := c.restarted;
        admitted := 0;
      }
      if admitted + c.bytes > U64_MAX { return false; }
      var next := admitted + c.bytes;
      if next > limit { return false; }
      admitted := next;
      return true;
    }
  }

  // ---- Runs under a monotone clock ----

  // Readings never go back: not within a call, not between calls, not behind the window.
  predicate Monotone(now: nat, calls: seq<Call>)
    decreases |calls|
  {
    calls == [] ||
    (now <= calls[0].checked <= calls[0].restarted && Monotone(calls[0].restarted, calls[1..]))
  }

  // The bytes admitted at moments in `[from, to]`.
  function AdmittedIn(w: Window, calls: seq<Call>, limit: nat, from: nat, to: nat): nat
    decreases |calls|
  {
    if calls == [] then 0
    else
      var (c, t) := (calls[0], Moment(w, calls[0]));
      (if Admits(w, c, limit) && from <= t <= to then c.bytes else 0)
      + AdmittedIn(After(w, c, limit), calls[1..], limit, from, to)
  }

  // A window never holds more than the limit.
  lemma {:induction false} WindowsAreBounded(w: Window, calls: seq<Call>, limit: nat, k: nat)
    requires w.admitted <= limit && k <= |calls|
    ensures Windows(w, calls[..k], limit).admitted <= limit
    decreases k
  {
    if k > 0 {
      assert calls[..k][1..] == calls[1..][..k - 1];
      WindowsAreBounded(After(w, calls[0], limit), calls[1..], limit, k - 1);
    }
  }

  // The window after a list of calls.
  function Windows(w: Window, calls: seq<Call>, limit: nat): Window
    decreases |calls|
  {
    if calls == [] then w else Windows(After(w, calls[0], limit), calls[1..], limit)
  }

  // Nothing is admitted at moments before the clock's present.
  lemma {:induction false} NothingBefore(w: Window, calls: seq<Call>, limit: nat, from: nat, to: nat, now: nat)
    requires Monotone(now, calls) && to < now
    ensures AdmittedIn(w, calls, limit, from, to) == 0
    decreases |calls|
  {
    if calls != [] { NothingBefore(After(w, calls[0], limit), calls[1..], limit, from, to, calls[0].restarted); }
  }

  // Up to the end of a running window, only what is left of the limit can be admitted.
  lemma {:induction false} RestOfWindow(w: Window, calls: seq<Call>, limit: nat, from: nat, to: nat, now: nat)
    requires Monotone(now, calls) && w.admitted <= limit && to - w.started < SECOND
    ensures AdmittedIn(w, calls, limit, from, to) <= limit - w.admitted
    decreases |calls|
  {
    if calls != [] {
      var (c, w') := (calls[0], After(w, calls[0], limit));
      if Expired(w, c) {
        NothingBefore(w', calls[1..], limit, from, to, c.restarted);
      } else {
        RestOfWindow(w', calls[1..], limit, from, to, c.restarted);
      }
    }
  }

  // Up to a moment before the next-but-one window, the rest of this one and one full limit.
  lemma {:induction false} TwoWindows(w: Window, calls: seq<Call>, limit: nat, from: nat, to: nat, now: nat)
    requires Monotone(now, calls) && w.admitted <= limit && to - w.started < 2 * SECOND
    ensures AdmittedIn(w, calls, limit, from, to) <= limit - w.admitted + limit
    decreases |calls|
  {
    if calls != [] {
      var (c, w') := (calls[0], After(w, calls[0], limit));
      if Expired(w, c) {
        RestOfWindow(w', calls[1..], limit, from, to, c.restarted);
      } else {
        TwoWindows(w', calls[1..], limit, from, to, c.restarted);
      }
    }
  }

  // In any one-second interval, both ends included, at most twice the limit is admitted.
  lemma {:induction false} AnySecond(w: Window, calls: seq<Call>, limit: nat, from: nat, now: nat)
    requires Monotone(now, calls) && w.admitted <= limit && w.started <= now
    ensures AdmittedIn(w, calls, limit, from, from + SECOND) <= 2 * limit
    decreases |calls|
  {
    if calls != [] {
      var (c, w') := (calls[0], After(w, calls[0], limit));
      if Moment(w, c) < from {
        AnySecond(w', calls[1..], limit, from, c.restarted);
      } else if Expired(w, c) {
        TwoFrom(w', calls[1..], limit, from, c.restarted);
      } else {
        TwoWindows(w, calls, limit, from, from + SECOND, now);
      }
    }
  }

  // From a window that opened inside the interval.
  lemma TwoFrom(w: Window, calls: seq<Call>, limit: nat, from: nat, now: nat)
    requires Monotone(now, calls) && w.admitted <= limit && from <= w.started <= now
    ensures AdmittedIn(w, calls, limit, from, from + SECOND) <= limit - w.admitted + limit
  {
    TwoWindows(w, calls, limit, from, from + SECOND, now);
  }

  // Twice the limit is reached: a burst at the end of one window and one at the next's start.
  lemma BoundIsReached(limit: nat)
    requires limit <= U64_MAX
    ensures var calls := [Call(SECOND - 1, SECOND - 1, limit), Call(SECOND, SECOND, limit)];
            && Monotone(0, calls)
            && AdmittedIn(Window(0, 0), calls, limit, SECOND - 1, SECOND - 1 + SECOND) == 2 * limit
  {
    var (c, d) := (Call(SECOND - 1, SECOND - 1, limit), Call(SECOND, SECOND, limit));
    var calls := [c, d];
    assert calls[1..] == [d] && [d][1..] == [];
    var w := After(Window(0, 0), c, limit);
    assert w == Window(0, limit);
    assert AdmittedIn(w, [d], limit, SECOND - 1, SECOND - 1 + SECOND) == limit;
    assert Monotone(SECOND, []);
    assert Monotone(SECOND - 1, [d]);
  }
}
