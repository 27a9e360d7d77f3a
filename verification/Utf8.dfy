// Well-formed UTF-8, as far as the helper relies on it.
module Utf8 {
  import opened Common

  predicate Within(b: byte, lo: int, hi: int) { lo <= b <= hi }

  predicate Tail(s: Bytes, from: nat, to: nat)
    requires to <= |s|
  {
    forall i | from <= i < to :: Within(s[i], 0x80, 0xBF)
  }

  // The length of the well-formed character `s` starts with, or 0.
  function CharLength(s: Bytes): (k: nat)
    ensures k <= |s|
  {
    if s == [] then 0
    else if s[0] < 0x80 then 1
    else if Within(s[0], 0xC2, 0xDF) then
      if |s| >= 2 && Tail(s, 1, 2) then 2 else 0
    else if Within(s[0], 0xE0, 0xEF) then
      if |s| >= 3 && Tail(s, 1, 3)
         && (s[0] == 0xE0 ==> s[1] >= 0xA0) && (s[0] == 0xED ==> s[1] <= 0x9F) then 3 else 0
    else if Within(s[0], 0xF0, 0xF4) then
      if |s| >= 4 && Tail(s, 1, 4)
         && (s[0] == 0xF0 ==> s[1] >= 0x90) && (s[0] == 0xF4 ==> s[1] <= 0x8F) then 4 else 0
    else 0
  }

  predicate WellFormed(s: Bytes)
    decreases |s|
  {
    s == [] || (var k := CharLength(s); k > 0 && WellFormed(s[k..]))
  }

  // Cutting well-formed text at an ASCII byte leaves well-formed text on both sides.
  lemma {:induction false} CutAtAscii(a: Bytes, c: byte, b: Bytes)
    requires WellFormed(a + [c] + b) && c < 0x80
    ensures WellFormed(a) && WellFormed(b)
    decreases |a|
  {
    var s := a + [c] + b;
    if a == [] {
      assert CharLength(s) == 1 && s[1..] == b;
    } else {
      var k := CharLength(s);
      assert s[0] == a[0] && s[|a|] == c;
      assert !Within(s[|a|], 0x80, 0xBF);
      assert forall i | 0 <= i < k :: s[i] == a[i];
      assert CharLength(a) == k;
      assert s[k..] == a[k..] + [c] + b;
      CutAtAscii(a[k..], c, b);
    }
  }
}
