// Replacing the values that follow credential markers in a log line. Texts are sequences of
// bytes, written here as characters.
module Redaction {
  import opened Common

  function Mask(): (m: string)
    ensures |m| == 10
  {
    "[REDACTED]"
  }

  function Lower(c: char): char { if 'A' <= c <= 'Z' then ((c as int) + 32) as char else c }

  predicate Blank(c: char) { c == ' ' || c == '\t' || c == '"' || c == '\'' }

  predicate Hard(c: char) { c == '\r' || c == '\n' || c == '&' || c == ',' || c == ';' }

  // What ends a value.
  predicate Delimiter(c: char) { Blank(c) || Hard(c) }

  // The marker occurs at `p`, in any mixture of cases.
  predicate Occurs(t: string, m: string, p: int) {
    0 <= p && p + |m| <= |t| && forall i | 0 <= i < |m| :: Lower(t[p + i]) == m[i]
  }

  // The first occurrence of the marker.
  function FirstAt(t: string, m: string): (r: Option<nat>)
    ensures r.Some? ==> Occurs(t, m, r.value) && forall p | 0 <= p < r.value :: !Occurs(t, m, p)
    ensures r.None? ==> forall p :: !Occurs(t, m, p)
    decreases |t|
  {
    if Occurs(t, m, 0) then Some(0)
    else if t == "" then None
    else
      var r := FirstAt(t[1..], m);
      assert forall p | p >= 1 :: Occurs(t, m, p) <==> Occurs(t[1..], m, p - 1);
      if r.None? then None else Some(r.value + 1)
  }

  // The first position from `i` on whose byte is not blank.
  function PastBlanks(t: string, i: nat): (j: nat)
    requires i <= |t|
    ensures i <= j <= |t| && (forall k | i <= k < j :: Blank(t[k])) && (j < |t| ==> !Blank(t[j]))
    decreases |t| - i
  {
    if i < |t| && Blank(t[i]) then PastBlanks(t, i + 1) else i
  }

  // The first position from `i` on whose byte ends a value.
  function PastValue(t: string, i: nat): (j: nat)
    requires i <= |t|
    ensures i <= j <= |t|
    ensures forall k | i <= k < j :: !Delimiter(t[k])
    ensures j < |t| ==> Delimiter(t[j])
    decreases |t| - i
  {
    if i < |t| && !Delimiter(t[i]) then PastValue(t, i + 1) else i
  }

  // The text with every value after a marker masked.
  function Masked(t: string, m: string): string
    requires m != ""
    decreases |t|
  {
    match FirstAt(t, m)
    case None => t
    case Some(r) =>
      var start := PastBlanks(t, r + |m|);
      var end := PastValue(t, start);
      if end == start then t[..start] + Masked(t[start..], m)
      else t[..start] + Mask() + Masked(t[end..], m)
  }

  lemma MaskedAt(t: string, m: string, r: nat, start: nat, end: nat)
    requires m != "" && FirstAt(t, m) == Some(r) && r + |m| <= |t|
    requires start == PastBlanks(t, r + |m|) && end == PastValue(t, start)
    ensures end == start ==> Masked(t, m) == t[..start] + Masked(t[start..], m)
    ensures end != start ==> Masked(t, m) == t[..start] + Mask() + Masked(t[end..], m)
  {
    hide Mask, FirstAt, PastBlanks, PastValue, Occurs, Delimiter, Blank;
  }

  // Taking a masked text apart where a masked text of the rest begins.
  lemma Rejoined(text: string, offset: nat, start: nat, end: nat, mask: string, x: string)
    requires offset <= |text| && start <= end <= |text| - offset
    ensures text[offset..][..start] == text[offset..offset + start]
    ensures text[offset..][end..] == text[offset + end..]
    ensures text[..offset] + (text[offset..][..start] + x) == text[..offset + start] + x
    ensures text[..offset] + (text[offset..][..start] + mask + x) == text[..offset + start] + mask + x
  {
    assert text[..offset] + text[offset..][..start] == text[..offset + start];
  }

  lemma Spliced(a: string, b: string)
    ensures (a + b)[..|a|] == a && (a + b)[|a|..] == b
  {
  }

  // What the loop keeps: the first `offset` bytes are final, the rest is still to be masked.
  ghost predicate Partial(message: string, m: string, text: string, offset: nat)
    requires m != ""
    ensures Partial(message, m, text, offset) ==> offset <= |text|
  {
    offset <= |text| && Masked(message, m) == text[..offset] + Masked(text[offset..], m)
  }

  lemma PartialStart(message: string, m: string)
    requires m != ""
    ensures Partial(message, m, message, 0)
  {
    assert message[..0] + Masked(message[0..], m) == Masked(message[0..], m) && message[0..] == message;
  }

  lemma PartialEnd(message: string, m: string, text: string, offset: nat)
    requires m != "" && Partial(message, m, text, offset) && Masked(text[offset..], m) == text[offset..]
    ensures text == Masked(message, m)
  {
    hide Masked;
    assert text[..offset] + text[offset..] == text;
  }

  // The next `start` bytes are final.
  lemma PartialSkip(message: string, m: string, text: string, offset: nat, start: nat)
    requires m != "" && Partial(message, m, text, offset) && start <= |text| - offset
    requires Masked(text[offset..], m) == text[offset..][..start] + Masked(text[offset..][start..], m)
    ensures Partial(message, m, text, offset + start)
  {
    hide Masked;
    Rejoined(text, offset, start, start, "", Masked(text[offset + start..], m));
  }

  // The next `start` bytes are final and the value up to `end` is masked.
  lemma PartialMask(message: string, m: string, text: string, offset: nat, start: nat, end: nat)
    requires m != "" && Partial(message, m, text, offset) && start <= end <= |text| - offset
    requires Masked(text[offset..], m) == text[offset..][..start] + Mask() + Masked(text[offset..][end..], m)
    ensures Partial(message, m, text[..offset + start] + Mask() + text[offset + end..],
                    offset + start + |Mask()|)
  {
    hide Masked, Mask;
    Rejoined(text, offset, start, end, Mask(), Masked(text[offset + end..], m));
    Spliced(text[..offset + start] + Mask(), text[offset + end..]);
  }

  // One round of the loop.
  lemma Round(message: string, m: string, text: string, offset: nat, r: nat, start: nat, end: nat)
    requires m != "" && Partial(message, m, text, offset) && FirstAt(text[offset..], m) == Some(r)
    requires r + |m| <= |text[offset..]| && start == PastBlanks(text[offset..], r + |m|)
    requires end == PastValue(text[offset..], start)
    ensures end == start ==> Partial(message, m, text, offset + start)
    ensures end > start ==>
              Partial(message, m, text[..offset + start] + Mask() + text[offset + end..],
                      offset + start + |Mask()|)
  {
    hide *;
    var rest := text[offset..];
    MaskedAt(rest, m, r, start, end);
    if end == start {
      PartialSkip(message, m, text, offset, start);
    } else {
      PartialMask(message, m, text, offset, start, end);
    }
  }

  // The loop: the text changes length while an offset moves through it.
  method RedactValuesAfterMarker(message: string, marker: string) returns (text: string, changed: bool)
    requires marker != ""
    ensures text == Masked(message, marker)
    ensures !changed ==> text == message
  {
    hide *;
    text, changed := message, false;
    var offset := 0;
    PartialStart(message, marker);
    while true
      invariant 0 <= offset <= |text|
      invariant Partial(message, marker, text, offset)
      invariant !changed ==> text == message
      decreases |text| - offset
    {
      var rest := text[offset..];
      var relative := FirstAt(rest, marker);
      if relative.None? {
        MaskedNone(rest, marker);
        PartialEnd(message, marker, text, offset);
        break;
      }
      FirstFits(rest, marker);
      var start := PastBlanks(rest, relative.value + |marker|);
      var end := PastValue(rest, start);
      Round(message, marker, text, offset, relative.value, start, end);
      if end == start {
        offset := offset + start;
        if offset == |text| {
          PartialAll(message, marker, text);
          break;
        }
      } else {
        text := text[..offset + start] + Mask() + text[offset + end..];
        changed := true;
        offset := offset + start + |Mask()|;
      }
    }
  }

  lemma MaskedNone(t: string, m: string)
    requires m != "" && FirstAt(t, m).None?
    ensures Masked(t, m) == t
  {
  }

  lemma FirstFits(t: string, m: string)
    ensures var r := FirstAt(t, m); r.Some? ==> r.value + |m| <= |t|
  {
  }

  lemma PartialAll(message: string, m: string, text: string)
    requires m != "" && Partial(message, m, text, |text|)
    ensures text == Masked(message, m)
  {
    assert text[|text|..] == "" && Masked("", m) == "";
  }

  // ---- Markers ----

  // A marker never overlaps itself.
  predicate BorderFree(m: string) { forall k | 0 < k < |m| :: m[k..] != m[..|m| - k] }

  // Markers for which masking is reliable: they do not start with a blank, cannot reach into or
  // out of the mask, and do not contain the bytes that end a value early.
  predicate Reliable(m: string)
    ensures Reliable(m) ==> m != ""
  {
    && m != "" && !Blank(m[0]) && BorderFree(m)
    && (forall i | 0 <= i < |m| :: m[i] != '[' && m[i] != ']' && !Hard(m[i]))
    && m[|m| - 1] !in "redact"
  }

  // After the marker at `p` and blanks comes nothing, a delimiter or a whole mask.
  predicate Safe(t: string, m: string, p: int)
    requires Occurs(t, m, p)
  {
    var q := PastBlanks(t, p + |m|);
    || q == |t|
    || Delimiter(t[q])
    || (Mask() <= t[q..] && (q + |Mask()| == |t| || Delimiter(t[q + |Mask()|])))
  }

  ghost predicate AllSafe(t: string, m: string) { forall p | Occurs(t, m, p) :: Safe(t, m, p) }

  // ---- Facts about one masking step ----

  // Masking keeps the first byte of a text that begins with a delimiter, and an empty text.
  lemma MaskedFront(t: string, m: string)
    requires m != "" && (t == "" || Delimiter(t[0]))
    ensures var r := Masked(t, m); if t == "" then r == "" else r != "" && r[0] == t[0]
  {
  }

  lemma OccursAt(t: string, m: string, p: int, j: int)
    requires Occurs(t, m, p) && p <= j < p + |m|
    ensures 0 <= j < |t| && Lower(t[j]) == m[j - p]
  {
    assert Lower(t[p + (j - p)]) == m[j - p];
  }

  // No occurrence starts inside a mask or reaches into one from the left.
  lemma MaskIsOpaque(a: string, b: string, m: string, p: int)
    requires Reliable(m) && Occurs(a + Mask() + b, m, p)
    ensures p + |m| <= |a| || |a| + |Mask()| <= p
  {
    hide BorderFree;
    var t := a + Mask() + b;
    var (open, close, last) := (|a|, |a| + |Mask()| - 1, p + |m| - 1);
    assert t[open] == '[' && t[close] == ']';
    if p <= open <= last { OccursAt(t, m, p, open); }
    if p <= close <= last { OccursAt(t, m, p, close); }
    if open < last < close {
      OccursAt(t, m, p, last);
      MaskLetters(last - open);
    }
  }

  lemma MaskLetters(k: nat)
    requires 0 < k < |Mask()| - 1
    ensures Lower(Mask()[k]) in "redact"
  {
    assert Mask()[1] == 'R' && Mask()[2] == 'E' && Mask()[3] == 'D' && Mask()[4] == 'A';
    assert Mask()[5] == 'C' && Mask()[6] == 'T' && Mask()[7] == 'E' && Mask()[8] == 'D';
    assert "redact"[0] == 'r' && "redact"[1] == 'e' && "redact"[2] == 'd';
    assert "redact"[3] == 'a' && "redact"[4] == 'c' && "redact"[5] == 't';
  }

  // ---- What follows a marker depends on the rest of the text only ----

  lemma OccursShifted(a: string, t: string, m: string, p: int)
    requires 0 <= p
    ensures Occurs(a + t, m, |a| + p) <==> Occurs(t, m, p)
  {
    var u := a + t;
    if Occurs(t, m, p) {
      forall i | 0 <= i < |m| ensures Lower(u[|a| + p + i]) == m[i] { OccursAt(t, m, p, p + i); }
    }
    if Occurs(u, m, |a| + p) {
      forall i | 0 <= i < |m| ensures Lower(t[p + i]) == m[i] { OccursAt(u, m, |a| + p, |a| + p + i); }
    }
  }

  lemma SafeShifted(a: string, t: string, m: string, p: int)
    requires Occurs(t, m, p) && Occurs(a + t, m, |a| + p)
    ensures Safe(a + t, m, |a| + p) <==> Safe(t, m, p)
  {
    hide Mask, Occurs, PastBlanks, Blank, Hard;
    var u := a + t;
    OccursFits(t, m, p);
    var q := PastBlanks(t, p + |m|);
    BlanksShifted(a, t, p + |m|);
    assert u[|a| + q..] == t[q..];
  }

  lemma OccursFits(t: string, m: string, p: int)
    requires Occurs(t, m, p)
    ensures 0 <= p && p + |m| <= |t|
  {
  }

  lemma {:induction false} BlanksEnd(t: string, i: nat, j: nat)
    requires i <= j <= |t| && (forall k | i <= k < j :: Blank(t[k])) && (j < |t| ==> !Blank(t[j]))
    ensures PastBlanks(t, i) == j
    decreases j - i
  {
    if i < j { BlanksEnd(t, i + 1, j); }
  }

  lemma BlanksShifted(a: string, t: string, i: nat)
    requires i <= |t|
    ensures PastBlanks(a + t, |a| + i) == |a| + PastBlanks(t, i)
  {
    var (u, j) := (a + t, PastBlanks(t, i));
    forall k | |a| + i <= k < |a| + j ensures Blank(u[k]) { assert u[k] == t[k - |a|]; }
    BlanksEnd(u, |a| + i, |a| + j);
  }

  lemma AllSafeSuffix(a: string, t: string, m: string)
    requires AllSafe(a + t, m)
    ensures AllSafe(t, m)
  {
    forall p | Occurs(t, m, p) ensures Safe(t, m, p) {
      OccursFits(t, m, p);
      OccursShifted(a, t, m, p);
      SafeShifted(a, t, m, p);
    }
  }

  // ---- The part of a text before `start` that a pass keeps ----

  // The blanks after a kept marker end where they ended, or where the kept part does.
  lemma BlanksKept(t: string, start: nat, w: string, i: nat)
    requires i <= start <= |t| && (start < |t| ==> !Blank(t[start])) && (w != "" ==> !Blank(w[0]))
    ensures PastBlanks(t, i) == PastBlanks(t[..start] + w, i) <= start
  {
    var j := PastBlanks(t, i);
    assert j <= start;
    BlanksEnd(t[..start] + w, i, j);
  }

  lemma OccursKept(t: string, start: nat, w: string, m: string, p: int)
    requires start <= |t| && p + |m| <= start
    ensures Occurs(t[..start] + w, m, p) <==> Occurs(t, m, p)
  {
    if 0 <= p { assert forall x | 0 <= x < start :: (t[..start] + w)[x] == t[x]; }
  }

  // What may stand where the kept part ends: nothing, a byte that ends a value, or a mask.
  predicate Closed(w: string) { w == "" || Delimiter(w[0]) || Covered(w) }

  predicate Covered(w: string) { Mask() <= w && (|w| == |Mask()| || Delimiter(w[|Mask()|])) }

  // A marker that is followed by the end of the kept part is safe.
  lemma EndIsSafe(t: string, start: nat, w: string, m: string, p: int)
    requires start <= |t| && Occurs(t[..start] + w, m, p) && Closed(w)
    requires p + |m| <= start && PastBlanks(t[..start] + w, p + |m|) == start
    ensures Safe(t[..start] + w, m, p)
  {
    hide Mask, Occurs, PastBlanks, Delimiter;
    assert (t[..start] + w)[start..] == w;
  }

  // A marker that is followed by something shorter than the kept part stays safe.
  lemma InsideIsSafe(t: string, start: nat, w: string, m: string, p: int)
    requires start <= |t| && Occurs(t, m, p) && Occurs(t[..start] + w, m, p) && Safe(t, m, p)
    requires var q := PastBlanks(t, p + |m|);
             && p + |m| <= q < start && PastBlanks(t[..start] + w, p + |m|) == q
             && (Mask() <= t[q..] ==> q + |Mask()| <= start && (q + |Mask()| == start ==> w == "" || Delimiter(w[0])))
    ensures Safe(t[..start] + w, m, p)
  {
    hide Mask, Occurs, PastBlanks, Delimiter;
    OccursFits(t, m, p);
    var u := t[..start] + w;
    var q := PastBlanks(t, p + |m|);
    assert u[q] == t[q];
    if !Delimiter(t[q]) {
      var e := q + |Mask()|;
      assert u[q..e] == t[q..e] == Mask();
      assert Mask() <= u[q..];
      assert e < start ==> u[e] == t[e];
      assert e == start && w != "" ==> u[e] == w[0];
    }
  }

  // ---- One pass makes its own marker safe and keeps every other marker safe ----

  lemma Overlap(t: string, m: string, r: int, p: int)
    requires Occurs(t, m, r) && Occurs(t, m, p) && r < p < r + |m|
    ensures !BorderFree(m)
  {
    var k := p - r;
    forall i | 0 <= i < |m| - k ensures m[k + i] == m[i] {
      OccursAt(t, m, r, p + i);
      OccursAt(t, m, p, p + i);
    }
    assert m[k..] == m[..|m| - k];
  }

  lemma StartsBlank(t: string, m: string, i: nat, p: int)
    requires m != "" && Occurs(t, m, p) && i <= |t| && i <= p < PastBlanks(t, i)
    ensures Blank(m[0])
  {
    OccursAt(t, m, p, p);
  }

  // A marker that does not overlap itself and does not start with a blank has no further
  // occurrence before the value.
  lemma OnlyFirst(t: string, m: string, r: nat, p: int, start: nat)
    requires Reliable(m) && FirstAt(t, m) == Some(r) && Occurs(t, m, p) && r + |m| <= |t|
    requires p + |m| <= start == PastBlanks(t, r + |m|)
    ensures p == r
  {
    hide FirstAt, PastBlanks, Occurs, Blank, BorderFree;
    OccursFits(t, m, p);
    if r < p < r + |m| { Overlap(t, m, r, p); }
    if r + |m| <= p { StartsBlank(t, m, r + |m|, p); }
  }

  // The mask itself ends no value.
  lemma MaskIsSolid(t: string, q: nat, k: nat)
    requires q <= |t| && Mask() <= t[q..] && q <= k < q + |Mask()|
    ensures k < |t| && !Delimiter(t[k])
  {
    assert t[k] == t[q..][k - q] == Mask()[k - q];
    if 0 < k - q < |Mask()| - 1 { MaskLetters(k - q); }
  }

  // A value to be masked does not start within a mask.
  lemma MaskNotCut(t: string, m: string, r: int, start: nat, q: nat)
    requires Reliable(m) && Occurs(t, m, r) && r + |m| <= |t| && start == PastBlanks(t, r + |m|)
    requires q <= |t| && Mask() <= t[q..] && q < start
    ensures q + |Mask()| <= start
  {
    hide Mask, PastBlanks, Occurs, Reliable, Delimiter;
    OccursFits(t, m, r);
    assert t[q..] == Mask() + t[q + |Mask()|..] by { Spliced(Mask(), t[q..][|Mask()|..]); }
    assert t == t[..q] + Mask() + t[q + |Mask()|..];
    MaskIsOpaque(t[..q], t[q + |Mask()|..], m, r);
    if r + |m| <= q { BlankAt(t, r + |m|, q); MaskIsSolid(t, q, q); }
  }

  lemma BlankAt(t: string, i: nat, k: nat)
    requires i <= |t| && i <= k < PastBlanks(t, i)
    ensures Delimiter(t[k])
  {
  }

  // Where a pass over marker `b` leaves off: `t` up to `start` is kept, `w` comes after it.
  ghost predicate Cut(t: string, b: string, r: nat, start: nat, w: string) {
    && FirstAt(t, b) == Some(r) && r + |b| <= |t| && start == PastBlanks(t, r + |b|)
    && Closed(w) && (w != "" ==> !Blank(w[0]))
    && (w == "" || Delimiter(w[0]) || (start < |t| && !Delimiter(t[start])))
  }

  lemma KeptSafe(t: string, b: string, a: string, r: nat, start: nat, w: string, p: int)
    requires Reliable(a) && Reliable(b) && Cut(t, b, r, start, w)
    requires Occurs(t, a, p) && p + |a| <= start && (a == b || Safe(t, a, p))
    requires Occurs(t[..start] + w, a, p)
    ensures Safe(t[..start] + w, a, p)
  {
    hide Mask, Occurs, Reliable, FirstAt, PastBlanks, Delimiter, Blank, Closed;
    OccursFits(t, a, p);
    var q := PastBlanks(t, p + |a|);
    BlanksKept(t, start, w, p + |a|);
    if a == b { OnlyFirst(t, b, r, p, start); }
    if q == start {
      EndIsSafe(t, start, w, a, p);
    } else {
      if Mask() <= t[q..] {
        MaskNotCut(t, b, r, start, q);
        MaskIsSolid(t, q, q);
      }
      InsideIsSafe(t, start, w, a, p);
    }
  }

  // An occurrence after the pass lies in the kept part or in the rest.
  lemma Apart(t: string, start: nat, mask: string, x: string, a: string, p: int)
    requires Reliable(a) && start <= |t| && Occurs(t[..start] + (mask + x), a, p)
    requires mask == Mask() || (mask == "" && (x == "" || Hard(x[0])))
    ensures p + |a| <= start || start + |mask| <= p
  {
    hide BorderFree;
    var u := t[..start] + (mask + x);
    if mask == Mask() {
      assert u == t[..start] + Mask() + x;
      MaskIsOpaque(t[..start], x, a, p);
    } else if p < start < p + |a| {
      OccursAt(u, a, p, start);
    }
  }

  lemma PassSafeAt(t: string, b: string, a: string, r: nat, start: nat, mask: string, x: string, p: int)
    requires Reliable(a) && Reliable(b) && Cut(t, b, r, start, mask + x)
    requires mask == Mask() || (mask == "" && (x == "" || Hard(x[0])))
    requires a == b || AllSafe(t, a)
    requires AllSafe(x, a) && Occurs(t[..start] + (mask + x), a, p)
    ensures Safe(t[..start] + (mask + x), a, p)
  {
    hide Mask, Occurs, Reliable, FirstAt, PastBlanks, Closed, Safe, Hard;
    var u := t[..start] + (mask + x);
    Apart(t, start, mask, x, a, p);
    if p + |a| <= start {
      OccursKept(t, start, mask + x, a, p);
      KeptSafe(t, b, a, r, start, mask + x, p);
    } else {
      var front := t[..start] + mask;
      assert u == front + x;
      var k := p - |front|;
      OccursShifted(front, x, a, k);
      SafeShifted(front, x, a, k);
    }
  }

  // Where the pass goes on, the text is at its end or at a byte that ends a value.
  lemma RestCut(t: string, b: string, r: nat, start: nat, end: nat, mask: string)
    requires b != "" && FirstAt(t, b) == Some(r) && r + |b| <= |t|
    requires start == PastBlanks(t, r + |b|) && end == PastValue(t, start)
    requires mask == if end == start then "" else Mask()
    ensures var x := Masked(t[end..], b);
            Cut(t, b, r, start, mask + x) && (mask == "" ==> x == "" || Hard(x[0]))
  {
    hide FirstAt, PastBlanks, PastValue, Occurs;
    var x := Masked(t[end..], b);
    MaskedFront(t[end..], b);
    if mask == "" {
      assert mask + x == x;
    } else {
      assert (mask + x)[0] == mask[0] == '[';
      assert mask <= mask + x;
      assert x != "" ==> (mask + x)[|mask|] == x[0];
    }
  }

  // A pass over marker `b` makes every occurrence of `b` safe, and keeps a safe marker safe.
  lemma {:induction false} PassSafe(t: string, b: string, a: string)
    requires Reliable(a) && Reliable(b) && (a == b || AllSafe(t, a))
    ensures AllSafe(Masked(t, b), a)
    decreases |t|
  {
    hide Mask, Occurs, Reliable, FirstAt, PastBlanks, PastValue, Safe, Masked, Closed, Hard, Cut;
    match FirstAt(t, b) {
      case None => MaskedNone(t, b);
      case Some(r) =>
        FirstFits(t, b);
        var start := PastBlanks(t, r + |b|);
        var end := PastValue(t, start);
        var mask := if end == start then "" else Mask();
        var x := Masked(t[end..], b);
        if a != b {
          assert t == t[..end] + t[end..];
          AllSafeSuffix(t[..end], t[end..], a);
        }
        PassSafe(t[end..], b, a);
        MaskedAt(t, b, r, start, end);
        assert Masked(t, b) == t[..start] + (mask + x);
        RestCut(t, b, r, start, end, mask);
        forall p | Occurs(Masked(t, b), a, p) ensures Safe(Masked(t, b), a, p) {
          PassSafeAt(t, b, a, r, start, mask, x, p);
        }
    }
  }

  // ---- A safe text is left as it is ----

  lemma {:induction false} ValueEnd(t: string, i: nat, j: nat)
    requires i <= j <= |t| && (forall k | i <= k < j :: !Delimiter(t[k])) && (j < |t| ==> Delimiter(t[j]))
    ensures PastValue(t, i) == j
    decreases j - i
  {
    if i < j { ValueEnd(t, i + 1, j); }
  }

  // Behind a safe marker stands no value, or exactly a mask.
  lemma SafeValue(t: string, m: string, p: int)
    requires Occurs(t, m, p) && p + |m| <= |t| && Safe(t, m, p)
    ensures var q := PastBlanks(t, p + |m|);
            PastValue(t, q) == q || (PastValue(t, q) == q + |Mask()| <= |t| && t[q..q + |Mask()|] == Mask())
  {
    hide PastBlanks, Mask, Occurs;
    OccursFits(t, m, p);
    var q := PastBlanks(t, p + |m|);
    if q < |t| && !Delimiter(t[q]) {
      forall k | q <= k < q + |Mask()| ensures !Delimiter(t[k]) { MaskIsSolid(t, q, k); }
      ValueEnd(t, q, q + |Mask()|);
    }
  }

  lemma {:induction false} SafeIsFixed(t: string, m: string)
    requires m != "" && AllSafe(t, m)
    ensures Masked(t, m) == t
    decreases |t|
  {
    hide Mask, Occurs, FirstAt, PastBlanks, PastValue, Safe, Masked;
    match FirstAt(t, m) {
      case None => MaskedNone(t, m);
      case Some(r) =>
        FirstFits(t, m);
        var start := PastBlanks(t, r + |m|);
        var end := PastValue(t, start);
        SafeValue(t, m, r);
        assert t == t[..end] + t[end..];
        AllSafeSuffix(t[..end], t[end..], m);
        SafeIsFixed(t[end..], m);
        MaskedAt(t, m, r, start, end);
        assert t[..end] == t[..start] + t[start..end];
    }
  }

  // ---- All markers, one after the other ----

  function Passes(t: string, ms: seq<string>): string
    requires forall i | 0 <= i < |ms| :: ms[i] != ""
    decreases |ms|
  {
    if ms == [] then t else Passes(Masked(t, ms[0]), ms[1..])
  }

  lemma {:induction false} PassesKeep(t: string, ms: seq<string>, a: string)
    requires Reliable(a) && AllSafe(t, a) && forall i | 0 <= i < |ms| :: ms[i] != "" && Reliable(ms[i])
    ensures AllSafe(Passes(t, ms), a)
    decreases |ms|
  {
    hide Reliable, AllSafe, Masked;
    if ms != [] {
      PassSafe(t, ms[0], a);
      PassesKeep(Masked(t, ms[0]), ms[1..], a);
    }
  }

  // After all passes every occurrence of every marker is safe, whatever the text was.
  lemma {:induction false} PassesSafe(t: string, ms: seq<string>, k: nat)
    requires k < |ms| && forall i | 0 <= i < |ms| :: ms[i] != "" && Reliable(ms[i])
    ensures AllSafe(Passes(t, ms), ms[k])
    decreases |ms|
  {
    hide Reliable, AllSafe, Masked;
    var u := Masked(t, ms[0]);
    if k == 0 {
      PassSafe(t, ms[0], ms[0]);
      PassesKeep(u, ms[1..], ms[0]);
    } else {
      PassesSafe(u, ms[1..], k - 1);
    }
  }

  lemma {:induction false} PassesFixed(t: string, ms: seq<string>)
    requires forall i | 0 <= i < |ms| :: ms[i] != "" && AllSafe(t, ms[i])
    ensures Passes(t, ms) == t
    decreases |ms|
  {
    hide AllSafe, Masked;
    if ms != [] {
      SafeIsFixed(t, ms[0]);
      PassesFixed(t, ms[1..]);
    }
  }

  function Markers(): (ms: seq<string>)
    ensures forall i | 0 <= i < |ms| :: ms[i] != ""
  {
    ["tskey-auth-", "client_secret=", "client-secret=", "clientsecret=", "client_secret:",
     "client-secret:", "clientsecret:", "access_token=", "access-token=", "auth_key=", "auth-key=",
     "password=", "token=", "bearer "]
  }

  // A marker whose last byte occurs nowhere else in it cannot overlap itself.
  lemma LastOnce(m: string)
    requires m != "" && forall i | 0 <= i < |m| - 1 :: m[i] != m[|m| - 1]
    ensures BorderFree(m)
  {
    forall k | 0 < k < |m| ensures m[k..] != m[..|m| - k] {
      assert m[k..][|m| - k - 1] == m[|m| - 1] && m[..|m| - k][|m| - k - 1] == m[|m| - k - 1];
    }
  }

  lemma LastOnceReliable(m: string)
    requires m != "" && !Blank(m[0]) && m[|m| - 1] !in "redact"
    requires forall i | 0 <= i < |m| - 1 :: m[i] != m[|m| - 1]
    requires forall i | 0 <= i < |m| :: m[i] != '[' && m[i] != ']' && !Hard(m[i])
    ensures Reliable(m)
  {
    LastOnce(m);
  }

  // The one marker whose last byte occurs twice.
  lemma AuthKeyReliable()
    ensures Reliable("tskey-auth-")
  {
    var m := "tskey-auth-";
    forall k | 0 < k < |m| ensures m[k..] != m[..|m| - k] {
      assert m[k..][0] == m[k] && m[..|m| - k][0] == m[0];
      if k == 8 { assert m[8..][1] == 'h' && m[..3][1] == 's'; }
    }
  }

  lemma TokensReliable()
    ensures Reliable("access_token=") && Reliable("access-token=") && Reliable("auth_key=")
    ensures Reliable("auth-key=") && Reliable("password=") && Reliable("token=")
  {
    LastOnceReliable("access_token=");
    LastOnceReliable("access-token=");
    LastOnceReliable("auth_key=");
    LastOnceReliable("auth-key=");
    LastOnceReliable("password=");
    LastOnceReliable("token=");
  }

  lemma SecretsReliable()
    ensures Reliable("client_secret=") && Reliable("client-secret=") && Reliable("clientsecret=")
    ensures Reliable("client_secret:") && Reliable("client-secret:") && Reliable("clientsecret:")
  {
    LastOnceReliable("client_secret=");
    LastOnceReliable("client-secret=");
    LastOnceReliable("clientsecret=");
    LastOnceReliable("client_secret:");
    LastOnceReliable("client-secret:");
    LastOnceReliable("clientsecret:");
  }

  lemma BearerReliable()
    ensures Reliable("bearer ")
  {
    LastOnceReliable("bearer ");
  }

  lemma MarkersReliable()
    ensures forall i | 0 <= i < |Markers()| :: Markers()[i] != "" && Reliable(Markers()[i])
  {
    hide Reliable;
    AuthKeyReliable();
    TokensReliable();
    SecretsReliable();
    BearerReliable();
  }

  // Whatever a line holds, after the passes the text behind every marker that occurs in it is
  // nothing, a delimiter or a mask, and passing again changes nothing.
  lemma Redacted(t: string)
    ensures var u := Passes(t, Markers());
            (forall i | 0 <= i < |Markers()| :: AllSafe(u, Markers()[i])) && Passes(u, Markers()) == u
  {
    hide *;
    MarkersReliable();
    var u := Passes(t, Markers());
    forall i | 0 <= i < |Markers()| ensures AllSafe(u, Markers()[i]) { PassesSafe(t, Markers(), i); }
    PassesFixed(u, Markers());
  }

  method RedactMarkers(message: string) returns (text: string, redacted: bool)
    ensures text == Passes(message, Markers())
    ensures forall i | 0 <= i < |Markers()| :: AllSafe(text, Markers()[i])
    ensures !redacted ==> text == message
  {
    hide *;
    text, redacted := message, false;
    for k := 0 to |Markers()|
      invariant Passes(message, Markers()) == Passes(text, Markers()[k..])
      invariant !redacted ==> text == message
    {
      var changed;
      PassesStep(text, Markers()[k..]);
      text, changed := RedactValuesAfterMarker(text, Markers()[k]);
      redacted := redacted || changed;
      assert Markers()[k..][1..] == Markers()[k + 1..];
    }
    PassesNone(text, Markers()[|Markers()|..]);
    Redacted(message);
  }

  lemma PassesStep(t: string, ms: seq<string>)
    requires ms != [] && forall i | 0 <= i < |ms| :: ms[i] != ""
    ensures Passes(t, ms) == Passes(Masked(t, ms[0]), ms[1..])
  {
  }

  lemma PassesNone(t: string, ms: seq<string>)
    requires ms == []
    ensures Passes(t, ms) == t
  {
  }
}
