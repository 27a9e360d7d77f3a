// The sorted form of a JSON value, which is what gets signed.
module CanonicalJson {
  import opened Common
  import opened ByteOrder

  datatype Json =
    | Null
    | Bool(truth: bool)
    | Number(digits: string)
    | Text(text: Bytes)
    | Array(items: seq<Json>)
    | Object(members: seq<Member>)

  datatype Member = Member(key: Bytes, value: Json)

  // ---- Sorting ----

  predicate Ascending(ms: seq<Member>) {
    forall i, j | 0 <= i < j < |ms| :: Less(ms[i].key, ms[j].key)
  }

  // Inserting into a map kept sorted by key; an equal key is replaced.
  function Insert(ms: seq<Member>, m: Member): seq<Member> {
    if ms == [] then [m]
    else if Less(m.key, ms[0].key) then [m] + ms
    else if m.key == ms[0].key then [m] + ms[1..]
    else [ms[0]] + Insert(ms[1..], m)
  }

  function SortJson(v: Json): Json
    decreases v
  {
    match v
    case Array(items) => Array(SortItems(items))
    case Object(members) => Object(SortMembers(members))
    case _ => v
  }

  function SortItems(items: seq<Json>): (r: seq<Json>)
    ensures |r| == |items|
    decreases items
  {
    if items == [] then [] else SortItems(items[..|items| - 1]) + [SortJson(items[|items| - 1])]
  }

  function SortMembers(ms: seq<Member>): seq<Member>
    decreases ms
  {
    if ms == [] then []
    else
      var m := ms[|ms| - 1];
      Insert(SortMembers(ms[..|ms| - 1]), Member(m.key, SortJson(m.value)))
  }

  // ---- What a value means: objects are maps at every depth ----

  datatype Meaning =
    | Leaf(leaf: Json)
    | List(list: seq<Meaning>)
    | Fields(fields: map<Bytes, Meaning>)

  function MeaningOf(v: Json): Meaning
    decreases v
  {
    match v
    case Array(items) => List(ListOf(items))
    case Object(members) => Fields(FieldsOf(members))
    case _ => Leaf(v)
  }

  function ListOf(items: seq<Json>): (r: seq<Meaning>)
    ensures |r| == |items|
    decreases items
  {
    if items == [] then [] else ListOf(items[..|items| - 1]) + [MeaningOf(items[|items| - 1])]
  }

  // A later member replaces an earlier one of the same key.
  function FieldsOf(ms: seq<Member>): (r: map<Bytes, Meaning>)
    ensures ms == [] ==> r == map[]
    decreases ms
  {
    if ms == [] then map[] else map[ms[0].key := MeaningOf(ms[0].value)] + FieldsOf(ms[1..])
  }

  predicate HasKey(ms: seq<Member>, k: Bytes) { exists i | 0 <= i < |ms| :: ms[i].key == k }

  lemma {:induction false} FieldsKeys(ms: seq<Member>, k: Bytes)
    ensures k in FieldsOf(ms) <==> HasKey(ms, k)
    decreases |ms|
  {
    if ms != [] {
      FieldsKeys(ms[1..], k);
      if HasKey(ms[1..], k) {
        var i :| 0 <= i < |ms[1..]| && ms[1..][i].key == k;
        assert ms[i + 1].key == k;
      }
      if HasKey(ms, k) && ms[0].key != k {
        var i :| 0 <= i < |ms| && ms[i].key == k;
        assert ms[1..][i - 1].key == k;
      }
    }
  }

  lemma {:induction false} FieldsAppend(ms: seq<Member>, m: Member)
    ensures FieldsOf(ms + [m]) == FieldsOf(ms)[m.key := MeaningOf(m.value)]
    decreases |ms|
  {
    hide MeaningOf;
    if ms != [] {
      FieldsAppend(ms[1..], m);
      assert (ms + [m])[1..] == ms[1..] + [m];
    }
  }

  // ---- Inserting ----

  // No member of an ascending sequence has a key below the first one's.
  lemma AscendingTail(ms: seq<Member>)
    requires Ascending(ms) && ms != []
    ensures Ascending(ms[1..]) && !HasKey(ms[1..], ms[0].key)
  {
    if HasKey(ms[1..], ms[0].key) {
      var i :| 0 <= i < |ms[1..]| && ms[1..][i].key == ms[0].key;
      assert ms[i + 1].key == ms[0].key;
      LessIrreflexive(ms[0].key);
    }
  }

  lemma BelowFirst(ms: seq<Member>, k: Bytes)
    requires Ascending(ms) && ms != [] && Less(k, ms[0].key)
    ensures !HasKey(ms, k) && forall i | 0 <= i < |ms| :: Less(k, ms[i].key)
  {
    forall i | 0 <= i < |ms| ensures Less(k, ms[i].key) && ms[i].key != k {
      if i > 0 { LessTransitive(k, ms[0].key, ms[i].key); }
      LessIrreflexive(k);
    }
  }

  // A smaller key in front of an ascending sequence.
  lemma AscendingCons(m: Member, ms: seq<Member>)
    requires Ascending(ms) && forall i | 0 <= i < |ms| :: Less(m.key, ms[i].key)
    ensures Ascending([m] + ms)
  {
  }

  lemma {:induction false} InsertAscending(ms: seq<Member>, m: Member, low: Option<Bytes>)
    requires Ascending(ms)
    requires low.Some? ==> Less(low.value, m.key) && forall i | 0 <= i < |ms| :: Less(low.value, ms[i].key)
    ensures Ascending(Insert(ms, m))
    ensures low.Some? ==> forall i | 0 <= i < |Insert(ms, m)| :: Less(low.value, Insert(ms, m)[i].key)
    decreases |ms|
  {
    hide Less;
    if ms != [] {
      AscendingTail(ms);
      LessTotal(m.key, ms[0].key);
      if Less(m.key, ms[0].key) {
        BelowFirst(ms, m.key);
      } else if m.key == ms[0].key {
        AscendingCons(m, ms[1..]);
      } else {
        InsertAscending(ms[1..], m, Some(ms[0].key));
        if low.Some? { InsertAscending(ms[1..], m, low); }
        AscendingCons(ms[0], Insert(ms[1..], m));
      }
    }
  }

  lemma FieldsCons(m: Member, ms: seq<Member>)
    ensures FieldsOf([m] + ms) == map[m.key := MeaningOf(m.value)] + FieldsOf(ms)
  {
    hide MeaningOf;
    assert ([m] + ms)[1..] == ms;
  }

  lemma {:induction false} InsertFields(ms: seq<Member>, m: Member)
    requires Ascending(ms)
    ensures FieldsOf(Insert(ms, m)) == FieldsOf(ms)[m.key := MeaningOf(m.value)]
    decreases |ms|
  {
    hide Less, MeaningOf, HasKey, Ascending, FieldsOf;
    if ms == [] {
      FieldsCons(m, ms);
      assert [m] + ms == [m];
    } else {
      var rest := ms[1..];
      assert ms == [ms[0]] + rest;
      FieldsCons(ms[0], rest);
      AscendingTail(ms);
      FieldsKeys(rest, ms[0].key);
      if Less(m.key, ms[0].key) {
        BelowFirst(ms, m.key);
        FieldsKeys(ms, m.key);
        FieldsCons(m, ms);
      } else if m.key == ms[0].key {
        FieldsCons(m, rest);
      } else {
        InsertFields(rest, m);
        FieldsCons(ms[0], Insert(rest, m));
      }
    }
  }

  // ---- The sorted form is canonical ----

  // Keys ascend, without repetition, in every object.
  predicate Canonical(v: Json)
    decreases v
  {
    match v
    case Array(items) => forall i | 0 <= i < |items| :: Canonical(items[i])
    case Object(ms) => Ascending(ms) && forall i | 0 <= i < |ms| :: Canonical(ms[i].value)
    case _ => true
  }

  predicate AllCanonical(ms: seq<Member>) { forall i | 0 <= i < |ms| :: Canonical(ms[i].value) }

  lemma {:induction false} InsertCanonical(ms: seq<Member>, m: Member)
    requires AllCanonical(ms) && Canonical(m.value)
    ensures AllCanonical(Insert(ms, m))
    decreases |ms|
  {
    hide Canonical, Less;
    if ms != [] { InsertCanonical(ms[1..], m); }
  }

  lemma {:induction false} SortCanonical(v: Json)
    ensures Canonical(SortJson(v))
    decreases v
  {
    match v
    case Array(items) => SortItemsCanonical(items);
    case Object(ms) => SortMembersCanonical(ms);
    case _ =>
  }

  lemma {:induction false} SortItemsCanonical(items: seq<Json>)
    ensures forall i | 0 <= i < |items| :: Canonical(SortItems(items)[i])
    decreases items
  {
    hide Canonical;
    if items != [] {
      SortItemsCanonical(items[..|items| - 1]);
      SortCanonical(items[|items| - 1]);
    }
  }

  lemma {:induction false} SortMembersCanonical(ms: seq<Member>)
    ensures Ascending(SortMembers(ms)) && AllCanonical(SortMembers(ms))
    decreases ms
  {
    hide Canonical, Insert;
    if ms != [] {
      var (front, m) := (ms[..|ms| - 1], ms[|ms| - 1]);
      SortMembersCanonical(front);
      SortCanonical(m.value);
      var sorted := Member(m.key, SortJson(m.value));
      InsertAscending(SortMembers(front), sorted, None);
      InsertCanonical(SortMembers(front), sorted);
    }
  }

  // ---- Sorting keeps the meaning ----

  lemma {:induction false} SortMeaning(v: Json)
    ensures MeaningOf(SortJson(v)) == MeaningOf(v)
    decreases v
  {
    match v
    case Array(items) => SortItemsMeaning(items);
    case Object(ms) => SortMembersMeaning(ms);
    case _ =>
  }

  lemma {:induction false} SortItemsMeaning(items: seq<Json>)
    ensures ListOf(SortItems(items)) == ListOf(items)
    decreases items
  {
    if items != [] {
      var (front, last) := (items[..|items| - 1], items[|items| - 1]);
      SortItemsMeaning(front);
      SortMeaning(last);
      assert SortItems(items)[..|items| - 1] == SortItems(front);
    }
  }

  lemma {:induction false} SortMembersMeaning(ms: seq<Member>)
    ensures FieldsOf(SortMembers(ms)) == FieldsOf(ms)
    decreases ms
  {
    hide Insert, FieldsOf, MeaningOf, SortJson;
    if ms == [] {
      assert SortMembers(ms) == ms;
    } else {
      var (front, m) := (ms[..|ms| - 1], ms[|ms| - 1]);
      SortMembersMeaning(front);
      SortMeaning(m.value);
      SortMembersCanonical(front);
      InsertFields(SortMembers(front), Member(m.key, SortJson(m.value)));
      FieldsAppend(front, m);
      assert ms == front + [m];
    }
  }

  // ---- A meaning has one canonical form ----

  lemma FirstField(ms: seq<Member>)
    requires Ascending(ms) && ms != []
    ensures var k := ms[0].key;
            && k in FieldsOf(ms) && FieldsOf(ms)[k] == MeaningOf(ms[0].value)
            && FieldsOf(ms[1..]) == FieldsOf(ms) - {k}
            && forall k' | k' in FieldsOf(ms) :: k' == k || Less(k, k')
  {
    hide MeaningOf, Less;
    var k := ms[0].key;
    AscendingTail(ms);
    FieldsKeys(ms[1..], k);
    forall k' | k' in FieldsOf(ms) ensures k' == k || Less(k, k') {
      FieldsKeys(ms, k');
    }
  }

  lemma {:induction false} CanonicalOnce(v: Json, w: Json)
    requires Canonical(v) && Canonical(w) && MeaningOf(v) == MeaningOf(w)
    ensures v == w
    decreases v
  {
    match v
    case Array(items) => ListOnce(items, w.items);
    case Object(ms) => FieldsOnce(ms, w.members);
    case _ =>
  }

  lemma {:induction false} ListOnce(items: seq<Json>, others: seq<Json>)
    requires forall i | 0 <= i < |items| :: Canonical(items[i])
    requires forall i | 0 <= i < |others| :: Canonical(others[i])
    requires ListOf(items) == ListOf(others)
    ensures items == others
    decreases items
  {
    hide Canonical, MeaningOf;
    assert |items| == |ListOf(items)| == |others|;
    if items != [] {
      var n := |items| - 1;
      assert ListOf(items)[n] == MeaningOf(items[n]) && ListOf(others)[n] == MeaningOf(others[n]);
      assert ListOf(items)[..n] == ListOf(items[..n]) && ListOf(others)[..n] == ListOf(others[..n]);
      ListOnce(items[..n], others[..n]);
      CanonicalOnce(items[n], others[n]);
      assert items == items[..n] + [items[n]] && others == others[..n] + [others[n]];
    }
  }

  lemma {:induction false} FieldsOnce(ms: seq<Member>, ns: seq<Member>)
    requires Ascending(ms) && Ascending(ns) && AllCanonical(ms) && AllCanonical(ns)
    requires FieldsOf(ms) == FieldsOf(ns)
    ensures ms == ns
    decreases ms
  {
    hide Canonical, MeaningOf, Less;
    if ms != [] { FirstField(ms); }
    if ns != [] { FirstField(ns); }
    if ms != [] && ns != [] {
      LessTotal(ms[0].key, ns[0].key);
      AscendingTail(ms);
      AscendingTail(ns);
      FieldsOnce(ms[1..], ns[1..]);
      CanonicalOnce(ms[0].value, ns[0].value);
      assert ms == [ms[0]] + ms[1..] && ns == [ns[0]] + ns[1..];
    }
  }

  // ---- The normal form ----

  // Two values sort to the same form exactly when they mean the same.
  lemma NormalForm(v: Json, w: Json)
    ensures SortJson(v) == SortJson(w) <==> MeaningOf(v) == MeaningOf(w)
  {
    hide SortJson, MeaningOf, Canonical;
    SortMeaning(v);
    SortMeaning(w);
    SortCanonical(v);
    SortCanonical(w);
    if MeaningOf(v) == MeaningOf(w) { CanonicalOnce(SortJson(v), SortJson(w)); }
  }

  // A value is its own sorted form exactly when it is canonical; sorting twice sorts once.
  lemma SortedIsFixed(v: Json)
    ensures SortJson(v) == v <==> Canonical(v)
    ensures SortJson(SortJson(v)) == SortJson(v)
  {
    hide SortJson, MeaningOf, Canonical;
    SortCanonical(v);
    SortMeaning(v);
    if Canonical(v) { CanonicalOnce(SortJson(v), v); }
    NormalForm(SortJson(v), v);
  }

  // ---- Meaning the same is differing only by the order of keys ----

  predicate Distinct(ms: seq<Member>) { forall i, j | 0 <= i < j < |ms| :: ms[i].key != ms[j].key }

  // No object repeats a key, which a JSON map cannot.
  predicate WellFormed(v: Json)
    decreases v
  {
    match v
    case Array(items) => forall i | 0 <= i < |items| :: WellFormed(items[i])
    case Object(ms) => Distinct(ms) && forall i | 0 <= i < |ms| :: WellFormed(ms[i].value)
    case _ => true
  }

  // The same value with the members of its objects in another order, at any depth.
  ghost predicate Reordered(v: Json, w: Json)
    decreases v
  {
    match v
    case Array(items) =>
      w.Array? && |w.items| == |items| && forall i | 0 <= i < |items| :: Reordered(items[i], w.items[i])
    case Object(ms) =>
      w.Object? && |w.members| == |ms| &&
      forall i | 0 <= i < |ms| ::
        exists j | 0 <= j < |w.members| ::
          w.members[j].key == ms[i].key && Reordered(ms[i].value, w.members[j].value)
    case _ => v == w
  }

  lemma DistinctTail(ms: seq<Member>)
    requires Distinct(ms) && ms != []
    ensures Distinct(ms[1..]) && !HasKey(ms[1..], ms[0].key)
  {
    assert forall i | 0 <= i < |ms[1..]| :: ms[1..][i] == ms[i + 1];
  }

  lemma {:induction false} FieldAt(ms: seq<Member>, i: nat)
    requires Distinct(ms) && i < |ms|
    ensures ms[i].key in FieldsOf(ms) && FieldsOf(ms)[ms[i].key] == MeaningOf(ms[i].value)
    decreases |ms|
  {
    hide MeaningOf, Distinct, HasKey;
    DistinctTail(ms);
    if i > 0 {
      FieldAt(ms[1..], i - 1);
    } else {
      FieldsKeys(ms[1..], ms[0].key);
    }
  }

  lemma {:induction false} FieldsCount(ms: seq<Member>)
    requires Distinct(ms)
    ensures |FieldsOf(ms).Keys| == |ms|
    decreases |ms|
  {
    hide MeaningOf, Distinct, HasKey;
    if ms != [] {
      DistinctTail(ms);
      FieldsCount(ms[1..]);
      FieldsKeys(ms[1..], ms[0].key);
      assert FieldsOf(ms).Keys == {ms[0].key} + FieldsOf(ms[1..]).Keys;
    }
  }

  lemma ListAt(items: seq<Json>, i: nat)
    requires i < |items|
    ensures ListOf(items)[i] == MeaningOf(items[i])
    decreases |items|
  {
    if i < |items| - 1 { ListAt(items[..|items| - 1], i); }
  }

  lemma SubsetOfSameSize<T>(a: set<T>, b: set<T>)
    requires a <= b && |a| == |b|
    ensures a == b
  {
    assert a + (b - a) == b && a * (b - a) == {};
  }

  // Each member of `ms` stands in `ns` with the same meaning.
  ghost predicate Matched(ms: seq<Member>, ns: seq<Member>) {
    forall i | 0 <= i < |ms| :: MatchedAt(ms[i], ns)
  }

  ghost predicate MatchedAt(m: Member, ns: seq<Member>) {
    exists j | 0 <= j < |ns| :: ns[j].key == m.key && MeaningOf(m.value) == MeaningOf(ns[j].value)
  }

  lemma MatchedFields(ms: seq<Member>, ns: seq<Member>)
    requires Distinct(ms) && Distinct(ns)
    ensures |ms| == |ns| && Matched(ms, ns) <==> FieldsOf(ms) == FieldsOf(ns)
  {
    hide MeaningOf, FieldsOf, Distinct;
    FieldsCount(ms);
    FieldsCount(ns);
    if |ms| == |ns| && Matched(ms, ns) {
      forall k | k in FieldsOf(ms) ensures k in FieldsOf(ns) && FieldsOf(ns)[k] == FieldsOf(ms)[k] {
        FieldsKeys(ms, k);
        var i :| 0 <= i < |ms| && ms[i].key == k;
        assert MatchedAt(ms[i], ns);
        var j :| 0 <= j < |ns| && ns[j].key == ms[i].key && MeaningOf(ms[i].value) == MeaningOf(ns[j].value);
        FieldAt(ms, i);
        FieldAt(ns, j);
      }
      SubsetOfSameSize(FieldsOf(ms).Keys, FieldsOf(ns).Keys);
    }
    if FieldsOf(ms) == FieldsOf(ns) {
      forall i | 0 <= i < |ms| ensures MatchedAt(ms[i], ns) {
        FieldAt(ms, i);
        FieldsKeys(ns, ms[i].key);
        var j :| 0 <= j < |ns| && ns[j].key == ms[i].key;
        FieldAt(ns, j);
      }
    }
  }

  lemma {:induction false} ReorderedMeansSame(v: Json, w: Json)
    requires WellFormed(v) && WellFormed(w)
    ensures Reordered(v, w) <==> MeaningOf(v) == MeaningOf(w)
    decreases v
  {
    if v.Array? && w.Array? {
      ItemsReordered(v.items, w.items);
    } else if v.Object? && w.Object? {
      MembersReordered(v.members, w.members);
    }
  }

  lemma {:induction false} ItemsReordered(items: seq<Json>, others: seq<Json>)
    requires forall i | 0 <= i < |items| :: WellFormed(items[i])
    requires forall i | 0 <= i < |others| :: WellFormed(others[i])
    ensures |items| == |others| && (forall i | 0 <= i < |items| :: Reordered(items[i], others[i]))
            <==> ListOf(items) == ListOf(others)
    decreases items
  {
    hide WellFormed, Reordered, MeaningOf, ListOf;
    assert |ListOf(items)| == |items| && |ListOf(others)| == |others|;
    if |items| == |others| {
      forall i | 0 <= i < |items|
        ensures Reordered(items[i], others[i]) <==> ListOf(items)[i] == ListOf(others)[i]
      {
        ReorderedMeansSame(items[i], others[i]);
        ListAt(items, i);
        ListAt(others, i);
      }
    }
  }

  ghost predicate ReorderedAt(m: Member, ns: seq<Member>) {
    exists j | 0 <= j < |ns| :: ns[j].key == m.key && Reordered(m.value, ns[j].value)
  }

  lemma {:induction false} MembersReordered(ms: seq<Member>, ns: seq<Member>)
    requires Distinct(ms) && forall i | 0 <= i < |ms| :: WellFormed(ms[i].value)
    requires Distinct(ns) && forall i | 0 <= i < |ns| :: WellFormed(ns[i].value)
    ensures |ms| == |ns| && (forall i | 0 <= i < |ms| :: ReorderedAt(ms[i], ns)) <==> FieldsOf(ms) == FieldsOf(ns)
    decreases ms
  {
    hide WellFormed, Reordered, MeaningOf, FieldsOf, Distinct;
    forall i | 0 <= i < |ms| ensures ReorderedAt(ms[i], ns) <==> MatchedAt(ms[i], ns) {
      forall j | 0 <= j < |ns|
        ensures Reordered(ms[i].value, ns[j].value) <==> MeaningOf(ms[i].value) == MeaningOf(ns[j].value)
      {
        ReorderedMeansSame(ms[i].value, ns[j].value);
      }
    }
    MatchedFields(ms, ns);
  }

  // Two values have the same sorted form exactly when they differ only by key order.
  lemma SameFormIsReordered(v: Json, w: Json)
    requires WellFormed(v) && WellFormed(w)
    ensures SortJson(v) == SortJson(w) <==> Reordered(v, w)
  {
    hide SortJson, Reordered, WellFormed, MeaningOf;
    NormalForm(v, w);
    ReorderedMeansSame(v, w);
  }
}
