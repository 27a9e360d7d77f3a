// What the property index means: which rule applies to a name. Rules live in a trie of name
// segments; a node may carry a context, rules for prefixes of the rest of a name, and entries for
// exact rests.
module PropertyRules {
  import opened Common
  import opened PropertyTrie

  // No context.
  const NONE: nat := U32_MAX

  datatype Entry = Entry(name: Bytes, context: nat)

  datatype Node = Node(context: nat, prefixes: seq<Entry>, exact: seq<Entry>, branches: seq<Branch>)

  datatype Branch = Branch(name: Bytes, node: Node)

  // The position of the first dot.
  function FirstDot(t: Bytes): (r: Option<nat>)
    ensures r.None? ==> DOT !in t
    ensures r.Some? ==> r.value < |t| && t[r.value] == DOT && DOT !in t[..r.value]
  {
    if t == [] then None
    else if t[0] == DOT then Some(0)
    else
      var r := FirstDot(t[1..]);
      if r.None? then assert t == [t[0]] + t[1..]; None
      else
        assert t[..r.value + 1] == [t[0]] + t[1..][..r.value];
        Some(r.value + 1)
  }

  function Or(context: nat, other: nat): nat { if context != NONE then context else other }

  // The first prefix rule from `from` on that matches.
  function FirstMatch(prefixes: seq<Entry>, rest: Bytes, from: nat): (r: Option<nat>)
    requires from <= |prefixes|
    ensures r.None? ==> forall i | from <= i < |prefixes| :: !(prefixes[i].name <= rest)
    ensures r.Some? ==> from <= r.value < |prefixes| && prefixes[r.value].name <= rest
    ensures r.Some? ==> forall i | from <= i < r.value :: !(prefixes[i].name <= rest)
    decreases |prefixes| - from
  {
    if from == |prefixes| then None
    else if prefixes[from].name <= rest then Some(from)
    else FirstMatch(prefixes, rest, from + 1)
  }

  // The first prefix rule that matches decides, unless it has no context.
  function ByPrefix(prefixes: seq<Entry>, rest: Bytes, inherited: nat): nat {
    match FirstMatch(prefixes, rest, 0)
    case None => inherited
    case Some(i) => Or(prefixes[i].context, inherited)
  }

  function ByName(exact: seq<Entry>, rest: Bytes): Option<nat> {
    if exact == [] then None
    else if exact[0].name == rest then Some(exact[0].context)
    else ByName(exact[1..], rest)
  }

  function BranchOf(branches: seq<Branch>, segment: Bytes): (r: Option<nat>)
    ensures r.Some? ==> r.value < |branches| && branches[r.value].name == segment
    ensures r.None? ==> forall i | 0 <= i < |branches| :: branches[i].name != segment
  {
    if branches == [] then None
    else if branches[0].name == segment then Some(0)
    else
      var r := BranchOf(branches[1..], segment);
      assert forall i | 1 <= i < |branches| :: branches[i] == branches[1..][i - 1];
      if r.None? then None else Some(r.value + 1)
  }

  // The branch a name goes on to, if it has another segment and there is one.
  function Next(n: Node, rest: Bytes): (r: Option<nat>)
    ensures r.Some? ==> FirstDot(rest).Some? && r.value < |n.branches|
  {
    match FirstDot(rest)
    case None => None
    case Some(dot) => BranchOf(n.branches, rest[..dot])
  }

  function After(rest: Bytes): Bytes
    requires FirstDot(rest).Some?
  {
    rest[FirstDot(rest).value + 1..]
  }

  function Here(n: Node, rest: Bytes, inherited: nat): nat {
    ByPrefix(n.prefixes, rest, Or(n.context, inherited))
  }

  // The context of a name: walk down, let every node override, and look for an exact entry at
  // the last one.
  function Resolve(n: Node, rest: Bytes, inherited: nat): nat
    decreases n
  {
    var here := Here(n, rest, inherited);
    match Next(n, rest)
    case Some(i) => Resolve(n.branches[i].node, After(rest), here)
    case None =>
      match ByName(n.exact, rest)
      case Some(context) => Or(context, here)
      case None => here
  }

  // How many nodes the walk visits.
  function Visits(n: Node, rest: Bytes): (v: nat)
    ensures v > 0
    decreases n
  {
    match Next(n, rest)
    case Some(i) => 1 + Visits(n.branches[i].node, After(rest))
    case None => 1
  }

  // ---- All rules at once ----

  // A rule of the node itself for every name that starts with `prefix`.
  ghost predicate Local(n: Node, prefix: Bytes, context: nat) {
    || (prefix == [] && context == n.context != NONE)
    || (context != NONE && exists i | 0 <= i < |n.prefixes| :: n.prefixes[i] == Entry(prefix, context))
  }

  // Such a rule of the node or of a node below it, relative to the node.
  ghost predicate HasRule(n: Node, prefix: Bytes, context: nat)
    decreases n, 1
  {
    Local(n, prefix, context) || exists j | 0 <= j < |n.branches| :: Below(n, j, prefix, context)
  }

  ghost predicate Below(n: Node, j: nat, prefix: Bytes, context: nat)
    requires j < |n.branches|
    decreases n, 0
  {
    var b := n.branches[j];
    b.name + [DOT] <= prefix && HasRule(b.node, prefix[|b.name| + 1..], context)
  }

  // An entry for exactly the name `name`, relative to the node.
  ghost predicate HasExact(n: Node, name: Bytes, context: nat)
    decreases n, 1
  {
    || (exists i | 0 <= i < |n.exact| :: n.exact[i] == Entry(name, context))
    || exists j | 0 <= j < |n.branches| :: ExactBelow(n, j, name, context)
  }

  ghost predicate ExactBelow(n: Node, j: nat, name: Bytes, context: nat)
    requires j < |n.branches|
    decreases n, 0
  {
    var b := n.branches[j];
    b.name + [DOT] <= name && HasExact(b.node, name[|b.name| + 1..], context)
  }

  // The walk can take this branch: it stands for one segment and is the first one for it.
  predicate Walked(n: Node, j: nat)
    requires j < |n.branches|
  {
    DOT !in n.branches[j].name && BranchOf(n.branches, n.branches[j].name) == Some(j)
  }

  // Prefixes stand for single segments, and the walk can take every branch.
  predicate Segmented(n: Node)
    decreases n
  {
    && (forall i | 0 <= i < |n.prefixes| :: DOT !in n.prefixes[i].name)
    && forall j | 0 <= j < |n.branches| :: Walked(n, j) && Segmented(n.branches[j].node)
  }

  // Of the prefixes that prefix `i` starts with, the first one has a context and is not shorter
  // than prefix `j`. Nothing is needed for a `j` that says no more than the node does.
  predicate Foremost(n: Node, i: nat, j: nat)
    requires i < |n.prefixes| && j < |n.prefixes|
  {
    var f := FirstMatch(n.prefixes, n.prefixes[i].name, 0);
    || (f.Some? && n.prefixes[f.value].context != NONE && |n.prefixes[j].name| <= |n.prefixes[f.value].name|)
    || (n.prefixes[j].name == [] && n.context != NONE)
  }

  // No prefix hides a rule from a name that is written in the same node.
  predicate Unhidden(n: Node)
    decreases n
  {
    && (forall i, j | 0 <= i < |n.prefixes| && 0 <= j < |n.prefixes| ::
          n.prefixes[j].name <= n.prefixes[i].name && n.prefixes[j].context != NONE ==> Foremost(n, i, j))
    && forall k | 0 <= k < |n.branches| :: Unhidden(n.branches[k].node)
  }

  // The walk does not pass this entry over: it stops at the node, where the entry is the first for
  // its name, or it goes on to a branch below which the entry is written as well.
  ghost predicate Kept(n: Node, name: Bytes, context: nat) {
    match Next(n, name)
    case None => ByName(n.exact, name) == Some(context)
    case Some(i) => HasExact(n.branches[i].node, After(name), context)
  }

  // No entry of a node is passed over, nor one below a branch that the walk cannot take.
  ghost predicate Open(n: Node)
    decreases n
  {
    && (forall i | 0 <= i < |n.exact| :: Kept(n, n.exact[i].name, n.exact[i].context))
    && forall j | 0 <= j < |n.branches| :: if Walked(n, j) then Open(n.branches[j].node) else AllKept(n, j)
  }

  ghost predicate AllKept(n: Node, j: nat)
    requires j < |n.branches|
  {
    forall tail, c: nat | HasExact(n.branches[j].node, tail, c) :: Kept(n, n.branches[j].name + [DOT] + tail, c)
  }

  // Entries and branches stand for single segments, longer prefixes come first, every rule has a
  // context, and nothing is listed twice.
  predicate Tidy(n: Node)
    decreases n
  {
    && (forall i | 0 <= i < |n.prefixes| :: DOT !in n.prefixes[i].name && n.prefixes[i].context != NONE)
    && (forall i, j | 0 <= i < j < |n.prefixes| :: |n.prefixes[i].name| >= |n.prefixes[j].name|)
    && (forall i | 0 <= i < |n.exact| :: DOT !in n.exact[i].name && n.exact[i].context != NONE)
    && (forall i, j | 0 <= i < j < |n.exact| :: n.exact[i].name != n.exact[j].name)
    && (forall i | 0 <= i < |n.branches| :: DOT !in n.branches[i].name && Tidy(n.branches[i].node))
    && (forall i, j | 0 <= i < j < |n.branches| :: n.branches[i].name != n.branches[j].name)
  }

  // ---- Walking is choosing the longest rule ----

  // What the walk inherits on its way.
  function Inherit(n: Node, rest: Bytes, inherited: nat): nat
    decreases n
  {
    var here := Here(n, rest, inherited);
    match Next(n, rest)
    case Some(i) => Inherit(n.branches[i].node, After(rest), here)
    case None => here
  }

  // The exact entry at the end of the walk.
  function ExactAt(n: Node, rest: Bytes): Option<nat>
    decreases n
  {
    match Next(n, rest)
    case Some(i) => ExactAt(n.branches[i].node, After(rest))
    case None => ByName(n.exact, rest)
  }

  lemma {:induction false} ResolveSplits(n: Node, rest: Bytes, inherited: nat)
    ensures Resolve(n, rest, inherited) ==
            match ExactAt(n, rest)
            case Some(context) => Or(context, Inherit(n, rest, inherited))
            case None => Inherit(n, rest, inherited)
    decreases n
  {
    match Next(n, rest)
    case Some(i) => ResolveSplits(n.branches[i].node, After(rest), Here(n, rest, inherited));
    case None =>
  }

  lemma {:induction false} FirstDotAt(name: Bytes, rest: Bytes)
    requires DOT !in name && name + [DOT] <= rest
    ensures FirstDot(rest) == Some(|name|)
    decreases |name|
  {
    assert rest[|name|] == (name + [DOT])[|name|] == DOT;
    if name != [] {
      assert rest[0] == (name + [DOT])[0] == name[0];
      assert name[1..] + [DOT] == (name + [DOT])[1..] <= rest[1..];
      FirstDotAt(name[1..], rest[1..]);
    }
  }

  // A prefix without a dot does not reach past the first one.
  lemma ShortPrefix(q: Bytes, rest: Bytes)
    requires q <= rest && DOT !in q && FirstDot(rest).Some?
    ensures |q| <= FirstDot(rest).value
  {
    assert forall i | 0 <= i < |q| :: q[i] == rest[i] && q[i] != DOT;
  }

  lemma {:induction false} BranchOfAt(branches: seq<Branch>, j: nat)
    requires j < |branches| && forall i, k | 0 <= i < k < |branches| :: branches[i].name != branches[k].name
    ensures BranchOf(branches, branches[j].name) == Some(j)
  {
    if j > 0 {
      var tail := branches[1..];
      assert forall i | 0 <= i < |tail| :: tail[i] == branches[i + 1];
      BranchOfAt(tail, j - 1);
    }
  }

  lemma LocalIsShort(n: Node, prefix: Bytes, context: nat)
    requires Segmented(n) && Local(n, prefix, context)
    ensures DOT !in prefix
  {
  }

  lemma Chain(a: Bytes, b: Bytes, c: Bytes)
    requires a <= b <= c
    ensures a <= c && b[|a|..] <= c[|a|..]
  {
  }

  // A name that starts with a branch's name and a dot goes on to that branch.
  lemma NextIs(n: Node, j: nat, rest: Bytes)
    requires j < |n.branches| && Walked(n, j) && n.branches[j].name + [DOT] <= rest
    ensures Next(n, rest) == Some(j) && FirstDot(rest) == Some(|n.branches[j].name|)
  {
    var name := n.branches[j].name;
    FirstDotAt(name, rest);
    assert rest[..|name|] == (name + [DOT])[..|name|] == name;
  }

  lemma NextStarts(n: Node, rest: Bytes)
    requires Next(n, rest).Some?
    ensures var name := n.branches[Next(n, rest).value].name;
            && FirstDot(rest) == Some(|name|) && name + [DOT] <= rest
            && rest == name + [DOT] + After(rest) && Walked(n, Next(n, rest).value)
  {
    var dot := FirstDot(rest).value;
    assert rest == rest[..dot] + [rest[dot]] + rest[dot + 1..];
  }

  // A matching rule of a branch belongs to the branch the walk takes.
  lemma BelowIsNext(n: Node, j: nat, prefix: Bytes, context: nat, rest: Bytes)
    requires j < |n.branches| && Walked(n, j) && Below(n, j, prefix, context) && prefix <= rest
    ensures Next(n, rest) == Some(j) && FirstDot(rest) == Some(|n.branches[j].name|)
    ensures var tail := prefix[|n.branches[j].name| + 1..];
            HasRule(n.branches[j].node, tail, context) && tail <= After(rest)
  {
    hide HasRule, Walked;
    var name := n.branches[j].name;
    Chain(name + [DOT], prefix, rest);
    NextIs(n, j, rest);
  }

  // The rule the walk ends up with, relative to the node.
  function ChosenHere(n: Node, rest: Bytes): Option<Bytes> {
    var i := FirstMatch(n.prefixes, rest, 0);
    if i.Some? && n.prefixes[i.value].context != NONE then Some(n.prefixes[i.value].name)
    else if n.context != NONE then Some([])
    else None
  }

  function Chosen(n: Node, rest: Bytes): Option<Bytes>
    decreases n
  {
    match Next(n, rest)
    case None => ChosenHere(n, rest)
    case Some(i) =>
      match Chosen(n.branches[i].node, After(rest))
      case Some(p) => Some(n.branches[i].name + [DOT] + p)
      case None => ChosenHere(n, rest)
  }

  lemma LocalChoice(n: Node, rest: Bytes, inherited: nat)
    ensures ChosenHere(n, rest).None? ==> Here(n, rest, inherited) == inherited
    ensures ChosenHere(n, rest).Some? ==>
              var p := ChosenHere(n, rest).value; p <= rest && Local(n, p, Here(n, rest, inherited))
  {
    match FirstMatch(n.prefixes, rest, 0)
    case Some(i) =>
      if n.prefixes[i].context != NONE {
        assert n.prefixes[i] == Entry(n.prefixes[i].name, Here(n, rest, inherited));
      }
    case None =>
  }

  // No matching rule of the node itself is longer than the one chosen among them.
  lemma LocalIsLongest(n: Node, rest: Bytes, q: Bytes, c: nat)
    requires Unhidden(n) && Local(n, q, c) && q <= rest
    ensures ChosenHere(n, rest).Some? && |q| <= |ChosenHere(n, rest).value|
  {
    if j :| 0 <= j < |n.prefixes| && n.prefixes[j] == Entry(q, c) && c != NONE {
      var i := FirstMatch(n.prefixes, rest, 0).value;
      var first := n.prefixes[i].name;
      var longer := if |q| <= |first| then i else j;
      StillFirst(n.prefixes, rest, n.prefixes[longer].name, 0);
      assert Foremost(n, longer, j);
    }
  }

  // The first match of a name is that of any prefix of it that it matches.
  lemma {:induction false} StillFirst(prefixes: seq<Entry>, rest: Bytes, r: Bytes, from: nat)
    requires from <= |prefixes| && r <= rest
    requires FirstMatch(prefixes, rest, from).Some?
    requires prefixes[FirstMatch(prefixes, rest, from).value].name <= r
    ensures FirstMatch(prefixes, r, from) == FirstMatch(prefixes, rest, from)
    decreases |prefixes| - from
  {
    if !(prefixes[from].name <= rest) { StillFirst(prefixes, rest, r, from + 1); }
  }

  // The walk inherits the context of the rule it chose, which is a rule of the trie and matches.
  lemma {:induction false} ChosenIsRule(n: Node, rest: Bytes, inherited: nat)
    ensures Chosen(n, rest).None? ==> Inherit(n, rest, inherited) == inherited
    ensures Chosen(n, rest).Some? ==>
              var p := Chosen(n, rest).value; p <= rest && HasRule(n, p, Inherit(n, rest, inherited))
    decreases n
  {
    hide Local, Here, ChosenHere, Next;
    LocalChoice(n, rest, inherited);
    match Next(n, rest)
    case None =>
    case Some(i) =>
      var here := Here(n, rest, inherited);
      ChosenIsRule(n.branches[i].node, After(rest), here);
      NextStarts(n, rest);
      match Chosen(n.branches[i].node, After(rest)) {
        case None =>
        case Some(p) =>
          var name := n.branches[i].name;
          var whole := name + [DOT] + p;
          assert whole[|name| + 1..] == p && name + [DOT] <= whole;
          Prepended(name + [DOT], p, After(rest));
          assert Below(n, i, whole, Inherit(n, rest, inherited));
      }
  }

  lemma Prepended(a: Bytes, p: Bytes, r: Bytes)
    requires p <= r
    ensures a + p <= a + r
  {
  }

  // No matching rule of the trie is longer.
  lemma {:induction false} ChosenIsLongest(n: Node, rest: Bytes, q: Bytes, c: nat)
    requires Segmented(n) && Unhidden(n) && HasRule(n, q, c) && q <= rest
    ensures Chosen(n, rest).Some? && |q| <= |Chosen(n, rest).value|
    decreases n
  {
    hide Local, ChosenHere, Next, Walked, Foremost;
    if Local(n, q, c) {
      LocalIsLongest(n, rest, q, c);
      if Next(n, rest).Some? {
        LocalIsShort(n, q, c);
        NextStarts(n, rest);
        ShortPrefix(q, rest);
      }
    } else {
      var j :| 0 <= j < |n.branches| && Below(n, j, q, c);
      BelowIsNext(n, j, q, c, rest);
      ChosenIsLongest(n.branches[j].node, After(rest), q[|n.branches[j].name| + 1..], c);
    }
  }

  // ---- Exact entries ----

  lemma {:induction false} ByNameFinds(exact: seq<Entry>, name: Bytes, c: nat)
    requires forall i, j | 0 <= i < j < |exact| :: exact[i].name != exact[j].name
    ensures ByName(exact, name) == Some(c) <==> exists i | 0 <= i < |exact| :: exact[i] == Entry(name, c)
    decreases |exact|
  {
    if exact != [] {
      var tail := exact[1..];
      assert forall i | 0 <= i < |tail| :: tail[i] == exact[i + 1];
      ByNameFinds(tail, name, c);
      if exact[0].name == name {
        if i :| 0 <= i < |exact| && exact[i] == Entry(name, c) {
          assert exact[i].name == exact[0].name;
        }
      } else {
        if i :| 0 <= i < |exact| && exact[i] == Entry(name, c) {
          assert i > 0 && tail[i - 1] == Entry(name, c);
        }
        if i :| 0 <= i < |tail| && tail[i] == Entry(name, c) {
          assert exact[i + 1] == Entry(name, c);
        }
      }
    }
  }

  // Whatever the trie, an exact entry that is found is one of its entries for the whole name.
  lemma {:induction false} ExactIsEntry(n: Node, name: Bytes, c: nat)
    requires ExactAt(n, name) == Some(c)
    ensures HasExact(n, name, c)
    decreases n
  {
    match Next(n, name)
    case None => ByNameIsEntry(n.exact, name, c);
    case Some(i) =>
      NextStarts(n, name);
      ExactIsEntry(n.branches[i].node, After(name), c);
      assert ExactBelow(n, i, name, c);
  }

  lemma {:induction false} ByNameIsEntry(exact: seq<Entry>, name: Bytes, c: nat)
    requires ByName(exact, name) == Some(c)
    ensures exists i | 0 <= i < |exact| :: exact[i] == Entry(name, c)
    decreases |exact|
  {
    if exact[0].name == name {
      assert exact[0] == Entry(name, c);
    } else {
      ByNameIsEntry(exact[1..], name, c);
      var i :| 0 <= i < |exact[1..]| && exact[1..][i] == Entry(name, c);
      assert exact[i + 1] == Entry(name, c);
    }
  }

  // In an open trie the walk keeps every entry in sight.
  lemma EntryKept(n: Node, name: Bytes, c: nat)
    requires Open(n) && HasExact(n, name, c)
    ensures Kept(n, name, c)
  {
    hide HasExact, Walked;
    if j :| 0 <= j < |n.branches| && ExactBelow(n, j, name, c) {
      var tail := name[|n.branches[j].name| + 1..];
      assert name == n.branches[j].name + [DOT] + tail;
      if Walked(n, j) { NextIs(n, j, name); }
    } else {
      LocalEntry(n, name, c);
    }
  }

  lemma LocalEntry(n: Node, name: Bytes, c: nat)
    requires HasExact(n, name, c) && forall j | 0 <= j < |n.branches| :: !ExactBelow(n, j, name, c)
    ensures exists i | 0 <= i < |n.exact| :: n.exact[i] == Entry(name, c)
  {
  }

  // In an open trie the walk finds an exact entry exactly when there is one for the whole name.
  lemma {:induction false} ExactFound(n: Node, name: Bytes, c: nat)
    requires Open(n)
    ensures ExactAt(n, name) == Some(c) <==> HasExact(n, name, c)
    decreases n
  {
    hide HasExact;
    if ExactAt(n, name) == Some(c) { ExactIsEntry(n, name, c); }
    if HasExact(n, name, c) {
      EntryKept(n, name, c);
      if Next(n, name).Some? {
        NextStarts(n, name);
        ExactFound(n.branches[Next(n, name).value].node, After(name), c);
      }
    }
  }

  lemma FoundIsKept(n: Node, name: Bytes, c: nat)
    requires ExactAt(n, name) == Some(c)
    ensures Kept(n, name, c)
  {
    match Next(n, name)
    case None =>
    case Some(i) => ExactIsEntry(n.branches[i].node, After(name), c);
  }

  // Every written entry is found.
  ghost predicate AllFound(n: Node) {
    forall name, c: nat | HasExact(n, name, c) :: ExactAt(n, name) == Some(c)
  }

  lemma FoundBelow(n: Node, j: nat)
    requires AllFound(n) && j < |n.branches|
    ensures if Walked(n, j) then AllFound(n.branches[j].node) else AllKept(n, j)
  {
    hide Walked, HasExact, Kept;
    var (name, child) := (n.branches[j].name, n.branches[j].node);
    forall tail, c: nat | HasExact(child, tail, c)
      ensures Kept(n, name + [DOT] + tail, c) && (Walked(n, j) ==> ExactAt(child, tail) == Some(c))
    {
      var whole := name + [DOT] + tail;
      assert whole[|name| + 1..] == tail && name + [DOT] <= whole;
      BelowIsExact(n, j, whole, c);
      FoundIsKept(n, whole, c);
      if Walked(n, j) { NextIs(n, j, whole); }
    }
  }

  lemma BelowIsExact(n: Node, j: nat, name: Bytes, c: nat)
    requires j < |n.branches| && ExactBelow(n, j, name, c)
    ensures HasExact(n, name, c)
  {
  }

  lemma {:induction false} FoundIsOpen(n: Node)
    requires AllFound(n)
    ensures Open(n)
    decreases n
  {
    hide Walked, Kept, AllKept;
    forall i | 0 <= i < |n.exact| ensures Kept(n, n.exact[i].name, n.exact[i].context) {
      var e := n.exact[i];
      assert n.exact[i] == Entry(e.name, e.context) && HasExact(n, e.name, e.context);
      FoundIsKept(n, e.name, e.context);
    }
    forall j | 0 <= j < |n.branches|
      ensures if Walked(n, j) then Open(n.branches[j].node) else AllKept(n, j)
    {
      FoundBelow(n, j);
      if Walked(n, j) { FoundIsOpen(n.branches[j].node); }
    }
  }

  // The walk finds for every name the entries written for it, and no others.
  ghost predicate FindsExactly(n: Node) {
    forall name, c: nat :: ExactAt(n, name) == Some(c) <==> HasExact(n, name, c)
  }

  // Whatever the trie, that is so exactly when it is open.
  lemma OpenExactly(n: Node)
    ensures FindsExactly(n) <==> Open(n)
  {
    hide HasExact, ExactAt, Open;
    if Open(n) {
      forall name, c: nat ensures ExactAt(n, name) == Some(c) <==> HasExact(n, name, c) { ExactFound(n, name, c); }
    }
    if FindsExactly(n) { FoundIsOpen(n); }
  }

  // An entry with a dot is passed over if there is a branch for its first segment.
  lemma EntryPassedOver(a: byte, b: byte)
    requires a != DOT && b != DOT
    ensures var n := Node(NONE, [], [Entry([a, DOT, b], 7)], [Branch([a], Node(NONE, [], [], []))]);
            HasExact(n, [a, DOT, b], 7) && ExactAt(n, [a, DOT, b]).None? && !Open(n)
  {
    var child := Node(NONE, [], [], []);
    var n := Node(NONE, [], [Entry([a, DOT, b], 7)], [Branch([a], child)]);
    assert n.exact[0] == Entry([a, DOT, b], 7);
    assert HasExact(n, [a, DOT, b], 7);
    assert n.branches[0].name + [DOT] <= [a, DOT, b];
    assert Walked(n, 0);
    NextIs(n, 0, [a, DOT, b]);
    assert After([a, DOT, b]) == [b];
    assert ExactAt(child, [b]).None?;
    if Open(n) { ExactFound(n, [a, DOT, b], 7); }
  }

  // ---- What resolving a name means ----

  // Whatever the trie, a name resolves to an entry for the whole name, or else to a rule whose
  // prefix it starts with, or else to what it started with.
  lemma ResolvedIsWritten(n: Node, name: Bytes, inherited: nat)
    ensures var r := Resolve(n, name, inherited);
            || (r != NONE && HasExact(n, name, r))
            || (Chosen(n, name).Some? && Chosen(n, name).value <= name && HasRule(n, Chosen(n, name).value, r))
            || (Chosen(n, name).None? && r == inherited)
  {
    hide *;
    ResolveSplits(n, name, inherited);
    ChosenIsRule(n, name, inherited);
    if ExactAt(n, name).Some? {
      ExactIsEntry(n, name, ExactAt(n, name).value);
      OrIs(ExactAt(n, name).value, Inherit(n, name, inherited));
    }
  }

  // In an open trie an entry for exactly this name decides. Without one that has a context, the
  // rule the walk chose decides, or nothing. In a segmented trie that hides no rule the chosen one is
  // the longest rule whose prefix the name starts with.
  lemma MostSpecificDecides(n: Node, name: Bytes, inherited: nat)
    ensures Open(n) ==> forall c | HasExact(n, name, c) && c != NONE :: Resolve(n, name, inherited) == c
    ensures Open(n) && (forall c | HasExact(n, name, c) :: c == NONE) ==>
              match Chosen(n, name)
              case Some(p) => p <= name && HasRule(n, p, Resolve(n, name, inherited))
              case None => Resolve(n, name, inherited) == inherited
    ensures Segmented(n) && Unhidden(n) ==>
              match Chosen(n, name)
              case Some(p) => forall q, c | HasRule(n, q, c) && q <= name :: |q| <= |p|
              case None => forall q, c | HasRule(n, q, c) :: !(q <= name)
  {
    hide *;
    ResolveSplits(n, name, inherited);
    ChosenIsRule(n, name, inherited);
    if Open(n) {
      forall c: nat ensures ExactAt(n, name) == Some(c) <==> HasExact(n, name, c) { ExactFound(n, name, c); }
    }
    if Segmented(n) && Unhidden(n) {
      forall q, c | HasRule(n, q, c) && q <= name
        ensures Chosen(n, name).Some? && |q| <= |Chosen(n, name).value|
      {
        ChosenIsLongest(n, name, q, c);
      }
    }
    if ExactAt(n, name).Some? { OrIs(ExactAt(n, name).value, Inherit(n, name, inherited)); }
  }

  lemma OrIs(a: nat, b: nat)
    ensures Or(a, b) == if a != NONE then a else b
  {
  }

  // ---- Tries that are not tidy ----

  // The longest rule that matches this name decides.
  ghost predicate LongestAt(n: Node, rest: Bytes) {
    forall q, c | HasRule(n, q, c) && q <= rest :: Chosen(n, rest).Some? && |q| <= |Chosen(n, rest).value|
  }

  // The prefixes that are written in the trie, with or without a context, relative to the node.
  ghost predicate Listed(n: Node, p: Bytes)
    decreases n, 1
  {
    || p == []
    || (exists i | 0 <= i < |n.prefixes| :: n.prefixes[i].name == p)
    || exists j | 0 <= j < |n.branches| :: ListedBelow(n, j, p)
  }

  ghost predicate ListedBelow(n: Node, j: nat, p: Bytes)
    requires j < |n.branches|
    decreases n, 0
  {
    n.branches[j].name + [DOT] <= p && Listed(n.branches[j].node, p[|n.branches[j].name| + 1..])
  }

  // `r` is as much of `rest` as any prefix of the trie looks at.
  ghost predicate Covers(n: Node, rest: Bytes, r: Bytes) {
    r <= rest && forall p | Listed(n, p) && p <= rest :: p <= r
  }

  lemma {:induction false} SameMatch(n: Node, rest: Bytes, r: Bytes, from: nat)
    requires Covers(n, rest, r) && from <= |n.prefixes|
    ensures FirstMatch(n.prefixes, rest, from) == FirstMatch(n.prefixes, r, from)
    decreases |n.prefixes| - from
  {
    if from < |n.prefixes| {
      assert Listed(n, n.prefixes[from].name);
      if n.prefixes[from].name <= r { Chain(n.prefixes[from].name, r, rest); }
      SameMatch(n, rest, r, from + 1);
    }
  }

  lemma RuleIsListed(n: Node, p: Bytes, c: nat)
    requires HasRule(n, p, c)
    ensures Listed(n, p)
    decreases n
  {
    if !Local(n, p, c) {
      var j :| 0 <= j < |n.branches| && Below(n, j, p, c);
      RuleIsListed(n.branches[j].node, p[|n.branches[j].name| + 1..], c);
      assert ListedBelow(n, j, p);
    }
  }

  lemma BelowListed(n: Node, i: nat, p: Bytes)
    requires i < |n.branches| && ListedBelow(n, i, p)
    ensures Listed(n, p)
  {
  }

  // The covered part of a name takes the same branch.
  lemma NextSame(n: Node, rest: Bytes, r: Bytes)
    requires Covers(n, rest, r)
    ensures Next(n, r) == Next(n, rest)
    ensures Next(n, rest).Some? ==> FirstDot(r) == FirstDot(rest)
  {
    hide Listed;
    if Next(n, rest).Some? {
      var i := Next(n, rest).value;
      var name := n.branches[i].name;
      NextStarts(n, rest);
      assert (name + [DOT])[|name| + 1..] == [];
      ListedEmpty(n.branches[i].node);
      BelowListed(n, i, name + [DOT]);
      assert rest[..|name|] == name;
      FirstDotAt(name, r);
      assert r[..|name|] == name;
    } else if FirstDot(r).Some? {
      var name := r[..FirstDot(r).value];
      assert rest[..|name|] == name && rest[|name|] == DOT;
      FirstDotAt(name, rest);
    }
  }

  lemma ListedEmpty(n: Node)
    ensures Listed(n, [])
  {
  }

  lemma CoversBelow(n: Node, rest: Bytes, r: Bytes, i: nat)
    requires Covers(n, rest, r) && Next(n, rest) == Some(i) && FirstDot(r) == FirstDot(rest)
    ensures Covers(n.branches[i].node, After(rest), After(r))
  {
    hide Listed;
    var (name, child) := (n.branches[i].name, n.branches[i].node);
    NextStarts(n, rest);
    Chain(r[..|name| + 1], r, rest);
    assert r[..|name| + 1] == name + [DOT];
    forall p | Listed(child, p) && p <= After(rest) ensures p <= After(r) {
      var whole := name + [DOT] + p;
      assert whole[|name| + 1..] == p && name + [DOT] <= whole;
      Prepended(name + [DOT], p, After(rest));
      BelowListed(n, i, whole);
      Chain(name + [DOT], whole, r);
    }
  }

  // Choosing looks no further than the covered part of a name.
  lemma {:induction false} SameChoice(n: Node, rest: Bytes, r: Bytes)
    requires Covers(n, rest, r)
    ensures Chosen(n, rest) == Chosen(n, r)
    decreases n
  {
    hide Covers, FirstMatch, Next;
    SameMatch(n, rest, r, 0);
    NextSame(n, rest, r);
    if Next(n, rest).Some? {
      var i := Next(n, rest).value;
      CoversBelow(n, rest, r, i);
      SameChoice(n.branches[i].node, After(rest), After(r));
    }
  }

  // The longest listed prefix of a name, which covers it.
  ghost function Cover(n: Node, rest: Bytes, k: nat): (r: Bytes)
    requires k <= |rest|
    ensures r <= rest && Listed(n, r)
    ensures forall p | Listed(n, p) && p <= rest && |p| <= k :: p <= r
  {
    if Listed(n, rest[..k]) then
      assert forall p | p <= rest && |p| <= k :: p <= rest[..k];
      rest[..k]
    else
      assert forall p | Listed(n, p) && p <= rest && |p| == k :: p == rest[..k];
      if k == 0 then ListedEmpty(n); [] else Cover(n, rest, k - 1)
  }

  // Whatever the trie, the longest rule decides about all names exactly when it decides about
  // the prefixes that are written in the trie.
  lemma LongestExactly(n: Node)
    ensures (forall rest :: LongestAt(n, rest)) <==> (forall r | Listed(n, r) :: LongestAt(n, r))
  {
    hide Listed, HasRule, Chosen;
    if forall r | Listed(n, r) :: LongestAt(n, r) {
      forall rest ensures LongestAt(n, rest) { LongestAtCover(n, rest, Cover(n, rest, |rest|)); }
    }
  }

  lemma LongestAtCover(n: Node, rest: Bytes, r: Bytes)
    requires Covers(n, rest, r) && LongestAt(n, r)
    ensures LongestAt(n, rest)
  {
    hide Listed, HasRule, Chosen;
    SameChoice(n, rest, r);
    forall q, c | HasRule(n, q, c) && q <= rest
      ensures Chosen(n, rest).Some? && |q| <= |Chosen(n, rest).value|
    {
      RuleIsListed(n, q, c);
    }
  }

  // ---- When the longest rule decides, by the entries alone ----

  lemma {:induction false} UnhiddenIsLongest(n: Node, rest: Bytes)
    requires Segmented(n) && Unhidden(n)
    ensures LongestAt(n, rest)
  {
    hide Segmented, Unhidden, HasRule, Chosen;
    forall q, c | HasRule(n, q, c) && q <= rest
      ensures Chosen(n, rest).Some? && |q| <= |Chosen(n, rest).value|
    {
      ChosenIsLongest(n, rest, q, c);
    }
  }

  lemma LongestIsForemost(n: Node, i: nat, j: nat)
    requires Segmented(n) && i < |n.prefixes| && j < |n.prefixes| && LongestAt(n, n.prefixes[i].name)
    requires n.prefixes[j].name <= n.prefixes[i].name && n.prefixes[j].context != NONE
    ensures Foremost(n, i, j)
  {
    var (name, q) := (n.prefixes[i].name, n.prefixes[j]);
    assert n.prefixes[j] == Entry(q.name, q.context) && HasRule(n, q.name, q.context);
    assert Next(n, name).None?;
  }

  // A rule of a branch can only be outdone below that branch: the node's own prefixes are too short.
  lemma LongestBelow(n: Node, k: nat, rest: Bytes)
    requires Segmented(n) && k < |n.branches| && LongestAt(n, n.branches[k].name + [DOT] + rest)
    ensures LongestAt(n.branches[k].node, rest)
  {
    hide HasRule, Walked, Local, Here, ChosenHere;
    var (name, child) := (n.branches[k].name, n.branches[k].node);
    var whole := name + [DOT] + rest;
    assert name + [DOT] <= whole && whole[|name| + 1..] == rest;
    NextIs(n, k, whole);
    LocalChoice(n, whole, NONE);
    if ChosenHere(n, whole).Some? {
      LocalIsShort(n, ChosenHere(n, whole).value, Here(n, whole, NONE));
      ShortPrefix(ChosenHere(n, whole).value, whole);
    }
    forall q, c | HasRule(child, q, c) && q <= rest
      ensures Chosen(child, rest).Some? && |q| <= |Chosen(child, rest).value|
    {
      var long := name + [DOT] + q;
      assert long[|name| + 1..] == q && name + [DOT] <= long;
      BelowIsRule(n, k, long, c);
      Prepended(name + [DOT], q, rest);
    }
  }

  lemma BelowIsRule(n: Node, k: nat, p: Bytes, c: nat)
    requires k < |n.branches| && Below(n, k, p, c)
    ensures HasRule(n, p, c)
  {
  }

  lemma {:induction false} LongestIsUnhidden(n: Node)
    requires Segmented(n) && forall rest :: LongestAt(n, rest)
    ensures Unhidden(n)
    decreases n
  {
    hide LongestAt, Foremost, Walked;
    forall i, j | 0 <= i < |n.prefixes| && 0 <= j < |n.prefixes|
                  && n.prefixes[j].name <= n.prefixes[i].name && n.prefixes[j].context != NONE
      ensures Foremost(n, i, j)
    {
      LongestIsForemost(n, i, j);
    }
    forall k | 0 <= k < |n.branches| ensures Unhidden(n.branches[k].node) {
      forall rest ensures LongestAt(n.branches[k].node, rest) { LongestBelow(n, k, rest); }
      LongestIsUnhidden(n.branches[k].node);
    }
  }

  // In a segmented trie the longest rule decides about all names exactly when, within each node, no
  // prefix hides a rule from a name that is written there.
  lemma UnhiddenExactly(n: Node)
    requires Segmented(n)
    ensures (forall rest :: LongestAt(n, rest)) <==> Unhidden(n)
  {
    hide Segmented, Unhidden, LongestAt;
    if Unhidden(n) {
      forall rest ensures LongestAt(n, rest) { UnhiddenIsLongest(n, rest); }
    }
    if forall rest :: LongestAt(n, rest) { LongestIsUnhidden(n); }
  }

  // ---- Tidy tries ----

  lemma TidyForemost(n: Node, i: nat, j: nat)
    requires Tidy(n) && i < |n.prefixes| && j < |n.prefixes| && n.prefixes[j].name <= n.prefixes[i].name
    ensures Foremost(n, i, j)
  {
  }

  // A name of one segment does not go on to a branch.
  lemma TidyKept(n: Node, i: nat)
    requires Tidy(n) && i < |n.exact|
    ensures Kept(n, n.exact[i].name, n.exact[i].context)
  {
    var e := n.exact[i];
    assert n.exact[i] == Entry(e.name, e.context);
    ByNameFinds(n.exact, e.name, e.context);
  }

  // In a tidy trie all three conditions hold: there the most specific entry or rule decides.
  lemma {:induction false} TidyIsRegular(n: Node)
    requires Tidy(n)
    ensures Segmented(n) && Unhidden(n) && Open(n)
    decreases n
  {
    hide Foremost, Kept, Walked, AllKept;
    forall j | 0 <= j < |n.branches|
      ensures Walked(n, j) && Segmented(n.branches[j].node) && Unhidden(n.branches[j].node)
              && Open(n.branches[j].node)
    {
      TidyWalked(n, j);
      TidyIsRegular(n.branches[j].node);
    }
    forall i, j | 0 <= i < |n.prefixes| && 0 <= j < |n.prefixes| && n.prefixes[j].name <= n.prefixes[i].name
      ensures Foremost(n, i, j)
    {
      TidyForemost(n, i, j);
    }
    forall i | 0 <= i < |n.exact| ensures Kept(n, n.exact[i].name, n.exact[i].context) { TidyKept(n, i); }
  }

  lemma TidyWalked(n: Node, j: nat)
    requires Tidy(n) && j < |n.branches|
    ensures Walked(n, j)
  {
    BranchOfAt(n.branches, j);
  }

  // A prefix that is written before a longer one hides it.
  lemma EarlierPrefixHides(a: byte, b: byte)
    requires a != DOT && b != DOT
    ensures var n := Node(NONE, [Entry([a], 1), Entry([a, b], 2)], [], []);
            && HasRule(n, [a, b], 2) && Resolve(n, [a, b], NONE) == 1
            && !LongestAt(n, [a, b]) && Segmented(n) && !Unhidden(n)
  {
    var n := Node(NONE, [Entry([a], 1), Entry([a, b], 2)], [], []);
    assert n.prefixes[1] == Entry([a, b], 2);
    assert HasRule(n, [a, b], 2);
    assert !Foremost(n, 1, 1);
  }
}
