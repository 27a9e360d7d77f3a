// Which directory entries one declared secret path owns.
module SecretNames {
  import opened Common

  // A directory entry: the names of the directories above it and its own name.
  datatype Entry = Entry(parent: seq<string>, name: string)

  // The three entries an installation of one path may touch.
  datatype Names = Names(destination: Entry, staging: Entry, backup: Entry)

  const RESERVED: string := ".liskov-secret-"
  const MAX_PATH_BYTES: nat := 4096

  // The pieces between slashes, in order; there is always at least one.
  function Pieces(path: string): (r: seq<string>)
    ensures |r| >= 1
  {
    if path == "" then [""]
    else
      var rest := Pieces(path[1..]);
      if path[0] == '/' then [""] + rest else [[path[0]] + rest[0]] + rest[1..]
  }

  // Repeated slashes and single dots name no component.
  function Components(pieces: seq<string>): seq<string> {
    if pieces == [] then []
    else
      var rest := Components(pieces[1..]);
      if pieces[0] == "" || pieces[0] == "." then rest else [pieces[0]] + rest
  }

  predicate PlainComponent(c: string) { c != ".." && '\0' !in c }

  // The entry a declared path stands for, if the path is acceptable.
  function Resolve(path: string): Option<Entry> {
    if path == "" || path[0] != '/' || path[|path| - 1] == '/' || |path| > MAX_PATH_BYTES then None
    else
      var parts := Components(Pieces(path));
      if parts == [] || exists i | 0 <= i < |parts| :: !PlainComponent(parts[i]) then None
      else
        var name := parts[|parts| - 1];
        if RESERVED <= name then None else Some(Entry(parts[..|parts| - 1], name))
  }

  // Staging and backup lie beside the destination, under the digest of the path as written.
  function NamesOf(identity: string -> string, path: string): Option<Names> {
    match Resolve(path)
    case None => None
    case Some(d) =>
      Some(Names(d, Entry(d.parent, RESERVED + identity(path) + ".pending"),
                 Entry(d.parent, RESERVED + identity(path) + ".previous")))
  }

  // No staging or backup entry of the group coincides with another entry of the group.
  // Destinations may coincide.
  ghost predicate Separate(group: seq<Option<Names>>) {
    forall i, j | 0 <= i < |group| && 0 <= j < |group| && group[i].Some? && group[j].Some? ::
      && group[i].value.staging != group[j].value.backup
      && group[i].value.staging != group[j].value.destination
      && group[i].value.backup != group[j].value.destination
      && (i != j ==> group[i].value.staging != group[j].value.staging)
      && (i != j ==> group[i].value.backup != group[j].value.backup)
  }

  ghost predicate DistinctDestinations(group: seq<Option<Names>>) {
    forall i, j | 0 <= i < j < |group| && group[i].Some? && group[j].Some? ::
      group[i].value.destination != group[j].value.destination
  }

  function GroupOf(identity: string -> string, paths: seq<string>): (g: seq<Option<Names>>)
    ensures |g| == |paths| && forall i | 0 <= i < |g| :: g[i] == NamesOf(identity, paths[i])
  {
    if paths == [] then []
    else GroupOf(identity, paths[..|paths| - 1]) + [NamesOf(identity, paths[|paths| - 1])]
  }

  lemma ReservedName(a: string, b: string, suffix: string)
    ensures RESERVED <= RESERVED + a + suffix
    ensures RESERVED + a + suffix == RESERVED + b + suffix ==> a == b
  {
    var (s, t) := (RESERVED + a + suffix, RESERVED + b + suffix);
    assert s[|RESERVED|..|s| - |suffix|] == a;
    assert t[|RESERVED|..|t| - |suffix|] == b;
  }

  lemma SuffixesDiffer(a: string, b: string)
    ensures RESERVED + a + ".pending" != RESERVED + b + ".previous"
  {
    var (s, t) := (RESERVED + a + ".pending", RESERVED + b + ".previous");
    assert s[|s| - 1] == 'g' && t[|t| - 1] == 's';
  }

  lemma ResolvedPlain(path: string)
    ensures Resolve(path).Some? ==> !(RESERVED <= Resolve(path).value.name)
  {
  }

  lemma NamesDiffer(identity: string -> string, p: string, q: string)
    requires NamesOf(identity, p).Some? && NamesOf(identity, q).Some?
    ensures var (m, n) := (NamesOf(identity, p).value, NamesOf(identity, q).value);
            && m.staging != n.backup && m.staging != n.destination && m.backup != n.destination
            && (identity(p) != identity(q) ==> m.staging != n.staging && m.backup != n.backup)
  {
    hide Resolve;
    var (a, b) := (identity(p), identity(q));
    ResolvedPlain(q);
    SuffixesDiffer(a, b);
    ReservedName(a, b, ".pending");
    ReservedName(a, b, ".previous");
  }

  // Paths with different digests never share a staging or backup entry, whatever they are.
  lemma DistinctDigestsAreSeparate(identity: string -> string, paths: seq<string>)
    requires forall i, j | 0 <= i < j < |paths| :: identity(paths[i]) != identity(paths[j])
    ensures Separate(GroupOf(identity, paths))
  {
    hide NamesOf;
    var g := GroupOf(identity, paths);
    forall i, j | 0 <= i < |g| && 0 <= j < |g| && g[i].Some? && g[j].Some?
      ensures g[i].value.staging != g[j].value.backup
      ensures g[i].value.staging != g[j].value.destination
      ensures g[i].value.backup != g[j].value.destination
      ensures i != j ==> g[i].value.staging != g[j].value.staging
      ensures i != j ==> g[i].value.backup != g[j].value.backup
    {
      NamesDiffer(identity, paths[i], paths[j]);
    }
  }

  // Two accepted paths name one destination exactly when they have the same components.
  lemma SameDestination(p: string, q: string)
    requires Resolve(p).Some? && Resolve(q).Some?
    ensures Resolve(p) == Resolve(q) <==> Components(Pieces(p)) == Components(Pieces(q))
  {
    hide Components, Pieces, PlainComponent;
    var (a, b) := (Components(Pieces(p)), Components(Pieces(q)));
    assert a == a[..|a| - 1] + [a[|a| - 1]] && b == b[..|b| - 1] + [b[|b| - 1]];
  }

  // One more slash in front is another spelling of the same path.
  lemma ExtraSlash(path: string)
    requires Resolve(path).Some? && |path| < MAX_PATH_BYTES
    ensures Resolve("/" + path) == Resolve(path)
  {
    hide PlainComponent;
    var longer := "/" + path;
    assert longer[1..] == path;
    assert Pieces(longer) == [""] + Pieces(path);
    assert Pieces(longer)[1..] == Pieces(path);
  }

  // Two spellings of one destination keep separate staging and backup entries.
  lemma SpellingsShareDestination(identity: string -> string, path: string)
    requires Resolve(path).Some? && |path| < MAX_PATH_BYTES && identity(path) != identity("/" + path)
    ensures var g := GroupOf(identity, [path, "/" + path]);
            && g[0].Some? && g[1].Some? && g[0].value.destination == g[1].value.destination
            && Separate(g) && !DistinctDestinations(g)
  {
    hide Resolve;
    var paths := [path, "/" + path];
    ExtraSlash(path);
    DistinctDigestsAreSeparate(identity, paths);
    assert paths[0] == path && paths[1] == "/" + path;
  }
}
