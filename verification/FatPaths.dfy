/** Path resolution: one directory lookup after another. */
module FatPaths {
  import opened Bytes
  import opened Wrappers
  import opened FatVolume
  import opened FatDirectory
  import opened FatNames

  const SLASH: Byte := 0x2F

  /** sizeof tmp_path in cluster_for_path. */
  const PATH_SIZE := 64

  /** A directory entry in memory, which lookups fill in. */
  class EntryBuffer {
    const name: array<Byte>

    var attributes: Byte
    var creationTenths: Byte
    var creationTime: nat
    var creationDate: nat
    var accessDate: nat
    var writeTime: nat
    var writeDate: nat
    var startingCluster: nat
    var fileSize: nat

    constructor ()
      ensures name.Length == NAME_SIZE && fresh(name)
    {
      name := new Byte[NAME_SIZE];
    }

    ghost function Data(): DirEntry
      reads this, name
    {
      DirEntry(name[..], attributes, creationTenths, creationTime, creationDate, accessDate,
               writeTime, writeDate, startingCluster, fileSize)
    }

    /** The assignments of _callback_find_entry. */
    method Fill(e: DirEntry)
      modifies this
      ensures Data() == e.(name := old(name[..]))
    {
      fileSize := e.fileSize;
      attributes := e.attributes;
      creationDate := e.creationDate;
      creationTime := e.creationTime;
      creationTenths := e.creationTenths;
      writeTime := e.writeTime;
      writeDate := e.writeDate;
      accessDate := e.accessDate;
      startingCluster := e.startingCluster;
    }
  }

  /** Names that are not looked up: they read as empty. */
  predicate Blank(name: seq<Byte>)
    requires |name| == NAME_SIZE
  {
    name[0] == 0 || name[0] == SPACE
  }

  datatype Located = Located(cluster: nat, entry: DirEntry)

  /** One lookup: the last entry of the directory with the name, or cluster 0. */
  ghost function Lookup(d: Disk, parent: nat, e: DirEntry): (r: Located)
    requires |e.name| == NAME_SIZE && (!Blank(e.name) ==> IsDirectory(d, parent))
    ensures r.entry.name == e.name
  {
    if Blank(e.name) then Located(0, e)
    else
      match LastMatch(Visited(d, parent), e.name)
      case Some(m) => Located(m.startingCluster, m)
      case None => Located(0, e)
  }

  /** A lookup leads to the last entry m that has the name. Without one (m is -1 then), or
    * when the name begins with a zero or a space, it leads to cluster 0.
    */
  lemma LookupIsLastMatch(d: Disk, parent: nat, e: DirEntry, m: int)
    requires |e.name| == 11 && IsDirectory(d, parent) && -1 <= m < |Visited(d, parent)|
    requires m >= 0 ==> Visited(d, parent)[m].name == e.name
    requires forall j | m < j < |Visited(d, parent)| :: Visited(d, parent)[j].name != e.name
    ensures Lookup(d, parent, e) ==
            if m < 0 || e.name[0] == 0x00 || e.name[0] == 0x20 then Located(0, e)
            else Located(Visited(d, parent)[m].startingCluster, Visited(d, parent)[m])
  {
    hide Visited, IsDirectory;
  }

  /** fat_get_cluster_for_entry */
  method GetClusterForEntry(d: Disk, parent: nat, entry: EntryBuffer) returns (cluster: nat)
    requires entry.name.Length == NAME_SIZE
    requires !Blank(entry.name[..]) ==> IsDirectory(d, parent)
    modifies entry
    ensures Located(cluster, entry.Data()) == Lookup(d, parent, old(entry.Data()))
  {
    if entry.name[0] == 0 || entry.name[0] == SPACE {
      return 0;
    }
    var e := DirEntry(entry.name[..], entry.attributes, entry.creationTenths, entry.creationTime,
                      entry.creationDate, entry.accessDate, entry.writeTime, entry.writeDate,
                      entry.startingCluster, entry.fileSize);
    var arg := IterateDir(d, parent, FindEntry, Search(e, false));
    SearchFindsLastMatch(Visited(d, parent), Search(e, false));
    if arg.found {
      entry.Fill(arg.entry);
      cluster := entry.startingCluster;
    } else {
      cluster := 0;
    }
  }

  // ------------------------------------------------------------------- tokens

  /** The number of slashes s begins with. */
  function Slashes(s: seq<Byte>): (n: nat)
    ensures n <= |s| && (n < |s| ==> s[n] != SLASH)
  {
    if s == [] || s[0] != SLASH then 0 else 1 + Slashes(s[1..])
  }

  /** The components of a path: its longest stretches without a slash. */
  function Tokens(path: seq<Byte>): seq<seq<Byte>>
    decreases |path|
  {
    var rest := path[Slashes(path)..];
    if rest == [] then []
    else
      var n := FatNames.Find(rest, SLASH);
      [rest[..n]] + Tokens(rest[n..])
  }

  /** No component is empty or has a slash in it. */
  lemma {:induction false} TokensAreComponents(path: seq<Byte>)
    ensures forall t | t in Tokens(path) :: t != [] && SLASH !in t
    decreases |path|
  {
    var rest := path[Slashes(path)..];
    if rest != [] {
      var n := FatNames.Find(rest, SLASH);
      var (first, others) := (rest[..n], Tokens(rest[n..]));
      assert rest[0] != SLASH && Tokens(path) == [first] + others;
      TokensAreComponents(rest[n..]);
      hide *;
      assert first != [] && SLASH !in first;
      assert forall t | t in [first] + others :: t == first || t in others;
    }
  }

  /** A slash before a path changes nothing. */
  lemma SlashIsSkipped(path: seq<Byte>)
    ensures Tokens([0x2F] + path) == Tokens(path)
  {
    assert ([SLASH] + path)[1..] == path;
    assert ([SLASH] + path)[1 + Slashes(path)..] == path[Slashes(path)..];
  }

  /** A stretch without slashes that is followed by one, or by nothing, is a component. */
  lemma StretchIsComponent(t: seq<Byte>, rest: seq<Byte>)
    requires t != [] && 0x2F !in t && (rest != [] ==> rest[0] == 0x2F)
    ensures Tokens(t + rest) == [t] + Tokens(rest)
  {
    assert (t + rest)[0] == t[0] && (t + rest)[0..] == t + rest;
    assert (t + rest)[..|t|] == t && (t + rest)[|t|..] == rest;
    FirstIsFound(t + rest, SLASH, |t|);
  }

  /** A path from its components, each behind a slash. */
  function Joined(ts: seq<seq<Byte>>): seq<Byte> {
    if ts == [] then [] else [0x2F] + ts[0] + Joined(ts[1..])
  }

  /** Splitting a joined path gives the components back, exactly when none of them is empty
    * or has a slash in it.
    */
  lemma SplitUndoesJoinIff(ts: seq<seq<Byte>>)
    ensures Tokens(Joined(ts)) == ts <==> forall i | 0 <= i < |ts| :: ts[i] != [] && 0x2F !in ts[i]
  {
    hide Tokens, Joined;
    if Tokens(Joined(ts)) == ts {
      TokensAreComponents(Joined(ts));
      forall i | 0 <= i < |ts| ensures ts[i] != [] && 0x2F !in ts[i] {
        assert ts[i] in ts;
      }
    }
    if forall i | 0 <= i < |ts| :: ts[i] != [] && 0x2F !in ts[i] {
      SplitUndoesJoin(ts);
    }
  }

  lemma JoinedParts(ts: seq<seq<Byte>>)
    requires ts != []
    ensures var rest := Joined(ts[1..]);
      Joined(ts) == [0x2F] + (ts[0] + rest) && (rest != [] ==> rest[0] == 0x2F)
  {}

  lemma {:induction false} SplitUndoesJoin(ts: seq<seq<Byte>>)
    requires forall i | 0 <= i < |ts| :: ts[i] != [] && 0x2F !in ts[i]
    ensures Tokens(Joined(ts)) == ts
    decreases |ts|
  {
    if ts != [] {
      hide Tokens;
      SplitUndoesJoin(ts[1..]);
      JoinedParts(ts);
      SlashIsSkipped(ts[0] + Joined(ts[1..]));
      StretchIsComponent(ts[0], Joined(ts[1..]));
      assert ts == [ts[0]] + ts[1..];
    }
  }

  method SkipSlashes(path: seq<Byte>, from: nat) returns (start: nat)
    requires from <= |path|
    ensures start == from + Slashes(path[from..])
  {
    start := from;
    while start < |path| && path[start] == SLASH
      invariant from <= start <= |path|
      invariant Slashes(path[from..]) == start - from + Slashes(path[start..])
    {
      assert path[start..][1..] == path[start + 1..];
      start := start + 1;
    }
  }

  method SkipToken(path: seq<Byte>, start: nat) returns (end: nat)
    requires start <= |path|
    ensures end == start + FatNames.Find(path[start..], SLASH)
  {
    end := start;
    while end < |path| && path[end] != SLASH
      invariant start <= end <= |path|
      invariant FatNames.Find(path[start..], SLASH) == end - start + FatNames.Find(path[end..], SLASH)
    {
      assert path[end..][1..] == path[end + 1..];
      end := end + 1;
    }
  }

  /** strtok with "/", from a position on: the next token and where it ends. */
  method NextToken(path: seq<Byte>, from: nat) returns (token: seq<Byte>, end: nat)
    requires from <= |path|
    ensures token == [] <==> Tokens(path[from..]) == []
    ensures token != [] ==> from < end <= |path| && Tokens(path[from..]) == [token] + Tokens(path[end..])
  {
    hide Slashes, Tokens, FatNames.Find;
    var start := SkipSlashes(path, from);
    end := SkipToken(path, start);
    token := path[start..end];
    TailOfTail(path, from, start);
    TokensFrom(path[from..], path[start..]);
    TailOfTail(path, start, end);
  }

  /** The tokens of a path in terms of what follows its first slashes. */
  lemma TokensFrom(s: seq<Byte>, rest: seq<Byte>)
    requires |s| - |rest| == Slashes(s) && rest == s[Slashes(s)..]
    ensures var n := FatNames.Find(rest, SLASH);
      && (rest == [] ==> Tokens(s) == [])
      && (rest != [] ==> n > 0 && Tokens(s) == [rest[..n]] + Tokens(rest[n..]))
  {}

  lemma TailOfTail(path: seq<Byte>, from: nat, start: nat)
    requires from <= start <= |path|
    ensures path[from..][start - from..] == path[start..]
    ensures path[from..][..start - from] == path[from..start]
  {}

  // --------------------------------------------------------------- resolution

  /** Looking up the components one after another, each in the cluster the one before
    * led to.
    */
  ghost predicate Walkable(d: Disk, cluster: nat, tokens: seq<seq<Byte>>, e: DirEntry)
    decreases |tokens|
  {
    tokens == [] || (
      && Encodable(tokens[0])
      && var asked := e.(name := Encode(tokens[0]));
      && (!Blank(asked.name) ==> IsDirectory(d, cluster))
      && var found := Lookup(d, cluster, asked);
      Walkable(d, found.cluster, tokens[1..], found.entry))
  }

  ghost function Resolve(d: Disk, cluster: nat, tokens: seq<seq<Byte>>, e: DirEntry): Located
    requires Walkable(d, cluster, tokens, e)
    decreases |tokens|
  {
    if tokens == [] then Located(cluster, e)
    else
      var found := Lookup(d, cluster, e.(name := Encode(tokens[0])));
      Resolve(d, found.cluster, tokens[1..], found.entry)
  }

  lemma OneComponent(d: Disk, cluster: nat, token: seq<Byte>, rest: seq<seq<Byte>>, e: DirEntry)
    requires Walkable(d, cluster, [token] + rest, e)
    ensures Encodable(token)
    ensures var asked := e.(name := Encode(token));
      && (!Blank(asked.name) ==> IsDirectory(d, cluster))
      && var found := Lookup(d, cluster, asked);
      && Walkable(d, found.cluster, rest, found.entry)
      && Resolve(d, cluster, [token] + rest, e) == Resolve(d, found.cluster, rest, found.entry)
  {
    assert ([token] + rest)[0] == token && ([token] + rest)[1..] == rest;
  }

  lemma NoComponent(d: Disk, cluster: nat, e: DirEntry)
    ensures Walkable(d, cluster, [], e) && Resolve(d, cluster, [], e) == Located(cluster, e)
  {}

  /** cluster_for_path */
  method ClusterForPath(d: Disk, current: nat, path: seq<Byte>, entry: EntryBuffer) returns (cluster: nat)
    requires |path| < PATH_SIZE && entry.name.Length == NAME_SIZE
    requires Walkable(d, current, Tokens(path), entry.Data())
    modifies entry, entry.name
    ensures Located(cluster, entry.Data()) == Resolve(d, current, Tokens(path), old(entry.Data()))
  {
    hide Walkable, Resolve, Lookup, Encode, Encodable, Tokens, IsDirectory, Blank;
    cluster := current;
    assert path[0..] == path;
    var token, at := NextToken(path, 0);
    ghost var from := 0;
    while token != []
      invariant from <= |path|
      invariant token == [] <==> Tokens(path[from..]) == []
      invariant token != [] ==> from < at <= |path| && Tokens(path[from..]) == [token] + Tokens(path[at..])
      invariant Walkable(d, cluster, Tokens(path[from..]), entry.Data())
      invariant Resolve(d, current, Tokens(path), old(entry.Data()))
             == Resolve(d, cluster, Tokens(path[from..]), entry.Data())
      decreases |path| - from
    {
      ghost var (before, rest) := (entry.Data(), Tokens(path[at..]));
      OneComponent(d, cluster, token, rest, before);
      SetEntryName(entry.name, token);
      assert entry.Data() == before.(name := Encode(token));
      cluster := GetClusterForEntry(d, cluster, entry);
      from := at;
      token, at := NextToken(path, at);
    }
    NoComponent(d, cluster, entry.Data());
  }

  /** A path is resolved in two parts, the second from where the first led. */
  lemma {:induction false} ResolvesInParts(d: Disk, cluster: nat, before: seq<seq<Byte>>,
                                           after: seq<seq<Byte>>, e: DirEntry)
    ensures Walkable(d, cluster, before + after, e) <==>
              && Walkable(d, cluster, before, e)
              && var r := Resolve(d, cluster, before, e); Walkable(d, r.cluster, after, r.entry)
    ensures Walkable(d, cluster, before + after, e) ==>
              var r := Resolve(d, cluster, before, e);
              Resolve(d, cluster, before + after, e) == Resolve(d, r.cluster, after, r.entry)
    decreases |before|
  {
    if before == [] {
      assert before + after == after;
    } else {
      assert (before + after)[0] == before[0] && (before + after)[1..] == before[1..] + after;
      if Encodable(before[0]) {
        var asked := e.(name := Encode(before[0]));
        if Blank(asked.name) || IsDirectory(d, cluster) {
          var found := Lookup(d, cluster, asked);
          ResolvesInParts(d, found.cluster, before[1..], after, found.entry);
        }
      }
    }
  }

  /** A component that its directory lacks does not end the resolution: the rest of
    * the path is looked up from cluster 0, the root.
    */
  lemma MissingComponentLeadsToRoot(d: Disk, cluster: nat, token: seq<Byte>, rest: seq<seq<Byte>>, e: DirEntry)
    requires Walkable(d, cluster, [token] + rest, e) && Encodable(token) && IsDirectory(d, cluster)
    requires forall x | x in Visited(d, cluster) :: x.name != Encode(token)
    ensures Walkable(d, 0, rest, e.(name := Encode(token)))
    ensures Resolve(d, cluster, [token] + rest, e) == Resolve(d, 0, rest, e.(name := Encode(token)))
  {
    OneComponent(d, cluster, token, rest, e);
    var asked := e.(name := Encode(token));
    assert Lookup(d, cluster, asked) == Located(0, asked);
  }

  // --------------------------------------------------------- directory trees

  /** A file or a directory with its children, by raw name. */
  datatype Node =
    | FileNode(name: seq<Byte>, cluster: nat, size: nat)
    | DirNode(name: seq<Byte>, cluster: nat, size: nat, kids: seq<Node>)

  ghost predicate UniqueNames(kids: seq<Node>) {
    forall i, j | 0 <= i < j < |kids| :: kids[i].name != kids[j].name
  }

  /** An entry that is no file and no directory: a volume label, or a part of a long
    * name.
    */
  predicate IsLabel(e: DirEntry) {
    e.attributes / 8 % 2 == 1
  }

  /** The entries of a directory but for labels, "." and "..". */
  function Proper(es: seq<DirEntry>): seq<DirEntry>
  {
    if es == [] then []
    else Proper(es[..|es| - 1]) + (if IsProper(es[|es| - 1]) then [es[|es| - 1]] else [])
  }

  predicate IsProper(e: DirEntry) {
    !IsLabel(e) && !(e.name != [] && e.name[0] == DOT)
  }

  ghost function ProperEntries(d: Disk, cluster: nat): seq<DirEntry>
    requires IsDirectory(d, cluster)
  {
    Proper(Visited(d, cluster))
  }

  /** The volume holds the tree: the children of a directory are its visited entries
    * that are files or directories, with names that can be looked up, and unique.
    * Labels have cluster 0, and names that no child has.
    */
  ghost predicate OnDisk(d: Disk, n: Node)
    decreases n
  {
    n.DirNode? ==>
      && IsDirectory(d, n.cluster)
      && var es := ProperEntries(d, n.cluster);
      && |es| == |n.kids|
      && UniqueNames(n.kids)
      && (forall i | 0 <= i < |n.kids| ::
            && |n.kids[i].name| == NAME_SIZE && !Blank(n.kids[i].name) && n.kids[i].name[0] != DOT
            && es[i].name == n.kids[i].name
            && es[i].startingCluster == n.kids[i].cluster
            && es[i].fileSize == n.kids[i].size)
      && LabelsApart(Visited(d, n.cluster), n.kids)
      && (forall i | 0 <= i < |n.kids| :: OnDisk(d, n.kids[i]))
  }

  ghost predicate LabelsApart(es: seq<DirEntry>, kids: seq<Node>) {
    forall e | e in es && IsLabel(e) ::
      e.startingCluster == 0 && forall i | 0 <= i < |kids| :: e.name != kids[i].name
  }

  /** The child with a name. */
  function Child(kids: seq<Node>, name: seq<Byte>): (n: Option<Node>)
    ensures n.Some? ==> n.value in kids && n.value.name == name
    ensures n.None? ==> forall k | k in kids :: k.name != name
  {
    if kids == [] then None
    else if kids[0].name == name then Some(kids[0])
    else Child(kids[1..], name)
  }

  /** The node a path names. */
  function NodeAt(n: Node, tokens: seq<seq<Byte>>): Option<Node>
    requires forall t | t in tokens :: Encodable(t)
    decreases |tokens|
  {
    if tokens == [] then Some(n)
    else if n.FileNode? then None
    else
      match Child(n.kids, Encode(tokens[0]))
      case None => None
      case Some(kid) => NodeAt(kid, tokens[1..])
  }

  /** A name that no label has and that does not begin with a dot is matched among the
    * proper entries.
    */
  lemma {:induction false} MatchIsProper(es: seq<DirEntry>, name: seq<Byte>)
    requires name != [] && name[0] != DOT
    requires forall e | e in es && IsLabel(e) :: e.name != name
    ensures LastMatch(es, name) == LastMatch(Proper(es), name)
    decreases |es|
  {
    if es != [] {
      var (front, last) := (es[..|es| - 1], es[|es| - 1]);
      assert es == front + [last];
      assert last in es && forall e | e in front :: e in es;
      assert !IsProper(last) ==> last.name != name;
      MatchIsProper(front, name);
      assert Proper(es) == if IsProper(last) then Proper(front) + [last] else Proper(front);
      MatchOfSnoc(front, last, name);
      MatchOfSnoc(Proper(front), last, name);
      hide LastMatch, Proper, IsProper;
    }
  }

  /** What else has such a name is a label. */
  lemma {:induction false} ProperHasTheRest(es: seq<DirEntry>, e: DirEntry)
    requires e in es && IsProper(e)
    ensures e in Proper(es)
    decreases |es|
  {
    if e != es[|es| - 1] {
      assert es == es[..|es| - 1] + [es[|es| - 1]];
      ProperHasTheRest(es[..|es| - 1], e);
    }
  }

  lemma MatchOfSnoc(front: seq<DirEntry>, last: DirEntry, name: seq<Byte>)
    ensures LastMatch(front + [last], name) == if last.name == name then Some(last) else LastMatch(front, name)
  {
    var es := front + [last];
    assert es[|es| - 1] == last && es[..|es| - 1] == front;
  }

  /** No encoded name begins with a dot. */
  lemma EncodedNameHasNoDot(token: seq<Byte>)
    requires Encodable(token)
    ensures Encode(token)[0] != DOT
  {
    var b := Base(token);
    assert Pad(b, 11)[..8][0] == if b == [] then SPACE else b[0];
    assert b != [] ==> b[0] in b;
  }

  /** Where the names are unique, the last entry with a child's name is the child's. */
  lemma MatchIsChild(es: seq<DirEntry>, kids: seq<Node>, name: seq<Byte>)
    requires |es| == |kids| && UniqueNames(kids)
    requires forall i | 0 <= i < |kids| :: es[i].name == kids[i].name
    ensures Child(kids, name).None? <==> LastMatch(es, name).None?
    ensures Child(kids, name).Some? ==>
              exists i | 0 <= i < |kids| ::
                kids[i] == Child(kids, name).value && es[i] == LastMatch(es, name).value
  {
    var (c, m) := (Child(kids, name), LastMatch(es, name));
    if c.Some? {
      var i :| 0 <= i < |kids| && kids[i] == c.value;
      assert es[i] in es;
      var j :| 0 <= j < |es| && es[j] == m.value;
      assert kids[j].name == kids[i].name;
    }
    if m.Some? {
      var j :| 0 <= j < |es| && es[j] == m.value;
      assert kids[j] in kids;
    }
  }

  /** One lookup in a directory of the tree finds the child, or cluster 0. */
  lemma LookupFindsChild(d: Disk, n: Node, token: seq<Byte>, e: DirEntry)
    requires OnDisk(d, n) && n.DirNode? && Encodable(token) && |e.name| == NAME_SIZE
    requires e.name == Encode(token)
    ensures var r := Lookup(d, n.cluster, e);
      match Child(n.kids, e.name)
      case None => r.cluster == 0
      case Some(kid) => r.cluster == kid.cluster && r.entry.fileSize == kid.size && OnDisk(d, kid)
  {
    var (es, found) := (Visited(d, n.cluster), Child(n.kids, e.name));
    EncodedNameHasNoDot(token);
    if found.Some? {
      MatchIsProper(es, e.name);
      MatchIsChild(ProperEntries(d, n.cluster), n.kids, e.name);
    } else if !Blank(e.name) && LastMatch(es, e.name).Some? {
      NoChildMeansLabel(d, n, LastMatch(es, e.name).value);
    }
  }

  lemma NoChildMeansLabel(d: Disk, n: Node, m: DirEntry)
    requires OnDisk(d, n) && n.DirNode? && m in Visited(d, n.cluster)
    requires Child(n.kids, m.name).None? && m.name != [] && m.name[0] != DOT
    ensures m.startingCluster == 0
  {
    hide Visited, IsDirectory;
    if IsProper(m) {
      ProperHasTheRest(Visited(d, n.cluster), m);
    }
  }

  /** A path that names a node of the tree resolves to that node's cluster, and the
    * entry then has that node's size.
    */
  lemma {:induction false} PathLeadsToItsNode(d: Disk, n: Node, tokens: seq<seq<Byte>>, e: DirEntry)
    requires OnDisk(d, n) && |e.name| == NAME_SIZE
    requires forall t | t in tokens :: Encodable(t)
    requires NodeAt(n, tokens).Some?
    ensures Walkable(d, n.cluster, tokens, e)
    ensures var (m, r) := (NodeAt(n, tokens).value, Resolve(d, n.cluster, tokens, e));
      r.cluster == m.cluster && (tokens != [] ==> r.entry.fileSize == m.size)
    decreases |tokens|
  {
    if tokens != [] {
      var asked := e.(name := Encode(tokens[0]));
      LookupFindsChild(d, n, tokens[0], asked);
      var kid := Child(n.kids, asked.name).value;
      var found := Lookup(d, n.cluster, asked);
      assert forall t | t in tokens[1..] :: t in tokens;
      PathLeadsToItsNode(d, kid, tokens[1..], found.entry);
    }
  }

  /** A path into a directory of the tree resolves to 0 exactly when the directory lacks
    * the last component, or the node it names has cluster 0, as an empty file has.
    */
  lemma ZeroMeansMissingOrEmpty(d: Disk, n: Node, tokens: seq<seq<Byte>>, last: seq<Byte>, e: DirEntry)
    requires OnDisk(d, n) && |e.name| == NAME_SIZE
    requires Encodable(last) && forall t | t in tokens :: Encodable(t)
    requires var m := NodeAt(n, tokens); m.Some? && m.value.DirNode?
    ensures Walkable(d, n.cluster, tokens + [last], e)
    ensures var kid := Child(NodeAt(n, tokens).value.kids, Encode(last));
      Resolve(d, n.cluster, tokens + [last], e).cluster == 0 <==> kid.None? || kid.value.cluster == 0
  {
    PathLeadsToItsNode(d, n, tokens, e);
    NodeIsOnDisk(d, n, tokens);
    var r := Resolve(d, n.cluster, tokens, e);
    LookupFindsChild(d, NodeAt(n, tokens).value, last, r.entry.(name := Encode(last)));
    OneStepWalk(d, r.cluster, last, r.entry);
    ResolvesInParts(d, n.cluster, tokens, [last], e);
  }

  lemma OneStepWalk(d: Disk, cluster: nat, token: seq<Byte>, e: DirEntry)
    requires Encodable(token) && IsDirectory(d, cluster)
    ensures Walkable(d, cluster, [token], e)
    ensures Resolve(d, cluster, [token], e).cluster == Lookup(d, cluster, e.(name := Encode(token))).cluster
  {
    var found := Lookup(d, cluster, e.(name := Encode(token)));
    assert [token][1..] == [];
    NoComponent(d, found.cluster, found.entry);
  }

  lemma {:induction false} NodeIsOnDisk(d: Disk, n: Node, tokens: seq<seq<Byte>>)
    requires OnDisk(d, n) && (forall t | t in tokens :: Encodable(t)) && NodeAt(n, tokens).Some?
    ensures OnDisk(d, NodeAt(n, tokens).value)
    decreases |tokens|
  {
    if tokens != [] {
      var kid := Child(n.kids, Encode(tokens[0])).value;
      assert forall t | t in tokens[1..] :: t in tokens;
      NodeIsOnDisk(d, kid, tokens[1..]);
    }
  }

  // ------------------------------------------------------ a tree with a label

  /** An entry of 32 bytes whose name is one letter. */
  function EntryBytes(letter: Byte, attributes: Byte, cluster: Byte, size: Byte): (bytes: Disk)
    ensures |bytes| == ENTRY_SIZE && bytes[0] == letter
  {
    seq(32, i => if i == 0 then letter else if i < 11 then SPACE else if i == 11 then attributes
                 else if i == 26 then cluster else if i == 28 then size else 0)
  }

  function Zeros(n: nat): (bytes: Disk)
    ensures |bytes| == n && forall i | 0 <= i < n :: bytes[i] == 0
  {
    seq(n, _ => 0)
  }

  /** A root region with a label and an empty file. */
  function RootWithLabel(): (root: Disk)
    ensures |root| == 512 && root[64] == 0
  {
    EntryBytes(0x4C, 0x08, 0, 0) + (EntryBytes(0x46, 0x20, 0, 0) + Zeros(448))
  }

  /** The smallest volume with that root. */
  function LabelledVolume(): (d: Disk)
    ensures |d| == 2048
  {
    var head: Disk := seq(1024, i => if i == 12 then 2 else if i in {13, 14, 16, 22} then 1
                                     else if i == 17 then 16 else if i == 19 then 4 else 0);
    head + (RootWithLabel() + Zeros(512))
  }

  function OneLetter(letter: Byte): (name: seq<Byte>)
    ensures |name| == NAME_SIZE && name[0] == letter
  {
    seq(11, i => if i == 0 then letter else SPACE)
  }

  function LabelledRoot(): Node {
    DirNode([], 0, 0, [FileNode(OneLetter(0x46), 0, 0)])
  }

  lemma LabelledVolumeIsMounted()
    ensures Mounted(LabelledVolume())
    ensures var (d, bs) := (LabelledVolume(), ReadBootSector(LabelledVolume()));
      && bs.rootEntryCount == 16
      && RootData(d) == RootWithLabel()
  {
    hide RootWithLabel;
    var bs := ReadBootSector(LabelledVolume());
    assert LayoutOf(bs).rootStart == 2 && LayoutOf(bs).dataStart == 3 && bs.bytesPerSector == 512;
  }

  lemma ReadLabelledEntry(root: Disk, before: Disk, after: Disk,
                          letter: Byte, attributes: Byte, cluster: Byte, size: Byte)
    requires root == before + (EntryBytes(letter, attributes, cluster, size) + after)
    ensures var e := ReadEntry(root, |before|);
      && e.name == OneLetter(letter) && e.attributes == attributes
      && e.startingCluster == cluster as int && e.fileSize == size as int
    ensures root[|before|] == letter
  {
    var (bytes, n) := (EntryBytes(letter, attributes, cluster, size), |before|);
    assert forall k | 0 <= k < ENTRY_SIZE :: root[n + k] == bytes[k];
    assert root[n + 11] == bytes[11] && root[n + 26] == bytes[26] && root[n + 27] == bytes[27];
    assert root[n + 28] == bytes[28] && root[n + 29] == root[n + 30] == root[n + 31] == 0;
    assert root[n..n + 11] == OneLetter(letter);
  }

  lemma TwoLiveEntries(bytes: Disk, n: nat)
    requires n * ENTRY_SIZE <= |bytes| && n > 2
    requires !Stops(bytes[0]) && !Stops(bytes[32]) && Stops(bytes[64])
    ensures LiveEntries(bytes, n) == [ReadEntry(bytes, 0), ReadEntry(bytes, 32)]
  {
    hide ReadEntry, Stops;
    var es := LiveEntries(bytes, n);
    assert 2 * ENTRY_SIZE == 64 && 1 * ENTRY_SIZE == 32 && 0 * ENTRY_SIZE == 0;
    assert |es| == 2;
  }

  /** A root of a label and one more entry holds the tree of that one. */
  lemma LabelAndFileAreOnDisk(d: Disk, first: DirEntry, second: DirEntry)
    requires Mounted(d) && Visited(d, 0) == [first, second]
    requires IsLabel(first) && first.startingCluster == 0 && first.name != second.name
    requires IsProper(second) && |second.name| == NAME_SIZE && !Blank(second.name)
    ensures OnDisk(d, DirNode([], 0, 0, [FileNode(second.name, second.startingCluster, second.fileSize)]))
  {
    hide Visited, Mounted;
    var es := [first, second];
    assert es[..1] == [first] && [first][..0] == [];
    assert Proper([]) == [] && Proper([first]) == [];
    assert Proper(es) == [second];
  }

  lemma RootEntries()
    ensures var (root, e, f) := (RootWithLabel(), ReadEntry(RootWithLabel(), 0), ReadEntry(RootWithLabel(), 32));
      && root[0] == 0x4C && e.name == OneLetter(0x4C) && IsLabel(e) && e.startingCluster == 0
      && root[32] == 0x46 && f.name == OneLetter(0x46) && !IsLabel(f) && f.startingCluster == f.fileSize == 0
  {
    hide ReadEntry, EntryBytes, OneLetter, Zeros;
    var (root, a, b) := (RootWithLabel(), EntryBytes(0x4C, 0x08, 0, 0), EntryBytes(0x46, 0x20, 0, 0));
    assert root == [] + (a + (b + Zeros(448)));
    ReadLabelledEntry(root, [], b + Zeros(448), 0x4C, 0x08, 0, 0);
    ReadLabelledEntry(root, a, Zeros(448), 0x46, 0x20, 0, 0);
  }

  /** So a root with a label and an empty file is such a tree. */
  lemma LabelledTreeIsOnDisk()
    ensures OnDisk(LabelledVolume(), LabelledRoot())
  {
    LabelledVolumeIsMounted();
    RootEntries();
    hide LabelledVolume, LiveEntries, RootWithLabel, ReadEntry, Mounted, OnDisk, OneLetter, IsLabel;
    var root := RootWithLabel();
    TwoLiveEntries(root, 16);
    LabelAndFileAreOnDisk(LabelledVolume(), ReadEntry(root, 0), ReadEntry(root, 32));
  }
}
