/**
 Breadth-first resolution of a mod version's required dependencies over an arbitrary,
 possibly cyclic catalogue.
 */
module DepResolve {
  import opened Common

  datatype DepKind = Required | Optional | Incompatible | Embedded

  datatype Dep = Dep(projectId: Option<string>, versionId: Option<string>, kind: DepKind)

  const U64_LIMIT: int := 0x1_0000_0000_0000_0000

  type u64 = n: int | 0 <= n < U64_LIMIT

  datatype File = File(filename: string, primary: bool, size: u64)

  datatype Version = Version(id: string, projectId: string, dependencies: seq<Dep>, files: seq<File>)

  datatype ResolvedDep = ResolvedDep(
    kind: DepKind, projectId: string, title: string, version: Option<Version>,
    alreadySatisfied: bool, isNewDownload: bool)

  datatype Graph = Graph(root: Version, deps: seq<ResolvedDep>, totalNewBytes: u64, totalNewFiles: nat)

  datatype Error =
    | DependencyConflict(conflicting: string, requestedBy: string)
    | NoCompatibleVersion(projectId: string)
    | Fetch(reason: string)

  /** The injected fetchers; Minecraft version and loaders are fixed for one call. */
  datatype Catalogue = Catalogue(
    latest: string -> Result<Option<Version>, string>,
    byId: string -> Result<Version, string>,
    titles: seq<string> -> Result<map<string, string>, string>)

  // ---------------------------------------------------------------- the dependency graph

  /** The project an edge points at: named directly, through a pinned version, or not at all. */
  function TargetOf(d: Dep, c: Catalogue): Result<Option<string>, string> {
    if d.projectId.Some? then Ok(d.projectId)
    else if d.versionId.None? then Ok(None)
    else
      var v := c.byId(d.versionId.value);
      if v.Err? then Err(v.error) else Ok(Some(v.value.projectId))
  }

  predicate PointsAt(d: Dep, c: Catalogue, p: string) {
    TargetOf(d, c) == Ok(Some(p))
  }

  /** `v` has a Required edge to the project `p`, which is not installed. */
  ghost predicate Needs(v: Version, p: string, c: Catalogue, installed: map<string, string>) {
    && p !in installed
    && exists e ::
         0 <= e < |v.dependencies| && v.dependencies[e].kind.Required? && PointsAt(v.dependencies[e], c, p)
  }

  predicate HasLatest(c: Catalogue, p: string, v: Version) {
    c.latest(p) == Ok(Some(v))
  }

  /** A walk of exactly `n` Required edges from the root to `p` through projects that are not installed. */
  ghost predicate WalkTo(root: Version, p: string, n: nat, c: Catalogue, installed: map<string, string>)
    decreases n
  {
    if n == 0 then false
    else if n == 1 then Needs(root, p, c, installed)
    else exists q, v :: WalkTo(root, q, n - 1, c, installed) && HasLatest(c, q, v) && Needs(v, p, c, installed)
  }

  ghost predicate Reachable(root: Version, p: string, c: Catalogue, installed: map<string, string>) {
    exists n: nat :: WalkTo(root, p, n, c, installed)
  }

  /** `p` is at most as far from the root as `q`: every walk to `q` has one to `p` that is no longer. */
  ghost predicate NoFarther(root: Version, p: string, q: string, c: Catalogue, installed: map<string, string>) {
    forall n: nat :: WalkTo(root, q, n, c, installed) ==> exists m: nat :: m <= n && WalkTo(root, p, m, c, installed)
  }

  /** A version the resolver may expand: every edge resolves and no Incompatible edge hits an installed project. */
  ghost predicate Acceptable(v: Version, c: Catalogue, installed: map<string, string>) {
    forall e :: 0 <= e < |v.dependencies| ==> EdgeOk(v.dependencies[e], c, installed)
  }

  predicate EdgeOk(d: Dep, c: Catalogue, installed: map<string, string>) {
    var t := TargetOf(d, c);
    t.Ok? && (d.kind.Incompatible? && t.value.Some? ==> t.value.value !in installed)
  }

  /** Resolution can succeed: the root and every reachable project have an acceptable version. */
  ghost predicate Resolvable(root: Version, c: Catalogue, installed: map<string, string>) {
    && Acceptable(root, c, installed)
    && forall p :: Reachable(root, p, c, installed) ==> exists v :: HasLatest(c, p, v) && Acceptable(v, c, installed)
  }

  /** The catalogue is finite: Required edges of the root and of every latest version stay inside `universe`. */
  ghost predicate Closed(root: Version, c: Catalogue, universe: set<string>) {
    && (forall e, p :: 0 <= e < |root.dependencies| && PointsAt(root.dependencies[e], c, p) ==> p in universe)
    && (forall q, v, e, p ::
          HasLatest(c, q, v) && 0 <= e < |v.dependencies| && PointsAt(v.dependencies[e], c, p) ==> p in universe)
  }

  // ---------------------------------------------------------------- what `deps` records

  /** One record per edge that names a project: its kind and target, in order. */
  function Edges(ds: seq<Dep>, c: Catalogue): seq<(DepKind, string)> {
    if ds == [] then []
    else
      var d := ds[|ds| - 1];
      var t := TargetOf(d, c);
      Edges(ds[..|ds| - 1], c) + if t.Ok? && t.value.Some? then [(d.kind, t.value.value)] else []
  }

  function Records(deps: seq<ResolvedDep>): (r: seq<(DepKind, string)>)
    ensures |r| == |deps| && forall k :: 0 <= k < |deps| ==> r[k] == (deps[k].kind, deps[k].projectId)
  {
    seq(|deps|, (k: nat) requires k < |deps| => (deps[k].kind, deps[k].projectId))
  }

  /** All edges of the versions, version after version. */
  function AllEdges(vs: seq<Version>, c: Catalogue): seq<(DepKind, string)> {
    if vs == [] then [] else AllEdges(vs[..|vs| - 1], c) + Edges(vs[|vs| - 1].dependencies, c)
  }

  /** The new downloads, in the order they were found. */
  function NewDownloads(deps: seq<ResolvedDep>): seq<(string, Version)> {
    if deps == [] then []
    else
      var d := deps[|deps| - 1];
      NewDownloads(deps[..|deps| - 1])
      + if d.isNewDownload && d.version.Some? then [(d.projectId, d.version.value)] else []
  }

  ghost predicate FlagsOk(d: ResolvedDep, installed: map<string, string>) {
    match d.kind
    case Embedded => d.alreadySatisfied && !d.isNewDownload && d.version.None?
    case Incompatible => !d.alreadySatisfied && !d.isNewDownload && d.version.None? && d.projectId !in installed
    case Optional => d.alreadySatisfied == (d.projectId in installed) && !d.isNewDownload && d.version.None?
    case Required => d.isNewDownload == d.version.Some? == !d.alreadySatisfied
                     && (d.isNewDownload ==> d.projectId !in installed)
  }

  // ---------------------------------------------------------------- one edge

  datatype Walk = Walk(seen: set<string>, queue: seq<Version>, deps: seq<ResolvedDep>)

  method ProcessDep(d: Dep, pid: string, parent: Version, c: Catalogue, installed: map<string, string>, w: Walk)
    returns (r: Result<Walk, Error>)
    requires PointsAt(d, c, pid) && installed.Keys <= w.seen
    ensures r.Err? ==>
              match r.error
              case DependencyConflict(p, asker) =>
                d.kind.Incompatible? && p == pid && p in installed && asker == parent.projectId
              case NoCompatibleVersion(p) => d.kind.Required? && p == pid && pid !in w.seen && c.latest(pid) == Ok(None)
              case Fetch(reason) => d.kind.Required? && pid !in w.seen && c.latest(pid) == Err(reason)
    ensures r.Ok? ==>
              && EdgeOk(d, c, installed)
              && exists dep :: r.value.deps == w.deps + [dep] && FlagsOk(dep, installed)
                   && dep.kind == d.kind && dep.projectId == pid && dep.title == ""
                   && dep.isNewDownload == (d.kind.Required? && pid !in w.seen)
                   && if dep.isNewDownload
                      then HasLatest(c, pid, dep.version.value)
                           && r.value.seen == w.seen + {pid} && r.value.queue == w.queue + [dep.version.value]
                      else r.value.seen == w.seen && r.value.queue == w.queue
  {
    var dep;
    match d.kind {
      case Embedded =>
        dep := ResolvedDep(Embedded, pid, "", None, true, false);
        r := Ok(w.(deps := w.deps + [dep]));
      case Incompatible =>
        if pid in installed {
          return Err(DependencyConflict(pid, parent.projectId));
        }
        dep := ResolvedDep(Incompatible, pid, "", None, false, false);
        r := Ok(w.(deps := w.deps + [dep]));
      case Optional =>
        dep := ResolvedDep(Optional, pid, "", None, pid in installed, false);
        r := Ok(w.(deps := w.deps + [dep]));
      case Required =>
        if pid in w.seen {
          dep := ResolvedDep(Required, pid, "", None, true, false);
          return Ok(w.(deps := w.deps + [dep]));
        }
        var chosen := c.latest(pid);
        if chosen.Err? {
          return Err(Fetch(chosen.error));
        }
        if chosen.value.None? {
          return Err(NoCompatibleVersion(pid));
        }
        var version := chosen.value.value;
        dep := ResolvedDep(Required, pid, "", Some(version), false, true);
        r := Ok(Walk(w.seen + {pid}, w.queue + [version], w.deps + [dep]));
    }
  }

  // ---------------------------------------------------------------- the breadth-first walk

  /** A visited node: node 0 is the root, the others are the new downloads with their distance. */
  datatype Node = Node(project: string, version: Version, level: nat)

  ghost function Versions(nodes: seq<Node>): (r: seq<Version>)
    ensures |r| == |nodes| && forall k :: 0 <= k < |nodes| ==> r[k] == nodes[k].version
  {
    seq(|nodes|, (k: nat) requires k < |nodes| => nodes[k].version)
  }

  ghost predicate NodesOk(root: Version, nodes: seq<Node>, c: Catalogue, installed: map<string, string>) {
    && |nodes| > 0 && nodes[0] == Node("", root, 0)
    && (forall i :: 1 <= i < |nodes| ==>
          && HasLatest(c, nodes[i].project, nodes[i].version) && nodes[i].project !in installed
          && WalkTo(root, nodes[i].project, nodes[i].level, c, installed))
    && (forall i, j :: 1 <= i < j < |nodes| ==> nodes[i].project != nodes[j].project)
    && (forall i, j :: 0 <= i < j < |nodes| ==> nodes[i].level <= nodes[j].level)
  }

  ghost predicate Found(nodes: seq<Node>, p: string, limit: nat) {
    exists i :: 1 <= i < |nodes| && nodes[i].project == p && nodes[i].level <= limit
  }

  /** The first `n` edges of a node are resolved, and the projects they need are nodes one level down at most. */
  ghost predicate Expanded(nodes: seq<Node>, j: nat, n: nat, c: Catalogue, installed: map<string, string>)
    requires j < |nodes|
  {
    var ds := nodes[j].version.dependencies;
    && n <= |ds|
    && forall e :: 0 <= e < n ==>
         EdgeOk(ds[e], c, installed)
         && forall p ::
              ds[e].kind.Required? && PointsAt(ds[e], c, p) && p !in installed ==> Found(nodes, p, nodes[j].level + 1)
  }

  ghost predicate AllExpanded(nodes: seq<Node>, h: nat, c: Catalogue, installed: map<string, string>) {
    h <= |nodes| && forall j :: 0 <= j < h ==> Expanded(nodes, j, |nodes[j].version.dependencies|, c, installed)
  }

  ghost predicate SeenIs(seen: set<string>, nodes: seq<Node>, installed: map<string, string>) {
    forall p :: p in seen <==> p in installed || exists i :: 1 <= i < |nodes| && nodes[i].project == p
  }

  ghost predicate NewIs(deps: seq<ResolvedDep>, nodes: seq<Node>) {
    && |NewDownloads(deps)| + 1 == |nodes|
    && forall i :: 1 <= i < |nodes| ==> NewDownloads(deps)[i - 1] == (nodes[i].project, nodes[i].version)
  }

  ghost predicate DepsOk(deps: seq<ResolvedDep>, installed: map<string, string>) {
    forall k :: 0 <= k < |deps| ==> FlagsOk(deps[k], installed)
  }

  lemma GrowNodes(root: Version, nodes: seq<Node>, h: nat, e: nat, p: string, v: Version, c: Catalogue,
                  installed: map<string, string>)
    requires NodesOk(root, nodes, c, installed) && h < |nodes| && e < |nodes[h].version.dependencies|
    requires forall i :: 0 <= i < |nodes| ==> nodes[i].level <= nodes[h].level + 1
    requires var d := nodes[h].version.dependencies[e]; d.kind.Required? && PointsAt(d, c, p)
    requires p !in installed && HasLatest(c, p, v) && forall i :: 1 <= i < |nodes| ==> nodes[i].project != p
    ensures NodesOk(root, nodes + [Node(p, v, nodes[h].level + 1)], c, installed)
  {
    NeededIsWalk(root, nodes, h, e, p, c, installed);
  }

  /** A project needed by a node is one walk step further. */
  lemma NeededIsWalk(root: Version, nodes: seq<Node>, h: nat, e: nat, p: string, c: Catalogue,
                     installed: map<string, string>)
    requires NodesOk(root, nodes, c, installed) && h < |nodes| && e < |nodes[h].version.dependencies|
    requires var d := nodes[h].version.dependencies[e]; d.kind.Required? && PointsAt(d, c, p)
    requires p !in installed
    ensures WalkTo(root, p, nodes[h].level + 1, c, installed)
  {
    assert Needs(nodes[h].version, p, c, installed);
    if h > 0 {
      assert WalkTo(root, nodes[h].project, nodes[h].level, c, installed);
    }
  }

  lemma ExpandedStays(nodes: seq<Node>, more: seq<Node>, j: nat, n: nat, c: Catalogue, installed: map<string, string>)
    requires nodes <= more && j < |nodes| && Expanded(nodes, j, n, c, installed)
    ensures Expanded(more, j, n, c, installed)
  {
    forall e, p | 0 <= e < n && nodes[j].version.dependencies[e].kind.Required?
                  && PointsAt(nodes[j].version.dependencies[e], c, p) && p !in installed
      ensures Found(more, p, nodes[j].level + 1)
    {
      assert Found(nodes, p, nodes[j].level + 1);
      var i :| 1 <= i < |nodes| && nodes[i].project == p && nodes[i].level <= nodes[j].level + 1;
      assert more[i] == nodes[i];
    }
  }

  /** Everything a walk from the root can reach was found, no later than the walk is long. */
  lemma {:induction false} WalksAreFound(root: Version, nodes: seq<Node>, p: string, n: nat, c: Catalogue,
                                         installed: map<string, string>)
    requires NodesOk(root, nodes, c, installed) && AllExpanded(nodes, |nodes|, c, installed)
    requires WalkTo(root, p, n, c, installed)
    ensures Found(nodes, p, n)
    decreases n
  {
    if n == 1 {
      assert Expanded(nodes, 0, |nodes[0].version.dependencies|, c, installed);
    } else {
      var q, v :| WalkTo(root, q, n - 1, c, installed) && HasLatest(c, q, v) && Needs(v, p, c, installed);
      WalksAreFound(root, nodes, q, n - 1, c, installed);
      var i :| 1 <= i < |nodes| && nodes[i].project == q && nodes[i].level <= n - 1;
      assert Expanded(nodes, i, |nodes[i].version.dependencies|, c, installed);
      assert nodes[i].version == v;
      assert Found(nodes, p, nodes[i].level + 1);
    }
  }

  ghost predicate Is(news: seq<(string, Version)>, p: string) {
    exists k :: 0 <= k < |news| && news[k].0 == p
  }

  /** What a finished walk has found. */
  ghost predicate Closure(root: Version, news: seq<(string, Version)>, c: Catalogue, installed: map<string, string>) {
    && (forall p :: Reachable(root, p, c, installed) <==> Is(news, p))
    && (forall j, k :: 0 <= j < k < |news| ==> news[j].0 != news[k].0)
    && (forall k :: 0 <= k < |news| ==> HasLatest(c, news[k].0, news[k].1))
    && (forall j, k :: 0 <= j < k < |news| ==> NoFarther(root, news[j].0, news[k].0, c, installed))
  }

  lemma WalkIsClosure(root: Version, nodes: seq<Node>, deps: seq<ResolvedDep>, c: Catalogue,
                      installed: map<string, string>)
    requires NodesOk(root, nodes, c, installed) && AllExpanded(nodes, |nodes|, c, installed) && NewIs(deps, nodes)
    ensures Closure(root, NewDownloads(deps), c, installed)
    ensures Resolvable(root, c, installed)
  {
    var news := NewDownloads(deps);
    forall p
      ensures Reachable(root, p, c, installed) <==> Is(news, p)
    {
      if Reachable(root, p, c, installed) {
        var n: nat :| WalkTo(root, p, n, c, installed);
        WalksAreFound(root, nodes, p, n, c, installed);
        var i :| 1 <= i < |nodes| && nodes[i].project == p;
        assert news[i - 1].0 == p;
      }
      if Is(news, p) {
        var k :| 0 <= k < |news| && news[k].0 == p;
        assert nodes[k + 1].project == p;
      }
    }
    forall k | 0 <= k < |news|
      ensures HasLatest(c, news[k].0, news[k].1)
    {
      assert news[k] == (nodes[k + 1].project, nodes[k + 1].version);
    }
    forall j, k | 0 <= j < k < |news|
      ensures news[j].0 != news[k].0 && NoFarther(root, news[j].0, news[k].0, c, installed)
    {
      assert news[j].0 == nodes[j + 1].project && news[k].0 == nodes[k + 1].project;
      forall n: nat | WalkTo(root, news[k].0, n, c, installed)
        ensures exists m: nat :: m <= n && WalkTo(root, news[j].0, m, c, installed)
      {
        WalksAreFound(root, nodes, news[k].0, n, c, installed);
        assert nodes[j + 1].level <= n;
        assert WalkTo(root, nodes[j + 1].project, nodes[j + 1].level, c, installed);
      }
    }
    assert Expanded(nodes, 0, |root.dependencies|, c, installed);
    forall p | Reachable(root, p, c, installed)
      ensures exists v :: HasLatest(c, p, v) && Acceptable(v, c, installed)
    {
      var k :| 0 <= k < |news| && news[k].0 == p;
      assert Expanded(nodes, k + 1, |nodes[k + 1].version.dependencies|, c, installed);
      assert HasLatest(c, p, nodes[k + 1].version);
    }
  }

  /** The loop state with `e` edges of node `h` behind it; the queue holds the nodes after `h`. */
  ghost predicate Mid(root: Version, nodes: seq<Node>, h: nat, e: nat, w: Walk, c: Catalogue,
                      installed: map<string, string>)
  {
    && NodesOk(root, nodes, c, installed) && h < |nodes|
    && AllExpanded(nodes, h, c, installed) && Expanded(nodes, h, e, c, installed)
    && (forall i :: 0 <= i < |nodes| ==> nodes[i].level <= nodes[h].level + 1)
    && SeenIs(w.seen, nodes, installed) && NewIs(w.deps, nodes) && DepsOk(w.deps, installed)
    && w.queue == Versions(nodes)[h + 1..]
    && Records(w.deps) == AllEdges(Versions(nodes)[..h], c) + Edges(nodes[h].version.dependencies[..e], c)
  }

  lemma EdgesStep(ds: seq<Dep>, e: nat, c: Catalogue)
    requires e < |ds| && TargetOf(ds[e], c).Ok?
    ensures var t := TargetOf(ds[e], c).value;
            Edges(ds[..e + 1], c) == Edges(ds[..e], c) + if t.Some? then [(ds[e].kind, t.value)] else []
  {
    assert ds[..e + 1][..e] == ds[..e];
  }

  lemma NewDownloadsStep(deps: seq<ResolvedDep>, d: ResolvedDep)
    ensures NewDownloads(deps + [d]) ==
            NewDownloads(deps) + if d.isNewDownload && d.version.Some? then [(d.projectId, d.version.value)] else []
  {
    assert (deps + [d])[..|deps|] == deps;
  }

  lemma SkipEdge(root: Version, nodes: seq<Node>, h: nat, e: nat, w: Walk, c: Catalogue, installed: map<string, string>)
    requires Mid(root, nodes, h, e, w, c, installed) && e < |nodes[h].version.dependencies|
    requires TargetOf(nodes[h].version.dependencies[e], c) == Ok(None)
    ensures Mid(root, nodes, h, e + 1, w, c, installed)
  {
    EdgesStep(nodes[h].version.dependencies, e, c);
  }

  /** One more edge of node `h` is covered. */
  lemma ExpandOne(nodes: seq<Node>, h: nat, e: nat, c: Catalogue, installed: map<string, string>)
    requires h < |nodes| && e < |nodes[h].version.dependencies| && Expanded(nodes, h, e, c, installed)
    requires var d := nodes[h].version.dependencies[e];
             && EdgeOk(d, c, installed)
             && forall p ::
                  d.kind.Required? && PointsAt(d, c, p) && p !in installed ==> Found(nodes, p, nodes[h].level + 1)
    ensures Expanded(nodes, h, e + 1, c, installed)
  {
    hide EdgeOk, PointsAt, Found;
  }

  lemma RecordsStep(deps: seq<ResolvedDep>, d: ResolvedDep)
    ensures Records(deps + [d]) == Records(deps) + [(d.kind, d.projectId)]
  {
  }

  /** An edge to a project that needs no download. */
  lemma KnownEdge(root: Version, nodes: seq<Node>, h: nat, e: nat, w: Walk, t: Walk, pid: string, dep: ResolvedDep,
                  c: Catalogue, installed: map<string, string>)
    requires Mid(root, nodes, h, e, w, c, installed) && e < |nodes[h].version.dependencies|
    requires var d := nodes[h].version.dependencies[e];
             && PointsAt(d, c, pid) && EdgeOk(d, c, installed)
             && dep.kind == d.kind && dep.projectId == pid && FlagsOk(dep, installed)
             && (d.kind.Required? ==> pid in w.seen)
    requires !dep.isNewDownload && t == Walk(w.seen, w.queue, w.deps + [dep])
    ensures Mid(root, nodes, h, e + 1, t, c, installed)
  {
    hide NodesOk, AllExpanded, Expanded, NewIs, DepsOk, NewDownloads, AllEdges, Edges, Records, FlagsOk, Versions,
         EdgeOk;
    var ds := nodes[h].version.dependencies;
    EdgesStep(ds, e, c);
    RecordsStep(w.deps, dep);
    NewIsStays(w.deps, nodes, dep, installed);
    if ds[e].kind.Required? && pid !in installed {
      SeenIsFound(w.seen, nodes, pid, nodes[h].level + 1, installed);
    }
    ExpandOne(nodes, h, e, c, installed);
  }

  lemma SeenIsFound(seen: set<string>, nodes: seq<Node>, p: string, limit: nat, installed: map<string, string>)
    requires SeenIs(seen, nodes, installed) && p in seen && p !in installed
    requires forall i :: 0 <= i < |nodes| ==> nodes[i].level <= limit
    ensures Found(nodes, p, limit)
  {
  }

  lemma NewIsStays(deps: seq<ResolvedDep>, nodes: seq<Node>, dep: ResolvedDep, installed: map<string, string>)
    requires NewIs(deps, nodes) && DepsOk(deps, installed) && FlagsOk(dep, installed) && !dep.isNewDownload
    ensures NewIs(deps + [dep], nodes) && DepsOk(deps + [dep], installed)
  {
    NewDownloadsStep(deps, dep);
  }

  /** A Required edge to a project met for the first time. */
  lemma NewEdge(root: Version, nodes: seq<Node>, h: nat, e: nat, w: Walk, t: Walk, pid: string, dep: ResolvedDep,
                c: Catalogue, installed: map<string, string>) returns (more: seq<Node>)
    requires Mid(root, nodes, h, e, w, c, installed) && e < |nodes[h].version.dependencies|
    requires var d := nodes[h].version.dependencies[e];
             && PointsAt(d, c, pid) && EdgeOk(d, c, installed) && d.kind.Required? && pid !in w.seen
             && dep.kind == d.kind && dep.projectId == pid && FlagsOk(dep, installed)
    requires dep.isNewDownload && dep.version.Some? && HasLatest(c, pid, dep.version.value)
    requires t == Walk(w.seen + {pid}, w.queue + [dep.version.value], w.deps + [dep])
    ensures Mid(root, more, h, e + 1, t, c, installed) && |more| == |nodes| + 1 && more[h] == nodes[h]
  {
    hide NodesOk, AllExpanded, Expanded, SeenIs, NewIs, DepsOk, NewDownloads, AllEdges, Edges, Records, FlagsOk,
         Versions, TargetOf, EdgeOk, WalkTo;
    var ds := nodes[h].version.dependencies;
    var v := dep.version.value;
    more := nodes + [Node(pid, v, nodes[h].level + 1)];
    NotSeen(w.seen, nodes, pid, installed);
    GrowNodes(root, nodes, h, e, pid, v, c, installed);
    GrowExpanded(nodes, more, h, e, pid, c, installed);
    EdgesStep(ds, e, c);
    RecordsStep(w.deps, dep);
    VersionsGrow(nodes, Node(pid, v, nodes[h].level + 1), h);
    NewSeen(w.seen, nodes, pid, v, nodes[h].level + 1, installed);
    NewIsGrows(w.deps, nodes, dep, Node(pid, v, nodes[h].level + 1), installed);
  }

  lemma NotSeen(seen: set<string>, nodes: seq<Node>, pid: string, installed: map<string, string>)
    requires SeenIs(seen, nodes, installed) && pid !in seen
    ensures pid !in installed && forall i :: 1 <= i < |nodes| ==> nodes[i].project != pid
  {
  }

  lemma NewIsGrows(deps: seq<ResolvedDep>, nodes: seq<Node>, dep: ResolvedDep, n: Node, installed: map<string, string>)
    requires NewIs(deps, nodes) && DepsOk(deps, installed) && FlagsOk(dep, installed)
    requires dep.isNewDownload && dep.version == Some(n.version) && dep.projectId == n.project
    ensures NewIs(deps + [dep], nodes + [n]) && DepsOk(deps + [dep], installed)
  {
    NewDownloadsStep(deps, dep);
  }

  lemma GrowExpanded(nodes: seq<Node>, more: seq<Node>, h: nat, e: nat, pid: string, c: Catalogue,
                     installed: map<string, string>)
    requires h < |nodes| && AllExpanded(nodes, h, c, installed) && Expanded(nodes, h, e, c, installed)
    requires |more| == |nodes| + 1 && nodes <= more && more[|nodes|].project == pid
             && more[|nodes|].level == nodes[h].level + 1
    requires e < |nodes[h].version.dependencies| && 1 <= |nodes|
    requires var d := nodes[h].version.dependencies[e]; PointsAt(d, c, pid) && EdgeOk(d, c, installed)
    ensures AllExpanded(more, h, c, installed) && Expanded(more, h, e + 1, c, installed)
  {
    hide EdgeOk, Expanded;
    forall j | 0 <= j < h
      ensures Expanded(more, j, |more[j].version.dependencies|, c, installed)
    {
      ExpandedStays(nodes, more, j, |nodes[j].version.dependencies|, c, installed);
    }
    ExpandedStays(nodes, more, h, e, c, installed);
    assert Found(more, pid, nodes[h].level + 1);
    ExpandOne(more, h, e, c, installed);
  }

  lemma VersionsGrow(nodes: seq<Node>, n: Node, h: nat)
    requires h < |nodes|
    ensures Versions(nodes + [n])[..h] == Versions(nodes)[..h]
    ensures Versions(nodes + [n])[h + 1..] == Versions(nodes)[h + 1..] + [n.version]
  {
    assert Versions(nodes + [n]) == Versions(nodes) + [n.version];
  }

  lemma NewSeen(seen: set<string>, nodes: seq<Node>, pid: string, v: Version, level: nat,
                installed: map<string, string>)
    requires SeenIs(seen, nodes, installed)
    requires |nodes| > 0
    ensures SeenIs(seen + {pid}, nodes + [Node(pid, v, level)], installed)
  {
    var more := nodes + [Node(pid, v, level)];
    assert more[|nodes|].project == pid;
    forall p | p in seen + {pid}
      ensures p in installed || exists i :: 1 <= i < |more| && more[i].project == p
    {
      if p != pid && p !in installed {
        var i :| 1 <= i < |nodes| && nodes[i].project == p;
        assert more[i].project == p;
      }
    }
    forall i | 1 <= i < |more|
      ensures more[i].project in seen + {pid}
    {
      if i < |nodes| {
        assert nodes[i].project in seen;
      }
    }
  }

  /** All edges of node `h` done: the next node comes off the queue. */
  lemma NextNode(root: Version, nodes: seq<Node>, h: nat, w: Walk, c: Catalogue, installed: map<string, string>)
    requires h + 1 < |nodes| && Mid(root, nodes, h, |nodes[h].version.dependencies|, w, c, installed)
    ensures w.queue != [] && w.queue[0] == nodes[h + 1].version
    ensures Mid(root, nodes, h + 1, 0, w.(queue := w.queue[1..]), c, installed)
  {
    var ds := nodes[h].version.dependencies;
    assert ds[..|ds|] == ds;
    assert Versions(nodes)[..h + 1][..h] == Versions(nodes)[..h];
    assert nodes[h].level <= nodes[h + 1].level;
  }

  // ---------------------------------------------------------------- errors

  ghost predicate Expandable(root: Version, v: Version, c: Catalogue, installed: map<string, string>) {
    v == root || exists p :: Reachable(root, p, c, installed) && HasLatest(c, p, v)
  }

  /**
   An error names its reason: who declares the conflict, which reachable project has no version, which fetch
   failed.
   */
  ghost predicate Justified(root: Version, error: Error, c: Catalogue, installed: map<string, string>) {
    match error
    case DependencyConflict(p, asker) =>
      && p in installed
      && exists v, e :: Expandable(root, v, c, installed) && v.projectId == asker && 0 <= e < |v.dependencies|
                        && v.dependencies[e].kind.Incompatible? && PointsAt(v.dependencies[e], c, p)
    case NoCompatibleVersion(p) => Reachable(root, p, c, installed) && c.latest(p) == Ok(None)
    case Fetch(reason) =>
      || (exists p :: Reachable(root, p, c, installed) && c.latest(p) == Err(reason))
      || exists v, e ::
           && Expandable(root, v, c, installed) && 0 <= e < |v.dependencies|
           && TargetOf(v.dependencies[e], c) == Err(reason)
  }

  lemma EdgeFails(root: Version, nodes: seq<Node>, h: nat, e: nat, pid: string, seen: set<string>, error: Error,
                  c: Catalogue, installed: map<string, string>)
    requires NodesOk(root, nodes, c, installed) && h < |nodes| && e < |nodes[h].version.dependencies|
    requires var d := nodes[h].version.dependencies[e];
             && PointsAt(d, c, pid) && SeenIs(seen, nodes, installed)
             && match error
                case DependencyConflict(p, asker) =>
                  d.kind.Incompatible? && p == pid && p in installed && asker == nodes[h].version.projectId
                case NoCompatibleVersion(p) => d.kind.Required? && p == pid && pid !in seen && c.latest(pid) == Ok(None)
                case Fetch(reason) => d.kind.Required? && pid !in seen && c.latest(pid) == Err(reason)
    ensures !Resolvable(root, c, installed) && Justified(root, error, c, installed)
  {
    var v := nodes[h].version;
    if error.DependencyConflict? {
      assert !EdgeOk(v.dependencies[e], c, installed);
      if h > 0 {
        assert Reachable(root, nodes[h].project, c, installed);
      }
      assert Expandable(root, v, c, installed);
      NotAcceptable(root, nodes, h, c, installed);
    } else {
      NeededIsWalk(root, nodes, h, e, pid, c, installed);
      assert Reachable(root, pid, c, installed);
    }
  }

  lemma NotAcceptable(root: Version, nodes: seq<Node>, h: nat, c: Catalogue, installed: map<string, string>)
    requires NodesOk(root, nodes, c, installed) && h < |nodes| && !Acceptable(nodes[h].version, c, installed)
    ensures !Resolvable(root, c, installed)
  {
    if h > 0 {
      assert Reachable(root, nodes[h].project, c, installed);
    }
  }

  lemma UnresolvedEdge(root: Version, nodes: seq<Node>, h: nat, e: nat, reason: string, c: Catalogue,
                       installed: map<string, string>)
    requires NodesOk(root, nodes, c, installed) && h < |nodes| && e < |nodes[h].version.dependencies|
    requires TargetOf(nodes[h].version.dependencies[e], c) == Err(reason)
    ensures !Resolvable(root, c, installed) && Justified(root, Fetch(reason), c, installed)
  {
    assert !EdgeOk(nodes[h].version.dependencies[e], c, installed);
    NotAcceptable(root, nodes, h, c, installed);
    if h > 0 {
      assert Reachable(root, nodes[h].project, c, installed);
    }
    assert Expandable(root, nodes[h].version, c, installed);
  }

  lemma TargetInUniverse(root: Version, nodes: seq<Node>, h: nat, e: nat, pid: string, universe: set<string>,
                         c: Catalogue, installed: map<string, string>)
    requires NodesOk(root, nodes, c, installed) && h < |nodes| && e < |nodes[h].version.dependencies|
    requires Closed(root, c, universe) && PointsAt(nodes[h].version.dependencies[e], c, pid)
    ensures pid in universe
  {
    if h > 0 {
      assert HasLatest(c, nodes[h].project, nodes[h].version);
    }
  }

  ghost function NewVersions(deps: seq<ResolvedDep>): (r: seq<Version>)
    ensures |r| == |NewDownloads(deps)| && forall k :: 0 <= k < |r| ==> r[k] == NewDownloads(deps)[k].1
  {
    seq(|NewDownloads(deps)|, (k: nat) requires k < |NewDownloads(deps)| => NewDownloads(deps)[k].1)
  }

  /** The breadth-first loop. It terminates on every finite catalogue, cyclic or not. */
  method Explore(root: Version, c: Catalogue, installed: map<string, string>, ghost universe: set<string>)
    returns (r: Result<seq<ResolvedDep>, Error>)
    requires Closed(root, c, universe)
    ensures r.Ok? <==> Resolvable(root, c, installed)
    ensures r.Err? ==> Justified(root, r.error, c, installed)
    ensures r.Ok? ==>
              && Closure(root, NewDownloads(r.value), c, installed)
              && Records(r.value) == AllEdges([root] + NewVersions(r.value), c)
              && DepsOk(r.value, installed)
  {
    hide Mid, NodesOk, Closed, Resolvable, Justified, Closure, SeenIs, AllEdges, NewDownloads, Records, DepsOk;
    var w := Walk(installed.Keys, [root], []);
    ghost var nodes := [Node("", root, 0)];
    ghost var h := 0;
    FirstNode(root, c, installed);
    assert w.queue[1..] == [];
    while w.queue != []
      invariant h <= |nodes|
      invariant if h < |nodes| then w.queue != [] && w.queue[0] == nodes[h].version
                                    && Mid(root, nodes, h, 0, w.(queue := w.queue[1..]), c, installed)
                else
                  && w.queue == [] && h > 0
                  && Mid(root, nodes, h - 1, |nodes[h - 1].version.dependencies|, w, c, installed)
      decreases universe - w.seen, |w.queue|
    {
      var v := w.queue[0];
      ghost var start := w;
      w := w.(queue := w.queue[1..]);
      var e := 0;
      while e < |v.dependencies|
        invariant 0 <= e <= |v.dependencies|
        invariant h < |nodes| && nodes[h].version == v && Mid(root, nodes, h, e, w, c, installed)
        invariant start.seen <= w.seen
        invariant w.seen == start.seen ==> w.queue == start.queue[1..]
        invariant w.seen != start.seen ==> (universe - w.seen) < (universe - start.seen)
      {
        MidFacts(root, nodes, h, e, w, c, installed);
        var d := v.dependencies[e];
        var target := TargetOf(d, c);
        if target.Err? {
          UnresolvedEdge(root, nodes, h, e, target.error, c, installed);
          return Err(Fetch(target.error));
        }
        if target.value.None? {
          SkipEdge(root, nodes, h, e, w, c, installed);
        } else {
          var pid := target.value.value;
          TargetInUniverse(root, nodes, h, e, pid, universe, c, installed);
          var next := ProcessDep(d, pid, v, c, installed, w);
          if next.Err? {
            EdgeFails(root, nodes, h, e, pid, w.seen, next.error, c, installed);
            return Err(next.error);
          }
          ghost var dep := next.value.deps[|w.deps|];
          assert next.value.deps == w.deps + [dep];
          if dep.isNewDownload {
            nodes := NewEdge(root, nodes, h, e, w, next.value, pid, dep, c, installed);
          } else {
            KnownEdge(root, nodes, h, e, w, next.value, pid, dep, c, installed);
          }
          w := next.value;
        }
        e := e + 1;
      }
      MidFacts(root, nodes, h, e, w, c, installed);
      if h + 1 < |nodes| {
        NextNode(root, nodes, h, w, c, installed);
      }
      h := h + 1;
    }
    MidFacts(root, nodes, h - 1, |nodes[h - 1].version.dependencies|, w, c, installed);
    Finished(root, nodes, w, c, installed);
    r := Ok(w.deps);
  }

  lemma FirstNode(root: Version, c: Catalogue, installed: map<string, string>)
    ensures Mid(root, [Node("", root, 0)], 0, 0, Walk(installed.Keys, [], []), c, installed)
  {
    assert Versions([Node("", root, 0)])[..0] == [];
  }

  lemma MidFacts(root: Version, nodes: seq<Node>, h: nat, e: nat, w: Walk, c: Catalogue, installed: map<string, string>)
    requires Mid(root, nodes, h, e, w, c, installed)
    ensures NodesOk(root, nodes, c, installed) && SeenIs(w.seen, nodes, installed) && installed.Keys <= w.seen
    ensures h + 1 == |nodes| ==> w.queue == []
    ensures h < |nodes| && DepsOk(w.deps, installed)
  {
  }

  lemma Finished(root: Version, nodes: seq<Node>, w: Walk, c: Catalogue, installed: map<string, string>)
    requires nodes != [] && Mid(root, nodes, |nodes| - 1, |nodes[|nodes| - 1].version.dependencies|, w, c, installed)
    ensures Resolvable(root, c, installed) && Closure(root, NewDownloads(w.deps), c, installed)
    ensures Records(w.deps) == AllEdges([root] + NewVersions(w.deps), c)
  {
    hide Mid, NodesOk, AllExpanded, NewIs, Records, AllEdges, Closure, Resolvable, Versions, NewVersions;
    AllIsExpanded(root, nodes, w, c, installed);
    WalkIsClosure(root, nodes, w.deps, c, installed);
    NewNodesAreVersions(root, nodes, w.deps, c, installed);
  }

  lemma AllIsExpanded(root: Version, nodes: seq<Node>, w: Walk, c: Catalogue, installed: map<string, string>)
    requires nodes != [] && Mid(root, nodes, |nodes| - 1, |nodes[|nodes| - 1].version.dependencies|, w, c, installed)
    ensures NodesOk(root, nodes, c, installed) && AllExpanded(nodes, |nodes|, c, installed) && NewIs(w.deps, nodes)
    ensures Records(w.deps) == AllEdges(Versions(nodes), c)
  {
    hide NodesOk, NewIs, Records, Expanded, Edges;
    var ds := nodes[|nodes| - 1].version.dependencies;
    assert ds[..|ds|] == ds;
  }

  lemma NewNodesAreVersions(root: Version, nodes: seq<Node>, deps: seq<ResolvedDep>, c: Catalogue,
                            installed: map<string, string>)
    requires NodesOk(root, nodes, c, installed) && NewIs(deps, nodes)
    ensures Versions(nodes) == [root] + NewVersions(deps)
  {
    hide NewDownloads, HasLatest, WalkTo;
  }

  // ---------------------------------------------------------------- titles and totals

  function ProjectIds(deps: seq<ResolvedDep>): (r: seq<string>)
    ensures |r| == |deps| && forall k :: 0 <= k < |deps| ==> r[k] == deps[k].projectId
  {
    seq(|deps|, (k: nat) requires k < |deps| => deps[k].projectId)
  }

  /** The distinct elements. */
  function FirstSeen(ps: seq<string>): (r: seq<string>)
    ensures forall p :: p in r <==> p in ps
    ensures forall i, j :: 0 <= i < j < |r| ==> r[i] != r[j]
  {
    if ps == [] then []
    else
      var n := |ps| - 1;
      FirstSeen(ps[..n]) + if ps[n] in ps[..n] then [] else [ps[n]]
  }

  /** They come in order of first appearance: when one has been met, no later one has. */
  lemma {:induction false} FirstSeenInOrder(ps: seq<string>, i: nat, j: nat) returns (k: nat)
    requires i < j < |FirstSeen(ps)|
    ensures k <= |ps| && FirstSeen(ps)[i] in ps[..k] && FirstSeen(ps)[j] !in ps[..k]
  {
    var n := |ps| - 1;
    var front := FirstSeen(ps[..n]);
    if j < |front| {
      k := FirstSeenInOrder(ps[..n], i, j);
      assert ps[..n][..k] == ps[..k];
    } else {
      k := n;
      assert front[i] in front;
    }
  }

  lemma FirstSeenStep(ps: seq<string>, p: string)
    ensures FirstSeen([]) == []
    ensures FirstSeen(ps + [p]) == FirstSeen(ps) + if p in ps then [] else [p]
  {
    assert (ps + [p])[..|ps|] == ps;
  }

  /** The distinct project ids, in order of first appearance. */
  method UniqueIds(deps: seq<ResolvedDep>) returns (out: seq<string>)
    ensures out == FirstSeen(ProjectIds(deps))
  {
    hide FirstSeen, ProjectIds;
    var seenTitles: set<string> := {};
    out := [];
    FirstSeenStep([], "");
    for k := 0 to |deps|
      invariant out == FirstSeen(ProjectIds(deps)[..k])
      invariant forall p :: p in seenTitles <==> p in out
    {
      var id := deps[k].projectId;
      assert ProjectIds(deps)[..k + 1] == ProjectIds(deps)[..k] + [id];
      FirstSeenStep(ProjectIds(deps)[..k], id);
      if id !in seenTitles {
        seenTitles := seenTitles + {id};
        out := out + [id];
      }
    }
    assert ProjectIds(deps)[..|deps|] == ProjectIds(deps);
  }

  /** The file marked primary, else the first one. */
  function PickPrimaryFile(files: seq<File>): Option<File> {
    var k := FirstPrimary(files);
    if k < |files| then Some(files[k]) else if files != [] then Some(files[0]) else None
  }

  function FirstPrimary(files: seq<File>): (k: nat)
    ensures k <= |files| && (k < |files| ==> files[k].primary) && forall j :: 0 <= j < k ==> !files[j].primary
  {
    if files == [] || files[0].primary then 0 else 1 + FirstPrimary(files[1..])
  }

  function PrimarySize(v: Version): nat {
    var f := PickPrimaryFile(v.files);
    if f.Some? then f.value.size else 0
  }

  /** The true sum of the primary file sizes. */
  function SumSizes(news: seq<(string, Version)>): nat {
    if news == [] then 0 else SumSizes(news[..|news| - 1]) + PrimarySize(news[|news| - 1].1)
  }

  predicate SameButTitle(a: ResolvedDep, b: ResolvedDep) {
    a.(title := "") == b.(title := "")
  }

  lemma {:induction false} TitlesChangeNothing(a: seq<ResolvedDep>, b: seq<ResolvedDep>)
    requires |a| == |b| && forall k :: 0 <= k < |a| ==> SameButTitle(a[k], b[k])
    ensures NewDownloads(a) == NewDownloads(b) && Records(a) == Records(b)
    decreases |a|
  {
    SameRecords(a, b);
    hide Records;
    if a != [] {
      var n := |a| - 1;
      assert SameButTitle(a[n], b[n]);
      TitlesChangeNothing(a[..n], b[..n]);
    }
  }

  lemma SameRecords(a: seq<ResolvedDep>, b: seq<ResolvedDep>)
    requires |a| == |b| && forall k :: 0 <= k < |a| ==> SameButTitle(a[k], b[k])
    ensures Records(a) == Records(b)
  {
    forall k | 0 <= k < |a|
      ensures Records(a)[k] == Records(b)[k]
    {
      assert SameButTitle(a[k], b[k]);
    }
  }

  lemma WrapAdd(total: nat, wrapped: int, size: nat)
    requires wrapped == total % U64_LIMIT
    ensures (wrapped + size) % U64_LIMIT == (total + size) % U64_LIMIT
  {
  }

  predicate TitledBy(d: ResolvedDep, titles: map<string, string>) {
    d.title == if d.projectId in titles then titles[d.projectId] else d.projectId
  }

  /** What a successful resolution returns. */
  ghost predicate Answer(root: Version, g: Graph, c: Catalogue, installed: map<string, string>) {
    && g.root == root
    && Closure(root, NewDownloads(g.deps), c, installed)
    && Records(g.deps) == AllEdges([root] + NewVersions(g.deps), c)
    && DepsOk(g.deps, installed)
    && g.totalNewFiles == |NewDownloads(g.deps)|
    && g.totalNewBytes == SumSizes(NewDownloads(g.deps)) % U64_LIMIT
    && (g.deps != [] ==>
          exists titles :: c.titles(FirstSeen(ProjectIds(g.deps))) == Ok(titles)
            && forall k :: 0 <= k < |g.deps| ==> TitledBy(g.deps[k], titles))
  }

  // ---------------------------------------------------------------- the answer in plain terms

  /** The dependency is for the project `p`: by its own field, or as the project of the version it pins. */
  predicate IsFor(d: Dep, p: string, c: Catalogue) {
    if d.projectId.Some? then d.projectId.value == p
    else d.versionId.Some? && c.byId(d.versionId.value).Ok? && c.byId(d.versionId.value).value.projectId == p
  }

  predicate Recorded(deps: seq<ResolvedDep>, kind: DepKind, p: string) {
    exists k :: 0 <= k < |deps| && deps[k].kind == kind && deps[k].projectId == p
  }

  predicate Downloads(deps: seq<ResolvedDep>, p: string, c: Catalogue) {
    exists k :: 0 <= k < |deps| && deps[k].isNewDownload && deps[k].projectId == p
                && deps[k].version.Some? && c.latest(p) == Ok(deps[k].version)
  }

  /** The versions whose dependencies count: the root and the new downloads. */
  predicate Counts(root: Version, deps: seq<ResolvedDep>, v: Version) {
    v == root || exists k :: 0 <= k < |deps| && deps[k].isNewDownload && deps[k].version == Some(v)
  }

  /** What becomes of one dependency of a version that counts. */
  ghost predicate EdgeInPlain(deps: seq<ResolvedDep>, d: Dep, c: Catalogue, installed: map<string, string>) {
    && (d.projectId.Some? ==> Recorded(deps, d.kind, d.projectId.value))
    && (d.projectId.None? && d.versionId.Some? ==>
          && c.byId(d.versionId.value).Ok?
          && Recorded(deps, d.kind, c.byId(d.versionId.value).value.projectId))
    && forall p :: IsFor(d, p, c) ==>
         && (d.kind.Required? && p !in installed ==> Downloads(deps, p, c))
         && (d.kind.Incompatible? ==> p !in installed)
  }

  /**
   Every dependency that names a project or pins a version has its record, every record comes
   from one, and every Required project that is not installed is downloaded at its latest version.
   */
  ghost predicate InPlainTerms(root: Version, deps: seq<ResolvedDep>, c: Catalogue, installed: map<string, string>) {
    && (forall v, e :: Counts(root, deps, v) && 0 <= e < |v.dependencies| ==>
          EdgeInPlain(deps, v.dependencies[e], c, installed))
    && (forall k :: 0 <= k < |deps| ==> HasSource(root, deps, k, c))
  }

  ghost predicate HasSource(root: Version, deps: seq<ResolvedDep>, k: nat, c: Catalogue)
    requires k < |deps|
  {
    exists v, e ::
      && Counts(root, deps, v) && 0 <= e < |v.dependencies|
      && v.dependencies[e].kind == deps[k].kind && IsFor(v.dependencies[e], deps[k].projectId, c)
  }

  /** The edge function reads exactly these two fields, and fails exactly when the pinned version does not load. */
  lemma TargetByFields(d: Dep, c: Catalogue)
    ensures forall p :: PointsAt(d, c, p) <==> IsFor(d, p, c)
    ensures TargetOf(d, c).Err? <==> d.projectId.None? && d.versionId.Some? && c.byId(d.versionId.value).Err?
    ensures TargetOf(d, c).Err? ==> TargetOf(d, c).error == c.byId(d.versionId.value).error
  {
  }

  lemma {:induction false} EdgesMembers(ds: seq<Dep>, c: Catalogue, kind: DepKind, p: string)
    ensures (kind, p) in Edges(ds, c) <==> exists e :: 0 <= e < |ds| && ds[e].kind == kind && IsFor(ds[e], p, c)
    decreases |ds|
  {
    if ds != [] {
      var n := |ds| - 1;
      EdgesMembers(ds[..n], c, kind, p);
      TargetByFields(ds[n], c);
      hide TargetOf, IsFor;
      assert forall e :: 0 <= e < n ==> ds[..n][e] == ds[e];
    }
  }

  lemma {:induction false} AllEdgesMembers(vs: seq<Version>, c: Catalogue, kind: DepKind, p: string)
    ensures (kind, p) in AllEdges(vs, c) <==> exists i :: 0 <= i < |vs| && (kind, p) in Edges(vs[i].dependencies, c)
    decreases |vs|
  {
    if vs != [] {
      hide Edges;
      var n := |vs| - 1;
      AllEdgesMembers(vs[..n], c, kind, p);
      var here := Edges(vs[n].dependencies, c);
      assert AllEdges(vs, c) == AllEdges(vs[..n], c) + here;
      if i :| 0 <= i < n && (kind, p) in Edges(vs[i].dependencies, c) {
        assert (kind, p) in Edges(vs[..n][i].dependencies, c);
      }
    }
  }

  lemma {:induction false} NewDownloadsMembers(deps: seq<ResolvedDep>, p: string, v: Version)
    ensures (p, v) in NewDownloads(deps) <==>
            exists k :: 0 <= k < |deps| && deps[k].isNewDownload && deps[k].version == Some(v) && deps[k].projectId == p
    decreases |deps|
  {
    if deps != [] {
      NewDownloadsMembers(deps[..|deps| - 1], p, v);
    }
  }

  lemma CountsExactly(root: Version, deps: seq<ResolvedDep>, v: Version)
    ensures Counts(root, deps, v) <==> v in [root] + NewVersions(deps)
  {
    var news := NewDownloads(deps);
    if v in NewVersions(deps) {
      var j :| 0 <= j < |news| && news[j].1 == v;
      assert news[j] in news;
      NewDownloadsMembers(deps, news[j].0, v);
    }
    if k :| 0 <= k < |deps| && deps[k].isNewDownload && deps[k].version == Some(v) {
      NewDownloadsMembers(deps, deps[k].projectId, v);
      var j :| 0 <= j < |news| && news[j] == (deps[k].projectId, v);
      assert NewVersions(deps)[j] == v;
    }
  }

  /** One more Required edge from a version that counts ends at a reachable project. */
  lemma NeededIsReachable(root: Version, deps: seq<ResolvedDep>, v: Version, p: string, c: Catalogue,
                          installed: map<string, string>)
    requires Closure(root, NewDownloads(deps), c, installed) && Counts(root, deps, v) && Needs(v, p, c, installed)
    ensures Reachable(root, p, c, installed)
  {
    hide Needs, NoFarther;
    if v == root {
      assert WalkTo(root, p, 1, c, installed);
    } else {
      var k :| 0 <= k < |deps| && deps[k].isNewDownload && deps[k].version == Some(v);
      var q := deps[k].projectId;
      NewDownloadsMembers(deps, q, v);
      var j :| 0 <= j < |NewDownloads(deps)| && NewDownloads(deps)[j] == (q, v);
      assert Is(NewDownloads(deps), q) && HasLatest(c, q, v);
      var n: nat :| WalkTo(root, q, n, c, installed);
      assert WalkTo(root, p, n + 1, c, installed);
    }
  }

  lemma CountedIsAcceptable(root: Version, deps: seq<ResolvedDep>, v: Version, c: Catalogue,
                            installed: map<string, string>)
    requires Closure(root, NewDownloads(deps), c, installed) && Counts(root, deps, v) && Resolvable(root, c, installed)
    ensures Acceptable(v, c, installed)
  {
    hide Acceptable, NoFarther, Reachable;
    if v != root {
      var k :| 0 <= k < |deps| && deps[k].isNewDownload && deps[k].version == Some(v);
      NewDownloadsMembers(deps, deps[k].projectId, v);
      var j :| 0 <= j < |NewDownloads(deps)| && NewDownloads(deps)[j] == (deps[k].projectId, v);
      assert Is(NewDownloads(deps), deps[k].projectId);
    }
  }

  lemma ReachedIsDownloaded(root: Version, deps: seq<ResolvedDep>, p: string, c: Catalogue,
                            installed: map<string, string>)
    requires Closure(root, NewDownloads(deps), c, installed) && Reachable(root, p, c, installed)
    ensures Downloads(deps, p, c)
  {
    hide NoFarther, Reachable;
    var news := NewDownloads(deps);
    assert Is(news, p);
    var j :| 0 <= j < |news| && news[j].0 == p;
    assert news[j] in news && HasLatest(c, p, news[j].1);
    NewDownloadsMembers(deps, p, news[j].1);
  }

  lemma RecordedExactly(root: Version, deps: seq<ResolvedDep>, c: Catalogue, kind: DepKind, p: string)
    requires Records(deps) == AllEdges([root] + NewVersions(deps), c)
    ensures Recorded(deps, kind, p) <==>
            exists v, e :: Counts(root, deps, v) && 0 <= e < |v.dependencies|
                           && v.dependencies[e].kind == kind && IsFor(v.dependencies[e], p, c)
  {
    hide IsFor, Edges, AllEdges, Counts, NewVersions;
    var vs := [root] + NewVersions(deps);
    AllEdgesMembers(vs, c, kind, p);
    assert Recorded(deps, kind, p) <==> (kind, p) in Records(deps) by {
      RecordsMembers(deps, kind, p);
    }
    if i :| 0 <= i < |vs| && (kind, p) in Edges(vs[i].dependencies, c) {
      EdgesMembers(vs[i].dependencies, c, kind, p);
      assert vs[i] in vs;
      CountsExactly(root, deps, vs[i]);
    }
    if v, e :| Counts(root, deps, v) && 0 <= e < |v.dependencies|
               && v.dependencies[e].kind == kind && IsFor(v.dependencies[e], p, c)
    {
      CountsExactly(root, deps, v);
      EdgesMembers(v.dependencies, c, kind, p);
    }
  }

  lemma RecordsMembers(deps: seq<ResolvedDep>, kind: DepKind, p: string)
    ensures Recorded(deps, kind, p) <==> (kind, p) in Records(deps)
  {
    if k :| 0 <= k < |deps| && deps[k].kind == kind && deps[k].projectId == p {
      assert Records(deps)[k] == (kind, p);
    }
  }

  /** Success, said of the dependencies' own fields and the catalogue. */
  lemma ResolvedInPlainTerms(root: Version, deps: seq<ResolvedDep>, c: Catalogue, installed: map<string, string>)
    requires Resolvable(root, c, installed) && Closure(root, NewDownloads(deps), c, installed)
    requires Records(deps) == AllEdges([root] + NewVersions(deps), c)
    ensures InPlainTerms(root, deps, c, installed)
  {
    hide Resolvable, Closure, Records, AllEdges, NewVersions, IsFor, Counts, EdgeInPlain;
    forall v, e | Counts(root, deps, v) && 0 <= e < |v.dependencies|
      ensures EdgeInPlain(deps, v.dependencies[e], c, installed)
    {
      PlainEdge(root, deps, v, e, c, installed);
    }
    forall k | 0 <= k < |deps|
      ensures HasSource(root, deps, k, c)
    {
      RecordedExactly(root, deps, c, deps[k].kind, deps[k].projectId);
    }
  }

  lemma PlainEdge(root: Version, deps: seq<ResolvedDep>, v: Version, e: nat, c: Catalogue,
                  installed: map<string, string>)
    requires Resolvable(root, c, installed) && Closure(root, NewDownloads(deps), c, installed)
    requires Records(deps) == AllEdges([root] + NewVersions(deps), c)
    requires Counts(root, deps, v) && e < |v.dependencies|
    ensures EdgeInPlain(deps, v.dependencies[e], c, installed)
  {
    hide Resolvable, Closure, Records, AllEdges, NewVersions, Counts, Recorded, Downloads, TargetOf;
    var d := v.dependencies[e];
    TargetByFields(d, c);
    CountedIsAcceptable(root, deps, v, c, installed);
    assert EdgeOk(d, c, installed);
    if d.projectId.Some? {
      RecordedExactly(root, deps, c, d.kind, d.projectId.value);
    } else if d.versionId.Some? {
      RecordedExactly(root, deps, c, d.kind, c.byId(d.versionId.value).value.projectId);
    }
    forall p | IsFor(d, p, c)
      ensures d.kind.Required? && p !in installed ==> Downloads(deps, p, c)
      ensures d.kind.Incompatible? ==> p !in installed
    {
      assert PointsAt(d, c, p);
      if d.kind.Required? && p !in installed {
        assert Needs(v, p, c, installed);
        NeededIsReachable(root, deps, v, p, c, installed);
        ReachedIsDownloaded(root, deps, p, c, installed);
      }
    }
  }

  /** The primary file is the first one marked so; without any it is the first file. */
  lemma PrimaryFileExactly(v: Version, k: nat)
    requires k < |v.files|
    requires if v.files[k].primary then forall j :: 0 <= j < k ==> !v.files[j].primary
             else k == 0 && forall j :: 0 <= j < |v.files| ==> !v.files[j].primary
    ensures PickPrimaryFile(v.files) == Some(v.files[k]) && PrimarySize(v) == v.files[k].size
  {
  }

  /** The title lookup failed; it was asked for the projects of the records, each once. */
  ghost predicate TitlesFailed(root: Version, error: Error, c: Catalogue, installed: map<string, string>) {
    exists deps, reason ::
      && deps != [] && Closure(root, NewDownloads(deps), c, installed)
      && Records(deps) == AllEdges([root] + NewVersions(deps), c)
      && c.titles(FirstSeen(ProjectIds(deps))) == Err(reason) && error == Fetch(reason)
  }

  /**
   The whole resolution. It succeeds exactly on resolvable inputs whose title lookup succeeds,
   and then `deps` holds one record per edge of the root and of each new version, the new
   downloads are exactly the reachable projects, each once, nearest first, and the totals
   count exactly them (in 64-bit wrap-around arithmetic).
   */
  method ResolveRequiredDeps(root: Version, c: Catalogue, installed: map<string, string>, ghost universe: set<string>)
    returns (r: Result<Graph, Error>)
    requires Closed(root, c, universe)
    ensures r.Ok? ==> Resolvable(root, c, installed) && Answer(root, r.value, c, installed)
    ensures r.Ok? ==> InPlainTerms(root, r.value.deps, c, installed)
    ensures r.Err? && !Resolvable(root, c, installed) ==> Justified(root, r.error, c, installed)
    ensures r.Err? && Resolvable(root, c, installed) ==> TitlesFailed(root, r.error, c, installed)
  {
    hide *;
    var explored := Explore(root, c, installed, universe);
    if explored.Err? {
      return Err(explored.error);
    }
    var deps := explored.value;
    var uniqueIds := UniqueIds(deps);
    ghost var names: map<string, string> := map[];
    if uniqueIds != [] {
      var titles := c.titles(uniqueIds);
      if titles.Err? {
        TitlesFailing(root, deps, titles.error, c, installed);
        return Err(Fetch(titles.error));
      }
      names := titles.value;
      deps := HydrateTitles(deps, titles.value);
    }
    HydratedFacts(explored.value, deps, uniqueIds, names, installed);
    var bytes, files := CountNew(deps);
    var g := Graph(root, deps, bytes, files);
    Assemble(root, explored.value, g, uniqueIds, names, c, installed);
    AnswerInPlainTerms(root, g, c, installed);
    r := Ok(g);
  }

  lemma AnswerInPlainTerms(root: Version, g: Graph, c: Catalogue, installed: map<string, string>)
    requires Resolvable(root, c, installed) && Answer(root, g, c, installed)
    ensures InPlainTerms(root, g.deps, c, installed)
  {
    hide Resolvable, InPlainTerms, Closure, Records, AllEdges, NewVersions;
    ResolvedInPlainTerms(root, g.deps, c, installed);
  }

  lemma TitlesFailing(root: Version, deps: seq<ResolvedDep>, reason: string, c: Catalogue,
                      installed: map<string, string>)
    requires FirstSeen(ProjectIds(deps)) != [] && c.titles(FirstSeen(ProjectIds(deps))) == Err(reason)
    requires Closure(root, NewDownloads(deps), c, installed) && Records(deps) == AllEdges([root] + NewVersions(deps), c)
    ensures TitlesFailed(root, Fetch(reason), c, installed)
  {
    hide Closure, NewDownloads, Records, AllEdges, NewVersions;
  }

  method HydrateTitles(found: seq<ResolvedDep>, titles: map<string, string>) returns (deps: seq<ResolvedDep>)
    ensures Hydrated(found, deps, titles)
  {
    deps := found;
    for k := 0 to |deps|
      invariant |deps| == |found|
      invariant forall i :: 0 <= i < |deps| ==> SameButTitle(deps[i], found[i])
      invariant forall i :: 0 <= i < k ==> TitledBy(deps[i], titles)
    {
      var id := deps[k].projectId;
      deps := deps[k := deps[k].(title := if id in titles then titles[id] else id)];
    }
  }

  predicate Hydrated(found: seq<ResolvedDep>, deps: seq<ResolvedDep>, titles: map<string, string>) {
    && |deps| == |found|
    && forall i :: 0 <= i < |deps| ==> SameButTitle(deps[i], found[i]) && TitledBy(deps[i], titles)
  }

  lemma HydratedFacts(found: seq<ResolvedDep>, deps: seq<ResolvedDep>, ids: seq<string>, names: map<string, string>,
                      installed: map<string, string>)
    requires ids == FirstSeen(ProjectIds(found)) && DepsOk(found, installed)
    requires if ids == [] then deps == found else Hydrated(found, deps, names)
    ensures Hydrated(found, deps, names) && DepsOk(deps, installed)
    ensures forall k :: 0 <= k < |deps| ==> (deps[k].isNewDownload ==> deps[k].kind.Required? && deps[k].version.Some?)
    ensures deps != [] ==> ids != []
  {
    if found != [] {
      assert ProjectIds(found)[0] in ProjectIds(found);
      assert ids != [];
    }
    forall k | 0 <= k < |deps|
      ensures FlagsOk(deps[k], installed)
    {
      assert SameButTitle(deps[k], found[k]) && FlagsOk(found[k], installed);
    }
  }

  lemma Assemble(root: Version, found: seq<ResolvedDep>, g: Graph, ids: seq<string>, names: map<string, string>,
                 c: Catalogue, installed: map<string, string>)
    requires Closure(root, NewDownloads(found), c, installed)
    requires Records(found) == AllEdges([root] + NewVersions(found), c)
    requires g.root == root && Hydrated(found, g.deps, names) && DepsOk(g.deps, installed)
    requires g.totalNewFiles == |NewDownloads(g.deps)|
    requires g.totalNewBytes == SumSizes(NewDownloads(g.deps)) % U64_LIMIT
    requires ids == FirstSeen(ProjectIds(found)) && (ids != [] ==> c.titles(ids) == Ok(names))
    requires g.deps != [] ==> ids != []
    ensures Answer(root, g, c, installed)
  {
    hide Closure, AllEdges, DepsOk, SumSizes;
    TitlesChangeNothing(g.deps, found);
    assert NewVersions(g.deps) == NewVersions(found);
    assert ProjectIds(g.deps) == ProjectIds(found) by {
      assert forall k :: 0 <= k < |found| ==> SameButTitle(g.deps[k], found[k]);
    }
  }

  lemma NothingNew(deps: seq<ResolvedDep>)
    requires deps == []
    ensures NewDownloads(deps) == [] && SumSizes(NewDownloads(deps)) == 0
  {
  }

  lemma CountStep(deps: seq<ResolvedDep>, k: nat)
    requires k < |deps|
    ensures var news, next := NewDownloads(deps[..k]), NewDownloads(deps[..k + 1]);
            if deps[k].isNewDownload && deps[k].version.Some?
            then |next| == |news| + 1 && SumSizes(next) == SumSizes(news) + PrimarySize(deps[k].version.value)
            else next == news
  {
    assert deps[..k + 1][..k] == deps[..k];
    var news, next := NewDownloads(deps[..k]), NewDownloads(deps[..k + 1]);
    if deps[k].isNewDownload && deps[k].version.Some? {
      assert next[..|news|] == news;
    }
  }

  method CountNew(deps: seq<ResolvedDep>) returns (bytes: u64, files: nat)
    requires forall k :: 0 <= k < |deps| ==> (deps[k].isNewDownload ==> deps[k].kind.Required? && deps[k].version.Some?)
    ensures bytes == SumSizes(NewDownloads(deps)) % U64_LIMIT
    ensures files == |NewDownloads(deps)|
  {
    hide NewDownloads, SumSizes;
    bytes, files := 0, 0;
    NothingNew(deps[..0]);
    for k := 0 to |deps|
      invariant bytes == SumSizes(NewDownloads(deps[..k])) % U64_LIMIT
      invariant files == |NewDownloads(deps[..k])|
    {
      var rd := deps[k];
      ghost var news := NewDownloads(deps[..k]);
      CountStep(deps, k);
      if rd.kind.Required? && rd.isNewDownload {
        if rd.version.Some? {
          var f := PickPrimaryFile(rd.version.value.files);
          if f.Some? {
            WrapAdd(SumSizes(news), bytes, f.value.size);
            bytes := (bytes + f.value.size) % U64_LIMIT;
          }
          files := files + 1;
        }
      }
    }
    assert deps[..|deps|] == deps;
  }
}
