/**
 Installing a Java runtime: parallel verified downloads into a temporary directory, links,
 one rename. The early return trusts the presence of a single file. This module follows any
 number of attempts, each of which may stop after any step.
 */
module JreInstall {
  import opened Common
  import opened Strings
  import A = AtomicWrites
  import Overrides

  const PERMITS: nat := 8

  datatype Link = Link(path: A.Path, target: string)

  /** The entries of a variant manifest, in the order the hash map yields them. */
  datatype Manifest = Manifest(dirs: seq<A.Path>, files: seq<A.Task>, links: seq<Link>)

  datatype Tree = Tree(dirs: set<A.Path>, disk: A.Disk, links: map<A.Path, string>)

  datatype Installed = Installed(tree: Tree, manifest: Manifest)

  datatype Phase =
    | Idle
    | Clearing(m: Manifest)
    | Dirs(m: Manifest, made: nat)
    | Downloading(m: Manifest)
    | Links(m: Manifest, made: nat)

  /** `final` remembers the manifest of the attempt that renamed it into place. */
  datatype State = State(phase: Phase, final: Option<Installed>, tmp: Option<Tree>, tasks: seq<A.Pc>)

  // ---------------------------------------------------------------- manifests

  /** Every component of a relative path is an ordinary name. */
  predicate IsSafeRelPath(p: A.Path) {
    p == "" || (p[0] != '/' && Split(p, '/')[0] != "." && ".." !in Split(p, '/'))
  }

  /** The same rule as for the names in a modpack archive. */
  lemma SafeAsInArchives(p: A.Path)
    ensures IsSafeRelPath(p) <==> Overrides.SafeExtractPath(p).Some?
  {
    assert p == "" ==> Split(p, '/') == [""];
  }

  function Paths(m: Manifest): seq<A.Path> {
    m.dirs + seq(|m.files|, (i: nat) requires i < |m.files| => m.files[i].dest)
    + seq(|m.links|, (i: nat) requires i < |m.links| => m.links[i].path)
  }

  /** The entries come from a map: no path occurs twice. */
  predicate FromMap(m: Manifest) {
    forall i, j :: 0 <= i < j < |Paths(m)| ==> Paths(m)[i] != Paths(m)[j]
  }

  predicate AllSafe(m: Manifest) {
    forall p :: p in Paths(m) ==> IsSafeRelPath(p)
  }

  function Pool(m: Manifest): A.Config {
    A.Config(m.files, PERMITS, false)
  }

  predicate NoClash(m: Manifest) {
    A.NoClash(Pool(m))
  }

  ghost predicate HoldsDirs(t: Tree, m: Manifest, n: nat) {
    n <= |m.dirs| && forall i :: 0 <= i < n ==> m.dirs[i] in t.dirs
  }

  ghost predicate HoldsFiles(t: Tree, m: Manifest) {
    forall i :: 0 <= i < |m.files| ==> A.Stored(t.disk, m.files[i])
  }

  ghost predicate HoldsLinks(t: Tree, m: Manifest, n: nat) {
    && n <= |m.links|
    && forall i :: 0 <= i < n ==> m.links[i].path in t.links && t.links[m.links[i].path] == m.links[i].target
  }

  /** Every directory, link and hash-matching file of the manifest. */
  ghost predicate Complete(t: Tree, m: Manifest) {
    HoldsDirs(t, m, |m.dirs|) && HoldsFiles(t, m) && HoldsLinks(t, m, |m.links|)
  }

  // ---------------------------------------------------------------- steps

  /** The idempotency guard: the one file the early return looks for. */
  predicate ExePresent(s: State, exe: A.Path) {
    s.final.Some? && (exe in s.final.value.tree.disk.names || exe in s.final.value.tree.links)
  }

  predicate Empty(t: Tree) {
    t.dirs == {} && t.disk.names == map[] && t.links == map[]
  }

  /** The manifest was fetched and verified; the guard did not fire. */
  ghost predicate Start(exe: A.Path, s: State, t: State) {
    && s.phase == Idle && !ExePresent(s, exe)
    && t.phase.Clearing? && FromMap(t.phase.m) && t == s.(phase := t.phase)
  }

  ghost predicate Residue(before: Option<Tree>, after: Tree) {
    && A.SoundDisk(after.disk)
    && (before.None? ==> Empty(after))
    && (before.Some? ==>
          && after.dirs <= before.value.dirs
          && after.disk.names.Keys <= before.value.disk.names.Keys
          && after.links.Keys <= before.value.links.Keys)
  }

  /** Removing the old temporary directory is best effort: any part of it may survive. */
  ghost predicate Clear(s: State, t: State) {
    && s.phase.Clearing? && AllSafe(s.phase.m)
    && t.tmp.Some? && Residue(s.tmp, t.tmp.value)
    && t == s.(phase := Dirs(s.phase.m, 0), tmp := t.tmp)
  }

  ghost predicate MakeDir(s: State, t: State) {
    && s.phase.Dirs? && s.tmp.Some? && s.phase.made < |s.phase.m.dirs|
    && var dir := s.phase.m.dirs[s.phase.made];
       var tree := s.tmp.value;
       && dir !in tree.disk.names && dir !in tree.links
       && t == s.(phase := Dirs(s.phase.m, s.phase.made + 1), tmp := Some(tree.(dirs := tree.dirs + {dir})))
  }

  ghost predicate BeginDownloads(s: State, t: State) {
    && s.phase.Dirs? && s.phase.made == |s.phase.m.dirs|
    && t == s.(phase := Downloading(s.phase.m), tasks := seq(|s.phase.m.files|, _ => A.Queued))
  }

  ghost predicate Work(s: State, t: State) {
    && s.phase.Downloading? && s.tmp.Some? && t.tmp.Some?
    && t == s.(tasks := t.tasks, tmp := Some(s.tmp.value.(disk := t.tmp.value.disk)))
    && A.Next(Pool(s.phase.m), A.State(s.tmp.value.disk, s.tasks), A.State(t.tmp.value.disk, t.tasks))
  }

  ghost predicate EndDownloads(s: State, t: State) {
    && s.phase.Downloading? && (forall i :: 0 <= i < |s.tasks| ==> s.tasks[i].Done?)
    && t == s.(phase := Links(s.phase.m, 0))
  }

  /** A link over an existing path is an error. */
  ghost predicate MakeLink(s: State, t: State) {
    && s.phase.Links? && s.tmp.Some? && s.phase.made < |s.phase.m.links|
    && var link := s.phase.m.links[s.phase.made];
       var tree := s.tmp.value;
       && link.path !in tree.disk.names && link.path !in tree.links && link.path !in tree.dirs
       && t == s.(phase := Links(s.phase.m, s.phase.made + 1),
          tmp := Some(tree.(links := tree.links[link.path := link.target])))
  }

  /** A directory is only renamed over nothing or over an empty directory. */
  ghost predicate Rename(s: State, t: State) {
    && s.phase.Links? && s.tmp.Some? && s.phase.made == |s.phase.m.links|
    && (s.final.None? || Empty(s.final.value.tree))
    && t == s.(phase := Idle, final := Some(Installed(s.tmp.value, s.phase.m)), tmp := None)
  }

  /** Any error return or a crash; the temporary directory may be gone, whole, or partly there. */
  ghost predicate Stop(s: State, t: State) {
    && t == s.(phase := Idle, tmp := t.tmp)
    && (t.tmp.Some? ==> s.tmp.Some? && (t.tmp == s.tmp || Residue(s.tmp, t.tmp.value)))
  }

  ghost predicate Next(exe: A.Path, s: State, t: State) {
    || Start(exe, s, t) || Clear(s, t) || MakeDir(s, t) || BeginDownloads(s, t) || Work(s, t)
    || EndDownloads(s, t) || MakeLink(s, t) || Rename(s, t) || Stop(s, t)
  }

  ghost predicate Init(s: State) {
    s.phase == Idle && s.final.None? && s.tmp.None?
  }

  ghost predicate IsChain(exe: A.Path, run: seq<State>) {
    |run| > 0 && forall k :: 0 <= k < |run| - 1 ==> Next(exe, run[k], run[k + 1])
  }

  ghost predicate IsRun(exe: A.Path, run: seq<State>) {
    IsChain(exe, run) && Init(run[0])
  }

  /** Every manifest that was started is free of clashes. */
  ghost predicate NoClashes(run: seq<State>) {
    forall k :: 0 <= k < |run| && !run[k].phase.Idle? ==> NoClash(run[k].phase.m)
  }

  // ---------------------------------------------------------------- the invariant

  ghost predicate Inv(s: State) {
    && (s.final.Some? ==> Complete(s.final.value.tree, s.final.value.manifest))
    && (s.tmp.Some? ==> A.SoundDisk(s.tmp.value.disk))
    && (!s.phase.Idle? ==> FromMap(s.phase.m))
    && match s.phase
       case Idle => true
       case Clearing(m) => true
       case Dirs(m, n) => s.tmp.Some? && HoldsDirs(s.tmp.value, m, n)
       case Downloading(m) =>
         && s.tmp.Some? && HoldsDirs(s.tmp.value, m, |m.dirs|)
         && A.Inv(Pool(m), A.State(s.tmp.value.disk, s.tasks))
       case Links(m, n) =>
         s.tmp.Some? && HoldsDirs(s.tmp.value, m, |m.dirs|) && HoldsFiles(s.tmp.value, m)
             && HoldsLinks(s.tmp.value, m, n)
  }

  lemma FilesDistinct(m: Manifest)
    requires FromMap(m)
    ensures A.DistinctDests(Pool(m)) && A.Coherent(Pool(m))
  {
    forall i, j | 0 <= i < |m.files| && 0 <= j < |m.files| && i != j
      ensures m.files[i].dest != m.files[j].dest
    {
      assert Paths(m)[|m.dirs| + i] == m.files[i].dest && Paths(m)[|m.dirs| + j] == m.files[j].dest;
    }
  }

  lemma DownloadStepKeepsInv(s: State, t: State)
    requires Inv(s) && !s.phase.Idle? && NoClash(s.phase.m)
    requires BeginDownloads(s, t) || Work(s, t) || EndDownloads(s, t)
    ensures Inv(t)
  {
    var m := s.phase.m;
    FilesDistinct(m);
    hide FromMap, A.Coherent, A.Next, A.Inv, A.TmpOf, A.SoundDisk, A.Stored;
    if BeginDownloads(s, t) {
      A.InitInv(Pool(m), A.State(t.tmp.value.disk, t.tasks));
    } else if Work(s, t) {
      A.StepKeepsInv(Pool(m), A.State(s.tmp.value.disk, s.tasks), A.State(t.tmp.value.disk, t.tasks));
      PoolIsSound(m, t);
    } else {
      PoolIsSound(m, s);
      A.AllDoneStored(Pool(m), A.State(s.tmp.value.disk, s.tasks));
    }
  }

  lemma PoolIsSound(m: Manifest, s: State)
    requires s.tmp.Some? && A.Inv(Pool(m), A.State(s.tmp.value.disk, s.tasks))
    ensures A.SoundDisk(s.tmp.value.disk) && |s.tasks| == |m.files|
  {
  }

  /** Every step of every attempt keeps the invariant. */
  lemma StepKeepsInv(exe: A.Path, s: State, t: State)
    requires Inv(s) && Next(exe, s, t) && (!s.phase.Idle? ==> NoClash(s.phase.m))
    ensures Inv(t)
  {
    if BeginDownloads(s, t) || Work(s, t) || EndDownloads(s, t) {
      DownloadStepKeepsInv(s, t);
    } else {
      hide FromMap, A.Inv, A.Next, A.Stored, NoClash;
    }
  }

  lemma InitInv(s: State)
    requires Init(s)
    ensures Inv(s)
  {
  }

  lemma {:induction false} RunKeepsInv(exe: A.Path, run: seq<State>)
    requires IsRun(exe, run) && NoClashes(run)
    ensures forall k :: 0 <= k < |run| ==> Inv(run[k])
  {
    hide Inv, Next, NoClash;
    if |run| == 1 {
      InitInv(run[0]);
    } else {
      var front := run[..|run| - 1];
      assert front[0] == run[0];
      RunKeepsInv(exe, front);
      assert front[|front| - 1] == run[|run| - 2];
      StepKeepsInv(exe, run[|run| - 2], run[|run| - 1]);
      assert forall k :: 0 <= k < |front| ==> front[k] == run[k];
    }
  }

  // ---------------------------------------------------------------- results

  /**
   However many attempts were made, with whatever manifests, cut off wherever: the final
   directory, if it exists, holds everything in the manifest that produced it. So the early
   return on one existing file answers for the whole tree.
   */
  lemma FinalIsComplete(exe: A.Path, run: seq<State>, k: nat)
    requires IsRun(exe, run) && NoClashes(run) && k < |run|
    ensures run[k].final.Some? ==> Complete(run[k].final.value.tree, run[k].final.value.manifest)
    ensures ExePresent(run[k], exe) ==> Complete(run[k].final.value.tree, run[k].final.value.manifest)
  {
    RunKeepsInv(exe, run);
  }

  /** Once a non-empty runtime is in place no later attempt changes it. */
  lemma {:induction false} FinalIsStable(exe: A.Path, run: seq<State>, j: nat, k: nat)
    requires IsRun(exe, run) && j <= k < |run|
    requires run[j].final.Some? && !Empty(run[j].final.value.tree)
    ensures run[k].final == run[j].final
    decreases k - j
  {
    if j < k {
      FinalIsStable(exe, run, j, k - 1);
      assert Next(exe, run[k - 1], run[k]);
      hide A.Next, FromMap;
    }
  }

  /** Once the executable is there and nothing is under way, no attempt gets past the early return. */
  lemma {:induction false} PresentIsReused(exe: A.Path, run: seq<State>, j: nat, k: nat)
    requires IsRun(exe, run) && j <= k < |run|
    requires run[j].phase == Idle && run[j].final.Some?
    requires var tree := run[j].final.value.tree;
             exe in tree.disk.names || exe in tree.links
    ensures run[k].phase == Idle && run[k].final == run[j].final
    decreases k - j
  {
    if j < k {
      PresentIsReused(exe, run, j, k - 1);
      assert Next(exe, run[k - 1], run[k]);
      hide A.Next, FromMap;
    }
  }

  /** What survived in the temporary directory is never taken for a download: files are written before they are done. */
  lemma NothingLeftOverIsTrusted(exe: A.Path, run: seq<State>, k: nat, i: nat)
    requires IsRun(exe, run) && k + 1 < |run| && run[k].phase.Downloading? && run[k + 1].phase.Downloading?
    requires i < |run[k].tasks| && i < |run[k + 1].tasks| && run[k + 1].tasks[i] == A.Done
    ensures run[k].tasks[i].Done? || run[k].tasks[i].Writing?
  {
    hide A.TmpOf, A.PutAt, A.Stored, A.SoundDisk, FromMap;
    var s, t := run[k], run[k + 1];
    assert Next(exe, s, t);
    if Work(s, t) {
      var a, b := A.State(s.tmp.value.disk, s.tasks), A.State(t.tmp.value.disk, t.tasks);
      var j: nat :| A.TaskStep(Pool(s.phase.m), a, b, j);
    }
  }

  ghost predicate Bounded(s: State) {
    s.phase.Downloading? ==> |A.Held(s.tasks)| <= 8
  }

  lemma StepKeepsBounded(exe: A.Path, s: State, t: State)
    requires Bounded(s) && Next(exe, s, t)
    ensures Bounded(t)
  {
    hide A.Held, A.TaskStep, FromMap;
    if BeginDownloads(s, t) {
      A.QueuedHoldNone(t.tasks);
    } else if Work(s, t) {
      var c := Pool(s.phase.m);
      var a, b := A.State(s.tmp.value.disk, s.tasks), A.State(t.tmp.value.disk, t.tasks);
      var i: nat :| A.TaskStep(c, a, b, i);
      A.HeldBound(c, a, b, i);
    }
  }

  /** At most eight files are downloaded at a time, in any state of any run. */
  lemma {:induction false} PermitsBounded(exe: A.Path, run: seq<State>, k: nat)
    requires IsRun(exe, run) && k < |run|
    ensures run[k].phase.Downloading? ==> |A.Held(run[k].tasks)| <= 8
    decreases k
  {
    hide Next, A.Held;
    if k > 0 {
      PermitsBounded(exe, run, k - 1);
      StepKeepsBounded(exe, run[k - 1], run[k]);
    }
  }

  // ---------------------------------------------------------------- the condition is exact

  /** All attempts of the run install this manifest. */
  ghost predicate Only(m: Manifest, run: seq<State>) {
    forall k :: 0 <= k < |run| && !run[k].phase.Idle? ==> run[k].phase.m == m
  }

  lemma Append(exe: A.Path, m: Manifest, a: seq<State>, b: seq<State>)
    requires IsChain(exe, a) && IsChain(exe, b) && a[|a| - 1] == b[0] && Only(m, a) && Only(m, b)
    ensures IsChain(exe, a + b[1..]) && Only(m, a + b[1..])
    ensures (a + b[1..])[0] == a[0] && (a + b[1..])[|a + b[1..]| - 1] == b[|b| - 1]
  {
    hide Next;
    var r := a + b[1..];
    forall k | 0 <= k < |r| - 1
      ensures Next(exe, r[k], r[k + 1])
    {
      if k >= |a| - 1 {
        assert r[k] == b[k - (|a| - 1)] && r[k + 1] == b[k + 1 - (|a| - 1)];
      }
    }
  }

  lemma Step(exe: A.Path, m: Manifest, run: seq<State>, t: State) returns (more: seq<State>)
    requires IsChain(exe, run) && Only(m, run) && Next(exe, run[|run| - 1], t) && (!t.phase.Idle? ==> t.phase.m == m)
    ensures IsChain(exe, more) && Only(m, more) && more[0] == run[0] && more[|more| - 1] == t
  {
    hide Next;
    more := run + [t];
  }

  lemma Separate(m: Manifest)
    requires FromMap(m)
    ensures forall i :: 0 <= i < |m.links| ==> m.links[i].path !in m.dirs && m.links[i].path !in A.Dests(Pool(m))
    ensures forall i, j :: 0 <= i < j < |m.links| ==> m.links[i].path != m.links[j].path
  {
    var p := Paths(m);
    var d, f := |m.dirs|, |m.files|;
    assert forall i :: 0 <= i < d ==> p[i] == m.dirs[i];
    assert forall i :: 0 <= i < f ==> p[d + i] == m.files[i].dest;
    assert forall i :: 0 <= i < |m.links| ==> p[d + f + i] == m.links[i].path;
  }

  lemma {:induction false} MakeAllDirs(exe: A.Path, m: Manifest, s: State) returns (run: seq<State>)
    requires s.phase.Dirs? && s.phase.m == m && s.phase.made <= |m.dirs| && s.tmp.Some?
    requires s.tmp.value.disk.names == map[] && s.tmp.value.links == map[]
    requires forall d :: d in s.tmp.value.dirs ==> d in m.dirs
    ensures IsChain(exe, run) && Only(m, run) && run[0] == s
    ensures var t := run[|run| - 1];
            && t.phase == Dirs(m, |m.dirs|) && t.final == s.final && t.tmp.Some?
            && t.tmp.value.disk == s.tmp.value.disk && t.tmp.value.links == map[]
            && forall d :: d in t.tmp.value.dirs ==> d in m.dirs
    decreases |m.dirs| - s.phase.made
  {
    run := [s];
    if s.phase.made < |m.dirs| {
      var tree := s.tmp.value;
      var t := s.(phase := Dirs(m, s.phase.made + 1), tmp := Some(tree.(dirs := tree.dirs + {m.dirs[s.phase.made]})));
      assert MakeDir(s, t);
      run := Step(exe, m, run, t);
      var rest := MakeAllDirs(exe, m, t);
      Append(exe, m, run, rest);
      run := run + rest[1..];
    }
  }

  lemma {:induction false} MakeAllLinks(exe: A.Path, m: Manifest, s: State) returns (run: seq<State>)
    requires FromMap(m) && s.phase.Links? && s.phase.m == m && s.phase.made <= |m.links| && s.tmp.Some?
    requires s.tmp.value.disk.names.Keys <= A.Dests(Pool(m))
    requires forall d :: d in s.tmp.value.dirs ==> d in m.dirs
    requires forall p :: p in s.tmp.value.links ==> exists i :: 0 <= i < s.phase.made && m.links[i].path == p
    ensures IsChain(exe, run) && Only(m, run) && run[0] == s
    ensures var t := run[|run| - 1];
            && t.phase == Links(m, |m.links|) && t.final == s.final && t.tmp.Some?
            && t.tmp.value.disk == s.tmp.value.disk
    decreases |m.links| - s.phase.made
  {
    run := [s];
    if s.phase.made < |m.links| {
      Separate(m);
      hide FromMap, IsChain, Only;
      var tree := s.tmp.value;
      var link := m.links[s.phase.made];
      var t := s.(phase := Links(m, s.phase.made + 1),
          tmp := Some(tree.(links := tree.links[link.path := link.target])));
      assert MakeLink(s, t);
      run := Start1(exe, m, s, t);
      forall p | p in t.tmp.value.links
        ensures exists i :: 0 <= i < t.phase.made && m.links[i].path == p
      {
        if p == link.path {
          assert m.links[s.phase.made].path == p;
        } else {
          assert p in tree.links;
        }
      }
      var rest := MakeAllLinks(exe, m, t);
      Append(exe, m, run, rest);
      run := run + rest[1..];
    }
  }

  lemma Start1(exe: A.Path, m: Manifest, s: State, t: State) returns (run: seq<State>)
    requires Next(exe, s, t) && (!s.phase.Idle? ==> s.phase.m == m) && (!t.phase.Idle? ==> t.phase.m == m)
    ensures IsChain(exe, run) && Only(m, run) && run[0] == s && run[|run| - 1] == t
  {
    hide Next;
    run := [s, t];
  }

  /** A schedule of the download pool is a stretch of the install. */
  lemma LiftPool(exe: A.Path, m: Manifest, s: State, pool: seq<A.State>) returns (run: seq<State>)
    requires s.phase == Downloading(m) && s.tmp.Some?
    requires A.IsRun(Pool(m), pool) && pool[0] == A.State(s.tmp.value.disk, s.tasks)
    ensures IsChain(exe, run) && Only(m, run) && run[0] == s
    ensures var last := pool[|pool| - 1];
            run[|run| - 1] == s.(tmp := Some(s.tmp.value.(disk := last.disk)), tasks := last.pcs)
  {
    hide A.Next;
    run := seq(|pool|, (k: nat) requires k < |pool| =>
             s.(tmp := Some(s.tmp.value.(disk := pool[k].disk)), tasks := pool[k].pcs));
    forall k | 0 <= k < |run| - 1
      ensures Next(exe, run[k], run[k + 1])
    {
      assert Work(run[k], run[k + 1]);
    }
  }

  /** Up to the start of the downloads, from an empty machine. */
  lemma Prepare(exe: A.Path, m: Manifest) returns (run: seq<State>)
    requires FromMap(m) && AllSafe(m)
    ensures IsRun(exe, run) && Only(m, run)
    ensures var t := run[|run| - 1];
            && t.phase == Downloading(m) && t.final.None? && t.tmp.Some?
            && t.tmp.value.disk == A.Disk(map[], map[]) && t.tmp.value.links == map[]
            && (forall d :: d in t.tmp.value.dirs ==> d in m.dirs)
            && A.Init(Pool(m), A.State(t.tmp.value.disk, t.tasks))
  {
    var s0 := State(Idle, None, None, []);
    var s1 := s0.(phase := Clearing(m));
    var s2 := s1.(phase := Dirs(m, 0), tmp := Some(Tree({}, A.Disk(map[], map[]), map[])));
    assert Start(exe, s0, s1) && Clear(s1, s2);
    run := [s0, s1, s2];
    var dirs := MakeAllDirs(exe, m, s2);
    Append(exe, m, run, dirs);
    run := run + dirs[1..];
    var s3 := run[|run| - 1];
    var s4 := s3.(phase := Downloading(m), tasks := seq(|m.files|, _ => A.Queued));
    assert BeginDownloads(s3, s4);
    run := Step(exe, m, run, s4);
  }

  /** After a successful pool: links, rename, a final directory with exactly the pool's files. */
  lemma Finish(exe: A.Path, m: Manifest, before: seq<State>) returns (run: seq<State>)
    requires FromMap(m) && IsRun(exe, before) && Only(m, before)
    requires var s := before[|before| - 1];
             && s.phase == Downloading(m) && s.final.None? && s.tmp.Some? && s.tmp.value.links == map[]
             && (forall d :: d in s.tmp.value.dirs ==> d in m.dirs)
             && (forall i :: 0 <= i < |s.tasks| ==> s.tasks[i].Done?)
             && s.tmp.value.disk.names.Keys <= A.Dests(Pool(m))
    ensures IsRun(exe, run) && Only(m, run)
    ensures var t := run[|run| - 1];
            t.final.Some? && t.final.value.tree.disk == before[|before| - 1].tmp.value.disk
                && t.final.value.manifest == m
  {
    hide FromMap, Only, Init;
    var s := before[|before| - 1];
    var s1 := s.(phase := Links(m, 0));
    assert EndDownloads(s, s1);
    run := Step(exe, m, before, s1);
    var links := MakeAllLinks(exe, m, s1);
    Append(exe, m, run, links);
    run := run + links[1..];
    var s2 := run[|run| - 1];
    var s3 := s2.(phase := Idle, final := Some(Installed(s2.tmp.value, m)), tmp := None);
    assert Rename(s2, s3);
    run := Step(exe, m, run, s3);
  }

  /**
   Exactly when the early return can be trusted. For any safe manifest whose files the server
   serves correctly: every run leaves a complete directory, whenever it leaves one, if and only
   if no file's path is another file's temporary name.
   */
  lemma TrustworthyExactlyWithoutClash(exe: A.Path, m: Manifest)
    requires FromMap(m) && AllSafe(m)
    requires forall i :: 0 <= i < |m.files| ==> m.files[i].accepts(m.files[i].served)
    ensures NoClash(m) <==>
            (forall run: seq<State>, k: nat :: IsRun(exe, run) && Only(m, run) && k < |run| && run[k].final.Some?
               ==> Complete(run[k].final.value.tree, run[k].final.value.manifest))
  {
    if NoClash(m) {
      forall run: seq<State>, k: nat | IsRun(exe, run) && Only(m, run) && k < |run| && run[k].final.Some?
        ensures Complete(run[k].final.value.tree, run[k].final.value.manifest)
      {
        FinalIsComplete(exe, run, k);
      }
    } else {
      var run := ClashBreaks(exe, m);
      var k: nat := |run| - 1;
      assert run[k].final.Some? && !Complete(run[k].final.value.tree, run[k].final.value.manifest);
    }
  }

  lemma ClashBreaks(exe: A.Path, m: Manifest) returns (run: seq<State>)
    requires FromMap(m) && AllSafe(m) && !NoClash(m)
    requires forall i :: 0 <= i < |m.files| ==> m.files[i].accepts(m.files[i].served)
    ensures IsRun(exe, run) && Only(m, run)
    ensures var t := run[|run| - 1];
            t.final.Some? && !Complete(t.final.value.tree, t.final.value.manifest)
  {
    var i, j :| 0 <= i < |m.files| && 0 <= j < |m.files| && A.Hits(Pool(m), i, j);
    FilesDistinct(m);
    hide FromMap, IsRun, Only, A.TmpOf, A.IsRun, A.Init, A.Hits, A.DistinctDests;
    run := Prepare(exe, m);
    var s := run[|run| - 1];
    var pool := A.ClashLosesFile(Pool(m), A.State(s.tmp.value.disk, s.tasks), i, j);
    run := Download(exe, m, run, pool);
    run := Finish(exe, m, run);
    var t := run[|run| - 1];
    assert !A.Stored(t.final.value.tree.disk, m.files[i]);
  }

  lemma Download(exe: A.Path, m: Manifest, before: seq<State>, pool: seq<A.State>) returns (run: seq<State>)
    requires IsRun(exe, before) && Only(m, before)
    requires var s := before[|before| - 1];
             && s.phase == Downloading(m) && s.tmp.Some?
             && A.IsRun(Pool(m), pool) && pool[0] == A.State(s.tmp.value.disk, s.tasks)
    ensures IsRun(exe, run) && Only(m, run)
    ensures var s, last := before[|before| - 1], pool[|pool| - 1];
            run[|run| - 1] == s.(tmp := Some(s.tmp.value.(disk := last.disk)), tasks := last.pcs)
  {
    hide Next, A.Next, Init;
    var lifted := LiftPool(exe, m, before[|before| - 1], pool);
    Append(exe, m, before, lifted);
    run := before + lifted[1..];
  }
}
