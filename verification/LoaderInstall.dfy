/**
 The Fabric/Quilt install pipeline as a state machine: two re-attach shortcuts, parallel
 library downloads, the version JSON, and the instance manifest written last. The user may
 cancel at any moment and every run may stop after any step, which is how a crash looks.
 */
module LoaderInstall {
  import opened Common
  import opened Counting
  import opened Strings
  import A = AtomicWrites
  import Maven
  import T = Translate

  const LIB_CONCURRENCY: nat := 8

  datatype Config = Config(
    loader: T.Loader, loaderVersion: string, mc: string,
    /** What the meta API answers: None when the request fails. */
    response: Option<T.Json>,
    /** The body served for the library at an index, and the hash function. */
    served: nat -> A.Bytes, sha1: A.Bytes -> string)

  datatype LoaderInfo = LoaderInfo(kind: T.Loader, version: string, versionId: string)

  /** `Check` tests the token, `Commit` is past the test and writes the instance manifest. */
  datatype Pc =
    | Begin
    | FastAttach(id: string) | Fetch | Fetched | Downloading | WriteJson
    | Check(id: string) | Commit(id: string)
    | Finished(ok: bool)

  datatype State = State(
    pc: Pc, cancelled: bool, pct: nat,
    versions: map<string, Option<T.Json>>, disk: A.Disk, instance: Option<LoaderInfo>,
    tasks: seq<A.Pc>, joined: set<nat>)

  // ---------------------------------------------------------------- configuration

  function Predicted(c: Config): string {
    T.PredictVersionId(c.loader, c.loaderVersion, c.mc)
  }

  function ProfileOf(c: Config): Option<T.Profile> {
    if c.response.None? then None else T.ParseProfile(c.response.value)
  }

  /** `eq_ignore_ascii_case`. */
  predicate SameHash(a: string, b: string) {
    Lower(a) == Lower(b)
  }

  /** A library whose coordinate is invalid accepts nothing, so its task can only fail. */
  function TaskFor(c: Config, lib: T.Library, i: nat): A.Task {
    var path := Maven.CoordToPath(lib.name);
    if path.Err? then A.Task("", c.served(i), _ => false)
    else A.Task(path.value, c.served(i), (b: A.Bytes) => lib.sha1.None? || SameHash(c.sha1(b), lib.sha1.value))
  }

  function Libs(c: Config): seq<T.Library> {
    if ProfileOf(c).None? then [] else ProfileOf(c).value.libraries
  }

  function Pool(c: Config): A.Config {
    A.Config(seq(|Libs(c)|, (i: nat) requires i < |Libs(c)| => TaskFor(c, Libs(c)[i], i)), LIB_CONCURRENCY, true)
  }

  // ---------------------------------------------------------------- the two shortcuts

  predicate OnDisk(disk: A.Disk, name: string) {
    var path := Maven.CoordToPath(name);
    path.Ok? && path.value in disk.names
  }

  /** `try_reattach_from_disk`: the id in the file, if it parses and all its libraries exist. */
  function Reattach(versions: map<string, Option<T.Json>>, disk: A.Disk, versionId: string): Option<string> {
    if versionId !in versions || versions[versionId].None? then None else
      var m := T.ParseMinimal(versions[versionId].value);
      if m.None? then None
      else if forall k :: 0 <= k < |m.value.names| ==> OnDisk(disk, m.value.names[k]) then Some(m.value.id)
      else None
  }

  /** An instance can be launched from this version: its JSON reads and every library it lists exists. */
  predicate Launchable(s: State, versionId: string) {
    Reattach(s.versions, s.disk, versionId).Some?
  }

  /** `is_already_installed`: Err on an invalid coordinate reached before a missing library. */
  function AlreadyInstalled(versions: map<string, Option<T.Json>>, disk: A.Disk, p: T.Profile): Option<bool> {
    if p.id !in versions then Some(false) else AllExist(disk, p.libraries)
  }

  function AllExist(disk: A.Disk, libs: seq<T.Library>): Option<bool> {
    if libs == [] then Some(true)
    else
      var path := Maven.CoordToPath(libs[0].name);
      if path.Err? then None
      else if path.value !in disk.names then Some(false)
      else AllExist(disk, libs[1..])
  }

  // ---------------------------------------------------------------- steps

  predicate IsDone(s: State) {
    s.pc.Finished?
  }

  ghost predicate Cancel(s: State, t: State) {
    t == s.(cancelled := true)
  }

  /** Any error return before the manifest write: the instance keeps its loader. */
  ghost predicate Abandon(s: State, t: State) {
    !IsDone(s) && t == s.(pc := Finished(false))
  }

  ghost predicate TryFast(c: Config, s: State, t: State) {
    && s.pc == Begin
    && var found := Reattach(s.versions, s.disk, Predicted(c));
       if found.Some? then !s.cancelled && t == s.(pc := FastAttach(found.value), pct := 95)
       else t == s.(pc := Fetch)
  }

  ghost predicate FinishFast(c: Config, s: State, t: State) {
    s.pc.FastAttach? && !s.cancelled && t == s.(pc := Commit(s.pc.id))
  }

  ghost predicate FetchProfile(c: Config, s: State, t: State) {
    s.pc == Fetch && !s.cancelled && ProfileOf(c).Some? && t == s.(pc := Fetched, pct := 1)
  }

  ghost predicate Attach(c: Config, s: State, t: State) {
    && s.pc == Fetched && !s.cancelled && ProfileOf(c).Some?
    && var p := ProfileOf(c).value;
       match AlreadyInstalled(s.versions, s.disk, p)
       case None => t == s.(pc := Finished(false))
       case Some(true) => t == s.(pc := Check(p.id), pct := 95)
       case Some(false) => t == s.(pc := Downloading)
  }

  function PoolState(s: State): A.State {
    A.State(s.disk, s.tasks)
  }

  ghost predicate Work(c: Config, s: State, t: State) {
    && s.pc == Downloading
    && t == s.(disk := t.disk, tasks := t.tasks)
    && A.Next(Pool(c), PoolState(s), PoolState(t))
  }

  /** `2 + ((completed * 88) / total) as u8`. */
  function DownloadPct(completed: nat, total: nat): nat
    requires total > 0
  {
    2 + ((completed * 88) / total) % 256
  }

  ghost predicate Join(c: Config, s: State, t: State, i: nat) {
    && s.pc == Downloading && i < |s.tasks| && i !in s.joined
    && (s.tasks[i].Done? || s.tasks[i].Failed?)
    && if s.cancelled || s.tasks[i].Failed? then t == s.(pc := Finished(false))
       else t == s.(joined := s.joined + {i}, pct := DownloadPct(|s.joined| + 1, |s.tasks|))
  }

  ghost predicate AllJoined(c: Config, s: State, t: State) {
    && s.pc == Downloading && (forall i: nat :: i < |s.tasks| ==> i in s.joined)
    && t == s.(pc := WriteJson)
  }

  ghost predicate StoreJson(c: Config, s: State, t: State) {
    && s.pc == WriteJson && !s.cancelled && c.response.Some? && ProfileOf(c).Some?
    && var id := ProfileOf(c).value.id;
       var shaped := T.Translate(c.loader, c.response.value);
       if shaped.Err? then t == s.(pc := Finished(false), pct := 95)
       else t == s.(pc := Check(id), pct := 95, versions := s.versions[id := Some(shaped.value)])
  }

  ghost predicate LastCheck(c: Config, s: State, t: State) {
    s.pc.Check? && !s.cancelled && t == s.(pc := Commit(s.pc.id))
  }

  ghost predicate WriteManifest(c: Config, s: State, t: State) {
    s.pc.Commit? && t == s.(pc := Finished(true), pct := 100,
                            instance := Some(LoaderInfo(c.loader, c.loaderVersion, s.pc.id)))
  }

  ghost predicate Joins(c: Config, s: State, t: State) {
    exists i: nat :: Join(c, s, t, i)
  }

  ghost predicate Next(c: Config, s: State, t: State) {
    || Cancel(s, t) || Abandon(s, t)
    || TryFast(c, s, t) || FinishFast(c, s, t) || FetchProfile(c, s, t) || Attach(c, s, t)
    || Work(c, s, t) || Joins(c, s, t) || AllJoined(c, s, t) || StoreJson(c, s, t)
    || LastCheck(c, s, t) || WriteManifest(c, s, t)
  }

  ghost predicate Init(c: Config, s: State) {
    && s.pc == Begin && s.pct == 0 && s.joined == {}
    && A.Init(Pool(c), PoolState(s))
  }

  ghost predicate IsRun(c: Config, run: seq<State>) {
    && |run| > 0 && Init(c, run[0])
    && forall k :: 0 <= k < |run| - 1 ==> Next(c, run[k], run[k + 1])
  }

  // ---------------------------------------------------------------- conditions

  /** Each version JSON sits in the directory of its own id. */
  predicate OwnIds(versions: map<string, Option<T.Json>>) {
    forall v :: v in versions && versions[v].Some? && T.ParseMinimal(versions[v].value).Some?
      ==> T.ParseMinimal(versions[v].value).value.id == v
  }

  /**
   The version JSON exists and every library of the fetched profile exists, but the JSON
   itself does not read back or lists a library that is missing.
   */
  predicate Stale(c: Config, s: State) {
    && Reattach(s.versions, s.disk, Predicted(c)).None?
    && ProfileOf(c).Some?
    && AlreadyInstalled(s.versions, s.disk, ProfileOf(c).value) == Some(true)
    && Reattach(s.versions, s.disk, ProfileOf(c).value.id).None?
  }

  /** Neither shortcut applies: the libraries are downloaded. */
  predicate Downloads(c: Config, s: State) {
    && Reattach(s.versions, s.disk, Predicted(c)).None?
    && ProfileOf(c).Some?
    && AlreadyInstalled(s.versions, s.disk, ProfileOf(c).value) == Some(false)
  }

  // ---------------------------------------------------------------- the invariant

  ghost predicate AllStored(c: Config, disk: A.Disk) {
    forall i :: 0 <= i < |Libs(c)| ==> A.Stored(disk, Pool(c).tasks[i])
  }

  ghost predicate AllPresent(c: Config, disk: A.Disk) {
    forall i :: 0 <= i < |Libs(c)| ==> A.Present(disk, Pool(c).tasks[i].dest)
  }

  /** What a finished pool delivers: files if the names do not clash, the right bytes if the hashes agree as well. */
  ghost predicate Delivered(c: Config, s0: State, disk: A.Disk) {
    A.ClashFree(Pool(c), s0.disk) ==> AllPresent(c, disk) && (A.Coherent(Pool(c)) ==> AllStored(c, disk))
  }

  /** How the pipeline got to naming `id` in the manifest. */
  ghost predicate Reached(c: Config, s0: State, s: State, id: string) {
    || (Reattach(s0.versions, s0.disk, Predicted(c)) == Some(id)
        && s.versions == s0.versions && s.disk == s0.disk)
    || (&& Reattach(s0.versions, s0.disk, Predicted(c)).None? && ProfileOf(c).Some? && id == ProfileOf(c).value.id
        && AlreadyInstalled(s0.versions, s0.disk, ProfileOf(c).value) == Some(true)
        && s.versions == s0.versions && s.disk == s0.disk)
    || (&& Reattach(s0.versions, s0.disk, Predicted(c)).None? && ProfileOf(c).Some? && id == ProfileOf(c).value.id
        && AlreadyInstalled(s0.versions, s0.disk, ProfileOf(c).value) == Some(false)
        && T.Translate(c.loader, c.response.value).Ok?
        && s.versions == s0.versions[id := Some(T.Translate(c.loader, c.response.value).value)]
        && Delivered(c, s0, s.disk))
  }

  ghost predicate NotYet(c: Config, s0: State, s: State) {
    s.versions == s0.versions && s.instance == s0.instance
  }

  ghost predicate Slow(c: Config, s0: State) {
    Reattach(s0.versions, s0.disk, Predicted(c)).None?
  }

  ghost predicate InDownload(c: Config, s0: State) {
    && Slow(c, s0) && ProfileOf(c).Some?
    && AlreadyInstalled(s0.versions, s0.disk, ProfileOf(c).value) == Some(false)
  }

  ghost predicate Inv(c: Config, s0: State, s: State) {
    && A.Basic(Pool(c), PoolState(s))
    && (A.ClashFree(Pool(c), s0.disk) ==> A.Inv(Pool(c), PoolState(s)))
    && (forall i :: i in s.joined ==> i < |s.tasks| && s.tasks[i].Done?)
    && match s.pc
       case Begin => NotYet(c, s0, s) && s.disk == s0.disk && s.joined == {}
       case Fetch => NotYet(c, s0, s) && s.disk == s0.disk && s.joined == {} && Slow(c, s0)
       case Fetched => NotYet(c, s0, s) && s.disk == s0.disk && s.joined == {} && Slow(c, s0)
       case FastAttach(id) => s.instance == s0.instance && Reached(c, s0, s, id)
       case Downloading => NotYet(c, s0, s) && InDownload(c, s0)
       case WriteJson => NotYet(c, s0, s) && InDownload(c, s0) && Delivered(c, s0, s.disk)
       case Check(id) => s.instance == s0.instance && Reached(c, s0, s, id)
       case Commit(id) => s.instance == s0.instance && Reached(c, s0, s, id)
       case Finished(ok) =>
         if ok then
           && s.instance.Some? && s.instance.value.kind == c.loader && s.instance.value.version == c.loaderVersion
           && Reached(c, s0, s, s.instance.value.versionId)
         else s.instance == s0.instance
  }

  /** The id in the version JSON the first shortcut found, else the `id` of the fetched profile. */
  predicate NamesTheVersion(c: Config, s0: State, id: string) {
    || Reattach(s0.versions, s0.disk, Predicted(c)) == Some(id)
    || (c.response.Some? && c.response.value.Obj? && "id" in c.response.value.fields
        && c.response.value.fields["id"] == T.Str(id))
  }

  /** The file of the library has this hash, up to the case of its hexadecimal digits. */
  predicate HashHolds(c: Config, disk: A.Disk, name: string, h: string) {
    var path := Maven.CoordToPath(name);
    && path.Ok? && path.value in disk.names && disk.names[path.value] in disk.data
    && SameUpToCase(c.sha1(disk.data[disk.names[path.value]]), h)
  }

  predicate HashesHold(c: Config, disk: A.Disk) {
    forall i :: 0 <= i < |Libs(c)| && Libs(c)[i].sha1.Some? ==>
      HashHolds(c, disk, Libs(c)[i].name, Libs(c)[i].sha1.value)
  }

  /** What a task accepts is a file with the profile's hash. */
  lemma StoredMeansHash(c: Config, disk: A.Disk)
    requires AllStored(c, disk)
    ensures HashesHold(c, disk)
  {
    hide Maven.CoordToPath, ProfileOf, Lower, SameUpToCase;
    forall i | 0 <= i < |Libs(c)| && Libs(c)[i].sha1.Some?
      ensures HashHolds(c, disk, Libs(c)[i].name, Libs(c)[i].sha1.value)
    {
      var k := Pool(c).tasks[i];
      assert A.Stored(disk, k);
      LowerExactly(c.sha1(disk.data[disk.names[k.dest]]), Libs(c)[i].sha1.value);
    }
  }

  /** A body with another hash than the profile's is never written: its task opens no file in any run. */
  lemma {:induction false} MismatchIsNeverWritten(c: Config, run: seq<State>, k: nat, i: nat)
    requires IsRun(c, run) && k < |run| && i < |Libs(c)| && Libs(c)[i].sha1.Some?
    requires !SameUpToCase(c.sha1(c.served(i)), Libs(c)[i].sha1.value)
    ensures |run[k].tasks| == |Libs(c)| && !run[k].tasks[i].Writing?
  {
    hide IsRun, SameUpToCase, Pool, Next;
    if k == 0 {
      StartsQueued(c, run);
    } else {
      MismatchIsNeverWritten(c, run, k - 1, i);
      RunNext(c, run, k - 1);
      MismatchStep(c, run[k - 1], run[k], i);
    }
  }

  lemma StartsQueued(c: Config, run: seq<State>)
    requires IsRun(c, run)
    ensures |run[0].tasks| == |Libs(c)| && forall i :: 0 <= i < |Libs(c)| ==> run[0].tasks[i] == A.Queued
  {
    hide A.SoundDisk, Next;
  }

  lemma RunNext(c: Config, run: seq<State>, k: nat)
    requires IsRun(c, run) && k + 1 < |run|
    ensures Next(c, run[k], run[k + 1])
  {
    hide Next;
  }

  lemma MismatchStep(c: Config, s: State, t: State, i: nat)
    requires Next(c, s, t) && i < |Libs(c)| == |s.tasks| && !s.tasks[i].Writing? && Libs(c)[i].sha1.Some?
    requires !SameUpToCase(c.sha1(c.served(i)), Libs(c)[i].sha1.value)
    ensures |t.tasks| == |s.tasks| && !t.tasks[i].Writing?
  {
    hide SameUpToCase, Lower, Reattach, AlreadyInstalled, ProfileOf, Predicted, T.Translate, DownloadPct, Joins, Work;
    if Work(c, s, t) {
      WorkIsNext(c, s, t);
      MismatchWork(c, s, t, i);
    } else if Joins(c, s, t) {
      JoinsMeans(c, s, t);
      var j: nat :| Join(c, s, t, j);
    }
  }

  lemma MismatchWork(c: Config, s: State, t: State, i: nat)
    requires A.Next(Pool(c), PoolState(s), PoolState(t))
    requires i < |Libs(c)| == |s.tasks| && !s.tasks[i].Writing? && Libs(c)[i].sha1.Some?
    requires !SameUpToCase(c.sha1(c.served(i)), Libs(c)[i].sha1.value)
    ensures |t.tasks| == |s.tasks| && !t.tasks[i].Writing?
  {
    hide Maven.CoordToPath, ProfileOf, A.TmpOf, A.PutAt, SameUpToCase, Lower;
    LowerExactly(c.sha1(c.served(i)), Libs(c)[i].sha1.value);
    assert !Pool(c).tasks[i].accepts(Pool(c).tasks[i].served);
    var k: nat :| A.TaskStep(Pool(c), PoolState(s), PoolState(t), k);
  }

  /** The file of the library is there, with its hash if it has one. */
  predicate GoodFile(c: Config, disk: A.Disk, lib: T.Library) {
    var path := Maven.CoordToPath(lib.name);
    && path.Ok? && path.value in disk.names && disk.names[path.value] in disk.data
    && (lib.sha1.Some? ==> SameUpToCase(c.sha1(disk.data[disk.names[path.value]]), lib.sha1.value))
  }

  /** A task that has its permit downloads exactly when the file it looks at is missing or has another hash. */
  lemma GoodFilesAreKept(c: Config, run: seq<State>, k: nat, i: nat)
    requires IsRun(c, run) && k + 1 < |run| && i < |Libs(c)| && i < |run[k].tasks| && i < |run[k + 1].tasks|
    requires run[k].tasks[i] == A.Ready
    ensures run[k + 1].tasks[i] == A.Fetching ==> !GoodFile(c, run[k].disk, Libs(c)[i])
    ensures run[k + 1].tasks[i] == A.Done ==> GoodFile(c, run[k].disk, Libs(c)[i])
    ensures run[k + 1].tasks[i] in {A.Ready, A.Fetching, A.Done, A.Failed}
  {
    hide IsRun, Next, Reattach, AlreadyInstalled, ProfileOf, Predicted, T.Translate, DownloadPct, Joins, Work, GoodFile;
    RunNext(c, run, k);
    var s, t := run[k], run[k + 1];
    if Work(c, s, t) {
      WorkIsNext(c, s, t);
      KeptOrFetched(c, s, t, i);
    } else {
      OtherStepsKeepTasks(c, s, t);
    }
  }

  lemma OtherStepsKeepTasks(c: Config, s: State, t: State)
    requires Next(c, s, t) && !Work(c, s, t)
    ensures t.tasks == s.tasks
  {
    hide Reattach, AlreadyInstalled, ProfileOf, Predicted, T.Translate, DownloadPct, Joins, Work;
    if Joins(c, s, t) {
      JoinsMeans(c, s, t);
      var j: nat :| Join(c, s, t, j);
    }
  }

  lemma KeptOrFetched(c: Config, s: State, t: State, i: nat)
    requires A.Next(Pool(c), PoolState(s), PoolState(t))
    requires i < |Libs(c)| && i < |s.tasks| && s.tasks[i] == A.Ready
    ensures i < |t.tasks| && t.tasks[i] in {A.Ready, A.Fetching, A.Done, A.Failed}
    ensures t.tasks[i] == A.Fetching ==> !GoodFile(c, s.disk, Libs(c)[i])
    ensures t.tasks[i] == A.Done ==> GoodFile(c, s.disk, Libs(c)[i])
  {
    hide Maven.CoordToPath, ProfileOf, A.TmpOf, A.PutAt, A.Stored, SameUpToCase, Lower, GoodFile, Libs;
    StoredIsGood(c, s.disk, i);
    var k: nat :| A.TaskStep(Pool(c), PoolState(s), PoolState(t), k);
  }

  lemma StoredIsGood(c: Config, disk: A.Disk, i: nat)
    requires i < |Libs(c)|
    ensures A.Stored(disk, Pool(c).tasks[i]) <==> GoodFile(c, disk, Libs(c)[i])
  {
    hide Maven.CoordToPath, ProfileOf, Lower, SameUpToCase;
    var path := Maven.CoordToPath(Libs(c)[i].name);
    if Libs(c)[i].sha1.Some? && path.Ok? && A.Present(disk, path.value) {
      LowerExactly(c.sha1(disk.data[disk.names[path.value]]), Libs(c)[i].sha1.value);
    }
  }

  /** The re-attach test, said of the JSON's fields: the id, and every library there. */
  lemma ReattachByFields(versions: map<string, Option<T.Json>>, disk: A.Disk, versionId: string, id: string)
    ensures Reattach(versions, disk, versionId) == Some(id) <==>
            && versionId in versions && versions[versionId].Some?
            && var v := versions[versionId].value;
               && v.Obj? && "id" in v.fields && v.fields["id"] == T.Str(id)
               && ("libraries" in v.fields ==>
                     && v.fields["libraries"].Arr?
                     && forall k :: 0 <= k < |v.fields["libraries"].items| ==>
                          var e := v.fields["libraries"].items[k];
                          && e.Obj? && "name" in e.fields && e.fields["name"].Str?
                          && Maven.CoordToPath(e.fields["name"].s).Ok?
                          && Maven.CoordToPath(e.fields["name"].s).value in disk.names)
  {
    hide Maven.CoordToPath;
    if versionId in versions && versions[versionId].Some? {
      T.MinimalByFields(versions[versionId].value);
    }
  }

  lemma InitInv(c: Config, s: State)
    requires Init(c, s)
    ensures Inv(c, s, s)
  {
    hide A.Init, A.Basic, A.Inv, Pool;
    A.InitBasic(Pool(c), PoolState(s));
    if A.ClashFree(Pool(c), s.disk) {
      A.InitInv(Pool(c), PoolState(s));
    }
  }

  lemma AllJoinedStored(c: Config, s0: State, s: State)
    requires A.ClashFree(Pool(c), s0.disk) ==> A.Inv(Pool(c), PoolState(s))
    requires forall i: nat :: i < |s.tasks| ==> s.tasks[i].Done?
    ensures Delivered(c, s0, s.disk)
  {
    hide A.Inv, A.ClashFree, A.Coherent, A.Stored, A.Present;
    if A.ClashFree(Pool(c), s0.disk) {
      A.AllDoneStored(Pool(c), PoolState(s));
    }
  }

  lemma PoolStepKeepsInv(c: Config, s0: State, s: State, t: State)
    requires Inv(c, s0, s) && Work(c, s, t)
    ensures Inv(c, s0, t)
  {
    hide Reattach, AlreadyInstalled, ProfileOf, Pool, A.Inv, A.Basic, A.ClashFree, A.Next, InDownload, Delivered,
         Reached;
    A.StepKeepsBasic(Pool(c), PoolState(s), PoolState(t));
    if A.ClashFree(Pool(c), s0.disk) {
      A.StepKeepsInv(Pool(c), PoolState(s), PoolState(t));
    }
    DoneStays(c, s, t);
  }

  lemma EarlyStepKeepsInv(c: Config, s0: State, s: State, t: State)
    requires Inv(c, s0, s)
    requires Cancel(s, t) || Abandon(s, t) || TryFast(c, s, t) || FinishFast(c, s, t) || FetchProfile(c, s, t)
             || Attach(c, s, t)
    ensures Inv(c, s0, t)
  {
    hide Reattach, AlreadyInstalled, ProfileOf, Predicted, Pool, Delivered, T.Translate, A.Inv, A.Basic, A.ClashFree;
    assert PoolState(t) == PoolState(s);
  }

  lemma JoinKeepsInv(c: Config, s0: State, s: State, t: State, i: nat)
    requires Inv(c, s0, s) && Join(c, s, t, i)
    ensures Inv(c, s0, t)
  {
    hide NotYet, Pool, Delivered, A.Inv, A.Basic, A.ClashFree, DownloadPct, Reached, InDownload, Slow;
    assert PoolState(t) == PoolState(s) && NotYet(c, s0, s);
    assert NotYet(c, s0, t) && t.instance == s0.instance by {
      SameNotYet(c, s0, s, t);
    }
  }

  lemma JoinsMeans(c: Config, s: State, t: State)
    requires Joins(c, s, t)
    ensures exists i: nat :: Join(c, s, t, i)
  {
  }

  lemma SameNotYet(c: Config, s0: State, s: State, t: State)
    requires NotYet(c, s0, s) && t.versions == s.versions && t.instance == s.instance
    ensures NotYet(c, s0, t) && t.instance == s0.instance
  {
  }

  lemma LateStepKeepsInv(c: Config, s0: State, s: State, t: State)
    requires Inv(c, s0, s) && (LastCheck(c, s, t) || WriteManifest(c, s, t))
    ensures Inv(c, s0, t)
  {
    hide Reattach, AlreadyInstalled, ProfileOf, Predicted, Pool, Delivered, T.Translate, A.Inv, A.Basic, A.ClashFree;
    assert PoolState(t) == PoolState(s);
  }

  lemma StoreKeepsInv(c: Config, s0: State, s: State, t: State)
    requires Inv(c, s0, s) && StoreJson(c, s, t)
    ensures Inv(c, s0, t)
  {
    hide Reattach, AlreadyInstalled, ProfileOf, Predicted, Pool, Delivered, T.Translate, A.Inv, A.Basic, A.ClashFree;
    assert PoolState(t) == PoolState(s);
  }

  /** Every step of the pipeline keeps the invariant. */
  lemma StepKeepsInv(c: Config, s0: State, s: State, t: State)
    requires Inv(c, s0, s) && Next(c, s, t)
    ensures Inv(c, s0, t)
  {
    hide Inv, Work, TryFast, FinishFast, FetchProfile, Attach, Joins, StoreJson, LastCheck, WriteManifest, Cancel,
         Abandon;
    if Work(c, s, t) {
      PoolStepKeepsInv(c, s0, s, t);
    } else if AllJoined(c, s, t) {
      JoinedKeepsInv(c, s0, s, t);
    } else if StoreJson(c, s, t) {
      StoreKeepsInv(c, s0, s, t);
    } else if Joins(c, s, t) {
      JoinsMeans(c, s, t);
      var i: nat :| Join(c, s, t, i);
      JoinKeepsInv(c, s0, s, t, i);
    } else if LastCheck(c, s, t) || WriteManifest(c, s, t) {
      LateStepKeepsInv(c, s0, s, t);
    } else {
      EarlyStepKeepsInv(c, s0, s, t);
    }
  }

  lemma JoinedKeepsInv(c: Config, s0: State, s: State, t: State)
    requires Inv(c, s0, s) && AllJoined(c, s, t)
    ensures Inv(c, s0, t)
  {
    hide Reattach, AlreadyInstalled, ProfileOf, Predicted, Pool, Delivered, A.Inv, A.Basic, A.ClashFree;
    assert PoolState(t) == PoolState(s);
    AllJoinedStored(c, s0, s);
  }

  lemma DoneStays(c: Config, s: State, t: State)
    requires A.Next(Pool(c), PoolState(s), PoolState(t))
    ensures |t.tasks| == |s.tasks|
    ensures forall i: nat :: i < |s.tasks| && s.tasks[i].Done? ==> t.tasks[i].Done?
  {
    var k: nat :| A.TaskStep(Pool(c), PoolState(s), PoolState(t), k);
  }

  lemma {:induction false} RunKeepsInv(c: Config, run: seq<State>)
    requires IsRun(c, run)
    ensures forall k :: 0 <= k < |run| ==> Inv(c, run[0], run[k])
  {
    hide Inv, Next, Init;
    if |run| == 1 {
      InitInv(c, run[0]);
    } else {
      var front := run[..|run| - 1];
      RunKeepsInv(c, front);
      assert front[|front| - 1] == run[|run| - 2];
      StepKeepsInv(c, run[0], run[|run| - 2], run[|run| - 1]);
      assert forall k :: 0 <= k < |run| - 1 ==> front[k] == run[k];
    }
  }

  // ---------------------------------------------------------------- what an install leaves behind

  lemma PresentIsOnDisk(c: Config, disk: A.Disk, i: nat)
    requires i < |Libs(c)| && A.Present(disk, Pool(c).tasks[i].dest) && Maven.CoordToPath(Libs(c)[i].name).Ok?
    ensures OnDisk(disk, Libs(c)[i].name)
  {
    hide Maven.CoordToPath;
  }

  lemma AttachedIsOnDisk(disk: A.Disk, libs: seq<T.Library>)
    ensures AllExist(disk, libs) == Some(true) <==> forall k :: 0 <= k < |libs| ==> OnDisk(disk, libs[k].name)
  {
    hide Maven.CoordToPath;
    if libs != [] {
      AttachedIsOnDisk(disk, libs[1..]);
      assert forall k :: 1 <= k < |libs| ==> libs[k] == libs[1..][k - 1];
      assert libs == [libs[0]] + libs[1..];
    }
  }

  /** The second test, exactly: without a version JSON no; else the first library without a file or a path decides. */
  lemma AlreadyInstalledExactly(versions: map<string, Option<T.Json>>, disk: A.Disk, p: T.Profile, k: nat)
    requires k <= |p.libraries| && forall j :: 0 <= j < k ==> OnDisk(disk, p.libraries[j].name)
    ensures p.id !in versions ==> AlreadyInstalled(versions, disk, p) == Some(false)
    ensures p.id in versions && k == |p.libraries| ==> AlreadyInstalled(versions, disk, p) == Some(true)
    ensures p.id in versions && k < |p.libraries| && !OnDisk(disk, p.libraries[k].name) ==>
              AlreadyInstalled(versions, disk, p)
              == if Maven.CoordToPath(p.libraries[k].name).Ok? then Some(false) else None
  {
    hide Maven.CoordToPath;
    FirstMissing(disk, p.libraries, k);
  }

  lemma {:induction false} FirstMissing(disk: A.Disk, libs: seq<T.Library>, k: nat)
    requires k <= |libs| && forall j :: 0 <= j < k ==> OnDisk(disk, libs[j].name)
    ensures k == |libs| ==> AllExist(disk, libs) == Some(true)
    ensures k < |libs| && !OnDisk(disk, libs[k].name) ==>
              AllExist(disk, libs) == if Maven.CoordToPath(libs[k].name).Ok? then Some(false) else None
    decreases k
  {
    hide Maven.CoordToPath;
    if k > 0 {
      FirstMissing(disk, libs[1..], k - 1);
    }
  }

  /** The version JSON just written reads back, and every library it lists was stored. */
  lemma DownloadIsLaunchable(c: Config, versions: map<string, Option<T.Json>>, disk: A.Disk)
    requires ProfileOf(c).Some? && T.Translate(c.loader, c.response.value).Ok? && AllPresent(c, disk)
    ensures var id := ProfileOf(c).value.id;
            Reattach(versions[id := Some(T.Translate(c.loader, c.response.value).value)], disk, id).Some?
  {
    T.TranslatedReadsBack(c.loader, c.response.value);
    var libs := ProfileOf(c).value.libraries;
    hide T.Translate, T.ParseProfile, T.ParseMinimal, OnDisk;
    forall k | 0 <= k < |libs|
      ensures OnDisk(disk, T.Names(libs)[k])
    {
      PresentIsOnDisk(c, disk, k);
    }
  }

  /**
   In every interleaving, with cancellation, failure or a crash after any step, the instance
   keeps its loader until the last step. When no library is the temporary file of another one
   to be downloaded, a finished install is launchable if and only if it did not start from a
   stale version JSON; when entries for one path agree on its hash, on the download path the
   file of every library with a hash has that hash. The manifest names the loader and version
   asked for, under the id of the version JSON that was found or fetched.
   */
  lemma InstallOutcome(c: Config, run: seq<State>, k: nat)
    requires IsRun(c, run) && k < |run|
    ensures run[k].pc != Finished(true) ==> run[k].instance == run[0].instance
    ensures run[k].pc == Finished(true) ==>
              && run[k].instance.Some?
              && run[k].instance.value.kind == c.loader && run[k].instance.value.version == c.loaderVersion
              && NamesTheVersion(c, run[0], run[k].instance.value.versionId)
    ensures run[k].pc == Finished(true) && A.ClashFree(Pool(c), run[0].disk) && OwnIds(run[0].versions) ==>
              (Launchable(run[k], run[k].instance.value.versionId) <==> !Stale(c, run[0]))
    ensures && run[k].pc == Finished(true) && A.ClashFree(Pool(c), run[0].disk) && A.Coherent(Pool(c))
            && Downloads(c, run[0]) ==>
              AllStored(c, run[k].disk) && HashesHold(c, run[k].disk)
  {
    hide IsRun, Inv, OwnIds, Launchable, Stale, Downloads, AllStored, HashesHold, NamesTheVersion, Pool;
    hide A.ClashFree, A.Coherent;
    RunKeepsInv(c, run);
    KeepsUntilFinished(c, run[0], run[k]);
    if run[k].pc == Finished(true) && A.ClashFree(Pool(c), run[0].disk) {
      FinishedOutcome(c, run[0], run[k]);
      if AllStored(c, run[k].disk) {
        StoredMeansHash(c, run[k].disk);
      }
    }
  }

  lemma KeepsUntilFinished(c: Config, s0: State, s: State)
    requires Inv(c, s0, s)
    ensures s.pc != Finished(true) ==> s.instance == s0.instance
    ensures s.pc == Finished(true) ==>
              && s.instance.Some?
              && s.instance.value.kind == c.loader && s.instance.value.version == c.loaderVersion
              && NamesTheVersion(c, s0, s.instance.value.versionId)
  {
    hide A.Inv, A.Basic, A.ClashFree, Delivered, InDownload, Pool, Reattach, AlreadyInstalled, Predicted;
    hide T.ParseProfile, T.Translate;
    if c.response.Some? {
      T.ProfileByFields(c.response.value);
    }
  }

  lemma FinishedOutcome(c: Config, s0: State, s: State)
    requires Inv(c, s0, s) && s.pc == Finished(true) && A.ClashFree(Pool(c), s0.disk)
    ensures s.instance.Some?
    ensures OwnIds(s0.versions) ==> (Launchable(s, s.instance.value.versionId) <==> !Stale(c, s0))
    ensures A.Coherent(Pool(c)) && Downloads(c, s0) ==> AllStored(c, s.disk)
  {
    hide A.Inv, A.Basic, A.ClashFree, A.Coherent, AlreadyInstalled, ProfileOf, Predicted, AllStored, AllPresent,
         T.Translate, T.ParseMinimal, OnDisk;
    var id := s.instance.value.versionId;
    if Downloads(c, s0) {
      DownloadIsLaunchable(c, s0.versions, s.disk);
    } else if OwnIds(s0.versions) && Reattach(s0.versions, s0.disk, Predicted(c)).Some? {
      assert id == Predicted(c);
    }
  }

  /**
   When the meta API returns the id that was predicted, the second shortcut is only ever
   reached because the first one found this very version JSON broken: taking it is exactly
   what leaves an install that cannot be launched.
   */
  lemma SecondShortcutIsStale(c: Config, s: State)
    requires ProfileOf(c).Some? && ProfileOf(c).value.id == Predicted(c)
    ensures Stale(c, s) <==>
            && Reattach(s.versions, s.disk, Predicted(c)).None?
            && AlreadyInstalled(s.versions, s.disk, ProfileOf(c).value) == Some(true)
  {
  }

  /** The failing case is real: from every stale store a run reports success on a version that cannot be launched. */
  lemma StaleRunBreaks(c: Config, s: State) returns (run: seq<State>)
    requires Init(c, s) && !s.cancelled && Stale(c, s)
    ensures IsRun(c, run) && run[0] == s
    ensures var t := run[|run| - 1];
            && t.pc == Finished(true) && t.instance.Some? && t.instance.value.versionId == ProfileOf(c).value.id
            && !Launchable(t, t.instance.value.versionId)
  {
    hide Init, IsRun, ProfileOf, Predicted, Reattach, AlreadyInstalled;
    run := AttachSucceeds(c, s);
  }

  /** A concrete stale store: an unreadable version JSON and a profile without libraries. */
  lemma StaleExample(c: Config, s: State)
    requires c.response == Some(T.Obj(map["id" := T.Str(Predicted(c))]))
    requires s.versions == map[Predicted(c) := None]
    ensures Stale(c, s)
  {
    assert ProfileOf(c).value.id == Predicted(c) && ProfileOf(c).value.libraries == [];
  }

  /**
   The two assumptions on the libraries, in terms of the profile: entries with the same path
   carry the same hash, and no file name ends in `.tmp`.
   */
  lemma PoolIsSafe(c: Config)
    requires forall i, j :: 0 <= i < |Libs(c)| && 0 <= j < |Libs(c)|
               && Maven.CoordToPath(Libs(c)[i].name) == Maven.CoordToPath(Libs(c)[j].name)
               ==> Libs(c)[i].sha1 == Libs(c)[j].sha1
    requires forall i :: 0 <= i < |Libs(c)| && Maven.CoordToPath(Libs(c)[i].name).Ok?
               ==> !EndsWith(Maven.CoordToPath(Libs(c)[i].name).value, ".tmp")
    ensures A.Coherent(Pool(c)) && forall d :: A.ClashFree(Pool(c), d)
  {
    hide Maven.CoordToPath, ProfileOf, A.Needs;
    A.NoTmpNamesNoClash(Pool(c));
    forall i | 0 <= i < |Libs(c)|
      ensures Maven.CoordToPath(Libs(c)[i].name).Ok? ==> Maven.CoordToPath(Libs(c)[i].name).value != ""
    {
      PathNotEmpty(Libs(c)[i].name);
    }
  }

  lemma PathNotEmpty(coord: string)
    ensures Maven.CoordToPath(coord).Ok? ==> Maven.CoordToPath(coord).value != ""
  {
    hide Maven.Parse;
  }

  // ---------------------------------------------------------------- which installs can succeed

  ghost predicate EndsWell(c: Config, s: State, run: seq<State>) {
    IsRun(c, run) && run[0] == s && run[|run| - 1].pc == Finished(true)
  }

  lemma OneMore(c: Config, run: seq<State>, t: State)
    requires IsRun(c, run) && Next(c, run[|run| - 1], t)
    ensures IsRun(c, run + [t])
  {
    hide Next, Init;
  }

  /** A schedule of the library pool is a stretch of the install. */
  lemma {:induction false} LiftPool(c: Config, before: seq<State>, pool: seq<A.State>) returns (run: seq<State>)
    requires IsRun(c, before) && before[|before| - 1].pc == Downloading
    requires A.IsRun(Pool(c), pool) && pool[0] == PoolState(before[|before| - 1])
    ensures IsRun(c, run) && run[0] == before[0]
    ensures var last := pool[|pool| - 1];
            run[|run| - 1] == before[|before| - 1].(disk := last.disk, tasks := last.pcs)
  {
    hide A.Next, Next, Init, Pool;
    if |pool| == 1 {
      run := before;
    } else {
      var front := pool[..|pool| - 1];
      assert front[|front| - 1] == pool[|pool| - 2];
      run := LiftPool(c, before, front);
      var s := run[|run| - 1];
      var t := s.(disk := pool[|pool| - 1].disk, tasks := pool[|pool| - 1].pcs);
      assert A.Next(Pool(c), pool[|pool| - 2], pool[|pool| - 1]);
      PoolMoves(c, s, t);
      OneMore(c, run, t);
      run := run + [t];
    }
  }

  lemma PoolMoves(c: Config, s: State, t: State)
    requires s.pc == Downloading && t == s.(disk := t.disk, tasks := t.tasks)
    requires A.Next(Pool(c), PoolState(s), PoolState(t))
    ensures Next(c, s, t)
  {
    hide A.Next, Pool, Cancel, Abandon, TryFast, FinishFast, FetchProfile, Attach, Joins, StoreJson;
    assert Work(c, s, t);
  }

  /** Join the tasks in order, from the `n`-th on. */
  lemma {:induction false} JoinRest(c: Config, before: seq<State>, n: nat) returns (run: seq<State>)
    requires IsRun(c, before)
    requires var s := before[|before| - 1];
             && s.pc == Downloading && !s.cancelled && n <= |s.tasks| && s.joined == Indices(n)
             && forall i :: 0 <= i < |s.tasks| ==> s.tasks[i] == A.Done
    ensures IsRun(c, run) && run[0] == before[0]
    ensures var s, t := before[|before| - 1], run[|run| - 1];
            t == s.(joined := Indices(|s.tasks|), pct := t.pct)
    decreases |before[|before| - 1].tasks| - n
  {
    hide Next, Init, DownloadPct;
    var s := before[|before| - 1];
    run := before;
    if n < |s.tasks| {
      var t := s.(joined := s.joined + {n}, pct := DownloadPct(|s.joined| + 1, |s.tasks|));
      assert Join(c, s, t, n);
      JoinMoves(c, s, t, n);
      OneMore(c, run, t);
      assert t.joined == Indices(n + 1);
      run := JoinRest(c, run + [t], n + 1);
    }
  }

  lemma JoinMoves(c: Config, s: State, t: State, i: nat)
    requires Join(c, s, t, i)
    ensures Next(c, s, t)
  {
    hide Join, Cancel, Abandon, TryFast, FinishFast, FetchProfile, Attach, Work, StoreJson;
  }

  lemma ServedWell(c: Config)
    requires forall i :: 0 <= i < |Libs(c)| ==>
               && Maven.CoordToPath(Libs(c)[i].name).Ok?
               && (Libs(c)[i].sha1.Some? ==> SameUpToCase(c.sha1(c.served(i)), Libs(c)[i].sha1.value))
    ensures A.Servable(Pool(c))
  {
    hide Maven.CoordToPath, ProfileOf, Lower, SameUpToCase;
    forall i | 0 <= i < |Libs(c)|
      ensures Pool(c).tasks[i].accepts(Pool(c).tasks[i].served)
    {
      if Libs(c)[i].sha1.Some? {
        LowerExactly(c.sha1(c.served(i)), Libs(c)[i].sha1.value);
      }
    }
  }

  /** With nothing on disk to attach to: fetch, download every library, join them all, write. */
  lemma DownloadSucceeds(c: Config, s: State) returns (run: seq<State>)
    requires Init(c, s) && !s.cancelled && Downloads(c, s)
    requires A.Servable(Pool(c)) && T.Translate(c.loader, c.response.value).Ok?
    ensures EndsWell(c, s, run)
  {
    hide A.Init, A.Next, A.AllDone, A.Servable, Next, ProfileOf, Predicted, Reattach, AlreadyInstalled, Pool;
    hide T.Translate;
    var s1 := s.(pc := Fetch);
    var s2 := s1.(pc := Fetched, pct := 1);
    var s3 := s2.(pc := Downloading);
    assert TryFast(c, s, s1) && FetchProfile(c, s1, s2) && Attach(c, s2, s3);
    Begins(c, s, s1, s2, s3);
    run := [s, s1, s2, s3];
    PoolIsFree(c, s3);
    var pool := A.UndoomedCanFinish(Pool(c), PoolState(s3));
    run := LiftPool(c, run, pool);
    assert Indices(0) == {};
    assert A.AllDone(pool[|pool| - 1]);
    AllDoneMeans(pool[|pool| - 1]);
    run := JoinRest(c, run, 0);
    run := WriteAll(c, run);
  }

  lemma AllDoneMeans(s: A.State)
    requires A.AllDone(s)
    ensures forall i :: 0 <= i < |s.pcs| ==> s.pcs[i] == A.Done
  {
  }

  lemma Begins(c: Config, s: State, s1: State, s2: State, s3: State)
    requires Init(c, s) && TryFast(c, s, s1) && FetchProfile(c, s1, s2) && Attach(c, s2, s3)
    ensures IsRun(c, [s, s1, s2, s3])
  {
    hide A.Init, TryFast, FetchProfile, Attach, Cancel, Abandon, FinishFast, Work, Joins, StoreJson, LastCheck;
  }

  lemma PoolIsFree(c: Config, s: State)
    requires A.Init(Pool(c), PoolState(s))
    ensures A.Free(Pool(c), PoolState(s)) && Pool(c).limit > 0
  {
    hide A.SoundDisk;
  }

  lemma WriteAll(c: Config, before: seq<State>) returns (run: seq<State>)
    requires IsRun(c, before) && ProfileOf(c).Some? && T.Translate(c.loader, c.response.value).Ok?
    requires var s := before[|before| - 1];
             s.pc == Downloading && !s.cancelled && forall i: nat :: i < |s.tasks| ==> i in s.joined
    ensures EndsWell(c, before[0], run)
  {
    hide T.ParseProfile, T.Translate, Init, A.Next, Cancel, Abandon, TryFast, FinishFast, FetchProfile, Attach, Work,
         Joins;
    var s := before[|before| - 1];
    var id := ProfileOf(c).value.id;
    var s1 := s.(pc := WriteJson);
    var s2 := s1.(pc := Check(id), pct := 95,
                  versions := s.versions[id := Some(T.Translate(c.loader, c.response.value).value)]);
    var s3 := s2.(pc := Commit(id));
    var s4 := s3.(pc := Finished(true), pct := 100, instance := Some(LoaderInfo(c.loader, c.loaderVersion, id)));
    assert AllJoined(c, s, s1) && StoreJson(c, s1, s2) && LastCheck(c, s2, s3) && WriteManifest(c, s3, s4);
    run := before + [s1] + [s2] + [s3] + [s4];
    OneMore(c, before, s1);
    OneMore(c, before + [s1], s2);
    OneMore(c, before + [s1] + [s2], s3);
    OneMore(c, before + [s1] + [s2] + [s3], s4);
  }

  /**
   Which installs can succeed, when every body that is served passes its hash test: those whose
   predicted version can be attached, and those whose profile arrives and names libraries with
   valid coordinates only.
   */
  lemma SucceedsExactly(c: Config, s: State)
    requires Init(c, s) && !s.cancelled
    requires forall i :: 0 <= i < |Libs(c)| && Libs(c)[i].sha1.Some? ==>
               SameUpToCase(c.sha1(c.served(i)), Libs(c)[i].sha1.value)
    ensures (exists run :: EndsWell(c, s, run)) <==>
            || Reattach(s.versions, s.disk, Predicted(c)).Some?
            || (ProfileOf(c).Some? && forall i :: 0 <= i < |Libs(c)| ==> Maven.CoordToPath(Libs(c)[i].name).Ok?)
  {
    hide Init, EndsWell, Reattach, Predicted, AlreadyInstalled, ProfileOf, Maven.CoordToPath, T.Translate, SameUpToCase;
    if run :| EndsWell(c, s, run) {
      SuccessMeans(c, s, run);
    }
    if Reattach(s.versions, s.disk, Predicted(c)).Some? {
      var run := FastSucceeds(c, s);
    } else if ProfileOf(c).Some? && forall i :: 0 <= i < |Libs(c)| ==> Maven.CoordToPath(Libs(c)[i].name).Ok? {
      ServedWell(c);
      PathsTranslate(c);
      InstalledUnlessPathless(s, c);
      if AlreadyInstalled(s.versions, s.disk, ProfileOf(c).value) == Some(true) {
        var run := AttachSucceeds(c, s);
      } else {
        assert Downloads(c, s);
        var run := DownloadSucceeds(c, s);
      }
    }
  }

  lemma SuccessMeans(c: Config, s: State, run: seq<State>)
    requires EndsWell(c, s, run)
    ensures || Reattach(s.versions, s.disk, Predicted(c)).Some?
            || (ProfileOf(c).Some? && forall i :: 0 <= i < |Libs(c)| ==> Maven.CoordToPath(Libs(c)[i].name).Ok?)
  {
    hide A.Inv, A.Basic, A.ClashFree, Delivered, Reattach, Predicted, Pool, Maven.CoordToPath, T.Translate;
    hide Next, Init, T.ParseProfile;
    RunKeepsInv(c, run);
    assert Inv(c, s, run[|run| - 1]);
    if ProfileOf(c).Some? {
      AttachedIsOnDisk(s.disk, Libs(c));
      if T.Translate(c.loader, c.response.value).Ok? {
        TranslatedHasPaths(c);
      }
    }
  }

  lemma TranslatedHasPaths(c: Config)
    requires ProfileOf(c).Some? && T.Translate(c.loader, c.response.value).Ok?
    ensures forall i :: 0 <= i < |Libs(c)| ==> Maven.CoordToPath(Libs(c)[i].name).Ok?
  {
    hide T.ParseProfile, T.Translate, Maven.CoordToPath;
    var raw := c.response.value;
    T.TranslatesExactly(c.loader, raw);
    T.ProfileByFields(raw);
    forall i | 0 <= i < |Libs(c)|
      ensures Maven.CoordToPath(Libs(c)[i].name).Ok?
    {
      assert T.ReadFrom(Libs(c)[i], raw.fields["libraries"].items[i]);
    }
  }

  lemma PathsTranslate(c: Config)
    requires ProfileOf(c).Some? && forall i :: 0 <= i < |Libs(c)| ==> Maven.CoordToPath(Libs(c)[i].name).Ok?
    ensures T.Translate(c.loader, c.response.value).Ok?
  {
    hide T.ParseProfile, T.Translate, Maven.CoordToPath;
    var raw := c.response.value;
    T.TranslatesExactly(c.loader, raw);
    T.ProfileByFields(raw);
    if "libraries" in raw.fields {
      forall k | 0 <= k < |raw.fields["libraries"].items|
        ensures var e := raw.fields["libraries"].items[k];
                && e.Obj? && "name" in e.fields && e.fields["name"].Str?
                && Maven.CoordToPath(e.fields["name"].s).Ok?
      {
        assert T.ReadFrom(Libs(c)[k], raw.fields["libraries"].items[k]);
      }
    }
  }

  lemma InstalledUnlessPathless(s: State, c: Config)
    requires ProfileOf(c).Some? && forall i :: 0 <= i < |Libs(c)| ==> Maven.CoordToPath(Libs(c)[i].name).Ok?
    ensures var there := AlreadyInstalled(s.versions, s.disk, ProfileOf(c).value);
            there == Some(true) || there == Some(false)
  {
    hide Maven.CoordToPath, ProfileOf;
    AllExistAnswers(s.disk, Libs(c));
    var there := AlreadyInstalled(s.versions, s.disk, ProfileOf(c).value);
    assert there.value == true || there.value == false;
  }

  lemma AllExistAnswers(disk: A.Disk, libs: seq<T.Library>)
    requires forall i :: 0 <= i < |libs| ==> Maven.CoordToPath(libs[i].name).Ok?
    ensures AllExist(disk, libs).Some?
  {
    hide Maven.CoordToPath;
  }

  lemma FastSucceeds(c: Config, s: State) returns (run: seq<State>)
    requires Init(c, s) && !s.cancelled && Reattach(s.versions, s.disk, Predicted(c)).Some?
    ensures EndsWell(c, s, run)
  {
    hide A.Init, A.Next, Predicted, Reattach, Pool;
    var id := Reattach(s.versions, s.disk, Predicted(c)).value;
    var s1 := s.(pc := FastAttach(id), pct := 95);
    var s2 := s1.(pc := Commit(id));
    var s3 := s2.(pc := Finished(true), pct := 100, instance := Some(LoaderInfo(c.loader, c.loaderVersion, id)));
    assert TryFast(c, s, s1) && FinishFast(c, s1, s2) && WriteManifest(c, s2, s3);
    run := [s, s1, s2, s3];
  }

  lemma AttachSucceeds(c: Config, s: State) returns (run: seq<State>)
    requires Init(c, s) && !s.cancelled && ProfileOf(c).Some?
    requires Reattach(s.versions, s.disk, Predicted(c)).None?
    requires AlreadyInstalled(s.versions, s.disk, ProfileOf(c).value) == Some(true)
    ensures EndsWell(c, s, run) && run[|run| - 1].instance.Some?
            && run[|run| - 1].instance.value.versionId == ProfileOf(c).value.id
            && run[|run| - 1].versions == s.versions && run[|run| - 1].disk == s.disk
  {
    hide A.Init, A.Next, ProfileOf, Predicted, Reattach, AlreadyInstalled, Pool;
    var id := ProfileOf(c).value.id;
    var s1 := s.(pc := Fetch);
    var s2 := s1.(pc := Fetched, pct := 1);
    var s3 := s2.(pc := Check(id), pct := 95);
    var s4 := s3.(pc := Commit(id));
    var s5 := s4.(pc := Finished(true), pct := 100, instance := Some(LoaderInfo(c.loader, c.loaderVersion, id)));
    assert TryFast(c, s, s1) && FetchProfile(c, s1, s2) && Attach(c, s2, s3) && LastCheck(c, s3, s4)
           && WriteManifest(c, s4, s5);
    run := [s, s1, s2, s3, s4, s5];
  }

  // ---------------------------------------------------------------- cancellation, permits, progress

  /** Once the token fires before the manifest write has begun, the instance never changes. */
  lemma {:induction false} CancelledNeverCommits(c: Config, run: seq<State>, j: nat, k: nat)
    requires IsRun(c, run) && j <= k < |run|
    requires run[j].cancelled && !run[j].pc.Commit? && run[j].pc != Finished(true)
    ensures run[k].cancelled && !run[k].pc.Commit? && run[k].pc != Finished(true) && run[k].instance == run[j].instance
    decreases k - j
  {
    hide Next, Init;
    if k > j {
      CancelledNeverCommits(c, run, j, k - 1);
      CancelledStep(c, run[k - 1], run[k]);
    }
  }

  lemma CancelledStep(c: Config, s: State, t: State)
    requires Next(c, s, t) && s.cancelled && !s.pc.Commit? && s.pc != Finished(true)
    ensures t.cancelled && !t.pc.Commit? && t.pc != Finished(true) && t.instance == s.instance
  {
    hide A.Next, Reattach, AlreadyInstalled, ProfileOf, Predicted, Pool, T.Translate, DownloadPct, Joins, Work;
    if Work(c, s, t) {
      WorkKeeps(c, s, t);
    } else if Joins(c, s, t) {
      JoinsMeans(c, s, t);
      var i: nat :| Join(c, s, t, i);
    }
  }

  lemma WorkKeeps(c: Config, s: State, t: State)
    requires Work(c, s, t)
    ensures t.cancelled == s.cancelled && t.instance == s.instance && t.pc == s.pc && t.pct == s.pct
            && t.joined == s.joined
  {
    hide A.Next, Pool;
  }

  /** At most eight permits are held in any state of any run. */
  lemma PermitsBounded(c: Config, run: seq<State>, k: nat)
    requires IsRun(c, run) && k < |run|
    ensures |A.Held(run[k].tasks)| <= 8
  {
    hide A.Held, A.Inv, A.SoundDisk, A.ClashFree, IsRun;
    RunKeepsInv(c, run);
    assert A.Basic(Pool(c), PoolState(run[k]));
  }

  predicate PctBound(s: State) {
    match s.pc
    case Begin => s.pct == 0
    case Fetch => s.pct == 0
    case Fetched => s.pct == 1
    case Downloading => s.pct == 1 || (s.tasks != [] && s.pct == DownloadPct(|s.joined|, |s.tasks|))
    case WriteJson => s.pct <= 90
    case FastAttach(_) => s.pct == 95
    case Check(_) => s.pct == 95
    case Commit(_) => s.pct == 95
    case Finished(_) => s.pct <= 100
  }

  lemma PctGrows(m: nat, n: nat, total: nat)
    requires m <= n <= total && total > 0
    ensures 1 <= DownloadPct(m, total) <= DownloadPct(n, total) <= 90
  {
    SmallShare(m, total);
    SmallShare(n, total);
    DivMonotone(m * 88, n * 88, total);
    DivBelow(n * 88, 88, total);
  }

  /** The percentage is two plus the whole part of 88 times the share of finished libraries. */
  lemma PctIsShare(n: nat, total: nat)
    requires n <= total && total > 0
    ensures total * (DownloadPct(n, total) - 2) <= n * 88 < total * (DownloadPct(n, total) - 1)
  {
    SmallShare(n, total);
    DivShare(n * 88, total);
  }

  lemma SmallShare(n: nat, total: nat)
    requires n <= total && total > 0
    ensures DownloadPct(n, total) == 2 + n * 88 / total
  {
    DivBelow(n * 88, 88, total);
    DivMonotone(0, n * 88, total);
    SmallRemainder(n * 88 / total);
  }

  lemma SmallRemainder(q: nat)
    requires q <= 88
    ensures q % 256 == q
  {
  }

  lemma PctEnds(total: nat)
    requires total > 0
    ensures DownloadPct(0, total) == 2 && DownloadPct(total, total) == 90
  {
    DivExact(88, total);
    DivExact(0, total);
  }

  lemma JoinedBound(s: State)
    requires forall i :: i in s.joined ==> i < |s.tasks|
    ensures |s.joined| <= |s.tasks|
  {
    hide Indices;
    SubsetSize(s.joined, Indices(|s.tasks|));
  }

  lemma StepRaisesPct(c: Config, s: State, t: State)
    requires PctBound(s) && Next(c, s, t)
    requires forall i :: i in t.joined ==> i < |t.tasks|
    requires forall i :: i in s.joined ==> i < |s.tasks|
    ensures PctBound(t) && s.pct <= t.pct <= 100
  {
    hide A.Next, Reattach, AlreadyInstalled, ProfileOf, Predicted, Pool, DownloadPct, T.Translate, Work, Joins;
    if s.tasks != [] {
      JoinedBound(s);
      PctGrows(|s.joined|, |s.joined|, |s.tasks|);
    }
    if Joins(c, s, t) {
      JoinsMeans(c, s, t);
      var i: nat :| Join(c, s, t, i);
      JoinRaisesPct(c, s, t, i);
    } else if Work(c, s, t) {
      WorkKeeps(c, s, t);
      WorkIsNext(c, s, t);
      DoneStays(c, s, t);
    }
  }

  lemma WorkIsNext(c: Config, s: State, t: State)
    requires Work(c, s, t)
    ensures s.pc == Downloading && A.Next(Pool(c), PoolState(s), PoolState(t))
  {
    hide A.Next, Pool;
  }

  lemma JoinRaisesPct(c: Config, s: State, t: State, i: nat)
    requires PctBound(s) && Join(c, s, t, i)
    requires forall i :: i in t.joined ==> i < |t.tasks|
    requires forall i :: i in s.joined ==> i < |s.tasks|
    ensures PctBound(t) && s.pct <= t.pct <= 100
  {
    hide DownloadPct;
    JoinedBound(s);
    JoinedBound(t);
    PctGrows(|s.joined|, |s.joined|, |s.tasks|);
    if t.pc == Downloading {
      assert |t.joined| == |s.joined| + 1;
      PctGrows(|s.joined|, |t.joined|, |s.tasks|);
    }
  }

  lemma {:induction false} PctInRun(c: Config, run: seq<State>, k: nat)
    requires IsRun(c, run) && k < |run| && forall i :: 0 <= i < |run| ==> Inv(c, run[0], run[i])
    ensures PctBound(run[k]) && run[k].pct <= 100
    ensures k > 0 ==> run[k - 1].pct <= run[k].pct
  {
    if k > 0 {
      hide Inv, Next, PctBound;
      PctInRun(c, run, k - 1);
      assert Next(c, run[k - 1], run[k]);
      JoinedInRange(c, run[0], run[k - 1]);
      JoinedInRange(c, run[0], run[k]);
      StepRaisesPct(c, run[k - 1], run[k]);
    }
  }

  lemma JoinedInRange(c: Config, s0: State, s: State)
    requires Inv(c, s0, s)
    ensures forall i :: i in s.joined ==> i < |s.tasks|
  {
  }

  /** The reported percentage never goes down over a whole run and never exceeds 100. */
  lemma {:induction false} ProgressNeverFalls(c: Config, run: seq<State>, j: nat, k: nat)
    requires IsRun(c, run) && j <= k < |run|
    ensures run[j].pct <= run[k].pct <= 100
    decreases k - j
  {
    hide Inv, PctBound, IsRun;
    RunKeepsInv(c, run);
    PctInRun(c, run, k);
    if j < k {
      ProgressNeverFalls(c, run, j, k - 1);
    }
  }
}
