/**
 Parallel download of a modpack's files: a permit per task, the URL allowlist before every
 request, the next URL after a network error, and a join loop that stops at the first
 failure. A state machine over all interleavings; release build, so no loopback exemption.
 */
module ModpackDownload {
  import opened Common
  import opened Counting

  const MOD_DOWNLOAD_CONCURRENCY: nat := 6

  datatype EnvRequirement = Required | Optional | Unsupported

  datatype MrpackFile = MrpackFile(path: string, downloads: seq<string>, sha512: string, client: Option<EnvRequirement>)

  datatype Host = Unparseable | NoHost | Named(name: string)

  const MODPACK_ALLOWLIST: set<string> := {
    "cdn.modrinth.com", "github.com", "raw.githubusercontent.com", "gitlab.com",
    "cdn.azuriom.com", "maven.fabricmc.net", "maven.minecraftforge.net" }

  datatype ModpackError =
    | Cancelled
    | DisallowedSource(host: string, path: string)
    | HashMismatch(path: string)
    | Http(reason: string)
    | Io(reason: string)
    | Panicked

  datatype Row = Row(modId: string, versionId: string, versionLabel: string, sha512: string, size: nat)

  /** `files` is the manifest's list, `hostOf` the URL parser. */
  datatype Config = Config(files: seq<MrpackFile>, hostOf: string -> Host)

  // ---------------------------------------------------------------- pure helpers

  function IsUrlAllowlisted(c: Config, url: string, path: string): Result<(), ModpackError> {
    match c.hostOf(url)
    case Unparseable => Err(DisallowedSource("<unparseable>", path))
    case NoHost => Err(DisallowedSource("<no-host>", path))
    case Named(h) => if h in MODPACK_ALLOWLIST then Ok(()) else Err(DisallowedSource(h, path))
  }

  predicate ForClient(f: MrpackFile) {
    f.client != Some(Unsupported)
  }

  function FilterFilesForClient(files: seq<MrpackFile>): (r: seq<MrpackFile>)
    ensures forall f :: f in r <==> f in files && ForClient(f)
  {
    if files == [] then []
    else (if ForClient(files[0]) then [files[0]] else []) + FilterFilesForClient(files[1..])
  }

  /** Required, optional and unmarked files are for the client; the filter keeps their order and number. */
  lemma ForClientExactly(f: MrpackFile)
    ensures FilterFilesForClient([f])
            == if f.client.None? || f.client == Some(Required) || f.client == Some(Optional) then [f] else []
  {
    assert [f][1..] == [] && FilterFilesForClient([]) == [];
    assert [f] + [] == [f] && [] + FilterFilesForClient([]) == [];
    assert f.client.Some? ==> f.client.value.Required? || f.client.value.Optional? || f.client.value.Unsupported?;
  }

  lemma {:induction false} FilterInOrder(a: seq<MrpackFile>, b: seq<MrpackFile>)
    ensures FilterFilesForClient(a + b) == FilterFilesForClient(a) + FilterFilesForClient(b)
    decreases |a|
  {
    if a == [] {
      assert a + b == b;
    } else {
      assert (a + b)[1..] == a[1..] + b;
      FilterInOrder(a[1..], b);
    }
  }

  function Take(s: string, n: nat): string {
    if |s| <= n then s else s[..n]
  }

  function BuildModRow(f: MrpackFile, size: nat): Row {
    Row("modpack:" + Take(f.sha512, 16), f.sha512, "modpack-" + Take(f.sha512, 8), f.sha512, size)
  }

  function Wanted(c: Config): seq<MrpackFile> {
    FilterFilesForClient(c.files)
  }

  /** What a row says of its file: identity and label from the hash, the hash itself, the size fetched. */
  lemma RowFields(f: MrpackFile, size: nat)
    ensures var row := BuildModRow(f, size);
            && row.size == size && row.sha512 == f.sha512 && row.versionId == f.sha512
            && |row.modId| == 8 + (if |f.sha512| < 16 then |f.sha512| else 16)
            && row.modId[..8] == "modpack:" && row.modId[8..] <= f.sha512
            && |row.versionLabel| == 8 + (if |f.sha512| < 8 then |f.sha512| else 8)
            && row.versionLabel[..8] == "modpack-" && row.versionLabel[8..] <= f.sha512
  {
  }

  // ---------------------------------------------------------------- states and steps

  /** `Next(k)`: about to look at URL `k`; `Fetching(k)`: its request is out. */
  datatype Pc =
    | Queued | Ready
    | Next(k: nat, lastErr: Option<ModpackError>)
    | Fetching(k: nat)
    | Done(k: nat, row: Row)
    | Failed(error: ModpackError)

  datatype Phase = Begin | Running | Finished(r: Result<seq<Row>, ModpackError>)

  /** `requests` logs every URL a request was made to, `joined` what was joined so far, in order. */
  datatype State = State(
    phase: Phase, cancelled: bool, tasks: seq<Pc>, requests: seq<string>,
    joined: seq<nat>, rows: seq<Row>, pct: nat)

  predicate Active(pc: Pc) {
    pc.Ready? || pc.Next? || pc.Fetching?
  }

  function Held(tasks: seq<Pc>): set<nat> {
    set i: nat | i < |tasks| && Active(tasks[i])
  }

  /** What came back from one request; an abort only after the token fired. */
  datatype Answer = Fetched(size: nat) | Mismatch | Aborted | HttpError(reason: string) | IoError(reason: string)

  ghost predicate TaskStep(c: Config, s: State, t: State, i: nat) {
    && s.phase.Running? && i < |s.tasks| && |s.tasks| == |Wanted(c)|
    && var f := Wanted(c)[i];
       match s.tasks[i]
       case Queued => |Held(s.tasks)| < MOD_DOWNLOAD_CONCURRENCY && Goes(s, t, i, Ready)
       case Ready =>
         if s.cancelled then Goes(s, t, i, Failed(Cancelled))
         else if f.downloads == [] then Goes(s, t, i, Failed(Http(f.path)))
         else Goes(s, t, i, Next(0, None))
       case Next(k, lastErr) =>
         if k >= |f.downloads| then Goes(s, t, i, Failed(if lastErr.Some? then lastErr.value else Http(f.path)))
         else
           var url := f.downloads[k];
           var allowed := IsUrlAllowlisted(c, url, f.path);
           if allowed.Err? then Goes(s, t, i, Failed(allowed.error))
           else t == s.(tasks := s.tasks[i := Fetching(k)], requests := s.requests + [url])
       case Fetching(k) => exists a: Answer :: (a.Aborted? ==> s.cancelled) && Goes(s, t, i, After(f, k, a))
       case _ => false
  }

  function After(f: MrpackFile, k: nat, a: Answer): Pc {
    match a
    case Fetched(size) => Done(k, BuildModRow(f, size))
    case Mismatch => Failed(HashMismatch(f.path))
    case Aborted => Failed(Cancelled)
    case HttpError(reason) => Next(k + 1, Some(Http(reason)))
    case IoError(reason) => Next(k + 1, Some(Io(reason)))
  }

  ghost predicate Goes(s: State, t: State, i: nat, pc: Pc)
    requires i < |s.tasks|
  {
    t == s.(tasks := s.tasks[i := pc])
  }

  ghost predicate Panic(s: State, t: State, i: nat) {
    s.phase.Running? && i < |s.tasks| && Active(s.tasks[i]) && Goes(s, t, i, Failed(Panicked))
  }

  /** `min(completed * 100 / total, 100)`. */
  function JoinPct(completed: nat, total: nat): nat
    requires total > 0
  {
    var p := completed * 100 / total;
    if p < 100 then p else 100
  }

  ghost predicate Join(s: State, t: State, i: nat) {
    && s.phase.Running? && i < |s.tasks| && i !in s.joined && (s.tasks[i].Done? || s.tasks[i].Failed?)
    && if s.cancelled then t == s.(phase := Finished(Err(Cancelled)))
       else match s.tasks[i]
            case Failed(e) => t == s.(phase := Finished(Err(e)))
            case Done(_, row) =>
              t == s.(joined := s.joined + [i], rows := s.rows + [row], pct := JoinPct(|s.joined| + 1, |s.tasks|))
            case _ => false
  }

  ghost predicate Begins(c: Config, s: State, t: State) {
    && s.phase.Begin?
    && if s.cancelled then t == s.(phase := Finished(Err(Cancelled)))
       else if Wanted(c) == [] then t == s.(phase := Finished(Ok([])), pct := 100)
       else t == s.(phase := Running, tasks := seq(|Wanted(c)|, _ => Queued))
  }

  ghost predicate Ends(s: State, t: State) {
    && s.phase.Running? && (forall i: nat :: i < |s.tasks| ==> i in s.joined)
    && t == s.(phase := Finished(Ok(s.rows)))
  }

  ghost predicate Cancel(s: State, t: State) {
    t == s.(cancelled := true)
  }

  ghost predicate Moves(c: Config, s: State, t: State) {
    exists i: nat :: TaskStep(c, s, t, i) || Panic(s, t, i)
  }

  ghost predicate Joins(s: State, t: State) {
    exists i: nat :: Join(s, t, i)
  }

  ghost predicate NextState(c: Config, s: State, t: State) {
    Begins(c, s, t) || Moves(c, s, t) || Joins(s, t) || Ends(s, t) || Cancel(s, t)
  }

  ghost predicate Init(s: State) {
    s.phase.Begin? && s.tasks == [] && s.requests == [] && s.joined == [] && s.rows == [] && s.pct == 0
  }

  ghost predicate IsRun(c: Config, run: seq<State>) {
    && |run| > 0 && Init(run[0])
    && forall k :: 0 <= k < |run| - 1 ==> NextState(c, run[k], run[k + 1])
  }

  // ---------------------------------------------------------------- the invariant

  predicate Allowed(c: Config, url: string) {
    c.hostOf(url).Named? && c.hostOf(url).name in MODPACK_ALLOWLIST
  }

  /** The seven hosts, and what the error says otherwise. */
  lemma AllowlistSpelled(c: Config, url: string, path: string)
    ensures IsUrlAllowlisted(c, url, path).Ok? <==> Allowed(c, url)
    ensures Allowed(c, url) <==>
            && c.hostOf(url).Named?
            && var h := c.hostOf(url).name;
               || h == "cdn.modrinth.com" || h == "github.com" || h == "raw.githubusercontent.com" || h == "gitlab.com"
               || h == "cdn.azuriom.com" || h == "maven.fabricmc.net" || h == "maven.minecraftforge.net"
    ensures !Allowed(c, url) ==>
              IsUrlAllowlisted(c, url, path)
              == Err(DisallowedSource(match c.hostOf(url)
                                      case Unparseable => "<unparseable>"
                                      case NoHost => "<no-host>"
                                      case Named(h) => h, path))
  {
  }

  /** The first `n` URLs of a file all pass the allowlist. */
  predicate AllowedUpTo(c: Config, f: MrpackFile, n: nat) {
    n <= |f.downloads| && forall j :: 0 <= j < n ==> Allowed(c, f.downloads[j])
  }

  /** The first `n` URLs of a file were all requested. */
  predicate RequestedUpTo(f: MrpackFile, n: nat, requests: seq<string>) {
    n <= |f.downloads| && forall j :: 0 <= j < n ==> f.downloads[j] in requests
  }

  /** File `i` was served by its URL `n`, requested after all earlier ones, every one of them allowed. */
  predicate ServedBy(c: Config, s: State, i: nat, n: nat, row: Row) {
    && i < |s.tasks| == |Wanted(c)| && s.tasks[i] == Done(n, row)
    && AllowedUpTo(c, Wanted(c)[i], n + 1) && RequestedUpTo(Wanted(c)[i], n + 1, s.requests)
  }

  ghost predicate TaskOk(c: Config, f: MrpackFile, pc: Pc, requests: seq<string>) {
    match pc
    case Next(k, _) => AllowedUpTo(c, f, k) && RequestedUpTo(f, k, requests)
    case Fetching(k) => AllowedUpTo(c, f, k + 1) && RequestedUpTo(f, k + 1, requests)
    case Done(k, row) =>
      AllowedUpTo(c, f, k + 1) && RequestedUpTo(f, k + 1, requests) && row == BuildModRow(f, row.size)
    case _ => true
  }

  ghost predicate JoinedOk(s: State) {
    && |s.rows| == |s.joined|
    && NoRepeats(s.joined)
    && (forall k :: 0 <= k < |s.joined| ==> s.joined[k] < |s.tasks| && s.tasks[s.joined[k]].Done?
                                            && s.rows[k] == s.tasks[s.joined[k]].row)
  }

  ghost predicate PctOk(s: State) {
    if s.tasks == [] then s.pct == (if s.phase.Finished? && s.phase.r.Ok? then 100 else 0)
    else s.pct == JoinPct(|s.joined|, |s.tasks|)
  }

  ghost predicate Inv(c: Config, s: State) {
    && (forall url :: url in s.requests ==> Allowed(c, url))
    && |Held(s.tasks)| <= MOD_DOWNLOAD_CONCURRENCY
    && (s.tasks == [] || |s.tasks| == |Wanted(c)|)
    && (s.phase.Begin? ==> s.tasks == [] && s.joined == [] && s.rows == [])
    && (s.phase.Running? ==> s.tasks != [])
    && (forall i :: 0 <= i < |s.tasks| && |s.tasks| == |Wanted(c)| ==> TaskOk(c, Wanted(c)[i], s.tasks[i], s.requests))
    && JoinedOk(s) && PctOk(s)
    && (s.phase.Finished? && s.phase.r.Ok? ==>
          && s.phase.r.value == s.rows && |s.tasks| == |Wanted(c)|
          && forall i: nat :: i < |s.tasks| ==> i in s.joined)
  }

  lemma HeldAfter(before: seq<Pc>, i: nat, pc: Pc)
    requires i < |before| && (Active(pc) ==> Active(before[i]) || |Held(before)| < MOD_DOWNLOAD_CONCURRENCY)
    requires |Held(before)| <= MOD_DOWNLOAD_CONCURRENCY
    ensures |Held(before[i := pc])| <= MOD_DOWNLOAD_CONCURRENCY
  {
    if Active(pc) && !Active(before[i]) {
      assert Held(before[i := pc]) == Held(before) + {i};
    } else {
      assert Held(before[i := pc]) <= Held(before);
      assert Held(before) == Held(before[i := pc]) + (Held(before) - Held(before[i := pc]));
    }
  }

  lemma MoveKeepsTask(c: Config, s: State, t: State, i: nat)
    requires i < |s.tasks| == |Wanted(c)| && TaskOk(c, Wanted(c)[i], s.tasks[i], s.requests)
    requires TaskStep(c, s, t, i) || Panic(s, t, i)
    ensures t == s.(tasks := t.tasks, requests := t.requests) && t.tasks == s.tasks[i := t.tasks[i]]
    ensures !s.tasks[i].Done? && TaskOk(c, Wanted(c)[i], t.tasks[i], t.requests) && s.requests <= t.requests
    ensures Active(t.tasks[i]) ==> Active(s.tasks[i]) || |Held(s.tasks)| < MOD_DOWNLOAD_CONCURRENCY
    ensures forall url :: url in t.requests ==> url in s.requests || Allowed(c, url)
  {
    hide FilterFilesForClient, JoinPct, Held;
  }

  lemma MoreRequests(c: Config, f: MrpackFile, pc: Pc, before: seq<string>, after: seq<string>)
    requires TaskOk(c, f, pc, before) && before <= after
    ensures TaskOk(c, f, pc, after)
  {
    hide AllowedUpTo, BuildModRow;
    assert forall url :: url in before ==> url in after;
  }

  lemma MoveKeepsInv(c: Config, s: State, t: State, i: nat)
    requires Inv(c, s) && i < |s.tasks| && (TaskStep(c, s, t, i) || Panic(s, t, i))
    ensures Inv(c, t)
  {
    hide TaskStep, Panic, JoinPct, FilterFilesForClient, Held, TaskOk, Allowed;
    MoveKeepsTask(c, s, t, i);
    HeldAfter(s.tasks, i, t.tasks[i]);
    assert t.tasks == s.tasks[i := t.tasks[i]];
    forall j | 0 <= j < |t.tasks|
      ensures TaskOk(c, Wanted(c)[j], t.tasks[j], t.requests)
    {
      if j != i {
        MoreRequests(c, Wanted(c)[j], s.tasks[j], s.requests, t.requests);
      }
    }
  }

  lemma JoinKeepsInv(c: Config, s: State, t: State, i: nat)
    requires Inv(c, s) && Join(s, t, i)
    ensures Inv(c, t)
  {
    hide TaskOk, JoinPct, Held, FilterFilesForClient;
  }

  lemma BeginKeepsInv(c: Config, s: State, t: State)
    requires Inv(c, s) && Begins(c, s, t)
    ensures Inv(c, t)
  {
    hide FilterFilesForClient;
    assert Held(t.tasks) == {};
    if t.phase.Running? {
      DivMonotone(0, 0, |t.tasks|);
      assert JoinPct(0, |t.tasks|) == 0;
    }
  }

  /** Every step of every interleaving keeps the invariant. */
  lemma StepKeepsInv(c: Config, s: State, t: State)
    requires Inv(c, s) && NextState(c, s, t)
    ensures Inv(c, t)
  {
    if Moves(c, s, t) {
      var i: nat :| TaskStep(c, s, t, i) || Panic(s, t, i);
      MoveKeepsInv(c, s, t, i);
    } else if Joins(s, t) {
      var i: nat :| Join(s, t, i);
      JoinKeepsInv(c, s, t, i);
    } else if Begins(c, s, t) {
      BeginKeepsInv(c, s, t);
    } else {
      hide TaskOk, JoinPct, Held, FilterFilesForClient;
    }
  }

  lemma {:induction false} RunKeepsInv(c: Config, run: seq<State>)
    requires IsRun(c, run)
    ensures forall k :: 0 <= k < |run| ==> Inv(c, run[k])
  {
    hide Inv, NextState, Init;
    if |run| == 1 {
      InitInv(c, run[0]);
    } else {
      var front := run[..|run| - 1];
      assert front[0] == run[0];
      RunKeepsInv(c, front);
      assert front[|front| - 1] == run[|run| - 2];
      StepKeepsInv(c, run[|run| - 2], run[|run| - 1]);
      assert forall k :: 0 <= k < |front| ==> front[k] == run[k];
    }
  }

  lemma InitInv(c: Config, s: State)
    requires Init(s)
    ensures Inv(c, s)
  {
    assert Held(s.tasks) == {};
  }

  // ---------------------------------------------------------------- results

  /** No interleaving ever sends a request to a host outside the allowlist, or holds a seventh permit. */
  lemma OnlyAllowlistedRequests(c: Config, run: seq<State>, k: nat)
    requires IsRun(c, run) && k < |run|
    ensures forall url :: url in run[k].requests ==> Allowed(c, url)
    ensures |Held(run[k].tasks)| <= 6
  {
    RunKeepsInv(c, run);
  }

  /** `order` visits every index below `n` once. */
  ghost predicate IsOrder(order: seq<nat>, n: nat) {
    |order| == n && NoRepeats(order) && forall k :: 0 <= k < n ==> order[k] < n
  }

  /**
   On success there is exactly one row per client file, in completion order; and each file was
   served by one of its URLs after a request to this and every earlier one, all of them allowed:
   a disallowed URL is never skipped over.
   */
  lemma SuccessHasOneRowPerFile(c: Config, run: seq<State>, k: nat) returns (order: seq<nat>)
    requires IsRun(c, run) && k < |run| && run[k].phase.Finished? && run[k].phase.r.Ok?
    ensures var rows := run[k].phase.r.value;
            && |rows| == |Wanted(c)| && IsOrder(order, |Wanted(c)|)
            && forall j :: 0 <= j < |rows| ==>
                 && rows[j] == BuildModRow(Wanted(c)[order[j]], rows[j].size)
                 && exists n: nat :: ServedBy(c, run[k], order[j], n, rows[j])
  {
    RunKeepsInv(c, run);
    var s := run[k];
    order := s.joined;
    OrderIsFull(order, |s.tasks|);
    hide FilterFilesForClient, BuildModRow, JoinPct, Held;
    forall j | 0 <= j < |s.rows|
      ensures s.rows[j] == BuildModRow(Wanted(c)[order[j]], s.rows[j].size)
      ensures exists n: nat :: ServedBy(c, s, order[j], n, s.rows[j])
    {
      assert TaskOk(c, Wanted(c)[order[j]], s.tasks[order[j]], s.requests);
      var n := s.tasks[order[j]].k;
      assert ServedBy(c, s, order[j], n, s.rows[j]);
    }
  }

  predicate NoRepeats(order: seq<nat>) {
    forall j, k :: 0 <= j < k < |order| ==> order[j] != order[k]
  }

  /** A duplicate-free list of indices that misses none has as many entries as there are indices. */
  lemma OrderIsFull(order: seq<nat>, n: nat)
    requires NoRepeats(order) && forall k :: 0 <= k < |order| ==> order[k] < n
    ensures |order| <= n
    ensures (forall i: nat :: i < n ==> i in order) ==> |order| == n
  {
    hide Members, Indices, NoRepeats;
    MembersCount(order);
    assert forall x :: x in Members(order) ==> x in Indices(n);
    SubsetSize(Members(order), Indices(n));
    if forall i: nat :: i < n ==> i in order {
      SubsetSize(Indices(n), Members(order));
    }
  }

  function Members(order: seq<nat>): (r: set<nat>)
    ensures forall x :: x in r <==> x in order
  {
    if order == [] then {} else Members(order[..|order| - 1]) + {order[|order| - 1]}
  }

  lemma {:induction false} MembersCount(order: seq<nat>)
    requires NoRepeats(order)
    ensures |Members(order)| == |order|
  {
    if order != [] {
      LastIsNew(order);
      hide NoRepeats;
      MembersCount(order[..|order| - 1]);
    }
  }

  lemma LastIsNew(order: seq<nat>)
    requires NoRepeats(order) && order != []
    ensures NoRepeats(order[..|order| - 1]) && order[|order| - 1] !in order[..|order| - 1]
  {
  }

  lemma PctHundredExactly(n: nat, total: nat)
    requires n <= total && total > 0
    ensures JoinPct(n, total) == 100 <==> n == total
  {
    if n == total {
      assert n * 100 / total == 100;
    } else {
      DivBelow99(n, total);
    }
  }

  lemma DivBelow99(n: nat, total: nat)
    requires n < total
    ensures n * 100 / total < 100
  {
    var p := n * 100 / total;
    assert total * p <= n * 100;
    if p >= 100 {
      MulMonotone(total, 100, p);
    }
  }

  /** The join loop's percentage never falls, and reads 100 exactly when every file is done. */
  lemma ProgressIsHonest(c: Config, run: seq<State>, k: nat)
    requires IsRun(c, run) && k < |run|
    ensures k + 1 < |run| ==> run[k].pct <= run[k + 1].pct
    ensures run[k].tasks != [] ==> (run[k].pct == 100 <==> |run[k].joined| == |Wanted(c)|)
  {
    RunKeepsInv(c, run);
    var s := run[k];
    hide FilterFilesForClient;
    if s.tasks != [] {
      OrderIsFull(s.joined, |s.tasks|);
      PctHundredExactly(|s.joined|, |s.tasks|);
    }
    if k + 1 < |run| {
      StepRaisesPct(c, s, run[k + 1]);
    }
  }

  lemma StepRaisesPct(c: Config, s: State, t: State)
    requires Inv(c, s) && Inv(c, t) && NextState(c, s, t)
    ensures s.pct <= t.pct
  {
    hide TaskOk, Held, FilterFilesForClient;
    if i: nat :| Join(s, t, i) {
      DivMonotone(|s.joined| * 100, (|s.joined| + 1) * 100, |s.tasks|);
    }
  }

  // ---------------------------------------------------------------- how a download ends

  /** Why file `f` may be the reason for error `e`. */
  ghost predicate Blames(c: Config, f: MrpackFile, requests: seq<string>, cancelled: bool, e: ModpackError) {
    match e
    case Cancelled => cancelled
    case DisallowedSource(host, path) =>
      path == f.path && exists n: nat :: Refused(c, f, n, host) && RequestedUpTo(f, n, requests)
    case HashMismatch(path) => path == f.path && exists n: nat :: n > 0 && AskedUpTo(c, f, n, requests)
    case Http(_) => AskedUpTo(c, f, |f.downloads|, requests)
    case Io(_) => f.downloads != [] && AskedUpTo(c, f, |f.downloads|, requests)
    case Panicked => true
  }

  /** URL `n` is the first one that is not allowed, and this is its host. */
  predicate Refused(c: Config, f: MrpackFile, n: nat, host: string) {
    && n < |f.downloads| && AllowedUpTo(c, f, n) && !Allowed(c, f.downloads[n])
    && host == match c.hostOf(f.downloads[n])
               case Unparseable => "<unparseable>"
               case NoHost => "<no-host>"
               case Named(h) => h
  }

  /** The first `n` URLs were allowed and requested. */
  predicate AskedUpTo(c: Config, f: MrpackFile, n: nat, requests: seq<string>) {
    AllowedUpTo(c, f, n) && RequestedUpTo(f, n, requests)
  }

  ghost predicate TaskBlames(c: Config, f: MrpackFile, pc: Pc, requests: seq<string>, cancelled: bool) {
    match pc
    case Failed(e) => Blames(c, f, requests, cancelled, e)
    case Next(k, lastErr) =>
      if k == 0 then lastErr.None? && f.downloads != [] else lastErr.Some? && (lastErr.value.Http? || lastErr.value.Io?)
    case Fetching(k) => k < |f.downloads|
    case _ => true
  }

  ghost predicate EndBlames(c: Config, s: State) {
    s.phase.Finished? && s.phase.r.Err? ==>
      || (s.phase.r.error == Cancelled && s.cancelled)
      || exists i :: 0 <= i < |Wanted(c)| && Blames(c, Wanted(c)[i], s.requests, s.cancelled, s.phase.r.error)
  }

  ghost predicate BlameInv(c: Config, s: State) {
    && EndBlames(c, s)
    && forall i :: 0 <= i < |s.tasks| && |s.tasks| == |Wanted(c)| ==>
         TaskBlames(c, Wanted(c)[i], s.tasks[i], s.requests, s.cancelled)
  }

  lemma BlamesLater(c: Config, f: MrpackFile, pc: Pc, s: State, t: State)
    requires TaskBlames(c, f, pc, s.requests, s.cancelled)
    requires s.requests <= t.requests && (s.cancelled ==> t.cancelled)
    ensures TaskBlames(c, f, pc, t.requests, t.cancelled)
  {
    hide Allowed;
    assert forall url :: url in s.requests ==> url in t.requests;
    assert forall n: nat :: RequestedUpTo(f, n, s.requests) ==> RequestedUpTo(f, n, t.requests);
    assert forall n: nat :: AskedUpTo(c, f, n, s.requests) ==> AskedUpTo(c, f, n, t.requests);
  }

  lemma MoveBlames(c: Config, s: State, t: State, i: nat)
    requires i < |s.tasks| == |Wanted(c)| && (TaskStep(c, s, t, i) || Panic(s, t, i))
    requires TaskOk(c, Wanted(c)[i], s.tasks[i], s.requests)
    requires TaskBlames(c, Wanted(c)[i], s.tasks[i], s.requests, s.cancelled)
    ensures t == s.(tasks := t.tasks, requests := t.requests) && t.tasks == s.tasks[i := t.tasks[i]]
    ensures s.requests <= t.requests && TaskBlames(c, Wanted(c)[i], t.tasks[i], t.requests, t.cancelled)
  {
    hide FilterFilesForClient, Held, BuildModRow, Allowed, IsUrlAllowlisted;
    var f := Wanted(c)[i];
    if s.tasks[i].Next? && s.tasks[i].k < |f.downloads| {
      AllowlistSpelled(c, f.downloads[s.tasks[i].k], f.path);
    }
    if s.tasks[i].Fetching? {
      assert AskedUpTo(c, f, s.tasks[i].k + 1, s.requests);
    }
  }

  lemma MoveKeepsBlame(c: Config, s: State, t: State, i: nat)
    requires Inv(c, s) && BlameInv(c, s) && i < |s.tasks| && s.phase.Running?
    requires TaskStep(c, s, t, i) || Panic(s, t, i)
    ensures BlameInv(c, t)
  {
    hide TaskStep, Panic, FilterFilesForClient, Held, TaskOk, Allowed, TaskBlames, JoinPct;
    assert TaskOk(c, Wanted(c)[i], s.tasks[i], s.requests);
    MoveBlames(c, s, t, i);
    forall j | 0 <= j < |t.tasks|
      ensures TaskBlames(c, Wanted(c)[j], t.tasks[j], t.requests, t.cancelled)
    {
      if j != i {
        BlamesLater(c, Wanted(c)[j], s.tasks[j], s, t);
      }
    }
  }

  lemma StepKeepsBlame(c: Config, s: State, t: State)
    requires Inv(c, s) && BlameInv(c, s) && NextState(c, s, t)
    ensures BlameInv(c, t)
  {
    hide TaskOk, Held, FilterFilesForClient, Allowed, Blames, JoinPct;
    if Moves(c, s, t) {
      var i: nat :| TaskStep(c, s, t, i) || Panic(s, t, i);
      MoveKeepsBlame(c, s, t, i);
    } else if Cancel(s, t) {
      CancelKeepsBlame(c, s, t);
    } else if Joins(s, t) {
      var i: nat :| Join(s, t, i);
      assert TaskBlames(c, Wanted(c)[i], s.tasks[i], s.requests, s.cancelled);
    }
  }

  lemma CancelKeepsBlame(c: Config, s: State, t: State)
    requires BlameInv(c, s) && Cancel(s, t)
    ensures BlameInv(c, t)
  {
    hide FilterFilesForClient, Allowed, TaskBlames, Blames;
    forall j | 0 <= j < |t.tasks| && |t.tasks| == |Wanted(c)|
      ensures TaskBlames(c, Wanted(c)[j], t.tasks[j], t.requests, t.cancelled)
    {
      BlamesLater(c, Wanted(c)[j], s.tasks[j], s, t);
    }
    if s.phase.Finished? && s.phase.r.Err? && !(s.phase.r.error == Cancelled && s.cancelled) {
      var i :| 0 <= i < |Wanted(c)| && Blames(c, Wanted(c)[i], s.requests, s.cancelled, s.phase.r.error);
      FailedBlames(c, Wanted(c)[i], s.phase.r.error, s);
      BlamesLater(c, Wanted(c)[i], Failed(s.phase.r.error), s, t);
      FailedBlames(c, Wanted(c)[i], s.phase.r.error, t);
    }
  }

  lemma FailedBlames(c: Config, f: MrpackFile, e: ModpackError, s: State)
    ensures TaskBlames(c, f, Failed(e), s.requests, s.cancelled)
            == Blames(c, f, s.requests, s.cancelled, e)
  {
  }

  lemma {:induction false} RunKeepsBlame(c: Config, run: seq<State>, k: nat)
    requires IsRun(c, run) && k < |run|
    ensures BlameInv(c, run[k])
    decreases k
  {
    hide Inv, NextState, BlameInv;
    if k == 0 {
      StartsBlameless(c, run[0]);
    } else {
      RunKeepsBlame(c, run, k - 1);
      RunKeepsInv(c, run);
      StepKeepsBlame(c, run[k - 1], run[k]);
    }
  }

  lemma StartsBlameless(c: Config, s: State)
    requires Init(s)
    ensures BlameInv(c, s)
  {
  }

  /**
   The error a download ends with names a reason: Cancelled only after the token fired; a
   disallowed source is the first URL off the allowlist of a file all of whose earlier URLs were
   tried; a mismatch comes from a file that was requested; and a network error from a file all of
   whose URLs were allowed and tried, or that has none.
   */
  lemma ErrorNamesAReason(c: Config, run: seq<State>, k: nat)
    requires IsRun(c, run) && k < |run| && run[k].phase.Finished? && run[k].phase.r.Err?
    ensures var e := run[k].phase.r.error;
            || (e == Cancelled && run[k].cancelled)
            || exists i :: 0 <= i < |Wanted(c)| && Blames(c, Wanted(c)[i], run[k].requests, run[k].cancelled, e)
  {
    RunKeepsBlame(c, run, k);
  }

  predicate Pending(s: State) {
    s.phase.Begin? || (s.phase.Running? && exists i: nat :: i < |s.tasks| && i !in s.joined)
  }

  /** Once the token fires before everything was joined, nothing more is joined and the only end is Cancelled. */
  lemma {:induction false} CancelledEndsCancelled(c: Config, run: seq<State>, j: nat, k: nat)
    requires IsRun(c, run) && j <= k < |run| && run[j].cancelled && Pending(run[j])
    ensures run[k].cancelled && run[k].joined == run[j].joined && run[k].rows == run[j].rows
    ensures Pending(run[k]) || run[k].phase == Finished(Err(Cancelled))
    decreases k - j
  {
    hide Pending, NextState, Init;
    if j < k {
      CancelledEndsCancelled(c, run, j, k - 1);
      CancelledStep(c, run[k - 1], run[k]);
    }
  }

  lemma CancelledStep(c: Config, s: State, t: State)
    requires NextState(c, s, t) && s.cancelled && (Pending(s) || s.phase == Finished(Err(Cancelled)))
    ensures t.cancelled && t.joined == s.joined && t.rows == s.rows
    ensures Pending(t) || t.phase == Finished(Err(Cancelled))
  {
    hide FilterFilesForClient, Held, JoinPct;
    if Moves(c, s, t) {
      var i: nat :| TaskStep(c, s, t, i) || Panic(s, t, i);
      MoveFrame(c, s, t, i);
      var m: nat :| m < |s.tasks| && m !in s.joined;
      assert m < |t.tasks| && m !in t.joined;
    }
  }

  lemma MoveFrame(c: Config, s: State, t: State, i: nat)
    requires TaskStep(c, s, t, i) || Panic(s, t, i)
    ensures s.phase.Running? && t == s.(tasks := t.tasks, requests := t.requests) && |t.tasks| == |s.tasks|
  {
    hide FilterFilesForClient, Held, IsUrlAllowlisted, BuildModRow;
  }

  /** A task that had not looked at the token when it fired never sends a request. */
  lemma {:induction false} LateTasksStaySilent(c: Config, run: seq<State>, j: nat, k: nat, i: nat)
    requires IsRun(c, run) && j <= k < |run| && run[j].cancelled
    requires run[j].phase.Running? && i < |run[j].tasks| && (run[j].tasks[i].Queued? || run[j].tasks[i].Ready?)
    ensures run[k].cancelled && !run[k].phase.Begin? && |run[k].tasks| == |run[j].tasks|
    ensures run[k].tasks[i].Queued? || run[k].tasks[i].Ready? || run[k].tasks[i].Failed?
    decreases k - j
  {
    hide NextState, Init;
    if j < k {
      LateTasksStaySilent(c, run, j, k - 1, i);
      SilentStep(c, run[k - 1], run[k], i);
    }
  }

  lemma SilentStep(c: Config, s: State, t: State, i: nat)
    requires NextState(c, s, t) && s.cancelled && !s.phase.Begin? && i < |s.tasks|
    requires s.tasks[i].Queued? || s.tasks[i].Ready? || s.tasks[i].Failed?
    ensures t.cancelled && !t.phase.Begin? && |t.tasks| == |s.tasks|
    ensures t.tasks[i].Queued? || t.tasks[i].Ready? || t.tasks[i].Failed?
  {
    hide FilterFilesForClient, Held, IsUrlAllowlisted, BuildModRow, JoinPct;
    if Moves(c, s, t) {
      var m: nat :| TaskStep(c, s, t, m) || Panic(s, t, m);
    }
  }

  // ---------------------------------------------------------------- which downloads can succeed

  ghost predicate EndsWell(c: Config, s: State, run: seq<State>) {
    IsRun(c, run) && run[0] == s && run[|run| - 1].phase.Finished? && run[|run| - 1].phase.r.Ok?
  }

  lemma OneMore(c: Config, run: seq<State>, t: State)
    requires IsRun(c, run) && NextState(c, run[|run| - 1], t)
    ensures IsRun(c, run + [t])
  {
    hide NextState, Init;
  }

  /** The first `n` files are joined, the others still wait. */
  predicate Halfway(c: Config, s: State, n: nat) {
    && s.phase.Running? && !s.cancelled && n <= |s.tasks| == |Wanted(c)| && |s.joined| == n
    && (forall i :: 0 <= i < n ==> s.joined[i] == i && s.tasks[i].Done?)
    && forall i :: n <= i < |s.tasks| ==> s.tasks[i] == Queued
  }

  /** Serve the next file from its first URL. */
  lemma OneFile(c: Config, before: seq<State>, n: nat) returns (run: seq<State>)
    requires IsRun(c, before) && n < |Wanted(c)| && Halfway(c, before[|before| - 1], n)
    requires Wanted(c)[n].downloads != [] && Allowed(c, Wanted(c)[n].downloads[0])
    ensures IsRun(c, run) && run[0] == before[0] && Halfway(c, run[|run| - 1], n + 1)
  {
    hide NextState, Init, FilterFilesForClient, BuildModRow, Allowed, IsUrlAllowlisted, JoinPct, Held;
    var s := before[|before| - 1];
    var f := Wanted(c)[n];
    var row := BuildModRow(f, 0);
    AllowlistSpelled(c, f.downloads[0], f.path);
    NobodyHolds(s);
    var s1 := s.(tasks := s.tasks[n := Ready]);
    var s2 := s1.(tasks := s1.tasks[n := Next(0, None)]);
    var s3 := s2.(tasks := s2.tasks[n := Fetching(0)], requests := s.requests + [f.downloads[0]]);
    var s4 := s3.(tasks := s3.tasks[n := Done(0, row)]);
    var s5 := s4.(joined := s4.joined + [n], rows := s4.rows + [row], pct := JoinPct(|s4.joined| + 1, |s4.tasks|));
    assert TaskStep(c, s, s1, n) && TaskStep(c, s1, s2, n) && TaskStep(c, s2, s3, n);
    assert After(f, 0, Fetched(0)) == Done(0, row) && Goes(s3, s4, n, After(f, 0, Fetched(0)));
    assert TaskStep(c, s3, s4, n) && Join(s4, s5, n);
    run := FiveMore(c, before, s1, s2, s3, s4, s5);
  }

  lemma NobodyHolds(s: State)
    requires forall i :: 0 <= i < |s.tasks| ==> !Active(s.tasks[i])
    ensures |Held(s.tasks)| < MOD_DOWNLOAD_CONCURRENCY
  {
    assert Held(s.tasks) == {};
  }

  lemma FiveMore(c: Config, before: seq<State>, s1: State, s2: State, s3: State, s4: State, s5: State)
    returns (run: seq<State>)
    requires IsRun(c, before) && Moves(c, before[|before| - 1], s1)
    requires Moves(c, s1, s2) && Moves(c, s2, s3) && Moves(c, s3, s4) && Joins(s4, s5)
    ensures IsRun(c, run) && run[0] == before[0] && run[|run| - 1] == s5
  {
    hide IsRun, Moves, Joins;
    OneMore(c, before, s1);
    OneMore(c, before + [s1], s2);
    OneMore(c, before + [s1] + [s2], s3);
    OneMore(c, before + [s1] + [s2] + [s3], s4);
    OneMore(c, before + [s1] + [s2] + [s3] + [s4], s5);
    run := before + [s1] + [s2] + [s3] + [s4] + [s5];
    assert run[0] == before[0] by {
      NotEmpty(c, before);
    }
  }

  lemma NotEmpty(c: Config, run: seq<State>)
    requires IsRun(c, run)
    ensures |run| > 0
  {
  }

  lemma {:induction false} AllFiles(c: Config, before: seq<State>, n: nat) returns (run: seq<State>)
    requires IsRun(c, before) && n <= |Wanted(c)| && Halfway(c, before[|before| - 1], n)
    requires forall i :: 0 <= i < |Wanted(c)| ==> Wanted(c)[i].downloads != [] && Allowed(c, Wanted(c)[i].downloads[0])
    ensures IsRun(c, run) && run[0] == before[0] && Halfway(c, run[|run| - 1], |Wanted(c)|)
    decreases |Wanted(c)| - n
  {
    hide FilterFilesForClient, Allowed, Halfway, NextState, Init;
    run := before;
    if n < |Wanted(c)| {
      run := OneFile(c, before, n);
      run := AllFiles(c, run, n + 1);
    }
  }

  lemma BeginsHalfway(c: Config, s: State, t: State)
    requires Init(s) && !s.cancelled && Wanted(c) != []
    requires t == s.(phase := Running, tasks := seq(|Wanted(c)|, _ => Queued))
    ensures IsRun(c, [s, t]) && Halfway(c, t, 0)
  {
    hide FilterFilesForClient;
    assert Begins(c, s, t);
  }

  lemma EndsHalfway(c: Config, run: seq<State>)
    requires IsRun(c, run) && Halfway(c, run[|run| - 1], |Wanted(c)|)
    ensures EndsWell(c, run[0], run + [run[|run| - 1].(phase := Finished(Ok(run[|run| - 1].rows)))])
  {
    hide FilterFilesForClient, Moves, Joins, Init;
    var s := run[|run| - 1];
    var t := s.(phase := Finished(Ok(s.rows)));
    forall i: nat | i < |s.tasks|
      ensures i in s.joined
    {
      assert s.joined[i] == i;
    }
    assert Ends(s, t);
    OneMore(c, run, t);
  }

  /**
   Which downloads can succeed: exactly those whose client files all have a first URL, and on an
   allowed host. A later URL never makes up for a disallowed first one.
   */
  lemma SucceedsExactly(c: Config, s: State)
    requires Init(s) && !s.cancelled
    ensures (exists run :: EndsWell(c, s, run)) <==>
            (forall i :: 0 <= i < |Wanted(c)| ==>
               Wanted(c)[i].downloads != [] && Allowed(c, Wanted(c)[i].downloads[0]))
  {
    hide FilterFilesForClient, Allowed, Halfway, EndsWell;
    if run :| EndsWell(c, s, run) {
      SuccessMeans(c, s, run);
    }
    if forall i :: 0 <= i < |Wanted(c)| ==> Wanted(c)[i].downloads != [] && Allowed(c, Wanted(c)[i].downloads[0]) {
      var run := SomeRunSucceeds(c, s);
    }
  }

  lemma SomeRunSucceeds(c: Config, s: State) returns (run: seq<State>)
    requires Init(s) && !s.cancelled
    requires forall i :: 0 <= i < |Wanted(c)| ==> Wanted(c)[i].downloads != [] && Allowed(c, Wanted(c)[i].downloads[0])
    ensures EndsWell(c, s, run)
  {
    hide FilterFilesForClient, Allowed, Halfway, Moves, Joins;
    if Wanted(c) == [] {
      var t := s.(phase := Finished(Ok([])), pct := 100);
      assert Begins(c, s, t);
      run := [s, t];
    } else {
      var t := s.(phase := Running, tasks := seq(|Wanted(c)|, _ => Queued));
      BeginsHalfway(c, s, t);
      run := AllFiles(c, [s, t], 0);
      EndsHalfway(c, run);
      run := run + [run[|run| - 1].(phase := Finished(Ok(run[|run| - 1].rows)))];
    }
  }

  lemma SuccessMeans(c: Config, s: State, run: seq<State>)
    requires EndsWell(c, s, run)
    ensures forall i :: 0 <= i < |Wanted(c)| ==>
              Wanted(c)[i].downloads != [] && Allowed(c, Wanted(c)[i].downloads[0])
  {
    hide FilterFilesForClient, Allowed, NextState, Init, BuildModRow, JoinPct, Held;
    RunKeepsInv(c, run);
    var t := run[|run| - 1];
    forall i: nat | i < |Wanted(c)|
      ensures Wanted(c)[i].downloads != [] && Allowed(c, Wanted(c)[i].downloads[0])
    {
      assert i in t.joined;
      assert TaskOk(c, Wanted(c)[i], t.tasks[i], t.requests);
    }
  }
}
