/**
 Concurrent `atomic_write`s into one directory tree, at the granularity of the
 operating system: create-or-truncate the temporary file, any number of partial
 writes at the writer's own cursor, one rename.

 The temporary name is the destination with its extension replaced by `tmp`, so
 two files that differ only in their extension share one temporary file and race
 on it. This module proves when that is harmless.
 */
module AtomicWrites {
  import opened Common
  import opened Counting

  type Bytes = seq<bv8>
  type Path = string

  /** `Path::with_extension("tmp")`: a leading dot of the file name is not an extension. */
  function TmpOf(p: Path): Path {
    var slash := LastIndexOf(p, '/');
    var dot := LastIndexOf(p, '.');
    (if dot > slash + 1 then p[..dot] else p) + ".tmp"
  }

  /** A file name without a dot, or with one in front only, gets the extension appended. */
  lemma TmpOfBareName(dir: string, name: string)
    requires dir == "" || dir[|dir| - 1] == '/'
    requires name != "" && '/' !in name && '.' !in name[1..]
    ensures TmpOf(dir + name) == dir + name + ".tmp"
  {
    var p := dir + name;
    assert forall k :: |dir| <= k < |p| ==> p[k] == name[k - |dir|] && p[k] in name;
    assert forall k :: |dir| < k < |p| ==> p[k] == name[1..][k - |dir| - 1] && p[k] in name[1..];
    assert dir != "" ==> p[|dir| - 1] == '/';
    assert LastIndexOf(p, '/') == |dir| - 1;
    assert LastIndexOf(p, '.') <= |dir|;
  }

  /** One download: where it goes, what the network serves, which contents pass the hash test. */
  datatype Task = Task(dest: Path, served: Bytes, accepts: Bytes -> bool)

  /** `skipExisting`: the loader pipeline keeps a destination that already passes the test. */
  datatype Config = Config(tasks: seq<Task>, limit: nat, skipExisting: bool)

  /** `Ready`: a permit is held; `Fetching`: the destination was found wanting. */
  datatype Pc = Queued | Ready | Fetching | Writing(node: nat, pos: nat) | Done | Failed

  /** Names point at nodes, nodes hold bytes; an open handle outlives its name. */
  datatype Disk = Disk(names: map<Path, nat>, data: map<nat, Bytes>)

  datatype State = State(disk: Disk, pcs: seq<Pc>)

  // ---------------------------------------------------------------- steps

  /** A write of `chunk` at offset `pos`, past the end filling with zeros as a sparse write does. */
  function PutAt(bytes: Bytes, pos: nat, chunk: Bytes): (r: Bytes)
    ensures pos == |bytes| ==> r == bytes + chunk
    ensures |r| == if pos + |chunk| > |bytes| then pos + |chunk| else |bytes|
    ensures forall k :: 0 <= k < |r| ==>
              r[k] == if pos <= k < pos + |chunk| then chunk[k - pos] else if k < |bytes| then bytes[k] else 0
  {
    var head := if pos <= |bytes| then bytes[..pos] else bytes + seq(pos - |bytes|, _ => 0);
    var tail := if pos + |chunk| <= |bytes| then bytes[pos + |chunk|..] else [];
    head + chunk + tail
  }

  predicate Active(pc: Pc) {
    pc.Ready? || pc.Fetching? || pc.Writing?
  }

  function Held(pcs: seq<Pc>): set<nat> {
    set i: nat | i < |pcs| && Active(pcs[i])
  }

  predicate Present(d: Disk, p: Path) {
    p in d.names && d.names[p] in d.data
  }

  predicate Stored(d: Disk, k: Task) {
    Present(d, k.dest) && k.accepts(d.data[d.names[k.dest]])
  }

  /** Whether task `i` would download if it looked at this disk. */
  predicate Needs(c: Config, d: Disk, i: nat)
    requires i < |c.tasks|
  {
    !(c.skipExisting && Stored(d, c.tasks[i]))
  }

  ghost predicate Acquire(c: Config, s: State, t: State, i: nat)
    requires i < |s.pcs|
  {
    s.pcs[i] == Queued && |Held(s.pcs)| < c.limit && t == s.(pcs := s.pcs[i := Ready])
  }

  ghost predicate Skip(c: Config, s: State, t: State, i: nat)
    requires i < |s.pcs| && |s.pcs| == |c.tasks|
  {
    s.pcs[i] == Ready && !Needs(c, s.disk, i) && t == s.(pcs := s.pcs[i := Done])
  }

  ghost predicate Fetch(c: Config, s: State, t: State, i: nat)
    requires i < |s.pcs| && |s.pcs| == |c.tasks|
  {
    s.pcs[i] == Ready && Needs(c, s.disk, i) && t == s.(pcs := s.pcs[i := Fetching])
  }

  /** The served bytes are verified before the temporary file is opened. */
  ghost predicate Create(c: Config, s: State, t: State, i: nat)
    requires i < |s.pcs| && |s.pcs| == |c.tasks|
  {
    var k := c.tasks[i];
    var tmp := TmpOf(k.dest);
    && s.pcs[i] == Fetching && k.accepts(k.served)
    && exists n: nat ::
         && (if tmp in s.disk.names then n == s.disk.names[tmp] else n !in s.disk.data)
         && t == State(Disk(s.disk.names[tmp := n], s.disk.data[n := []]), s.pcs[i := Writing(n, 0)])
  }

  ghost predicate Write(c: Config, s: State, t: State, i: nat)
    requires i < |s.pcs| && |s.pcs| == |c.tasks|
  {
    var k := c.tasks[i];
    && s.pcs[i].Writing?
    && var Writing(n, pos) := s.pcs[i];
    && n in s.disk.data
    && exists m: nat ::
         && pos < m <= |k.served|
         && t == State(s.disk.(data := s.disk.data[n := PutAt(s.disk.data[n], pos, k.served[pos..m])]),
                       s.pcs[i := Writing(n, m)])
  }

  ghost predicate Rename(c: Config, s: State, t: State, i: nat)
    requires i < |s.pcs| && |s.pcs| == |c.tasks|
  {
    var k := c.tasks[i];
    var tmp := TmpOf(k.dest);
    && s.pcs[i].Writing? && s.pcs[i].pos == |k.served| && tmp in s.disk.names
    && t == State(s.disk.(names := (s.disk.names - {tmp})[k.dest := s.disk.names[tmp]]), s.pcs[i := Done])
  }

  /** HTTP error, hash mismatch, cancellation seen by the writer, any I/O error. */
  ghost predicate Fail(s: State, t: State, i: nat)
    requires i < |s.pcs|
  {
    s.pcs[i] != Done && t == s.(pcs := s.pcs[i := Failed])
  }

  ghost predicate TaskStep(c: Config, s: State, t: State, i: nat) {
    && i < |s.pcs| && |s.pcs| == |c.tasks|
    && (Acquire(c, s, t, i) || Skip(c, s, t, i) || Fetch(c, s, t, i) || Create(c, s, t, i)
        || Write(c, s, t, i) || Rename(c, s, t, i) || Fail(s, t, i))
  }

  ghost predicate Next(c: Config, s: State, t: State) {
    exists i: nat :: TaskStep(c, s, t, i)
  }

  ghost predicate IsRun(c: Config, run: seq<State>) {
    |run| > 0 && forall k :: 0 <= k < |run| - 1 ==> Next(c, run[k], run[k + 1])
  }

  // ---------------------------------------------------------------- conditions

  /** Every name has a node of its own. */
  ghost predicate SoundDisk(d: Disk) {
    && (forall p :: p in d.names ==> d.names[p] in d.data)
    && (forall p, q :: p in d.names && q in d.names && p != q ==> d.names[p] != d.names[q])
  }

  ghost predicate Init(c: Config, s: State) {
    SoundDisk(s.disk) && |s.pcs| == |c.tasks| && forall i :: 0 <= i < |s.pcs| ==> s.pcs[i] == Queued
  }

  predicate AllDone(s: State) {
    forall i :: 0 <= i < |s.pcs| ==> s.pcs[i] == Done
  }

  ghost predicate AnyFailed(s: State) {
    exists i :: 0 <= i < |s.pcs| && s.pcs[i] == Failed
  }

  /** The destination of `i` is the temporary file of `j`. */
  predicate Hits(c: Config, i: int, j: int) {
    0 <= i < |c.tasks| && 0 <= j < |c.tasks| && i != j && c.tasks[i].dest == TmpOf(c.tasks[j].dest)
  }

  /** No destination is another task's temporary file. */
  predicate NoClash(c: Config) {
    forall i, j :: 0 <= i < |c.tasks| && 0 <= j < |c.tasks| ==> !Hits(c, i, j)
  }

  /** No destination is the temporary file of another task that has to download. */
  predicate ClashFree(c: Config, d: Disk) {
    forall i, j :: 0 <= i < |c.tasks| && 0 <= j < |c.tasks| && Hits(c, i, j) ==> !Needs(c, d, j)
  }

  /** Tasks for the same destination accept each other's bytes (they carry the same hash). */
  ghost predicate Coherent(c: Config) {
    forall i, j ::
      0 <= i < |c.tasks| && 0 <= j < |c.tasks| && c.tasks[i].dest == c.tasks[j].dest
      ==> (c.tasks[j].accepts(c.tasks[j].served) ==> c.tasks[i].accepts(c.tasks[j].served))
  }

  // ---------------------------------------------------------------- the invariant

  ghost predicate Live(s: State, i: int) {
    0 <= i < |s.pcs| && s.pcs[i].Writing?
  }

  /**
   Some writer can no longer succeed: two writers hold the same temporary file, or a
   writer's temporary name is gone. Every rename uses up a name and every name costs
   one of the remaining creates, so this never heals.
   */
  ghost predicate Doomed(c: Config, s: State)
    requires |s.pcs| == |c.tasks|
  {
    || (exists i, j :: i != j && Live(s, i) && Live(s, j) && TmpOf(c.tasks[i].dest) == TmpOf(c.tasks[j].dest))
    || (exists i :: Live(s, i) && TmpOf(c.tasks[i].dest) !in s.disk.names)
  }

  ghost predicate CleanTask(c: Config, s: State, i: int)
    requires |s.pcs| == |c.tasks| && 0 <= i < |s.pcs|
  {
    var k := c.tasks[i];
    && (s.pcs[i].Writing? ==>
          && TmpOf(k.dest) in s.disk.names && s.disk.names[TmpOf(k.dest)] == s.pcs[i].node
          && s.pcs[i].node in s.disk.data && s.pcs[i].pos <= |k.served|
          && s.disk.data[s.pcs[i].node] == k.served[..s.pcs[i].pos]
          && k.accepts(k.served))
    && (s.pcs[i].Done? ==> Present(s.disk, k.dest) && (Coherent(c) ==> Stored(s.disk, k)))
  }

  ghost predicate Clean(c: Config, s: State)
    requires |s.pcs| == |c.tasks|
  {
    && !Doomed(c, s)
    && forall i :: 0 <= i < |s.pcs| ==> CleanTask(c, s, i)
  }

  /** What holds in every schedule, whatever the names. */
  ghost predicate Basic(c: Config, s: State) {
    |s.pcs| == |c.tasks| && SoundDisk(s.disk) && |Held(s.pcs)| <= c.limit
  }

  /** A task whose temporary file is another one's destination keeps its own file and never downloads. */
  ghost predicate Kept(c: Config, s: State, j: int)
    requires |s.pcs| == |c.tasks| && 0 <= j < |s.pcs|
  {
    && !Needs(c, s.disk, j) && !s.pcs[j].Fetching? && !s.pcs[j].Writing?
    && forall k :: Live(s, k) ==> s.pcs[k].node != s.disk.names[c.tasks[j].dest]
  }

  ghost predicate Guarded(c: Config, s: State)
    requires |s.pcs| == |c.tasks|
  {
    forall i, j :: 0 <= i < |c.tasks| && 0 <= j < |c.tasks| && Hits(c, i, j) ==> Kept(c, s, j)
  }

  ghost predicate Inv(c: Config, s: State) {
    && Basic(c, s) && Guarded(c, s)
    && (AnyFailed(s) || Doomed(c, s) || Clean(c, s))
  }

  lemma FailureIsForever(c: Config, s: State, t: State, i: nat)
    requires TaskStep(c, s, t, i) && AnyFailed(s)
    ensures AnyFailed(t)
  {
    var f :| 0 <= f < |s.pcs| && s.pcs[f] == Failed;
    assert t.pcs[f] == Failed;
  }

  lemma GuardedStays(c: Config, s: State, t: State, k: nat)
    requires TaskStep(c, s, t, k) && SoundDisk(s.disk) && Guarded(c, s)
    ensures Guarded(c, t)
  {
    forall i, j | 0 <= i < |c.tasks| && 0 <= j < |c.tasks| && Hits(c, i, j)
      ensures Kept(c, t, j)
    {
      KeptStays(c, s, t, k, i, j);
    }
  }

  lemma KeptStays(c: Config, s: State, t: State, k: nat, i: nat, j: nat)
    requires TaskStep(c, s, t, k) && SoundDisk(s.disk) && Guarded(c, s) && Hits(c, i, j)
    ensures Kept(c, t, j)
  {
    hide TmpOf;
    assert Kept(c, s, j);
    if k != j && (Create(c, s, t, k) || Write(c, s, t, k) || Rename(c, s, t, k)) {
      assert !Kept(c, s, k);
      assert !Hits(c, j, k) && !Hits(c, i, k);
    }
  }

  lemma DoomIsForever(c: Config, s: State, t: State, k: nat)
    requires TaskStep(c, s, t, k) && Guarded(c, s) && Doomed(c, s)
    ensures Doomed(c, t) || AnyFailed(t)
  {
    hide TmpOf, Guarded;
    if Fail(s, t, k) {
      assert t.pcs[k] == Failed;
    } else if i, j :| i != j && Live(s, i) && Live(s, j) && TmpOf(c.tasks[i].dest) == TmpOf(c.tasks[j].dest) {
      SharedDoomStays(c, s, t, k, i, j);
    } else {
      var i :| Live(s, i) && TmpOf(c.tasks[i].dest) !in s.disk.names;
      LostDoomStays(c, s, t, k, i);
    }
  }

  lemma SharedDoomStays(c: Config, s: State, t: State, k: nat, i: nat, j: nat)
    requires TaskStep(c, s, t, k) && Guarded(c, s) && !Fail(s, t, k)
    requires i != j && Live(s, i) && Live(s, j) && TmpOf(c.tasks[i].dest) == TmpOf(c.tasks[j].dest)
    ensures Doomed(c, t)
  {
    hide TmpOf;
    if Live(t, i) && Live(t, j) {
    } else {
      var other := if k == i then j else i;
      assert !Hits(c, k, other);
      assert Live(t, other) && TmpOf(c.tasks[other].dest) !in t.disk.names;
    }
  }

  lemma LostDoomStays(c: Config, s: State, t: State, k: nat, i: nat)
    requires TaskStep(c, s, t, k) && Guarded(c, s) && !Fail(s, t, k)
    requires Live(s, i) && TmpOf(c.tasks[i].dest) !in s.disk.names
    ensures Doomed(c, t)
  {
    hide TmpOf;
    assert Live(t, i) && !Hits(c, k, i);
    if TmpOf(c.tasks[i].dest) in t.disk.names {
      assert Live(t, k) && i != k;
    }
  }

  lemma QueuedHoldNone(pcs: seq<Pc>)
    requires forall i :: 0 <= i < |pcs| ==> pcs[i] == Queued
    ensures Held(pcs) == {}
  {
  }

  lemma HeldBound(c: Config, s: State, t: State, i: nat)
    requires TaskStep(c, s, t, i) && |Held(s.pcs)| <= c.limit
    ensures |t.pcs| == |c.tasks| && |Held(t.pcs)| <= c.limit
  {
    hide Held, TmpOf, PutAt, Stored;
    assert t.pcs == s.pcs[i := t.pcs[i]];
    HeldAfter(s.pcs, i, t.pcs[i], c.limit);
  }

  lemma HeldAfter(pcs: seq<Pc>, i: nat, pc: Pc, limit: nat)
    requires i < |pcs| && (Active(pc) ==> Active(pcs[i]) || |Held(pcs)| < limit) && |Held(pcs)| <= limit
    ensures |Held(pcs[i := pc])| <= limit
  {
    var before, after := Held(pcs), Held(pcs[i := pc]);
    if Active(pc) && !Active(pcs[i]) {
      assert after == before + {i};
    } else {
      assert after <= before;
      SubsetSize(after, before);
    }
  }

  lemma SoundDiskPreserved(c: Config, s: State, t: State, i: nat)
    requires TaskStep(c, s, t, i) && SoundDisk(s.disk)
    ensures SoundDisk(t.disk)
  {
  }

  lemma CleanPreserved(c: Config, s: State, t: State, k: nat)
    requires TaskStep(c, s, t, k) && SoundDisk(s.disk) && Guarded(c, s) && Clean(c, s)
    ensures AnyFailed(t) || Doomed(c, t) || Clean(c, t)
  {
    hide Guarded, TmpOf, Coherent;
    if Fail(s, t, k) {
      assert t.pcs[k] == Failed;
    } else if !Doomed(c, t) {
      forall i | 0 <= i < |t.pcs|
        ensures CleanTask(c, t, i)
      {
        if i == k {
          MovedStaysClean(c, s, t, k);
        } else {
          OthersStayClean(c, s, t, k, i);
        }
      }
    }
  }

  /** The writer that moved. */
  lemma MovedStaysClean(c: Config, s: State, t: State, k: nat)
    requires TaskStep(c, s, t, k) && SoundDisk(s.disk) && !Fail(s, t, k) && CleanTask(c, s, k)
    ensures CleanTask(c, t, k)
  {
    hide TmpOf, Coherent;
    if Rename(c, s, t, k) {
      var served := c.tasks[k].served;
      assert served[..|served|] == served;
    }
  }

  /** The others: their nodes and names are theirs alone. */
  lemma OthersStayClean(c: Config, s: State, t: State, k: nat, i: nat)
    requires TaskStep(c, s, t, k) && SoundDisk(s.disk) && Guarded(c, s) && Clean(c, s)
    requires !Fail(s, t, k) && !Doomed(c, t) && i < |t.pcs| && i != k
    ensures CleanTask(c, t, i)
  {
    hide TmpOf;
    assert CleanTask(c, s, i) && CleanTask(c, s, k);
    if s.pcs[i].Writing? {
      assert !Hits(c, k, i);
    }
    if Create(c, s, t, k) {
      assert !Hits(c, i, k) && Live(t, k);
      assert s.pcs[i].Writing? ==> Live(t, i);
    } else if Write(c, s, t, k) || Rename(c, s, t, k) {
      assert !Hits(c, i, k) && Live(s, k);
      assert s.pcs[i].Writing? ==> Live(s, i);
      var served := c.tasks[k].served;
      assert served[..|served|] == served;
    }
  }

  lemma StepKeepsBasic(c: Config, s: State, t: State)
    requires Basic(c, s) && Next(c, s, t)
    ensures Basic(c, t)
  {
    hide TaskStep, SoundDisk, Held;
    var i: nat :| TaskStep(c, s, t, i);
    HeldBound(c, s, t, i);
    SoundDiskPreserved(c, s, t, i);
  }

  /** Every step keeps the invariant, so every state of every schedule satisfies it. */
  lemma StepKeepsInv(c: Config, s: State, t: State)
    requires Inv(c, s) && Next(c, s, t)
    ensures Inv(c, t)
  {
    hide TaskStep, SoundDisk, Held, Guarded, Doomed, Clean, AnyFailed;
    StepKeepsBasic(c, s, t);
    var i: nat :| TaskStep(c, s, t, i);
    GuardedStays(c, s, t, i);
    if AnyFailed(s) {
      FailureIsForever(c, s, t, i);
    } else if Doomed(c, s) {
      DoomIsForever(c, s, t, i);
    } else {
      CleanPreserved(c, s, t, i);
    }
  }

  lemma InitBasic(c: Config, s: State)
    requires Init(c, s)
    ensures Basic(c, s) && forall i :: !Live(s, i)
  {
    assert Held(s.pcs) == {};
  }

  lemma InitInv(c: Config, s: State)
    requires Init(c, s) && ClashFree(c, s.disk)
    ensures Inv(c, s)
  {
    hide TmpOf;
    InitBasic(c, s);
  }

  lemma AllDoneStored(c: Config, s: State)
    requires Inv(c, s) && AllDone(s)
    ensures forall i :: 0 <= i < |c.tasks| ==> Present(s.disk, c.tasks[i].dest)
    ensures Coherent(c) ==> forall i :: 0 <= i < |c.tasks| ==> Stored(s.disk, c.tasks[i])
  {
    hide Guarded, Coherent;
    assert forall i :: !Live(s, i);
    forall i | 0 <= i < |c.tasks|
      ensures Present(s.disk, c.tasks[i].dest) && (Coherent(c) ==> Stored(s.disk, c.tasks[i]))
    {
      assert CleanTask(c, s, i);
    }
  }

  // ---------------------------------------------------------------- all schedules

  lemma {:induction false} RunKeepsInv(c: Config, run: seq<State>)
    requires IsRun(c, run) && Init(c, run[0]) && ClashFree(c, run[0].disk)
    ensures forall k :: 0 <= k < |run| ==> Inv(c, run[k])
  {
    hide Inv, Init, ClashFree, Next;
    if |run| == 1 {
      InitInv(c, run[0]);
    } else {
      var front := run[..|run| - 1];
      RunKeepsInv(c, front);
      assert Inv(c, front[|front| - 1]) && front[|front| - 1] == run[|run| - 2];
      StepKeepsInv(c, run[|run| - 2], run[|run| - 1]);
      assert forall k :: 0 <= k < |front| ==> front[k] == run[k];
    }
  }

  /**
   A schedule in which no task failed leaves a file at every destination, in every
   interleaving; and when tasks for one destination agree on the hash, the accepted bytes.
   */
  lemma SuccessStoresAll(c: Config, run: seq<State>)
    requires IsRun(c, run) && Init(c, run[0]) && ClashFree(c, run[0].disk) && AllDone(run[|run| - 1])
    ensures forall i :: 0 <= i < |c.tasks| ==> Present(run[|run| - 1].disk, c.tasks[i].dest)
    ensures Coherent(c) ==> forall i :: 0 <= i < |c.tasks| ==> Stored(run[|run| - 1].disk, c.tasks[i])
  {
    hide Inv, Init, ClashFree, Next, Coherent, Present, Stored;
    RunKeepsInv(c, run);
    AllDoneStored(c, run[|run| - 1]);
  }

  // ---------------------------------------------------------------- the condition is exact

  lemma Append(c: Config, a: seq<State>, b: seq<State>)
    requires IsRun(c, a) && IsRun(c, b) && a[|a| - 1] == b[0]
    ensures IsRun(c, a + b[1..])
    ensures (a + b[1..])[0] == a[0] && (a + b[1..])[|a + b[1..]| - 1] == b[|b| - 1]
  {
    var r := a + b[1..];
    forall k | 0 <= k < |r| - 1
      ensures Next(c, r[k], r[k + 1])
    {
      if k >= |a| - 1 {
        assert r[k] == b[k - (|a| - 1)] && r[k + 1] == b[k + 1 - (|a| - 1)];
      }
    }
  }

  /** Nothing stands in the way of finishing: no failure, no doom, sound writers. */
  ghost predicate Free(c: Config, s: State) {
    && |s.pcs| == |c.tasks| && SoundDisk(s.disk) && !AnyFailed(s) && !Doomed(c, s)
    && forall i :: Live(s, i) ==> s.pcs[i].node in s.disk.data && s.pcs[i].pos <= |c.tasks[i].served|
  }

  /** From disk `d` to disk `e` task `i` placed its file and touched no other name or content. */
  ghost predicate Placed(c: Config, d: Disk, e: Disk, i: nat)
    requires i < |c.tasks|
  {
    var dest, tmp := c.tasks[i].dest, TmpOf(c.tasks[i].dest);
    && e.names.Keys == d.names.Keys - {tmp} + {dest}
    && forall p :: p in d.names && d.names[p] in d.data && p != tmp && p != dest ==>
                     p in e.names && Present(e, p) && e.data[e.names[p]] == d.data[d.names[p]]
  }

  predicate NoWriter(s: State) {
    forall j :: 0 <= j < |s.pcs| ==> !s.pcs[j].Writing?
  }

  /** Let one writer finish. */
  lemma FinishWriter(c: Config, s: State, i: nat) returns (run: seq<State>)
    requires Free(c, s) && Live(s, i)
    ensures IsRun(c, run) && run[0] == s
    ensures var t := run[|run| - 1];
            && Free(c, t) && t.pcs == s.pcs[i := Done]
            && (s.disk.names[TmpOf(c.tasks[i].dest)] == s.pcs[i].node ==> Placed(c, s.disk, t.disk, i))
  {
    hide TmpOf;
    var m, written := WriteRest(c, s, i);
    var k := c.tasks[i];
    var tmp := TmpOf(k.dest);
    var t := State(m.disk.(names := (m.disk.names - {tmp})[k.dest := m.disk.names[tmp]]), m.pcs[i := Done]);
    assert Rename(c, m, t, i);
    assert TaskStep(c, m, t, i);
    SoundDiskPreserved(c, m, t, i);
    FreeAfterRename(c, m, t, i);
    run := written + [t];
    assert t.pcs == s.pcs[i := Done];
    RunStep(c, written, t);
  }

  lemma FreeAfterRename(c: Config, s: State, t: State, i: nat)
    requires Free(c, s) && TaskStep(c, s, t, i) && Rename(c, s, t, i)
    ensures Free(c, t)
  {
    hide TmpOf;
    SoundDiskPreserved(c, s, t, i);
    assert forall j :: Live(t, j) ==> Live(s, j) && j != i;
    assert Live(s, i);
    StillUnfailed(s, t, i);
  }

  lemma StillUnfailed(s: State, t: State, i: nat)
    requires !AnyFailed(s) && i < |s.pcs| && |t.pcs| == |s.pcs| && t.pcs == s.pcs[i := t.pcs[i]] && t.pcs[i] != Failed
    ensures !AnyFailed(t)
  {
    forall j | 0 <= j < |t.pcs|
      ensures t.pcs[j] != Failed
    {
      assert s.pcs[j] != Failed;
    }
  }

  lemma RunStep(c: Config, run: seq<State>, t: State)
    requires IsRun(c, run) && Next(c, run[|run| - 1], t)
    ensures IsRun(c, run + [t])
  {
    hide Next;
  }

  lemma WriteRest(c: Config, s: State, i: nat) returns (t: State, run: seq<State>)
    requires Free(c, s) && Live(s, i)
    ensures IsRun(c, run) && run[0] == s && run[|run| - 1] == t && Free(c, t)
    ensures t.pcs == s.pcs[i := Writing(s.pcs[i].node, |c.tasks[i].served|)]
    ensures t.disk.names == s.disk.names && t.disk.data.Keys == s.disk.data.Keys
    ensures forall n :: n in s.disk.data && n != s.pcs[i].node ==> t.disk.data[n] == s.disk.data[n]
  {
    hide TmpOf, PutAt;
    var k, n, pos := c.tasks[i], s.pcs[i].node, s.pcs[i].pos;
    var m: nat := |k.served|;
    if pos == m {
      t, run := s, [s];
      assert t.pcs == s.pcs[i := Writing(n, m)];
    } else {
      t := State(s.disk.(data := s.disk.data[n := PutAt(s.disk.data[n], pos, k.served[pos..m])]),
          s.pcs[i := Writing(n, m)]);
      assert Write(c, s, t, i);
      assert TaskStep(c, s, t, i);
      SoundDiskPreserved(c, s, t, i);
      assert forall j :: Live(t, j) <==> Live(s, j);
      StillUnfailed(s, t, i);
      run := [s, t];
    }
  }

  /** Let a task that is about to write start and finish while nobody else writes. */
  lemma FinishFetching(c: Config, s: State, i: nat) returns (run: seq<State>)
    requires Free(c, s) && NoWriter(s) && i < |s.pcs| && s.pcs[i] == Fetching
    requires c.tasks[i].accepts(c.tasks[i].served)
    ensures IsRun(c, run) && run[0] == s
    ensures var t := run[|run| - 1];
            Free(c, t) && t.pcs == s.pcs[i := Done] && Placed(c, s.disk, t.disk, i)
  {
    hide TmpOf;
    var tmp := TmpOf(c.tasks[i].dest);
    var n := FreshNode(s.disk, tmp);
    var t := State(Disk(s.disk.names[tmp := n], s.disk.data[n := []]), s.pcs[i := Writing(n, 0)]);
    assert Create(c, s, t, i);
    assert TaskStep(c, s, t, i);
    SoundDiskPreserved(c, s, t, i);
    assert forall j :: 0 <= j < |t.pcs| && j != i ==> !t.pcs[j].Writing?;
    assert Live(t, i);
    StillUnfailed(s, t, i);
    var rest := FinishWriter(c, t, i);
    RunStep(c, [s], t);
    Append(c, [s, t], rest);
    run := [s, t] + rest[1..];
    PlacedAfterCreate(c, s.disk, t.disk, rest[|rest| - 1].disk, i);
  }

  lemma PlacedAfterCreate(c: Config, d: Disk, m: Disk, e: Disk, i: nat)
    requires i < |c.tasks| && SoundDisk(d) && Placed(c, m, e, i)
    requires var tmp := TmpOf(c.tasks[i].dest);
             && tmp in m.names && m.names == d.names[tmp := m.names[tmp]] && m.data == d.data[m.names[tmp] := []]
             && (if tmp in d.names then m.names[tmp] == d.names[tmp] else m.names[tmp] !in d.data)
    ensures Placed(c, d, e, i)
  {
    hide TmpOf;
  }

  /** Let a task with a permit finish while nobody else writes: keep the file that is there, or download. */
  lemma FinishReady(c: Config, s: State, i: nat) returns (run: seq<State>)
    requires Free(c, s) && NoWriter(s) && i < |s.pcs| && s.pcs[i] == Ready
    requires c.tasks[i].accepts(c.tasks[i].served)
    ensures IsRun(c, run) && run[0] == s
    ensures var t := run[|run| - 1];
            && Free(c, t) && t.pcs == s.pcs[i := Done]
            && if Needs(c, s.disk, i) then Placed(c, s.disk, t.disk, i) else t.disk == s.disk
  {
    hide TmpOf, Needs, Placed;
    var t := s.(pcs := s.pcs[i := if Needs(c, s.disk, i) then Fetching else Done]);
    assert TaskStep(c, s, t, i);
    assert NoWriter(t);
    StillUnfailed(s, t, i);
    RunStep(c, [s], t);
    run := [s, t];
    if Needs(c, s.disk, i) {
      var rest := FinishFetching(c, t, i);
      Append(c, run, rest);
      run := run + rest[1..];
      assert rest[|rest| - 1].pcs == s.pcs[i := Done];
    }
  }

  /** Run task `i` from start to finish while nobody else moves. */
  lemma RunAlone(c: Config, s: State, i: nat) returns (run: seq<State>)
    requires Free(c, s) && i < |s.pcs| && s.pcs[i] == Queued
    requires Held(s.pcs) == {} && c.limit > 0 && c.tasks[i].accepts(c.tasks[i].served)
    ensures IsRun(c, run) && run[0] == s
    ensures var t := run[|run| - 1];
            && Free(c, t) && t.pcs == s.pcs[i := Done] && Held(t.pcs) == {}
            && if Needs(c, s.disk, i) then Placed(c, s.disk, t.disk, i) else t.disk == s.disk
  {
    hide TmpOf, Needs, Placed;
    NobodyHolds(s);
    var t := s.(pcs := s.pcs[i := Ready]);
    assert TaskStep(c, s, t, i);
    assert NoWriter(t);
    StillUnfailed(s, t, i);
    var rest := FinishReady(c, t, i);
    RunStep(c, [s], t);
    Append(c, [s, t], rest);
    run := [s, t] + rest[1..];
    assert rest[|rest| - 1].pcs == s.pcs[i := Done];
    assert forall m: nat :: m in Held(s.pcs[i := Done]) ==> m in Held(s.pcs);
  }

  lemma NobodyHolds(s: State)
    requires Held(s.pcs) == {}
    ensures forall j :: 0 <= j < |s.pcs| ==> !Active(s.pcs[j])
  {
    forall j | 0 <= j < |s.pcs|
      ensures !Active(s.pcs[j])
    {
      var n: nat := j;
      assert n !in Held(s.pcs);
    }
  }

  ghost function FreshNode(d: Disk, tmp: Path): (n: nat)
    ensures if tmp in d.names then n == d.names[tmp] else n !in d.data
  {
    if tmp in d.names then d.names[tmp] else
      Unused(d.data.Keys);
      var n: nat :| n !in d.data; n
  }

  lemma Unused(used: set<nat>)
    ensures exists n: nat :: n !in used
  {
    if used != {} {
      var top := Largest(used);
      assert top + 1 !in used;
    } else {
      assert 0 !in used;
    }
  }

  lemma {:induction false} Largest(used: set<nat>) returns (m: nat)
    requires used != {}
    ensures m in used && forall n :: n in used ==> n <= m
    decreases used
  {
    var first :| first in used;
    var rest := used - {first};
    if rest == {} {
      assert used == {first};
      m := first;
    } else {
      var other := Largest(rest);
      assert forall n :: n in used ==> n == first || n in rest;
      m := if other > first then other else first;
    }
  }

  function Dests(c: Config): set<Path> {
    set i: nat | i < |c.tasks| :: c.tasks[i].dest
  }

  predicate Servable(c: Config) {
    forall k :: 0 <= k < |c.tasks| ==> c.tasks[k].accepts(c.tasks[k].served)
  }

  predicate DistinctDests(c: Config) {
    forall i, j :: 0 <= i < |c.tasks| && 0 <= j < |c.tasks| && i != j ==> c.tasks[i].dest != c.tasks[j].dest
  }

  /** A task that had to download still has to after another one finished. */
  lemma StillNeeds(c: Config, d: Disk, e: Disk, i: nat, k: nat)
    requires DistinctDests(c) && i < |c.tasks| && k < |c.tasks| && i != k
    requires Needs(c, d, k) && SoundDisk(d) && (Placed(c, d, e, i) || e == d)
    ensures Needs(c, e, k)
  {
    hide TmpOf;
    assert c.tasks[k].dest != c.tasks[i].dest;
  }

  ghost predicate DoneOnly(c: Config, s: State, n: nat, i: nat, j: nat)
    requires |s.pcs| == |c.tasks|
  {
    forall k :: 0 <= k < |c.tasks| ==> s.pcs[k] == if k < n && k != i && k != j then Done else Queued
  }

  /** Run, one after the other, every task below `n` other than `i` and `j`. */
  lemma {:induction false} RunOthers(c: Config, s: State, n: nat, i: nat, j: nat) returns (run: seq<State>)
    requires Init(c, s) && n <= |c.tasks| && c.limit > 0 && Servable(c) && DistinctDests(c)
    requires j < |c.tasks| && Needs(c, s.disk, j)
    ensures IsRun(c, run) && run[0] == s
    ensures var t := run[|run| - 1];
            && Free(c, t) && Held(t.pcs) == {} && DoneOnly(c, t, n, i, j) && Needs(c, t.disk, j)
            && t.disk.names.Keys <= s.disk.names.Keys + Dests(c)
  {
    hide TmpOf, Needs, Free, Placed, DistinctDests;
    if n == 0 {
      FreeAtStart(c, s);
      run := [s];
    } else {
      run := RunOthers(c, s, n - 1, i, j);
      if n - 1 != i && n - 1 != j {
        var m := run[|run| - 1];
        FreeMeans(c, m);
        var more := RunAlone(c, m, n - 1);
        OneMoreRan(c, m, more[|more| - 1], n - 1, j, s.disk.names.Keys);
        Append(c, run, more);
        run := run + more[1..];
      }
    }
  }

  lemma FreeAtStart(c: Config, s: State)
    requires Init(c, s)
    ensures Free(c, s) && Held(s.pcs) == {}
  {
    hide TmpOf;
    assert forall j :: !Live(s, j);
  }

  lemma OneMoreRan(c: Config, s: State, t: State, k: nat, j: nat, names: set<Path>)
    requires DistinctDests(c) && k < |c.tasks| && j < |c.tasks| && k != j && Free(c, s)
    requires if Needs(c, s.disk, k) then Placed(c, s.disk, t.disk, k) else t.disk == s.disk
    requires s.disk.names.Keys <= names + Dests(c)
    ensures Needs(c, s.disk, j) ==> Needs(c, t.disk, j)
    ensures t.disk.names.Keys <= names + Dests(c)
  {
    if Needs(c, s.disk, j) {
      StillNeeds(c, s.disk, t.disk, k, j);
    }
    hide TmpOf, Needs, DistinctDests;
  }

  /** A clash with a task that has to download loses a file in some schedule in which every task reports success. */
  lemma ClashLosesFile(c: Config, s: State, i: nat, j: nat) returns (run: seq<State>)
    requires Init(c, s) && c.limit > 0 && Servable(c) && DistinctDests(c)
    requires Hits(c, i, j) && Needs(c, s.disk, j)
    ensures IsRun(c, run) && run[0] == s && AllDone(run[|run| - 1])
    ensures c.tasks[i].dest !in run[|run| - 1].disk.names
    ensures SoundDisk(run[|run| - 1].disk) && run[|run| - 1].disk.names.Keys <= s.disk.names.Keys + Dests(c)
  {
    hide Next, SoundDisk, TmpOf, Held, Free, Needs, Placed, DistinctDests;
    run := RunOthers(c, s, |c.tasks|, i, j);
    var m := run[|run| - 1];
    FreeMeans(c, m);
    var a := RunAlone(c, m, i);
    var n := a[|a| - 1];
    OneMoreRan(c, m, n, i, j, s.disk.names.Keys);
    FreeMeans(c, n);
    Append(c, run, a);
    run := run + a[1..];
    var b := RunAlone(c, n, j);
    var t := b[|b| - 1];
    LastTakesTmp(c, n, t, i, j, s.disk.names.Keys);
    FreeMeans(c, t);
    Append(c, run, b);
    run := run + b[1..];
  }

  lemma FreeMeans(c: Config, s: State)
    requires Free(c, s)
    ensures |s.pcs| == |c.tasks| && SoundDisk(s.disk)
  {
  }

  lemma LastTakesTmp(c: Config, s: State, t: State, i: nat, j: nat, names: set<Path>)
    requires DistinctDests(c) && Hits(c, i, j) && Placed(c, s.disk, t.disk, j) && s.disk.names.Keys <= names + Dests(c)
    ensures c.tasks[i].dest !in t.disk.names && t.disk.names.Keys <= names + Dests(c)
  {
    hide TmpOf;
    assert c.tasks[i].dest != c.tasks[j].dest;
  }

  /**
   Exactly when concurrent atomic writes are safe. For any disk to start from and any
   files the network serves correctly: success always means every file is in place, in
   every interleaving, if and only if no destination is the temporary file of another task
   that has to download.
   */
  lemma SafeExactlyWithoutClash(c: Config, s: State)
    requires Init(c, s) && c.limit > 0 && DistinctDests(c) && Servable(c)
    ensures ClashFree(c, s.disk) <==>
            (forall run: seq<State> :: IsRun(c, run) && run[0] == s && AllDone(run[|run| - 1])
               ==> forall i :: 0 <= i < |c.tasks| ==> Stored(run[|run| - 1].disk, c.tasks[i]))
  {
    hide Next, TmpOf, Needs;
    if ClashFree(c, s.disk) {
      forall run: seq<State> | IsRun(c, run) && run[0] == s && AllDone(run[|run| - 1])
        ensures forall i :: 0 <= i < |c.tasks| ==> Stored(run[|run| - 1].disk, c.tasks[i])
      {
        SuccessStoresAll(c, run);
      }
    } else {
      var i, j :| 0 <= i < |c.tasks| && 0 <= j < |c.tasks| && Hits(c, i, j) && Needs(c, s.disk, j);
      var run := ClashLosesFile(c, s, i, j);
      assert !Stored(run[|run| - 1].disk, c.tasks[i]);
    }
  }

  // ---------------------------------------------------------------- shared temporary names

  /** From a doomed state no schedule succeeds, even if nothing else goes wrong. */
  lemma {:induction false} DoomedNeverSucceeds(c: Config, run: seq<State>)
    requires IsRun(c, run) && |run[0].pcs| == |c.tasks| && SoundDisk(run[0].disk) && Guarded(c, run[0])
             && Doomed(c, run[0])
    ensures var t := run[|run| - 1];
            && |t.pcs| == |c.tasks| && SoundDisk(t.disk) && Guarded(c, t) && (Doomed(c, t) || AnyFailed(t))
            && !AllDone(t)
  {
    hide TaskStep, SoundDisk, Guarded, TmpOf;
    if |run| > 1 {
      var front := run[..|run| - 1];
      DoomedNeverSucceeds(c, front);
      var s, t := run[|run| - 2], run[|run| - 1];
      assert front[|front| - 1] == s && Next(c, s, t);
      DoomStep(c, s, t);
    }
  }

  lemma DoomStep(c: Config, s: State, t: State)
    requires |s.pcs| == |c.tasks| && SoundDisk(s.disk) && Guarded(c, s) && (Doomed(c, s) || AnyFailed(s))
             && Next(c, s, t)
    ensures |t.pcs| == |c.tasks| && SoundDisk(t.disk) && Guarded(c, t) && (Doomed(c, t) || AnyFailed(t))
  {
    var i: nat :| TaskStep(c, s, t, i);
    SoundDiskPreserved(c, s, t, i);
    GuardedStays(c, s, t, i);
    hide TmpOf, SoundDisk, Guarded;
    if AnyFailed(s) {
      FailureIsForever(c, s, t, i);
    } else {
      DoomIsForever(c, s, t, i);
    }
  }

  /** Two tasks that both have to download share a temporary name. */
  predicate SharesTmp(c: Config, d: Disk, i: int, j: int) {
    && 0 <= i < |c.tasks| && 0 <= j < |c.tasks| && i != j
    && Needs(c, d, i) && Needs(c, d, j) && TmpOf(c.tasks[i].dest) == TmpOf(c.tasks[j].dest)
  }

  predicate OwnTmps(c: Config, d: Disk) {
    forall i, j :: 0 <= i < |c.tasks| && 0 <= j < |c.tasks| ==> !SharesTmp(c, d, i, j)
  }

  /**
   Two files that differ only in extension can spoil a download in which every byte arrived
   correctly: with two permits, both opening the shared temporary file is already fatal.
   */
  lemma SharedTmpCanDoom(c: Config, s: State, i: nat, j: nat) returns (run: seq<State>)
    requires Init(c, s) && c.limit >= 2 && Servable(c) && SharesTmp(c, s.disk, i, j)
    ensures IsRun(c, run) && run[0] == s && |run[|run| - 1].pcs| == |c.tasks|
    ensures Doomed(c, run[|run| - 1]) && !AnyFailed(run[|run| - 1])
  {
    hide TmpOf, Needs;
    var tmp := TmpOf(c.tasks[i].dest);
    var n := FreshNode(s.disk, tmp);
    var ready := BothFetch(c, s, i, j);
    var s4 := s.(pcs := s.pcs[i := Fetching][j := Fetching]);
    var s5 := State(Disk(s.disk.names[tmp := n], s.disk.data[n := []]), s4.pcs[i := Writing(n, 0)]);
    var s6 := State(Disk(s5.disk.names[tmp := n], s5.disk.data[n := []]), s5.pcs[j := Writing(n, 0)]);
    assert Create(c, s4, s5, i) && Create(c, s5, s6, j);
    assert TaskStep(c, s4, s5, i) && TaskStep(c, s5, s6, j);
    RunStep(c, ready, s5);
    RunStep(c, ready + [s5], s6);
    run := ready + [s5] + [s6];
    assert Live(s6, i) && Live(s6, j);
  }

  lemma BothFetch(c: Config, s: State, i: nat, j: nat) returns (run: seq<State>)
    requires Init(c, s) && c.limit >= 2 && i < |c.tasks| && j < |c.tasks| && i != j
    requires Needs(c, s.disk, i) && Needs(c, s.disk, j)
    ensures IsRun(c, run) && run[0] == s && run[|run| - 1] == s.(pcs := s.pcs[i := Fetching][j := Fetching])
  {
    hide TmpOf, Needs;
    assert Held(s.pcs) == {};
    var s1 := s.(pcs := s.pcs[i := Ready]);
    assert Held(s1.pcs) == {i};
    var s2 := s1.(pcs := s1.pcs[j := Ready]);
    var s3 := s2.(pcs := s2.pcs[i := Fetching]);
    var s4 := s3.(pcs := s3.pcs[j := Fetching]);
    assert TaskStep(c, s, s1, i) && TaskStep(c, s1, s2, j) && TaskStep(c, s2, s3, i) && TaskStep(c, s3, s4, j);
    run := [s, s1, s2, s3, s4];
    assert s4.pcs == s.pcs[i := Fetching][j := Fetching];
  }

  /** The writers' temporary names are all there and all different. */
  ghost predicate LiveNamed(c: Config, s: State)
    requires |s.pcs| == |c.tasks|
  {
    forall i :: Live(s, i) ==> TmpOf(c.tasks[i].dest) in s.disk.names
  }

  /** Without reuse of existing files, different temporary names alone rule out doom. */
  lemma {:induction false} OwnTmpsNeverDoom(c: Config, run: seq<State>)
    requires !c.skipExisting && IsRun(c, run) && Init(c, run[0]) && OwnTmps(c, run[0].disk)
    ensures |run[|run| - 1].pcs| == |c.tasks| && LiveNamed(c, run[|run| - 1]) && !Doomed(c, run[|run| - 1])
  {
    hide TmpOf, SoundDisk, Stored;
    if |run| > 1 {
      var front := run[..|run| - 1];
      OwnTmpsNeverDoom(c, front);
      var s, t := run[|run| - 2], run[|run| - 1];
      assert front[|front| - 1] == s && Next(c, s, t);
      OwnTmpsStep(c, s, t, run[0].disk);
    }
    NamedIsUndoomed(c, run[|run| - 1], run[0].disk);
  }

  lemma NamedIsUndoomed(c: Config, s: State, d: Disk)
    requires !c.skipExisting && OwnTmps(c, d) && |s.pcs| == |c.tasks| && LiveNamed(c, s)
    ensures !Doomed(c, s)
  {
    hide TmpOf, Stored;
    forall i, j | i != j && Live(s, i) && Live(s, j)
      ensures TmpOf(c.tasks[i].dest) != TmpOf(c.tasks[j].dest)
    {
      assert !SharesTmp(c, d, i, j);
    }
  }

  lemma OwnTmpsStep(c: Config, s: State, t: State, d: Disk)
    requires !c.skipExisting && OwnTmps(c, d) && |s.pcs| == |c.tasks| && LiveNamed(c, s) && Next(c, s, t)
    ensures |t.pcs| == |c.tasks| && LiveNamed(c, t)
  {
    hide TmpOf, Stored;
    var k: nat :| TaskStep(c, s, t, k);
    forall i | Live(t, i)
      ensures TmpOf(c.tasks[i].dest) in t.disk.names
    {
      assert !SharesTmp(c, d, i, k);
      assert i != k ==> Live(s, i);
    }
  }

  /** The tasks that need no download keep their files and never write. */
  ghost predicate Idle(c: Config, d: Disk, s: State)
    requires |s.pcs| == |c.tasks|
  {
    forall i :: 0 <= i < |c.tasks| && !Needs(c, d, i) ==>
                  Stored(s.disk, c.tasks[i]) && !s.pcs[i].Fetching? && !s.pcs[i].Writing?
  }

  lemma IdleStays(c: Config, d: Disk, s: State, t: State, k: nat)
    requires TaskStep(c, s, t, k) && SoundDisk(s.disk) && Guarded(c, s) && Clean(c, s) && Coherent(c) && Idle(c, d, s)
    ensures Idle(c, d, t)
  {
    forall i | 0 <= i < |c.tasks| && !Needs(c, d, i)
      ensures Stored(t.disk, c.tasks[i]) && !t.pcs[i].Fetching? && !t.pcs[i].Writing?
    {
      IdleTaskStays(c, d, s, t, k, i);
    }
  }

  lemma IdleTaskStays(c: Config, d: Disk, s: State, t: State, k: nat, i: nat)
    requires TaskStep(c, s, t, k) && SoundDisk(s.disk) && Guarded(c, s) && Clean(c, s) && Coherent(c) && Idle(c, d, s)
    requires i < |c.tasks| && !Needs(c, d, i)
    ensures Stored(t.disk, c.tasks[i]) && !t.pcs[i].Fetching? && !t.pcs[i].Writing?
  {
    hide TmpOf;
    if i != k && (Create(c, s, t, k) || Write(c, s, t, k) || Rename(c, s, t, k)) {
      assert CleanTask(c, s, k) && !Kept(c, s, k) && !Hits(c, i, k);
      var served := c.tasks[k].served;
      assert served[..|served|] == served;
    }
  }

  lemma IdleStepUndoomed(c: Config, d: Disk, s: State, t: State, k: nat)
    requires TaskStep(c, s, t, k) && !Doomed(c, s) && OwnTmps(c, d) && Idle(c, d, s) && |t.pcs| == |c.tasks|
             && Idle(c, d, t)
    ensures !Doomed(c, t)
  {
    hide TmpOf, Stored, Needs;
    forall i, j | i != j && Live(t, i) && Live(t, j)
      ensures TmpOf(c.tasks[i].dest) != TmpOf(c.tasks[j].dest)
    {
      assert !SharesTmp(c, d, i, j);
    }
    forall i | Live(t, i)
      ensures TmpOf(c.tasks[i].dest) in t.disk.names
    {
      if i != k {
        assert Live(s, i);
        if Rename(c, s, t, k) {
          assert Live(s, k);
        }
      }
    }
  }

  /** With reuse: nobody dooms while the tasks that need a download have temporary names of their own. */
  lemma {:induction false} ReuseNeverDooms(c: Config, run: seq<State>)
    requires IsRun(c, run) && Init(c, run[0]) && ClashFree(c, run[0].disk) && Coherent(c) && OwnTmps(c, run[0].disk)
    requires !AnyFailed(run[|run| - 1])
    ensures Inv(c, run[|run| - 1]) && !Doomed(c, run[|run| - 1]) && Idle(c, run[0].disk, run[|run| - 1])
  {
    hide TmpOf, SoundDisk, Stored, Coherent, ClashFree, OwnTmps, AnyFailed, Doomed, Inv;
    RunKeepsInv(c, run);
    if |run| == 1 {
      StartsIdle(c, run[0]);
    } else {
      var front := run[..|run| - 1];
      var s, t := run[|run| - 2], run[|run| - 1];
      assert front[|front| - 1] == s && Next(c, s, t);
      var k: nat :| TaskStep(c, s, t, k);
      if AnyFailed(s) {
        FailureIsForever(c, s, t, k);
        assert false;
      }
      ReuseNeverDooms(c, front);
      InvClean(c, s);
      IdleStays(c, run[0].disk, s, t, k);
      IdleStepUndoomed(c, run[0].disk, s, t, k);
    }
  }

  lemma StartsIdle(c: Config, s: State)
    requires Init(c, s)
    ensures Idle(c, s.disk, s) && !Doomed(c, s)
  {
    hide TmpOf;
    assert forall i :: !Live(s, i);
  }

  lemma InvClean(c: Config, s: State)
    requires Inv(c, s) && !AnyFailed(s) && !Doomed(c, s)
    ensures Basic(c, s) && Guarded(c, s) && Clean(c, s)
  {
  }

  /**
   Exactly when a download that meets no error can still get stuck: two tasks that have to
   download share a temporary name. For pools that reuse existing files, that is with names
   that lose no file in the first place.
   */
  lemma DoomExactlyWithSharedTmp(c: Config, s: State)
    requires Init(c, s) && c.limit >= 2 && Servable(c)
    requires c.skipExisting ==> ClashFree(c, s.disk) && Coherent(c)
    ensures OwnTmps(c, s.disk) <==>
            (forall run: seq<State> :: IsRun(c, run) && run[0] == s && !AnyFailed(run[|run| - 1])
               ==> |run[|run| - 1].pcs| == |c.tasks| && !Doomed(c, run[|run| - 1]))
  {
    hide Next, TmpOf, SoundDisk, Needs, AnyFailed, Doomed, Inv, Idle, LiveNamed;
    if OwnTmps(c, s.disk) {
      forall run: seq<State> | IsRun(c, run) && run[0] == s && !AnyFailed(run[|run| - 1])
        ensures |run[|run| - 1].pcs| == |c.tasks| && !Doomed(c, run[|run| - 1])
      {
        if c.skipExisting {
          ReuseNeverDooms(c, run);
          InvClean(c, run[|run| - 1]);
        } else {
          OwnTmpsNeverDoom(c, run);
        }
      }
    } else {
      var i, j :| 0 <= i < |c.tasks| && 0 <= j < |c.tasks| && SharesTmp(c, s.disk, i, j);
      var run := SharedTmpCanDoom(c, s, i, j);
      assert Doomed(c, run[|run| - 1]);
    }
  }

  // ---------------------------------------------------------------- finishing

  function Unfinished(pcs: seq<Pc>): set<nat> {
    set i: nat | i < |pcs| && pcs[i] != Done
  }

  lemma FinishedOne(pcs: seq<Pc>, i: nat)
    requires i < |pcs| && pcs[i] != Done
    ensures |Unfinished(pcs[i := Done])| < |Unfinished(pcs)|
  {
    assert Unfinished(pcs) == Unfinished(pcs[i := Done]) + {i};
  }

  /** Finish some task: a writer first, then one that is about to write, then one with a permit. */
  lemma FinishSome(c: Config, s: State) returns (i: nat, run: seq<State>)
    requires Free(c, s) && !AllDone(s) && c.limit > 0 && Servable(c)
    ensures IsRun(c, run) && run[0] == s && i < |s.pcs| && s.pcs[i] != Done
    ensures Free(c, run[|run| - 1]) && run[|run| - 1].pcs == s.pcs[i := Done]
  {
    hide Next, Free, Needs, Placed, TmpOf;
    FreeMeans(c, s);
    if !NoWriter(s) {
      var w :| 0 <= w < |s.pcs| && s.pcs[w].Writing?;
      i := w;
      assert Live(s, i);
      run := FinishWriter(c, s, i);
    } else if w :| 0 <= w < |s.pcs| && s.pcs[w] == Fetching {
      i := w;
      run := FinishFetching(c, s, i);
    } else if w :| 0 <= w < |s.pcs| && s.pcs[w] == Ready {
      i := w;
      run := FinishReady(c, s, i);
    } else {
      var w :| 0 <= w < |s.pcs| && s.pcs[w] != Done;
      i := w;
      assert forall m: nat :: m in Held(s.pcs) ==> Active(s.pcs[m]);
      assert Held(s.pcs) == {};
      FreeNotFailed(c, s, i);
      run := RunAlone(c, s, i);
    }
  }

  lemma FreeNotFailed(c: Config, s: State, i: nat)
    requires Free(c, s) && i < |s.pcs|
    ensures s.pcs[i] != Failed
  {
  }

  /** As long as nothing failed and nobody is doomed, the pool can still finish. */
  lemma {:induction false} UndoomedCanFinish(c: Config, s: State) returns (run: seq<State>)
    requires Free(c, s) && c.limit > 0 && Servable(c)
    ensures IsRun(c, run) && run[0] == s && AllDone(run[|run| - 1])
    decreases |Unfinished(s.pcs)|
  {
    hide Next, Free, Servable;
    if AllDone(s) {
      OneState(c, s);
      run := [s];
    } else {
      var i, first := FinishSome(c, s);
      FinishedOne(s.pcs, i);
      var rest := UndoomedCanFinish(c, first[|first| - 1]);
      Append(c, first, rest);
      run := first + rest[1..];
    }
  }

  lemma OneState(c: Config, s: State)
    ensures IsRun(c, [s])
  {
  }

  ghost predicate CanFinish(c: Config, s: State) {
    exists run: seq<State> :: IsRun(c, run) && run[0] == s && AllDone(run[|run| - 1])
  }

  /**
   With clash-free names: every error-free partial run can be completed if and only if the
   tasks that have to download have temporary names of their own.
   */
  lemma CompletableExactly(c: Config, s: State)
    requires Init(c, s) && c.limit >= 2 && Servable(c) && ClashFree(c, s.disk) && Coherent(c)
    ensures OwnTmps(c, s.disk) <==>
            (forall run: seq<State> :: IsRun(c, run) && run[0] == s && !AnyFailed(run[|run| - 1])
               ==> CanFinish(c, run[|run| - 1]))
  {
    hide Next, TmpOf, SoundDisk, Needs, AnyFailed, Doomed, Inv, Idle, Init, Coherent, ClashFree, CanFinish;
    if OwnTmps(c, s.disk) {
      forall run: seq<State> | IsRun(c, run) && run[0] == s && !AnyFailed(run[|run| - 1])
        ensures CanFinish(c, run[|run| - 1])
      {
        ReuseNeverDooms(c, run);
        CleanCanFinish(c, run[|run| - 1]);
      }
    } else {
      var i, j :| 0 <= i < |c.tasks| && 0 <= j < |c.tasks| && SharesTmp(c, s.disk, i, j);
      var run := SharedTmpCanDoom(c, s, i, j);
      DoomedCannotFinish(c, run);
    }
  }

  lemma CleanCanFinish(c: Config, s: State)
    requires Inv(c, s) && !AnyFailed(s) && !Doomed(c, s) && c.limit > 0 && Servable(c)
    ensures CanFinish(c, s)
  {
    assert Free(c, s) by {
      InvClean(c, s);
      assert forall i :: Live(s, i) ==> CleanTask(c, s, i);
    }
    var run := UndoomedCanFinish(c, s);
  }

  lemma DoomedCannotFinish(c: Config, run: seq<State>)
    requires IsRun(c, run) && Init(c, run[0]) && ClashFree(c, run[0].disk)
    requires |run[|run| - 1].pcs| == |c.tasks| && Doomed(c, run[|run| - 1])
    ensures !CanFinish(c, run[|run| - 1])
  {
    hide Next, SoundDisk, Guarded, Doomed, Clean, Init, ClashFree;
    RunKeepsInv(c, run);
    var s := run[|run| - 1];
    forall more: seq<State> | IsRun(c, more) && more[0] == s
      ensures !AllDone(more[|more| - 1])
    {
      DoomedNeverSucceeds(c, more);
    }
  }

  /** A file can only be taken for a temporary file if its own name ends in `.tmp`. */
  lemma NoTmpNamesNoClash(c: Config)
    requires forall i :: 0 <= i < |c.tasks| ==> !EndsWith(c.tasks[i].dest, ".tmp")
    ensures NoClash(c) && forall d :: ClashFree(c, d)
  {
    forall j | 0 <= j < |c.tasks|
      ensures EndsWith(TmpOf(c.tasks[j].dest), ".tmp")
    {
    }
  }
}
