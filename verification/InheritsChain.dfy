/**
 The `inheritsFrom` chain: the walk over fetched JSONs at install time, the walk over the
 disk at launch time, and the resolver that merges what they collected.
 */
module InheritsChain {
  import opened Common

  const MAX_INHERITS_DEPTH: nat := 3

  /** `body` stands for everything the walks do not look at. */
  datatype VersionJson = VersionJson(id: string, inheritsFrom: Option<string>, body: string)

  datatype WalkError =
    | VersionNotInstalled(id: string)
    | Unreadable(id: string)
    | DepthExceeded(id: string)
    | Cycle(id: string)
    | ParentMissing(id: string)
    | FetchFailed(reason: string)

  type Parents = map<string, VersionJson>

  /** Version JSONs on disk; None when a file does not parse. */
  type Disk = map<string, Option<VersionJson>>

  // ---------------------------------------------------------------- launch time

  function DiskWalk(disk: Disk, current: Option<string>, parents: Parents): Result<Parents, WalkError>
    requires parents.Keys <= disk.Keys
    decreases disk.Keys - parents.Keys
  {
    if current.None? || current.value in parents then Ok(parents)
    else if current.value !in disk then Err(VersionNotInstalled(current.value))
    else if disk[current.value].None? then Err(Unreadable(current.value))
    else
      var pv := disk[current.value].value;
      Shrinks(disk, parents, current.value, pv);
      DiskWalk(disk, pv.inheritsFrom, parents[current.value := pv])
  }

  lemma Shrinks(disk: Disk, parents: Parents, id: string, pv: VersionJson)
    requires id in disk && id !in parents && parents.Keys <= disk.Keys
    ensures disk.Keys - parents[id := pv].Keys < disk.Keys - parents.Keys
  {
    assert parents[id := pv].Keys == parents.Keys + {id};
    assert id in disk.Keys - parents.Keys && id !in disk.Keys - parents[id := pv].Keys;
  }

  /** The loop ends on every finite disk, even one whose JSONs inherit in a circle. */
  method CollectParentsFromDisk(disk: Disk, root: VersionJson) returns (r: Result<Parents, WalkError>)
    ensures r == DiskWalk(disk, root.inheritsFrom, map[])
  {
    var parents: Parents := map[];
    var current := root.inheritsFrom;
    while current.Some?
      invariant parents.Keys <= disk.Keys
      invariant DiskWalk(disk, root.inheritsFrom, map[]) == DiskWalk(disk, current, parents)
      decreases disk.Keys - parents.Keys, if current.Some? then 1 else 0
    {
      var parentId := current.value;
      if parentId in parents {
        break;
      }
      if parentId !in disk {
        return Err(VersionNotInstalled(parentId));
      }
      if disk[parentId].None? {
        return Err(Unreadable(parentId));
      }
      var pv := disk[parentId].value;
      Shrinks(disk, parents, parentId, pv);
      current := pv.inheritsFrom;
      parents := parents[parentId := pv];
    }
    r := Ok(parents);
  }

  predicate Readable(disk: Disk, id: string) {
    id in disk && disk[id].Some?
  }

  /** What the chain `ids` points at next: `inheritsFrom` of its last member, or of the root. */
  function After(disk: Disk, first: Option<string>, ids: seq<string>): Option<string> {
    if ids == [] then first
    else if Readable(disk, ids[|ids| - 1]) then disk[ids[|ids| - 1]].value.inheritsFrom
    else None
  }

  /** `ids` are the first ancestors of the root, readable and pairwise different. */
  ghost predicate Ancestors(disk: Disk, first: Option<string>, ids: seq<string>) {
    && (forall k :: 0 <= k < |ids| ==> Readable(disk, ids[k]) && After(disk, first, ids[..k]) == Some(ids[k]))
    && (forall j, k :: 0 <= j < k < |ids| ==> ids[j] != ids[k])
  }

  /** `m` holds the JSONs of exactly these ids. */
  ghost predicate Holds(disk: Disk, ids: seq<string>, m: Parents) {
    forall id :: (id in m <==> id in ids) && (id in m ==> id in disk && disk[id] == Some(m[id]))
  }

  /** What the walk returns, in terms of the chain alone: where it stopped and why. */
  ghost predicate WalkResult(disk: Disk, first: Option<string>, ids: seq<string>, r: Result<Parents, WalkError>) {
    && Ancestors(disk, first, ids)
    && var next := After(disk, first, ids);
       match r
       case Ok(m) => Holds(disk, ids, m) && (next.None? || next.value in ids)
       case Err(VersionNotInstalled(id)) => next == Some(id) && id !in ids && id !in disk
       case Err(Unreadable(id)) => next == Some(id) && id in disk && disk[id].None?
       case Err(_) => false
  }

  lemma {:induction false} DiskWalkFollows(disk: Disk, first: Option<string>, ids: seq<string>, parents: Parents)
    returns (end: seq<string>)
    requires parents.Keys <= disk.Keys && Ancestors(disk, first, ids) && Holds(disk, ids, parents)
    ensures WalkResult(disk, first, end, DiskWalk(disk, After(disk, first, ids), parents))
    decreases disk.Keys - parents.Keys
  {
    var current := After(disk, first, ids);
    if current.None? || current.value in parents || !Readable(disk, current.value) {
      end := ids;
    } else {
      var pv := disk[current.value].value;
      var more := ids + [current.value];
      OneMoreAncestor(disk, first, ids, current.value, parents);
      Shrinks(disk, parents, current.value, pv);
      hide Ancestors, Holds, WalkResult;
      end := DiskWalkFollows(disk, first, more, parents[current.value := pv]);
    }
  }

  lemma OneMoreAncestor(disk: Disk, first: Option<string>, ids: seq<string>, id: string, parents: Parents)
    requires Ancestors(disk, first, ids) && Holds(disk, ids, parents)
    requires After(disk, first, ids) == Some(id) && id !in parents && Readable(disk, id)
    ensures Ancestors(disk, first, ids + [id]) && Holds(disk, ids + [id], parents[id := disk[id].value])
    ensures After(disk, first, ids + [id]) == disk[id].value.inheritsFrom
  {
    hide After, Readable;
    HoldsOneMore(disk, ids, id, parents);
    AncestorsOneMore(disk, first, ids, id);
  }

  lemma AncestorsOneMore(disk: Disk, first: Option<string>, ids: seq<string>, id: string)
    requires Ancestors(disk, first, ids) && id !in ids
    requires After(disk, first, ids) == Some(id) && Readable(disk, id)
    ensures Ancestors(disk, first, ids + [id])
    ensures After(disk, first, ids + [id]) == disk[id].value.inheritsFrom
  {
    var more := ids + [id];
    assert After(disk, first, more) == disk[id].value.inheritsFrom;
    hide After, Readable;
    forall k | 0 <= k < |more|
      ensures Readable(disk, more[k]) && After(disk, first, more[..k]) == Some(more[k])
    {
      assert more[..k] == ids[..k];
      assert ids[..|ids|] == ids;
    }
  }

  lemma HoldsOneMore(disk: Disk, ids: seq<string>, id: string, parents: Parents)
    requires Holds(disk, ids, parents) && Readable(disk, id)
    ensures Holds(disk, ids + [id], parents[id := disk[id].value])
  {
  }

  /** The launch-time walk returns exactly the ancestors reached before the chain ends or repeats. */
  lemma DiskWalkIsTheChain(disk: Disk, first: Option<string>) returns (ids: seq<string>)
    ensures WalkResult(disk, first, ids, DiskWalk(disk, first, map[]))
  {
    ids := DiskWalkFollows(disk, first, [], map[]);
  }

  // ---------------------------------------------------------------- install time

  /** The launcher manifest and the verified fetch of one version JSON. */
  datatype Remote = Remote(listed: set<string>, fetch: string -> Result<VersionJson, string>)

  function InstallWalk(remote: Remote, next: Option<string>, parents: Parents, depth: nat): Result<Parents, WalkError>
    decreases MAX_INHERITS_DEPTH - depth
  {
    if next.None? then Ok(parents)
    else if depth >= MAX_INHERITS_DEPTH then Err(DepthExceeded(next.value))
    else if next.value in parents then Err(Cycle(next.value))
    else if next.value !in remote.listed then Err(ParentMissing(next.value))
    else
      var parent := remote.fetch(next.value);
      if parent.Err? then Err(FetchFailed(parent.error))
      else InstallWalk(remote, parent.value.inheritsFrom, parents[next.value := parent.value], depth + 1)
  }

  /** `fetched` lists the version JSONs requested, in order. */
  method CollectInheritsChain(remote: Remote, child: VersionJson)
    returns (r: Result<Parents, WalkError>, fetched: seq<string>)
    ensures r == InstallWalk(remote, child.inheritsFrom, map[], 0)
    ensures |fetched| <= MAX_INHERITS_DEPTH
    ensures forall i, j :: 0 <= i < j < |fetched| ==> fetched[i] != fetched[j]
    ensures r.Ok? ==> forall id :: id in r.value <==> id in fetched
  {
    var parents: Parents := map[];
    fetched := [];
    var nextId := child.inheritsFrom;
    var depth := 0;
    while nextId.Some?
      invariant depth == |fetched| <= MAX_INHERITS_DEPTH
      invariant InstallWalk(remote, child.inheritsFrom, map[], 0) == InstallWalk(remote, nextId, parents, depth)
      invariant forall id :: id in parents <==> id in fetched
      invariant forall i, j :: 0 <= i < j < |fetched| ==> fetched[i] != fetched[j]
      decreases MAX_INHERITS_DEPTH - depth, if nextId.Some? then 1 else 0
    {
      var id := nextId.value;
      if depth >= MAX_INHERITS_DEPTH {
        return Err(DepthExceeded(id)), fetched;
      }
      if id in parents {
        return Err(Cycle(id)), fetched;
      }
      if id !in remote.listed {
        return Err(ParentMissing(id)), fetched;
      }
      var parent := remote.fetch(id);
      fetched := fetched + [id];
      if parent.Err? {
        return Err(FetchFailed(parent.error)), fetched;
      }
      nextId := parent.value.inheritsFrom;
      parents := parents[id := parent.value];
      depth := depth + 1;
    }
    r := Ok(parents);
  }

  lemma {:induction false} WalksAgree(remote: Remote, disk: Disk, next: Option<string>, parents: Parents, depth: nat)
    requires InstallWalk(remote, next, parents, depth).Ok?
    requires forall id :: id in InstallWalk(remote, next, parents, depth).value
               ==> id in disk && disk[id] == Some(InstallWalk(remote, next, parents, depth).value[id])
    requires parents.Keys <= disk.Keys
    ensures parents.Keys <= InstallWalk(remote, next, parents, depth).value.Keys
    ensures DiskWalk(disk, next, parents) == InstallWalk(remote, next, parents, depth)
    decreases MAX_INHERITS_DEPTH - depth
  {
    if next.Some? {
      var parent := remote.fetch(next.value).value;
      InstallWalkKeeps(remote, parent.inheritsFrom, parents[next.value := parent], depth + 1);
      WalksAgree(remote, disk, parent.inheritsFrom, parents[next.value := parent], depth + 1);
    }
  }

  lemma {:induction false} InstallWalkKeeps(remote: Remote, next: Option<string>, parents: Parents, depth: nat)
    requires InstallWalk(remote, next, parents, depth).Ok?
    ensures forall id :: id in parents ==> id in InstallWalk(remote, next, parents, depth).value
                                           && InstallWalk(remote, next, parents, depth).value[id] == parents[id]
    decreases MAX_INHERITS_DEPTH - depth
  {
    if next.Some? {
      var parent := remote.fetch(next.value).value;
      InstallWalkKeeps(remote, parent.inheritsFrom, parents[next.value := parent], depth + 1);
    }
  }

  /**
   Whatever the install-time walk collected, once it is on disk the launch-time walk collects
   the same map, without a cycle error and without the network.
   */
  lemma LaunchWalksWhatInstallStored(remote: Remote, disk: Disk, child: VersionJson)
    requires var r := InstallWalk(remote, child.inheritsFrom, map[], 0);
             r.Ok? && forall id :: id in r.value ==> id in disk && disk[id] == Some(r.value[id])
    ensures DiskWalk(disk, child.inheritsFrom, map[]) == InstallWalk(remote, child.inheritsFrom, map[], 0)
  {
    WalksAgree(remote, disk, child.inheritsFrom, map[], 0);
  }

  // ---------------------------------------------------------------- the resolver

  /** `resolve_inner`: the versions to merge, child first. It stops one hop earlier than the walk. */
  function Resolve(child: VersionJson, parents: Parents, seen: set<string>, depth: nat)
    : Result<seq<VersionJson>, WalkError>
    decreases MAX_INHERITS_DEPTH - depth
  {
    if child.inheritsFrom.None? then Ok([child])
    else
      var id := child.inheritsFrom.value;
      if id in seen then Err(Cycle(id))
      else if depth + 1 >= MAX_INHERITS_DEPTH then Err(DepthExceeded(id))
      else if id !in parents then Err(ParentMissing(id))
      else
        var rest := Resolve(parents[id], parents, seen + {id}, depth + 1);
        if rest.Err? then rest else Ok([child] + rest.value)
  }

  /** The child first, and behind each version the one it inherits from. */
  predicate Links(vs: seq<VersionJson>, child: VersionJson, m: Parents) {
    && |vs| > 0 && vs[0] == child && vs[|vs| - 1].inheritsFrom.None?
    && forall k :: 0 <= k < |vs| - 1 ==>
         vs[k].inheritsFrom.Some? && vs[k].inheritsFrom.value in m && vs[k + 1] == m[vs[k].inheritsFrom.value]
  }

  /** `ids` are different parents, none of them the child, each the parent of the one before. */
  predicate ParentsOf(child: VersionJson, parents: Parents, ids: seq<string>) {
    && child.id !in ids
    && (forall j, k :: 0 <= j < k < |ids| ==> ids[j] != ids[k])
    && (forall k :: 0 <= k < |ids| ==> ids[k] in parents)
    && (ids != [] ==> child.inheritsFrom == Some(ids[0]))
    && forall k :: 0 < k < |ids| ==> parents[ids[k - 1]].inheritsFrom == Some(ids[k])
  }

  /** How the resolver ends on any map of parents: no chain is longer than two, and what stops it is named. */
  lemma ResolveExactly(child: VersionJson, parents: Parents, ids: seq<string>)
    requires ParentsOf(child, parents, ids) && |ids| <= 2
    ensures var next := (if ids == [] then child else parents[ids[|ids| - 1]]).inheritsFrom;
            var r := Resolve(child, parents, {child.id}, 0);
            && (next.None? ==>
                  && r.Ok? && |r.value| == |ids| + 1 && r.value[0] == child
                  && forall k :: 0 <= k < |ids| ==> r.value[k + 1] == parents[ids[k]])
            && (next.Some? && (next.value == child.id || next.value in ids) ==> r == Err(Cycle(next.value)))
            && (next.Some? && next.value != child.id && next.value !in ids ==>
                  && (|ids| == 2 ==> r == Err(DepthExceeded(next.value)))
                  && (|ids| < 2 && next.value !in parents ==> r == Err(ParentMissing(next.value))))
  {
    if ids != [] {
      assert ids[0] in ids;
      var a := parents[ids[0]];
      if |ids| == 2 {
        assert ids[1] in ids && ids[0] != ids[1] && parents[ids[1 - 1]].inheritsFrom == Some(ids[1]);
        var seen := {child.id} + {ids[0]} + {ids[1]};
        var b := parents[ids[1]];
        assert b.inheritsFrom.Some? ==> (b.inheritsFrom.value in seen
                                         <==> b.inheritsFrom.value == child.id || b.inheritsFrom.value in ids);
        assert Resolve(b, parents, seen, 2).Ok? ==> Resolve(b, parents, seen, 2) == Ok([b]);
        assert Resolve(a, parents, {child.id} + {ids[0]}, 1)
               == if Resolve(b, parents, seen, 2).Err? then Resolve(b, parents, seen, 2) else Ok([a] + [b]);
      }
    }
  }

  /** `ids` are different listed versions that load, each the parent of the one before, the first of them `first`. */
  ghost predicate Chain(remote: Remote, first: Option<string>, ids: seq<string>) {
    && (forall j, k :: 0 <= j < k < |ids| ==> ids[j] != ids[k])
    && (forall k :: 0 <= k < |ids| ==> ids[k] in remote.listed && remote.fetch(ids[k]).Ok?)
    && (ids != [] ==> first == Some(ids[0]))
    && forall k :: 0 < k < |ids| ==> remote.fetch(ids[k - 1]).value.inheritsFrom == Some(ids[k])
  }

  function Behind(remote: Remote, first: Option<string>, ids: seq<string>): Option<string>
    requires ids != [] ==> remote.fetch(ids[|ids| - 1]).Ok?
  {
    if ids == [] then first else remote.fetch(ids[|ids| - 1]).value.inheritsFrom
  }

  function Fetched(remote: Remote, ids: seq<string>): Parents
    requires forall k :: 0 <= k < |ids| ==> remote.fetch(ids[k]).Ok?
  {
    map id | id in ids :: remote.fetch(id).value
  }

  /** A version that loads is added and the walk goes on behind it. */
  lemma WalkStep(remote: Remote, id: string, found: Parents, depth: nat)
    requires depth < MAX_INHERITS_DEPTH && id !in found && id in remote.listed && remote.fetch(id).Ok?
    ensures InstallWalk(remote, Some(id), found, depth)
            == InstallWalk(remote, remote.fetch(id).value.inheritsFrom, found[id := remote.fetch(id).value], depth + 1)
  {
  }

  /** From any point of a chain the walk goes on as from its start. */
  lemma {:induction false} WalkReaches(remote: Remote, first: Option<string>, ids: seq<string>)
    requires Chain(remote, first, ids) && |ids| <= MAX_INHERITS_DEPTH
    ensures InstallWalk(remote, first, map[], 0)
            == InstallWalk(remote, Behind(remote, first, ids), Fetched(remote, ids), |ids|)
    decreases |ids|
  {
    hide InstallWalk;
    if ids == [] {
      assert Fetched(remote, ids) == map[];
    } else {
      var n := |ids| - 1;
      ShorterChain(remote, first, ids);
      WalkReaches(remote, first, ids[..n]);
      WalkStep(remote, ids[n], Fetched(remote, ids[..n]), n);
      assert Fetched(remote, ids) == Fetched(remote, ids[..n])[ids[n] := remote.fetch(ids[n]).value];
    }
  }

  lemma ShorterChain(remote: Remote, first: Option<string>, ids: seq<string>)
    requires Chain(remote, first, ids) && ids != []
    ensures var n := |ids| - 1;
            && Chain(remote, first, ids[..n]) && Behind(remote, first, ids[..n]) == Some(ids[n]) && ids[n] !in ids[..n]
            && ids[n] in remote.listed && forall k :: 0 <= k < |ids| ==> remote.fetch(ids[k]).Ok?
  {
    var front := ids[..|ids| - 1];
    assert forall k :: 0 <= k < |front| ==> front[k] == ids[k];
  }

  /** How the install-time walk ends, by the shape of the chain it meets. */
  lemma InstallWalkExactly(remote: Remote, first: Option<string>, ids: seq<string>)
    requires Chain(remote, first, ids) && |ids| <= 3
    ensures var next := Behind(remote, first, ids);
            InstallWalk(remote, first, map[], 0) == InstallWalk(remote, next, Fetched(remote, ids), |ids|)
    ensures var next, r := Behind(remote, first, ids), InstallWalk(remote, first, map[], 0);
            && (next.None? ==> r == Ok(Fetched(remote, ids)))
            && (next.Some? && |ids| == 3 ==> r == Err(DepthExceeded(next.value)))
            && (next.Some? && |ids| < 3 && next.value in ids ==> r == Err(Cycle(next.value)))
            && (next.Some? && |ids| < 3 && next.value !in ids ==>
                  && (next.value !in remote.listed ==> r == Err(ParentMissing(next.value)))
                  && (next.value in remote.listed && remote.fetch(next.value).Err? ==>
                        r == Err(FetchFailed(remote.fetch(next.value).error))))
  {
    WalkReaches(remote, first, ids);
  }

  /** The install-time walk, seen as the list of versions it passed through. */
  lemma WalkUnfolds(remote: Remote, child: VersionJson) returns (ids: seq<string>)
    requires InstallWalk(remote, child.inheritsFrom, map[], 0).Ok?
    ensures var m := InstallWalk(remote, child.inheritsFrom, map[], 0).value;
            && |ids| == |m| <= 3
            && (forall k :: 0 <= k < |ids| ==> ids[k] in m)
            && (forall id :: id in m ==> id in ids)
            && (forall j, k :: 0 <= j < k < |ids| ==> ids[j] != ids[k])
            && child.inheritsFrom == (if ids == [] then None else Some(ids[0]))
            && forall k :: 0 <= k < |ids| ==> m[ids[k]].inheritsFrom == if k + 1 < |ids| then Some(ids[k + 1]) else None
  {
    var m := InstallWalk(remote, child.inheritsFrom, map[], 0).value;
    if child.inheritsFrom.None? {
      ids := [];
    } else {
      var a := child.inheritsFrom.value;
      var va := remote.fetch(a).value;
      if va.inheritsFrom.None? {
        ids := [a];
        assert m == map[a := va];
      } else {
        var b := va.inheritsFrom.value;
        var vb := remote.fetch(b).value;
        if vb.inheritsFrom.None? {
          ids := [a, b];
          assert m == map[a := va, b := vb] && m.Keys == {a, b};
        } else {
          var c := vb.inheritsFrom.value;
          var vc := remote.fetch(c).value;
          ids := [a, b, c];
          assert m == map[a := va, b := vb, c := vc] && m.Keys == {a, b, c};
        }
      }
    }
  }

  /** Three listed parents: collected at install time, walked at launch time, rejected by the resolver. */
  lemma ThreeParentsExample()
    ensures var a, b, c := VersionJson("a", Some("b"), ""), VersionJson("b", Some("c"), ""), VersionJson("c", None, "");
            var fetch := (id: string) => if id == "a" then Ok(a) else if id == "b" then Ok(b) else Ok(c);
            var child := VersionJson("d", Some("a"), "");
            var m := map["a" := a, "b" := b, "c" := c];
            && InstallWalk(Remote({"a", "b", "c"}, fetch), child.inheritsFrom, map[], 0) == Ok(m)
            && DiskWalk(map["a" := Some(a), "b" := Some(b), "c" := Some(c)], child.inheritsFrom, map[]) == Ok(m)
            && Resolve(child, m, {child.id}, 0).Err?
  {
    var a, b, c := VersionJson("a", Some("b"), ""), VersionJson("b", Some("c"), ""), VersionJson("c", None, "");
    var fetch := (id: string) => if id == "a" then Ok(a) else if id == "b" then Ok(b) else Ok(c);
    var remote := Remote({"a", "b", "c"}, fetch);
    var child := VersionJson("d", Some("a"), "");
    var m := map["a" := a, "b" := b, "c" := c];
    assert InstallWalk(remote, None, m, 3) == Ok(m);
    assert InstallWalk(remote, Some("c"), map["a" := a, "b" := b], 2) == Ok(m);
    assert InstallWalk(remote, Some("b"), map["a" := a], 1) == Ok(m);
    LaunchWalksWhatInstallStored(remote, map["a" := Some(a), "b" := Some(b), "c" := Some(c)], child);
    assert m.Keys == {"a", "b", "c"};
    ResolverAcceptsExactly(remote, child);
  }

  /**
   The two depth limits differ. After a successful install-time walk the resolver accepts the
   chain if and only if it has at most two parents and does not come back to the child, so a
   chain of exactly three parents is fetched and stored in full and then rejected.
   */
  lemma ResolverAcceptsExactly(remote: Remote, child: VersionJson)
    requires InstallWalk(remote, child.inheritsFrom, map[], 0).Ok?
    ensures var m := InstallWalk(remote, child.inheritsFrom, map[], 0).value;
            && (Resolve(child, m, {child.id}, 0).Ok? <==> |m| < MAX_INHERITS_DEPTH && child.id !in m)
            && (Resolve(child, m, {child.id}, 0).Ok? ==>
                  && |Resolve(child, m, {child.id}, 0).value| == |m| + 1
                  && Links(Resolve(child, m, {child.id}, 0).value, child, m))
  {
    var ids := WalkUnfolds(remote, child);
    hide InstallWalk;
    var m := InstallWalk(remote, child.inheritsFrom, map[], 0).value;
    assert child.id in m ==> child.id in ids;
    if |ids| >= 1 {
      var a := ids[0];
      if |ids| >= 2 {
        var b := ids[1];
        if a != child.id && b != child.id {
          assert Resolve(m[b], m, {child.id} + {a} + {b}, 2).Ok? <==> |ids| == 2;
        }
      }
    }
  }
}
