/** Extracting a modpack's `overrides/` and `client-overrides/` into the instance directory. */
module Overrides {
  import opened Common
  import opened Strings

  type Bytes = seq<bv8>

  datatype Entry = Entry(name: string, symlink: bool, bytes: Bytes)

  /** A path below the instance directory, as its components. */
  type Path = seq<string>

  type Tree = map<Path, Bytes>

  const OVERRIDES := "overrides/"
  const CLIENT_OVERRIDES := "client-overrides/"

  /** None when any component would leave the directory. */
  function SafeExtractPath(name: string): Option<Path> {
    var parts := Split(name, '/');
    if name != "" && name[0] == '/' then None
    else if parts[0] == "." || ".." in parts then None
    else Some(Normal(parts))
  }

  /** Where an entry of the pass for `prefix` is written; None when the pass skips it. */
  function TargetOf(e: Entry, prefix: string): Option<Path> {
    if !StartsWith(e.name, prefix) then None
    else
      var stripped := e.name[|prefix|..];
      if stripped == "" || stripped[|stripped| - 1] == '/' || e.symlink then None else SafeExtractPath(stripped)
  }

  /** Ordinary components, at least one. */
  predicate PlainParts(parts: seq<string>) {
    parts != [] && forall p :: p in parts ==> p != "" && p != "." && p != ".." && Free(p, '/')
  }

  /** A file below one of the two directories is written to the same place below the instance. */
  lemma TargetSpelled(parts: seq<string>, bytes: Bytes)
    requires PlainParts(parts)
    ensures TargetOf(Entry("overrides/" + Join(parts, '/'), false, bytes), OVERRIDES) == Some(parts)
    ensures TargetOf(Entry("client-overrides/" + Join(parts, '/'), false, bytes), CLIENT_OVERRIDES) == Some(parts)
  {
    var rest := Join(parts, '/');
    SafePlainName(parts);
    JoinEnds(parts);
    hide SafeExtractPath, Join, PlainParts;
    assert ("overrides/" + rest)[|"overrides/"|..] == rest;
    assert ("client-overrides/" + rest)[|"client-overrides/"|..] == rest;
  }

  lemma SafePlainName(parts: seq<string>)
    requires PlainParts(parts)
    ensures SafeExtractPath(Join(parts, '/')) == Some(parts)
  {
    SplitJoin(parts, '/');
    JoinEnds(parts);
    NormalKeeps(parts);
    assert parts[0] in parts;
    hide Join, Split, Normal;
  }

  lemma {:induction false} JoinEnds(parts: seq<string>)
    requires PlainParts(parts)
    ensures var s := Join(parts, '/'); s != "" && s[0] != '/' && s[|s| - 1] != '/'
    decreases |parts|
  {
    assert parts[0] in parts && parts[0][0] in parts[0] && parts[0][|parts[0]| - 1] in parts[0];
    if |parts| > 1 {
      assert forall p :: p in parts[1..] ==> p in parts;
      JoinEnds(parts[1..]);
    }
  }

  /** What is skipped: other directories, symbolic links, directory stubs, and names that are not plain paths. */
  lemma SkippedExactly(e: Entry, prefix: string)
    ensures TargetOf(e, prefix).None? <==>
            || !(prefix <= e.name) || e.symlink
            || var rest := e.name[|prefix|..];
               || rest == "" || rest[|rest| - 1] == '/' || rest[0] == '/'
               || Split(rest, '/')[0] == "." || ".." in Split(rest, '/')
  {
    hide Normal, Split;
  }

  // ---------------------------------------------------------------- one pass

  /** The tree after the first `n` entries, if every write succeeded. */
  function Pass(archive: seq<Entry>, prefix: string, n: nat, tree: Tree): Tree
    requires n <= |archive|
  {
    if n == 0 then tree
    else
      var before := Pass(archive, prefix, n - 1, tree);
      var target := TargetOf(archive[n - 1], prefix);
      if target.None? then before else before[target.value := archive[n - 1].bytes]
  }

  function Written(archive: seq<Entry>, prefix: string, n: nat): nat
    requires n <= |archive|
  {
    if n == 0 then 0 else Written(archive, prefix, n - 1) + if TargetOf(archive[n - 1], prefix).Some? then 1 else 0
  }

  /** `k` is the last of the first `n` entries written to `p`. */
  ghost predicate LastFor(archive: seq<Entry>, prefix: string, n: nat, p: Path, k: nat)
    requires n <= |archive|
  {
    && k < n && TargetOf(archive[k], prefix) == Some(p)
    && forall j :: k < j < n ==> TargetOf(archive[j], prefix) != Some(p)
  }

  ghost predicate Untouched(archive: seq<Entry>, prefix: string, n: nat, p: Path)
    requires n <= |archive|
  {
    forall j :: 0 <= j < n ==> TargetOf(archive[j], prefix) != Some(p)
  }

  /** What is at `p` came from the last entry for it. */
  ghost predicate From(archive: seq<Entry>, prefix: string, tree: Tree, p: Path) {
    p in tree && exists k: nat :: LastFor(archive, prefix, |archive|, p, k) && tree[p] == archive[k].bytes
  }

  lemma {:induction false} PassUntouched(archive: seq<Entry>, prefix: string, n: nat, tree: Tree, p: Path)
    requires n <= |archive| && Untouched(archive, prefix, n, p)
    ensures p in Pass(archive, prefix, n, tree) <==> p in tree
    ensures p in tree ==> Pass(archive, prefix, n, tree)[p] == tree[p]
  {
    hide TargetOf;
    if n > 0 {
      PassUntouched(archive, prefix, n - 1, tree, p);
    }
  }

  lemma {:induction false} PassWritten(archive: seq<Entry>, prefix: string, n: nat, tree: Tree, p: Path)
    returns (k: nat)
    requires n <= |archive| && !Untouched(archive, prefix, n, p)
    ensures LastFor(archive, prefix, n, p, k)
    ensures p in Pass(archive, prefix, n, tree) && Pass(archive, prefix, n, tree)[p] == archive[k].bytes
  {
    hide TargetOf;
    if TargetOf(archive[n - 1], prefix) == Some(p) {
      k := n - 1;
    } else {
      k := PassWritten(archive, prefix, n - 1, tree, p);
    }
  }

  /** One pass leaves at a path the last entry for it, or what was there. */
  lemma PassLeavesLast(archive: seq<Entry>, prefix: string, tree: Tree, p: Path)
    ensures var t := Pass(archive, prefix, |archive|, tree);
            if Untouched(archive, prefix, |archive|, p) then (p in t <==> p in tree) && (p in tree ==> t[p] == tree[p])
            else From(archive, prefix, t, p)
  {
    hide TargetOf, Pass;
    if Untouched(archive, prefix, |archive|, p) {
      PassUntouched(archive, prefix, |archive|, tree, p);
    } else {
      var k := PassWritten(archive, prefix, |archive|, tree, p);
    }
  }

  // ---------------------------------------------------------------- both passes

  function Apply(archive: seq<Entry>, tree: Tree): Tree {
    Pass(archive, CLIENT_OVERRIDES, |archive|, Pass(archive, OVERRIDES, |archive|, tree))
  }

  /** The last client override wins, then the last override, then the old file. */
  lemma WhoWins(archive: seq<Entry>, tree: Tree, p: Path)
    ensures var t, n := Apply(archive, tree), |archive|;
            if !Untouched(archive, CLIENT_OVERRIDES, n, p) then From(archive, CLIENT_OVERRIDES, t, p)
            else if !Untouched(archive, OVERRIDES, n, p) then From(archive, OVERRIDES, t, p)
            else (p in t <==> p in tree) && (p in tree ==> t[p] == tree[p])
  {
    hide TargetOf, Pass;
    var mid := Pass(archive, OVERRIDES, |archive|, tree);
    PassLeavesLast(archive, OVERRIDES, tree, p);
    PassLeavesLast(archive, CLIENT_OVERRIDES, mid, p);
  }

  lemma LastIsUnique(archive: seq<Entry>, prefix: string, n: nat, p: Path, j: nat, k: nat)
    requires n <= |archive| && LastFor(archive, prefix, n, p, j) && LastFor(archive, prefix, n, p, k)
    ensures j == k
  {
  }

  lemma SameWinner(archive: seq<Entry>, prefix: string, once: Tree, twice: Tree, p: Path)
    requires From(archive, prefix, once, p) && From(archive, prefix, twice, p)
    ensures once[p] == twice[p]
  {
    var j: nat :| LastFor(archive, prefix, |archive|, p, j) && once[p] == archive[j].bytes;
    var k: nat :| LastFor(archive, prefix, |archive|, p, k) && twice[p] == archive[k].bytes;
    LastIsUnique(archive, prefix, |archive|, p, j, k);
  }

  /** Extracting the same archive again changes nothing. */
  lemma ApplyIsIdempotent(archive: seq<Entry>, tree: Tree)
    ensures Apply(archive, Apply(archive, tree)) == Apply(archive, tree)
  {
    hide Apply, TargetOf, LastFor, From, Untouched;
    var once := Apply(archive, tree);
    var twice := Apply(archive, once);
    forall p
      ensures (p in twice <==> p in once) && (p in once ==> twice[p] == once[p])
    {
      SamePlace(archive, tree, p);
    }
  }

  lemma SamePlace(archive: seq<Entry>, tree: Tree, p: Path)
    ensures var once := Apply(archive, tree);
            var twice := Apply(archive, once);
            (p in twice <==> p in once) && (p in once ==> twice[p] == once[p])
  {
    WhoWins(archive, tree, p);
    WhoWins(archive, Apply(archive, tree), p);
    hide Apply, TargetOf, LastFor, Untouched;
    var once := Apply(archive, tree);
    var twice := Apply(archive, once);
    if !Untouched(archive, CLIENT_OVERRIDES, |archive|, p) {
      SameWinner(archive, CLIENT_OVERRIDES, once, twice, p);
    } else if !Untouched(archive, OVERRIDES, |archive|, p) {
      SameWinner(archive, OVERRIDES, once, twice, p);
    }
  }

  // ---------------------------------------------------------------- the extractor

  datatype ExtractError = Cancelled | Io(path: Path)

  /** How the system takes one file: in full, not at all, or only its first bytes before an error. */
  datatype Write = Complete | NoFile | Partial(length: nat)

  function Torn(tree: Tree, p: Path, bytes: Bytes, w: Write): Tree {
    if w.Partial? then tree[p := if w.length <= |bytes| then bytes[..w.length] else bytes] else tree
  }

  /** Entry `k` is the first one the pass could not write, and this is the tree it left. */
  ghost predicate StoppedAt(archive: seq<Entry>, prefix: string, io: nat -> Write, k: nat, before: Tree, after: Tree,
                            error: ExtractError)
  {
    && k < |archive| && TargetOf(archive[k], prefix).Some? && !io(k).Complete?
    && (forall j: nat :: j < k && TargetOf(archive[j], prefix).Some? ==> io(j).Complete?)
    && var p := TargetOf(archive[k], prefix).value;
       error == Io(p) && after == Torn(Pass(archive, prefix, k, before), p, archive[k].bytes, io(k))
  }

  class InstanceDir {
    var tree: Tree

    constructor (tree: Tree)
      ensures this.tree == tree
    {
      this.tree := tree;
    }

    /** 1 when a file was written, 0 when the entry was skipped. */
    method ExtractOneEntry(e: Entry, prefix: string, w: Write) returns (r: Result<nat, ExtractError>)
      requires StartsWith(e.name, prefix)
      modifies this
      ensures var target := TargetOf(e, prefix);
              if target.None? then r == Ok(0) && tree == old(tree)
              else if w.Complete? then r == Ok(1) && tree == old(tree)[target.value := e.bytes]
              else r == Err(Io(target.value)) && tree == Torn(old(tree), target.value, e.bytes, w)
    {
      var stripped := e.name[|prefix|..];
      if stripped == "" || stripped[|stripped| - 1] == '/' {
        return Ok(0);
      }
      if e.symlink {
        return Ok(0);
      }
      var safe := SafeExtractPath(stripped);
      if safe.None? {
        return Ok(0);
      }
      if !w.Complete? {
        tree := Torn(tree, safe.value, e.bytes, w);
        return Err(Io(safe.value));
      }
      tree := tree[safe.value := e.bytes];
      r := Ok(1);
    }

    method OnePass(archive: seq<Entry>, prefix: string, io: nat -> Write) returns (r: Result<nat, ExtractError>)
      modifies this
      ensures r.Ok? ==>
                && tree == Pass(archive, prefix, |archive|, old(tree))
                && r.value == Written(archive, prefix, |archive|)
      ensures r.Err? ==> exists k: nat :: StoppedAt(archive, prefix, io, k, old(tree), tree, r.error)
    {
      var total := 0;
      hide TargetOf, Torn, Pass, Written, StartsWith;
      NothingYet(archive, prefix, tree);
      for i := 0 to |archive|
        invariant tree == Pass(archive, prefix, i, old(tree)) && total == Written(archive, prefix, i)
        invariant forall j: nat :: j < i && TargetOf(archive[j], prefix).Some? ==> io(j).Complete?
      {
        OneMore(archive, prefix, i, old(tree));
        OtherPrefix(archive[i], prefix);
        if StartsWith(archive[i].name, prefix) {
          var one := ExtractOneEntry(archive[i], prefix, io(i));
          if one.Err? {
            assert StoppedAt(archive, prefix, io, i, old(tree), tree, one.error);
            return one;
          }
          total := total + one.value;
        }
      }
      r := Ok(total);
    }

    method ApplyOverrides(archive: seq<Entry>, cancelled: bool, io: nat -> Write, clientIo: nat -> Write)
      returns (r: Result<nat, ExtractError>)
      modifies this
      ensures cancelled ==> r == Err(Cancelled) && tree == old(tree)
      ensures r.Ok? ==>
                && tree == Apply(archive, old(tree))
                && r.value == Written(archive, OVERRIDES, |archive|) + Written(archive, CLIENT_OVERRIDES, |archive|)
      ensures r.Err? && !cancelled ==>
                exists k: nat ::
                  || StoppedAt(archive, OVERRIDES, io, k, old(tree), tree, r.error)
                  || StoppedAt(archive, CLIENT_OVERRIDES, clientIo, k,
                               Pass(archive, OVERRIDES, |archive|, old(tree)), tree, r.error)
    {
      hide StoppedAt, Pass, Written;
      if cancelled {
        return Err(Cancelled);
      }
      var first := OnePass(archive, OVERRIDES, io);
      if first.Err? {
        return first;
      }
      var second := OnePass(archive, CLIENT_OVERRIDES, clientIo);
      if second.Err? {
        return second;
      }
      r := Ok(first.value + second.value);
    }
  }

  lemma NothingYet(archive: seq<Entry>, prefix: string, tree: Tree)
    ensures Pass(archive, prefix, 0, tree) == tree && Written(archive, prefix, 0) == 0
  {
  }

  lemma OneMore(archive: seq<Entry>, prefix: string, n: nat, tree: Tree)
    requires n < |archive|
    ensures var target, before := TargetOf(archive[n], prefix), Pass(archive, prefix, n, tree);
            && Pass(archive, prefix, n + 1, tree)
               == (if target.None? then before else before[target.value := archive[n].bytes])
            && Written(archive, prefix, n + 1) == Written(archive, prefix, n) + if target.Some? then 1 else 0
  {
    hide TargetOf;
  }

  lemma OtherPrefix(e: Entry, prefix: string)
    ensures !StartsWith(e.name, prefix) ==> TargetOf(e, prefix).None?
  {
  }

  /** No entry name, however spelled, is extracted outside the directory. */
  lemma {:induction false} NormalStaysInside(parts: seq<string>)
    requires ".." !in parts
    ensures forall c :: c in Normal(parts) ==> c != "" && c != "." && c != ".." && c in parts
  {
    if parts != [] {
      NormalStaysInside(parts[1..]);
    }
  }

  lemma ExtractionStaysInside(e: Entry, prefix: string)
    requires TargetOf(e, prefix).Some?
    ensures forall c :: c in TargetOf(e, prefix).value ==> c != "" && c != "." && c != ".." && Free(c, '/')
  {
    var stripped := e.name[|prefix|..];
    JoinSplit(stripped, '/');
    NormalStaysInside(Split(stripped, '/'));
  }
}
