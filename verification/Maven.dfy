/** Maven coordinates: `group:artifact:version[:classifier[:extension]]` and their library paths. */
module Maven {
  import opened Common
  import opened Strings
  import AtomicWrites

  datatype Coord = Coord(group: string, artifact: string, version: string,
                         classifier: Option<string>, extension: Option<string>)

  predicate SafeChar(c: char) {
    'a' <= c <= 'z' || 'A' <= c <= 'Z' || '0' <= c <= '9' || c == '.' || c == '_' || c == '-' || c == '+'
  }

  predicate SafeSegment(s: string) {
    s != "" && s != ".." && forall c :: c in s ==> SafeChar(c)
  }

  predicate SafeOption(o: Option<string>) {
    o.Some? ==> SafeSegment(o.value)
  }

  /** The coordinates the parser can return. */
  predicate Valid(m: Coord) {
    && SafeSegment(m.group) && SafeSegment(m.artifact) && SafeSegment(m.version)
    && SafeOption(m.classifier) && SafeOption(m.extension)
    && (m.extension.Some? ==> m.classifier.Some?)
  }

  function Segments(m: Coord): seq<string> {
    [m.group, m.artifact, m.version]
    + (if m.classifier.Some? then [m.classifier.value] else [])
    + (if m.extension.Some? then [m.extension.value] else [])
  }

  function Print(m: Coord): string {
    Join(Segments(m), ':')
  }

  datatype Invalid = InvalidMavenCoord(coord: string)

  predicate AllSafe(parts: seq<string>) {
    forall k :: 0 <= k < |parts| ==> SafeSegment(parts[k])
  }

  function FromParts(p: seq<string>): Coord
    requires 3 <= |p| <= 5
  {
    Coord(p[0], p[1], p[2], if |p| >= 4 then Some(p[3]) else None, if |p| == 5 then Some(p[4]) else None)
  }

  /** At most five parts are cut off, so a sixth segment stays inside the fifth and fails the segment test. */
  function Parse(s: string): Result<Coord, Invalid> {
    var p := SplitN(s, ':', 5);
    if |p| < 3 then Err(InvalidMavenCoord(s)) else
      var m := FromParts(p);
      if !SafeSegment(m.group) || !SafeSegment(m.artifact) || !SafeSegment(m.version) then Err(InvalidMavenCoord(s))
      else if !SafeOption(m.classifier) || !SafeOption(m.extension) then Err(InvalidMavenCoord(s))
      else Ok(m)
  }

  // ---------------------------------------------------------------- parser and printer

  lemma FromPartsFacts(p: seq<string>)
    requires 3 <= |p| <= 5
    ensures Segments(FromParts(p)) == p
    ensures Valid(FromParts(p)) <==> AllSafe(p)
  {
    var m := FromParts(p);
    if Valid(m) {
      assert AllSafe(p);
    }
    if AllSafe(p) {
      assert SafeSegment(p[0]) && SafeSegment(p[1]) && SafeSegment(p[2]);
      assert |p| >= 4 ==> SafeSegment(p[3]);
      assert |p| == 5 ==> SafeSegment(p[4]);
    }
  }

  lemma ColonIsUnsafe(s: string)
    requires ':' in s
    ensures !SafeSegment(s)
  {
    assert !SafeChar(':');
  }

  /** Accepted exactly when the full colon split has three to five parts and each is a safe segment. */
  lemma ParseAccepts(s: string)
    ensures Parse(s).Ok? <==> 3 <= |Split(s, ':')| <= 5 && AllSafe(Split(s, ':'))
    ensures Parse(s).Ok? ==> Valid(Parse(s).value) && Parse(s).value == FromParts(Split(s, ':'))
  {
    SplitNAgrees(s, ':', 5);
    var p := SplitN(s, ':', 5);
    if |p| >= 3 {
      FromPartsFacts(p);
      assert Parse(s).Ok? <==> Valid(FromParts(p));
    }
    if |Split(s, ':')| > 5 {
      ColonIsUnsafe(p[4]);
      assert !AllSafe(p);
    }
  }

  lemma ValidSegments(m: Coord)
    requires Valid(m)
    ensures 3 <= |Segments(m)| <= 5 && AllSafe(Segments(m)) && FromParts(Segments(m)) == m
    ensures AllFree(Segments(m), ':')
  {
    var p := Segments(m);
    assert p[0] == m.group && p[1] == m.artifact && p[2] == m.version;
    assert m.classifier.Some? ==> p[3] == m.classifier.value;
    assert m.extension.Some? ==> p[4] == m.extension.value;
    forall q | q in p
      ensures Free(q, ':')
    {
      assert SafeSegment(q);
      if ':' in q {
        ColonIsUnsafe(q);
      }
    }
  }

  /** Parsing inverts printing. */
  lemma ParseOfPrint(m: Coord)
    requires Valid(m)
    ensures Parse(Print(m)) == Ok(m)
  {
    ValidSegments(m);
    SplitJoin(Segments(m), ':');
    ParseAccepts(Print(m));
  }

  /** Printing inverts parsing: an accepted string is the only spelling of its coordinate. */
  lemma PrintOfParse(s: string)
    requires Parse(s).Ok?
    ensures Valid(Parse(s).value) && Print(Parse(s).value) == s
  {
    ParseAccepts(s);
    FromPartsFacts(Split(s, ':'));
    JoinSplit(s, ':');
  }

  // ---------------------------------------------------------------- paths

  /** `replace('.', "/")`. */
  function DotsToSlashes(s: string): (r: string)
    ensures |r| == |s|
    ensures forall k :: 0 <= k < |s| ==> r[k] == if s[k] == '.' then '/' else s[k]
  {
    if s == [] then [] else [if s[0] == '.' then '/' else s[0]] + DotsToSlashes(s[1..])
  }

  function EffectiveExtension(m: Coord): string {
    if m.extension.Some? then m.extension.value else "jar"
  }

  /** What follows `artifact-version` in the file name. */
  function Suffix(m: Coord): string {
    (if m.classifier.Some? then "-" + m.classifier.value else "") + "." + EffectiveExtension(m)
  }

  function Basename(m: Coord): string {
    m.artifact + "-" + m.version + Suffix(m)
  }

  function PathOf(m: Coord): string {
    DotsToSlashes(m.group) + "/" + m.artifact + "/" + m.version + "/" + Basename(m)
  }

  /** The path, spelled out for the three shapes of a coordinate. */
  lemma PathSpelled(m: Coord)
    ensures var front := DotsToSlashes(m.group) + "/" + m.artifact + "/" + m.version + "/";
            PathOf(m) == front + (
              if m.classifier.None? then
                m.artifact + "-" + m.version + "." + (if m.extension.None? then "jar" else m.extension.value)
              else
                m.artifact + "-" + m.version + "-" + m.classifier.value
                + "." + (if m.extension.None? then "jar" else m.extension.value))
  {
    hide DotsToSlashes;
    var stem, e := m.artifact + "-" + m.version, EffectiveExtension(m);
    if m.classifier.Some? {
      assert stem + ("-" + m.classifier.value + "." + e) == stem + "-" + m.classifier.value + "." + e;
    } else {
      assert stem + ("" + "." + e) == stem + "." + e;
    }
  }

  /** Nothing that could separate path components is safe, and the signs of build metadata are. */
  lemma SafeCharsSpelled()
    ensures SafeChar('.') && SafeChar('_') && SafeChar('-') && SafeChar('+')
    ensures forall c :: 'a' <= c <= 'z' || 'A' <= c <= 'Z' || '0' <= c <= '9' ==> SafeChar(c)
    ensures !SafeChar('/') && !SafeChar('\\') && !SafeChar(':') && !SafeChar(' ') && !SafeChar('~') && !SafeChar('%')
    ensures forall c: char :: c as int > 122 || c as int < 43 ==> !SafeChar(c)
  {
  }

  function CoordToPath(coord: string): Result<string, Invalid> {
    var m := Parse(coord);
    if m.Err? then Err(m.error) else Ok(PathOf(m.value))
  }

  lemma DotsToSlashesInjective(g: string, h: string)
    requires Free(g, '/') && Free(h, '/') && DotsToSlashes(g) == DotsToSlashes(h)
    ensures g == h
  {
    forall k | 0 <= k < |g|
      ensures g[k] == h[k]
    {
      assert g[k] in g && h[k] in h;
      assert DotsToSlashes(g)[k] == DotsToSlashes(h)[k];
    }
  }

  /** Which coordinates share a library file: the same group, artifact, version and file-name suffix. */
  lemma SamePathExactly(m: Coord, n: Coord)
    requires Valid(m) && Valid(n)
    ensures PathOf(m) == PathOf(n) <==>
            m.group == n.group && m.artifact == n.artifact && m.version == n.version && Suffix(m) == Suffix(n)
  {
    if PathOf(m) == PathOf(n) {
      var gm, gn := DotsToSlashes(m.group), DotsToSlashes(n.group);
      LastCut(gm + "/" + m.artifact + "/" + m.version, Basename(m),
              gn + "/" + n.artifact + "/" + n.version, Basename(n), '/');
      LastCut(gm + "/" + m.artifact, m.version, gn + "/" + n.artifact, n.version, '/');
      LastCut(gm, m.artifact, gn, n.artifact, '/');
      DotsToSlashesInjective(m.group, n.group);
      var stem := m.artifact + "-" + m.version;
      assert Suffix(m) == Basename(m)[|stem|..] && Suffix(n) == Basename(n)[|stem|..];
    }
  }

  /** With dot-free extensions the suffix determines classifier and effective extension. */
  lemma PathInjective(m: Coord, n: Coord)
    requires Valid(m) && Valid(n)
    requires Free(EffectiveExtension(m), '.') && Free(EffectiveExtension(n), '.')
    ensures PathOf(m) == PathOf(n) <==>
            && m.group == n.group && m.artifact == n.artifact && m.version == n.version
            && m.classifier == n.classifier && EffectiveExtension(m) == EffectiveExtension(n)
  {
    SamePathExactly(m, n);
    if Suffix(m) == Suffix(n) {
      var cm := if m.classifier.Some? then "-" + m.classifier.value else "";
      var cn := if n.classifier.Some? then "-" + n.classifier.value else "";
      LastCut(cm, EffectiveExtension(m), cn, EffectiveExtension(n), '.');
      if m.classifier.Some? && n.classifier.Some? {
        assert m.classifier.value == cm[1..] && n.classifier.value == cn[1..];
      }
    }
  }

  /** A dotted extension can borrow from the classifier: two different coordinates, one file. */
  lemma DottedExtensionCollides()
    ensures var m := Coord("g", "a", "1", Some("x"), Some("tar.gz"));
            var n := Coord("g", "a", "1", Some("x.tar"), Some("gz"));
            Valid(m) && Valid(n) && m != n && PathOf(m) == PathOf(n)
  {
    var m := Coord("g", "a", "1", Some("x"), Some("tar.gz"));
    var n := Coord("g", "a", "1", Some("x.tar"), Some("gz"));
    assert Suffix(m) == "-x.tar.gz" == Suffix(n);
  }

  /** No path has a `..` component, and it is relative exactly when the group does not start with a dot. */
  lemma PathStaysInside(m: Coord)
    requires Valid(m)
    ensures ".." !in Split(PathOf(m), '/')
    ensures PathOf(m)[0] == '/' <==> m.group[0] == '.'
  {
    var g := DotsToSlashes(m.group);
    assert PathOf(m)[0] == g[0];
    PathSplits(m);
    assert '-' in Basename(m);
    DotsVanish(g, m.group);
    assert m.group[0] in m.group;
    forall p | p in Split(g, '/')
      ensures p != ".."
    {
      if '.' in p {
        PartsComeFromWhole(g, '/', p, '.');
      }
    }
  }

  /** Where a library goes: joining an absolute path to a directory yields that path alone. */
  function LibraryPath(librariesDir: string, path: string): string {
    if StartsWith(path, "/") then path else librariesDir + "/" + path
  }

  /** A library goes below the libraries directory exactly when its group does not start with a dot. */
  lemma LibraryPathExactly(librariesDir: string, m: Coord)
    requires Valid(m)
    ensures LibraryPath(librariesDir, PathOf(m)) == librariesDir + "/" + PathOf(m) <==> m.group[0] != '.'
  {
    PathStaysInside(m);
    hide PathOf, Valid;
    assert |librariesDir + "/" + PathOf(m)| > |PathOf(m)|;
    assert StartsWith(PathOf(m), "/") <==> PathOf(m)[0] == '/';
  }

  /** An accepted coordinate whose library goes elsewhere. */
  lemma LeadingDotExample(librariesDir: string)
    ensures CoordToPath(".x:a:1") == Ok("/x/a/1/a-1.jar")
    ensures LibraryPath(librariesDir, "/x/a/1/a-1.jar") == "/x/a/1/a-1.jar"
  {
    hide Parse, PathOf, DotsToSlashes;
    SimpleCoord(".x", "a", "1");
    SimplePath(Coord(".x", "a", "1", None, None));
    assert DotsToSlashes(".x") == "/x";
    SpelledOut();
  }

  lemma SpelledOut()
    ensures ".x" + ":" + "a" + ":" + "1" == ".x:a:1" && "g" + ":" + "a" + ":" + "1" == "g:a:1"
    ensures "/x" + "/" + "a" + "/" + "1" + "/" + "a" + "-" + "1" + ".jar" == "/x/a/1/a-1.jar"
    ensures "." + "-" + ".-." + ".jar" == ".-.-..jar" && ".-." + "-" + "." + ".jar" == ".-.-..jar"
  {
    assert "/x" + "/" + "a" + "/" == "/x/a/";
    assert "/x/a/" + "1" + "/" + "a" == "/x/a/1/a";
  }

  lemma SimplePath(m: Coord)
    requires m.classifier.None? && m.extension.None?
    ensures PathOf(m) == DotsToSlashes(m.group) + "/" + m.artifact + "/" + m.version
                         + "/" + m.artifact + "-" + m.version + ".jar"
    ensures Basename(m) == m.artifact + "-" + m.version + ".jar" && Suffix(m) == ".jar"
  {
    hide DotsToSlashes;
    var front := DotsToSlashes(m.group) + "/" + m.artifact + "/" + m.version + "/";
    assert front + (m.artifact + "-" + m.version + ".jar") == front + m.artifact + "-" + m.version + ".jar";
  }

  /** The three-part coordinates parse as themselves. */
  lemma SimpleCoord(group: string, artifact: string, version: string)
    requires SafeSegment(group) && SafeSegment(artifact) && SafeSegment(version)
    ensures Parse(group + ":" + artifact + ":" + version) == Ok(Coord(group, artifact, version, None, None))
  {
    var m := Coord(group, artifact, version, None, None);
    ParseOfPrint(m);
    JoinThree(group, artifact, version, ':');
    assert Segments(m) == [group, artifact, version];
    assert group + [':'] + artifact + [':'] + version == group + ":" + artifact + ":" + version;
  }

  lemma SimpleExample()
    ensures CoordToPath("g:a:1").Ok?
  {
    hide Parse, PathOf;
    SimpleCoord("g", "a", "1");
    SpelledOut();
  }

  // ---------------------------------------------------------------- files

  /** The file a path names: whether it is absolute, and its components without empty ones and dots. */
  function FileOf(path: string): (bool, seq<string>) {
    (StartsWith(path, "/"), Normal(Split(path, '/')))
  }

  function GroupParts(m: Coord): seq<string> {
    Normal(Split(DotsToSlashes(m.group), '/'))
  }

  lemma FileParts(m: Coord)
    requires Valid(m) && m.artifact != "." && m.version != "."
    ensures FileOf(PathOf(m)) == (m.group[0] == '.', GroupParts(m) + [m.artifact, m.version, Basename(m)])
  {
    FileInParts(m);
    var tail := [m.artifact, m.version, Basename(m)];
    assert '-' in Basename(m);
    assert "" !in tail && "." !in tail;
    hide PathOf, Basename, Normal, FileOf, GroupParts;
    NormalKeeps(tail);
  }

  /**
   Which coordinates name the same file: doubled and trailing dots in the group do not count,
   everything else does.
   */
  lemma SameFileExactly(m: Coord, n: Coord)
    requires Valid(m) && m.artifact != "." && m.version != "."
    requires Valid(n) && n.artifact != "." && n.version != "."
    ensures FileOf(PathOf(m)) == FileOf(PathOf(n)) <==>
            && (m.group[0] == '.' <==> n.group[0] == '.') && GroupParts(m) == GroupParts(n)
            && m.artifact == n.artifact && m.version == n.version && Suffix(m) == Suffix(n)
  {
    FileParts(m);
    FileParts(n);
    hide PathOf, GroupParts, FileOf, Suffix;
    var gm, gn := GroupParts(m), GroupParts(n);
    var tm, tn := [m.artifact, m.version, Basename(m)], [n.artifact, n.version, Basename(n)];
    if gm + tm == gn + tn {
      assert |gm| == |gn|;
      assert gm == (gm + tm)[..|gm|] && gn == (gn + tn)[..|gn|];
      assert tm == (gm + tm)[|gm|..] && tn == (gn + tn)[|gn|..];
      assert tm[0] == tn[0] && tm[1] == tn[1] && tm[2] == tn[2];
      var stem := m.artifact + "-" + m.version;
      assert Suffix(m) == Basename(m)[|stem|..] && Suffix(n) == Basename(n)[|stem|..];
    }
  }

  /** Two groups, one file. */
  lemma DoubledDotCollides()
    ensures var m, n := Coord("a..b", "x", "1", None, None), Coord("a.b", "x", "1", None, None);
            Valid(m) && Valid(n) && PathOf(m) != PathOf(n) && FileOf(PathOf(m)) == FileOf(PathOf(n))
  {
    var m, n := Coord("a..b", "x", "1", None, None), Coord("a.b", "x", "1", None, None);
    SamePathExactly(m, n);
    hide PathOf, FileOf, GroupParts, Suffix;
    DoubledDotGroups(m, n);
    SameFileExactly(m, n);
    SimplePath(m);
    SimplePath(n);
  }

  lemma DoubledDotGroups(m: Coord, n: Coord)
    requires m.group == "a..b" && n.group == "a.b"
    ensures GroupParts(m) == GroupParts(n)
  {
    hide DotsToSlashes, Split;
    assert DotsToSlashes("a..b") == "a//b" && DotsToSlashes("a.b") == "a/b";
    SplitTwo("a", "b");
    SplitThree("a", "", "b");
    assert "a" + "/" + "" + "/" + "b" == "a//b" && "a" + "/" + "b" == "a/b";
    NormalAppend(["a"], ["", "b"]);
    NormalAppend(["a"], ["b"]);
    assert ["a"] + ["", "b"] == ["a", "", "b"] && ["a"] + ["b"] == ["a", "b"];
    assert ["", "b"][1..] == ["b"];
  }

  lemma SplitTwo(a: string, b: string)
    requires Free(a, '/') && Free(b, '/')
    ensures Split(a + "/" + b, '/') == [a, b]
  {
    SplitCut(a, '/', b);
    FreeIndex(b, '/');
  }

  lemma SplitThree(a: string, b: string, x: string)
    requires Free(a, '/') && Free(b, '/') && Free(x, '/')
    ensures Split(a + "/" + b + "/" + x, '/') == [a, b, x]
  {
    SplitTwo(b, x);
    assert a + "/" + b + "/" + x == a + ['/'] + (b + "/" + x);
    hide Split;
    SplitCut(a, '/', b + "/" + x);
  }

  /** A segment that is a single dot vanishes from the path: then even artifact and version can trade places. */
  lemma DotSegmentsCollide()
    ensures var m, n := Coord("g", ".", ".-.", None, None), Coord("g", ".-.", ".", None, None);
            Valid(m) && Valid(n) && m.artifact != n.artifact && FileOf(PathOf(m)) == FileOf(PathOf(n))
  {
    var m, n := Coord("g", ".", ".-.", None, None), Coord("g", ".-.", ".", None, None);
    assert Valid(m) && Valid(n);
    hide PathOf, Basename, FileOf, Normal, Valid;
    SimplePath(m);
    SimplePath(n);
    SpelledOut();
    FileInParts(m);
    FileInParts(n);
    DotVanishes(".-.", ".-.-..jar");
  }

  lemma FileInParts(m: Coord)
    requires Valid(m)
    ensures FileOf(PathOf(m)) == (m.group[0] == '.', GroupParts(m) + Normal([m.artifact, m.version, Basename(m)]))
  {
    PathStaysInside(m);
    PathSplits(m);
    hide PathOf, Basename, Split, Normal, DotsToSlashes, Valid;
    NormalAppend(Split(DotsToSlashes(m.group), '/'), [m.artifact, m.version, Basename(m)]);
    assert StartsWith(PathOf(m), "/") <==> PathOf(m)[0] == '/';
  }

  lemma DotVanishes(x: string, b: string)
    ensures Normal([".", x, b]) == Normal([x, ".", b])
  {
    NormalAppend(["."], [x, b]);
    NormalAppend([x], [".", b]);
    NormalAppend(["."], [b]);
    NormalAppend([x], [b]);
    assert ["."] + [x, b] == [".", x, b] && [x] + [".", b] == [x, ".", b];
    assert ["."] + [b] == [".", b] && [x] + [b] == [x, b];
  }

  /** The components of the path: the group's, then artifact, version and file name. */
  lemma PathSplits(m: Coord)
    requires Valid(m)
    ensures Split(PathOf(m), '/') == Split(DotsToSlashes(m.group), '/') + [m.artifact, m.version, Basename(m)]
  {
    var g := DotsToSlashes(m.group);
    var tail := [m.artifact, m.version, Basename(m)];
    JoinSplit(g, '/');
    TailIsFree(m);
    JoinAppend(Split(g, '/'), tail, '/');
    JoinThree(m.artifact, m.version, Basename(m), '/');
    SameConcat(g, m.artifact, m.version, Basename(m));
    SplitJoin(Split(g, '/') + tail, '/');
  }

  lemma SameConcat(g: string, a: string, v: string, b: string)
    ensures g + "/" + a + "/" + v + "/" + b == g + ['/'] + (a + ['/'] + v + ['/'] + b)
  {
  }

  lemma JoinThree(a: string, b: string, x: string, c: char)
    ensures Join([a, b, x], c) == a + [c] + b + [c] + x
  {
    var s := [a, b, x];
    assert s[1..] == [b, x] && s[1..][1..] == [x];
    assert Join([x], c) == x;
    assert Join([b, x], c) == b + [c] + x;
  }

  lemma TailIsFree(m: Coord)
    requires Valid(m)
    ensures AllFree([m.artifact, m.version, Basename(m)], '/')
  {
    assert Free(Basename(m), '/');
  }

  lemma DotsVanish(g: string, group: string)
    requires g == DotsToSlashes(group)
    ensures Free(g, '.')
  {
  }

  lemma {:induction false} PartsComeFromWhole(s: string, c: char, part: string, x: char)
    requires part in Split(s, c) && x in part
    ensures x in s
    decreases |s|
  {
    var k := FirstIndexOf(s, c);
    if k < |s| && part != s[..k] {
      PartsComeFromWhole(s[k + 1..], c, part, x);
    }
  }

  /** Replacing a dot-free extension by `tmp`. */
  lemma TmpOfStem(head: string, e: string)
    requires head != "" && head[|head| - 1] != '/' && Free(e, '.') && Free(e, '/')
    ensures AtomicWrites.TmpOf(head + "." + e) == head + ".tmp"
  {
    var p := head + "." + e;
    assert p[|head|] == '.';
    assert forall k :: |head| < k < |p| ==> p[k] == e[k - |head| - 1] && p[k] in e;
    assert LastIndexOf(p, '.') == |head|;
    assert p[|head| - 1] == head[|head| - 1];
    assert LastIndexOf(p, '/') < |head| - 1;
    assert p[..|head|] == head;
  }

  /** Two libraries that differ only in a dot-free extension share their temporary file. */
  lemma ExtensionsShareTmp(m: Coord, e: string)
    requires Valid(m) && m.classifier.Some? && SafeSegment(e)
    requires Free(EffectiveExtension(m), '.') && Free(e, '.')
    ensures AtomicWrites.TmpOf(PathOf(m)) == AtomicWrites.TmpOf(PathOf(m.(extension := Some(e))))
  {
    var n := m.(extension := Some(e));
    var head := StemOf(m, EffectiveExtension(m), m.extension);
    assert n.(extension := m.extension) == m;
    hide PathOf, AtomicWrites.TmpOf, Valid;
    TmpOfStem(head, EffectiveExtension(m));
    TmpOfStem(head, e);
  }

  lemma StemOf(m: Coord, e: string, old1: Option<string>) returns (head: string)
    requires Valid(m) && m.classifier.Some? && e == EffectiveExtension(m)
    ensures head != "" && head[|head| - 1] != '/' && Free(e, '/')
    ensures PathOf(m) == head + "." + e
    ensures forall x :: PathOf(m.(extension := Some(x))) == head + "." + x
  {
    var front := DotsToSlashes(m.group) + "/" + m.artifact + "/" + m.version + "/" + (m.artifact + "-" + m.version);
    head := front + ("-" + m.classifier.value);
    assert head[|head| - 1] == m.classifier.value[|m.classifier.value| - 1];
    assert head[|head| - 1] in m.classifier.value;
    hide DotsToSlashes;
    forall x
      ensures PathOf(m.(extension := Some(x))) == head + "." + x
    {
      Regroup(DotsToSlashes(m.group), m.artifact, m.version, m.classifier.value, x);
    }
    Regroup(DotsToSlashes(m.group), m.artifact, m.version, m.classifier.value, e);
  }

  lemma Regroup(g: string, a: string, v: string, c: string, x: string)
    ensures g + "/" + a + "/" + v + "/" + (a + "-" + v + ("-" + c + "." + x))
            == g + "/" + a + "/" + v + "/" + (a + "-" + v) + ("-" + c) + "." + x
  {
  }

  /**
   Two library files can only collide through a temporary file when a coordinate's
   effective extension is `tmp` or ends in `.tmp`.
   */
  lemma OnlyTmpExtensionsClash(m: Coord, n: Coord)
    requires Valid(m) && Valid(n) && PathOf(m) == AtomicWrites.TmpOf(PathOf(n))
    ensures EffectiveExtension(m) == "tmp" || EndsWith(EffectiveExtension(m), ".tmp")
  {
    hide PathOf, EffectiveExtension;
    var head := PathHead(m);
    TmpEnds(PathOf(m), head, EffectiveExtension(m));
  }

  lemma PathHead(m: Coord) returns (head: string)
    requires Valid(m)
    ensures PathOf(m) == head + "." + EffectiveExtension(m) && EffectiveExtension(m) != ""
  {
    hide DotsToSlashes, EffectiveExtension;
    assert EffectiveExtension(m) != "" by {
      ExtensionNotEmpty(m);
    }
    var front := DotsToSlashes(m.group) + "/" + m.artifact + "/" + m.version + "/" + (m.artifact + "-" + m.version);
    head := front + if m.classifier.Some? then "-" + m.classifier.value else "";
    assert PathOf(m) == head + "." + EffectiveExtension(m);
  }

  lemma ExtensionNotEmpty(m: Coord)
    requires Valid(m)
    ensures EffectiveExtension(m) != ""
  {
  }

  lemma TmpEnds(p: string, head: string, e: string)
    requires p == head + "." + e && EndsWith(p, ".tmp") && e != ""
    ensures e == "tmp" || EndsWith(e, ".tmp")
  {
    assert p[|p| - 4..] == ".tmp";
    assert p[|p| - 1] == 'p' && p[|p| - 2] == 'm' && p[|p| - 3] == 't';
    assert p[|head|] == '.';
    if |e| == 3 {
      assert e == p[|p| - 3..];
    } else {
      assert e[|e| - 4..] == p[|p| - 4..];
    }
  }
}
