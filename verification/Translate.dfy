/**
 Loader version JSONs: the translation from the meta APIs' flat library entries to the
 launcher's `downloads.artifact` shape, the two profile readers, and the lazy migration
 of flat files left on disk.
 */
module Translate {
  import opened Common
  import Maven

  datatype Json =
    | Null
    | Bool(b: bool)
    | Num(n: int)
    | Str(s: string)
    | Arr(items: seq<Json>)
    | Obj(fields: map<string, Json>)

  datatype Loader = Fabric | Quilt

  datatype TranslateError =
    | NotAnObject
    | LibrariesNotAnArray
    | EntryNotAnObject(idx: nat)
    | EntryWithoutName(idx: nat)
    | BadCoord(idx: nat, coord: string)

  /** `Value::get(key)`: anything but an object has no members. */
  function Get(v: Json, key: string): Option<Json> {
    if v.Obj? && key in v.fields then Some(v.fields[key]) else None
  }

  function AsStr(v: Option<Json>): Option<string> {
    if v.Some? && v.value.Str? then Some(v.value.s) else None
  }

  const U64_LIMIT: int := 0x1_0000_0000_0000_0000

  function AsU64(v: Option<Json>): Option<int> {
    if v.Some? && v.value.Num? && 0 <= v.value.n < U64_LIMIT then Some(v.value.n) else None
  }

  // ---------------------------------------------------------------- URLs

  function TrimSlashes(s: string): string {
    if s != [] && s[|s| - 1] == '/' then TrimSlashes(s[..|s| - 1]) else s
  }

  function JoinUrl(repo: string, path: string): string {
    TrimSlashes(repo) + "/" + path
  }

  const FABRIC_REPO := "https://maven.fabricmc.net/"
  const QUILT_ROOT := "https://maven.quiltmc.org/"
  const QUILT_REPO := "https://maven.quiltmc.org/repository/release/"

  /** The repository the translators record for an entry without `url`. */
  function DefaultRepo(l: Loader, name: string): string {
    match l
    case Fabric => if StartsWith(name, "org.quiltmc:") then QUILT_ROOT else FABRIC_REPO
    case Quilt => if StartsWith(name, "net.fabricmc:") then FABRIC_REPO else QUILT_REPO
  }

  /** The repository the installer downloads from when an entry has no `url`. */
  function FallbackRepo(name: string): string {
    if StartsWith(name, "org.quiltmc:") then QUILT_ROOT else FABRIC_REPO
  }

  function GetOr(o: Option<string>, default: string): string {
    if o.Some? then o.value else default
  }

  // ---------------------------------------------------------------- translation

  function Artifact(path: string, url: string, sha1: Option<string>, size: Option<int>): map<string, Json> {
    map["path" := Str(path), "url" := Str(url)]
    + (if sha1.Some? then map["sha1" := Str(sha1.value)] else map[])
    + (if size.Some? then map["size" := Num(size.value)] else map[])
  }

  function NewEntry(name: string, artifact: map<string, Json>): Json {
    Obj(map["name" := Str(name), "downloads" := Obj(map["artifact" := Obj(artifact)])])
  }

  function TranslateEntry(l: Loader, idx: nat, e: Json): Result<Json, TranslateError> {
    if !e.Obj? then Err(EntryNotAnObject(idx)) else
      var name := AsStr(Get(e, "name"));
      if name.None? then Err(EntryWithoutName(idx)) else
        var path := Maven.CoordToPath(name.value);
        if path.Err? then Err(BadCoord(idx, name.value)) else
          var repo := GetOr(AsStr(Get(e, "url")), DefaultRepo(l, name.value));
          var sha1, size := AsStr(Get(e, "sha1")), AsU64(Get(e, "size"));
          Ok(NewEntry(name.value, Artifact(path.value, JoinUrl(repo, path.value), sha1, size)))
  }

  /** Entry by entry from the front; the first bad entry decides the error. */
  function TranslateEntries(l: Loader, es: seq<Json>): (r: Result<seq<Json>, TranslateError>)
    ensures r.Ok? ==> |r.value| == |es|
  {
    if es == [] then Ok([]) else
      var n := |es| - 1;
      var front := TranslateEntries(l, es[..n]);
      if front.Err? then front else
        var last := TranslateEntry(l, n, es[n]);
        if last.Err? then Err(last.error) else Ok(front.value + [last.value])
  }

  function Translate(l: Loader, root: Json): Result<Json, TranslateError> {
    if !root.Obj? then Err(NotAnObject)
    else if "libraries" !in root.fields then Ok(root)
    else if !root.fields["libraries"].Arr? then Err(LibrariesNotAnArray)
    else
      var es := TranslateEntries(l, root.fields["libraries"].items);
      if es.Err? then Err(es.error) else Ok(Obj(root.fields["libraries" := Arr(es.value)]))
  }

  lemma {:induction false} EarlierErrorWins(l: Loader, es: seq<Json>, n: nat)
    requires n <= |es| && TranslateEntries(l, es[..n]).Err?
    ensures TranslateEntries(l, es) == TranslateEntries(l, es[..n])
    decreases |es|
  {
    if n == |es| {
      assert es[..n] == es;
    } else {
      assert es[..|es| - 1][..n] == es[..n];
      EarlierErrorWins(l, es[..|es| - 1], n);
    }
  }

  lemma NoEntries(l: Loader)
    ensures TranslateEntries(l, []) == Ok([])
  {
  }

  lemma OneMoreEntry(l: Loader, es: seq<Json>, n: nat)
    requires n < |es| && TranslateEntries(l, es[..n]).Ok?
    ensures var front, last := TranslateEntries(l, es[..n]), TranslateEntry(l, n, es[n]);
            TranslateEntries(l, es[..n + 1]) == if last.Err? then Err(last.error) else Ok(front.value + [last.value])
  {
    hide TranslateEntry;
    assert es[..n + 1][..n] == es[..n];
  }

  /** The translators rewrite the library array in place, entry by entry. */
  method ToMojangShape(l: Loader, root: Json) returns (r: Result<Json, TranslateError>)
    ensures r == Translate(l, root)
  {
    hide TranslateEntry, TranslateEntries;
    if !root.Obj? {
      return Err(NotAnObject);
    }
    if "libraries" !in root.fields {
      return Ok(root);
    }
    if !root.fields["libraries"].Arr? {
      return Err(LibrariesNotAnArray);
    }
    var original := root.fields["libraries"].items;
    var libs := original;
    var idx := 0;
    NoEntries(l);
    while idx < |libs|
      invariant 0 <= idx <= |libs| == |original|
      invariant libs[idx..] == original[idx..]
      invariant TranslateEntries(l, original[..idx]) == Ok(libs[..idx])
    {
      assert libs[idx] == original[idx];
      assert original[..idx + 1][..idx] == original[..idx];
      var entry := TranslateEntry(l, idx, libs[idx]);
      OneMoreEntry(l, original, idx);
      if entry.Err? {
        EarlierErrorWins(l, original, idx + 1);
        return Err(entry.error);
      }
      ghost var before := libs;
      libs := libs[idx := entry.value];
      assert libs[..idx + 1] == before[..idx] + [entry.value];
      assert libs[idx + 1..] == before[idx..][1..] == original[idx..][1..] == original[idx + 1..];
      idx := idx + 1;
    }
    assert original[..idx] == original && libs[..idx] == libs;
    r := Ok(Obj(root.fields["libraries" := Arr(libs)]));
  }

  // ---------------------------------------------------------------- what translation keeps

  /** One translated entry against its source. */
  ghost predicate Translated(l: Loader, e: Json, t: Json) {
    var name := AsStr(Get(e, "name"));
    && name.Some? && Maven.CoordToPath(name.value).Ok?
    && var path := Maven.CoordToPath(name.value).value;
    && t == NewEntry(name.value,
              Artifact(path, JoinUrl(GetOr(AsStr(Get(e, "url")), DefaultRepo(l, name.value)), path),
                       AsStr(Get(e, "sha1")), AsU64(Get(e, "size"))))
  }

  lemma {:induction false} EntriesPointwise(l: Loader, es: seq<Json>)
    ensures TranslateEntries(l, es).Ok? <==> forall k :: 0 <= k < |es| ==> TranslateEntry(l, k, es[k]).Ok?
    ensures TranslateEntries(l, es).Ok? ==>
              forall k :: 0 <= k < |es| ==> TranslateEntry(l, k, es[k]) == Ok(TranslateEntries(l, es).value[k])
    decreases |es|
  {
    hide TranslateEntry;
    if es != [] {
      var n := |es| - 1;
      EntriesPointwise(l, es[..n]);
      assert forall k :: 0 <= k < n ==> es[..n][k] == es[k];
      assert (forall k :: 0 <= k < |es| ==> TranslateEntry(l, k, es[k]).Ok?) <==>
             (forall k :: 0 <= k < n ==> TranslateEntry(l, k, es[..n][k]).Ok?) && TranslateEntry(l, n, es[n]).Ok?;
      if TranslateEntries(l, es).Ok? {
        assert forall k :: 0 <= k < n ==> TranslateEntry(l, k, es[..n][k]) == Ok(TranslateEntries(l, es[..n]).value[k]);
      }
    }
  }

  /** Every other field is untouched; libraries keep number, order, name and the path the downloader uses. */
  lemma TranslationKeeps(l: Loader, raw: Json)
    requires Translate(l, raw).Ok?
    ensures var t := Translate(l, raw).value;
            && raw.Obj? && t.Obj? && t.fields.Keys == raw.fields.Keys
            && (forall key :: key in raw.fields && key != "libraries" ==> t.fields[key] == raw.fields[key])
            && ("libraries" in raw.fields ==>
                  && raw.fields["libraries"].Arr? && t.fields["libraries"].Arr?
                  && |t.fields["libraries"].items| == |raw.fields["libraries"].items|
                  && forall k :: 0 <= k < |raw.fields["libraries"].items| ==>
                       Translated(l, raw.fields["libraries"].items[k], t.fields["libraries"].items[k]))
  {
    if "libraries" in raw.fields {
      var es := raw.fields["libraries"].items;
      EntriesPointwise(l, es);
      forall k | 0 <= k < |es|
        ensures Translated(l, es[k], Translate(l, raw).value.fields["libraries"].items[k])
      {
        assert TranslateEntry(l, k, es[k]).Ok?;
      }
    }
  }

  // ---------------------------------------------------------------- the translation in plain terms

  /** `base` without its trailing slashes. */
  predicate WithoutSlashes(trimmed: string, base: string) {
    && trimmed <= base && (forall k :: |trimmed| <= k < |base| ==> base[k] == '/')
    && (trimmed != "" ==> trimmed[|trimmed| - 1] != '/')
  }

  lemma {:induction false} TrimSlashesExactly(s: string)
    ensures WithoutSlashes(TrimSlashes(s), s)
  {
    if s != [] && s[|s| - 1] == '/' {
      TrimSlashesExactly(s[..|s| - 1]);
    }
  }

  /** The repository of an entry: its own `url`, else the one its loader documents for this group. */
  predicate IsRepo(l: Loader, e: Json, repo: string)
    requires e.Obj? && "name" in e.fields && e.fields["name"].Str?
  {
    var name := e.fields["name"].s;
    if "url" in e.fields && e.fields["url"].Str? then repo == e.fields["url"].s
    else match l
         case Fabric =>
           repo == if "org.quiltmc:" <= name then "https://maven.quiltmc.org/" else "https://maven.fabricmc.net/"
         case Quilt =>
           repo == if "net.fabricmc:" <= name then "https://maven.fabricmc.net/"
                   else "https://maven.quiltmc.org/repository/release/"
  }

  /** A translated entry, read member by member. */
  ghost predicate EntryInPlain(l: Loader, e: Json, t: Json) {
    && e.Obj? && "name" in e.fields && e.fields["name"].Str? && Maven.CoordToPath(e.fields["name"].s).Ok?
    && t.Obj? && t.fields.Keys == {"name", "downloads"} && t.fields["name"] == e.fields["name"]
    && t.fields["downloads"].Obj? && t.fields["downloads"].fields.Keys == {"artifact"}
    && t.fields["downloads"].fields["artifact"].Obj?
    && ArtifactInPlain(l, e, t.fields["downloads"].fields["artifact"].fields)
  }

  ghost predicate ArtifactInPlain(l: Loader, e: Json, art: map<string, Json>)
    requires e.Obj? && "name" in e.fields && e.fields["name"].Str? && Maven.CoordToPath(e.fields["name"].s).Ok?
  {
    var path := Maven.CoordToPath(e.fields["name"].s).value;
    && "path" in art && art["path"] == Str(path)
    && "url" in art
    && (exists repo, trimmed :: IsRepo(l, e, repo) && WithoutSlashes(trimmed, repo)
                                && art["url"] == Str(trimmed + "/" + path))
    && (if "sha1" in e.fields && e.fields["sha1"].Str? then "sha1" in art && art["sha1"] == e.fields["sha1"]
        else "sha1" !in art)
    && (if "size" in e.fields && e.fields["size"].Num? && 0 <= e.fields["size"].n < 0x1_0000_0000_0000_0000
        then "size" in art && art["size"] == e.fields["size"]
        else "size" !in art)
  }

  /** Every translated library, said of the two JSONs alone. */
  lemma TranslatedInPlainTerms(l: Loader, raw: Json, k: nat)
    requires Translate(l, raw).Ok? && "libraries" in raw.fields && k < |raw.fields["libraries"].items|
    ensures var t := Translate(l, raw).value;
            && t.Obj? && "libraries" in t.fields && t.fields["libraries"].Arr?
            && |t.fields["libraries"].items| == |raw.fields["libraries"].items|
            && EntryInPlain(l, raw.fields["libraries"].items[k], t.fields["libraries"].items[k])
  {
    TranslationKeeps(l, raw);
    hide Translate, Translated, EntryInPlain;
    var e, t := raw.fields["libraries"].items[k], Translate(l, raw).value.fields["libraries"].items[k];
    assert Translated(l, e, t);
    TranslatedEntry(l, e, t);
  }

  lemma TranslatedEntry(l: Loader, e: Json, t: Json)
    requires Translated(l, e, t)
    ensures EntryInPlain(l, e, t)
  {
    hide Maven.CoordToPath, DefaultRepo, JoinUrl;
    var name := e.fields["name"].s;
    var path := Maven.CoordToPath(name).value;
    var repo := GetOr(AsStr(Get(e, "url")), DefaultRepo(l, name));
    RepoInPlain(l, e);
    JoinedUrl(repo, path);
    assert IsRepo(l, e, repo) && WithoutSlashes(TrimSlashes(repo), repo);
  }

  lemma JoinedUrl(repo: string, path: string)
    ensures JoinUrl(repo, path) == TrimSlashes(repo) + "/" + path && WithoutSlashes(TrimSlashes(repo), repo)
  {
    TrimSlashesExactly(repo);
  }

  lemma RepoInPlain(l: Loader, e: Json)
    requires e.Obj? && "name" in e.fields && e.fields["name"].Str?
    ensures IsRepo(l, e, GetOr(AsStr(Get(e, "url")), DefaultRepo(l, e.fields["name"].s)))
  {
  }

  /** When a profile translates: an object whose libraries, if any, are entries with a name that has a path. */
  lemma TranslatesExactly(l: Loader, raw: Json)
    ensures Translate(l, raw).Ok? <==>
            && raw.Obj?
            && ("libraries" in raw.fields ==>
                  && raw.fields["libraries"].Arr?
                  && forall k :: 0 <= k < |raw.fields["libraries"].items| ==>
                       var e := raw.fields["libraries"].items[k];
                       && e.Obj? && "name" in e.fields && e.fields["name"].Str?
                       && Maven.CoordToPath(e.fields["name"].s).Ok?)
  {
    hide Maven.CoordToPath, Artifact, NewEntry, JoinUrl, DefaultRepo, TranslateEntries;
    if raw.Obj? && "libraries" in raw.fields && raw.fields["libraries"].Arr? {
      EntriesPointwise(l, raw.fields["libraries"].items);
    }
  }

  /** The repository the installer downloads from, spelled out. */
  lemma FallbackRepoSpelled(name: string)
    ensures FallbackRepo(name)
            == if "org.quiltmc:" <= name then "https://maven.quiltmc.org/" else "https://maven.fabricmc.net/"
  {
  }

  /** The flatness test, said of the JSON's fields. */
  lemma FlatByFields(v: Json)
    ensures IsFlat(v) <==>
            && v.Obj? && "libraries" in v.fields && v.fields["libraries"].Arr? && v.fields["libraries"].items != []
            && v.fields["libraries"].items[0].Obj?
            && "url" in v.fields["libraries"].items[0].fields && "downloads" !in v.fields["libraries"].items[0].fields
  {
  }

  /** The migration's test: the first library has a `url` and no `downloads`. */
  predicate IsFlat(v: Json) {
    var libs := Get(v, "libraries");
    && libs.Some? && libs.value.Arr? && libs.value.items != []
    && Get(libs.value.items[0], "url").Some? && Get(libs.value.items[0], "downloads").None?
  }

  lemma TranslationIsNeverFlat(l: Loader, raw: Json)
    requires Translate(l, raw).Ok?
    ensures !IsFlat(Translate(l, raw).value)
  {
    TranslationKeeps(l, raw);
    if "libraries" in raw.fields && raw.fields["libraries"].items != [] {
      assert Translated(l, raw.fields["libraries"].items[0], Translate(l, raw).value.fields["libraries"].items[0]);
    }
  }

  // ---------------------------------------------------------------- translating twice

  /** Entries that lose nothing when translated again: no hash, no size, the default repository. */
  ghost predicate Plain(l: Loader, e: Json) {
    && AsStr(Get(e, "sha1")).None? && AsU64(Get(e, "size")).None?
    && var name := GetOr(AsStr(Get(e, "name")), "");
       TrimSlashes(GetOr(AsStr(Get(e, "url")), DefaultRepo(l, name))) == TrimSlashes(DefaultRepo(l, name))
  }

  lemma SameUrl(r1: string, r2: string, path: string)
    ensures JoinUrl(r1, path) == JoinUrl(r2, path) <==> TrimSlashes(r1) == TrimSlashes(r2)
  {
    var a, b, rest := TrimSlashes(r1), TrimSlashes(r2), "/" + path;
    assert JoinUrl(r1, path) == a + rest && JoinUrl(r2, path) == b + rest;
    if a + rest == b + rest {
      assert a == (a + rest)[..|a|] && b == (b + rest)[..|b|];
    }
  }

  lemma SameEntry(name: string, a: map<string, Json>, b: map<string, Json>)
    ensures NewEntry(name, a) == NewEntry(name, b) <==> a == b
  {
    assert NewEntry(name, a).fields["downloads"].fields["artifact"] == Obj(a);
    assert NewEntry(name, b).fields["downloads"].fields["artifact"] == Obj(b);
  }

  lemma SameArtifact(path: string, url: string, sha1: Option<string>, size: Option<int>, other: string)
    ensures Artifact(path, url, sha1, size) == Artifact(path, other, None, None)
            <==> sha1.None? && size.None? && url == other
  {
    var a, b := Artifact(path, url, sha1, size), Artifact(path, other, None, None);
    assert a["url"] == Str(url) && "sha1" !in b && "size" !in b;
    assert sha1.Some? ==> "sha1" in a;
    assert size.Some? ==> "size" in a;
  }

  lemma RetranslateEntry(l: Loader, idx: nat, e: Json, t: Json)
    requires Translated(l, e, t)
    ensures TranslateEntry(l, idx, t).Ok?
    ensures TranslateEntry(l, idx, t) == Ok(t) <==> Plain(l, e)
  {
    hide Maven.CoordToPath, JoinUrl, DefaultRepo;
    var name := AsStr(Get(e, "name")).value;
    var path := Maven.CoordToPath(name).value;
    var sha1, size := AsStr(Get(e, "sha1")), AsU64(Get(e, "size"));
    var url := JoinUrl(GetOr(AsStr(Get(e, "url")), DefaultRepo(l, name)), path);
    var a := Artifact(path, url, sha1, size);
    var b := Artifact(path, JoinUrl(DefaultRepo(l, name), path), None, None);
    assert TranslateEntry(l, idx, t) == Ok(NewEntry(name, b));
    SameEntry(name, a, b);
    SameArtifact(path, url, sha1, size, JoinUrl(DefaultRepo(l, name), path));
    hide Artifact, NewEntry;
    SameUrl(GetOr(AsStr(Get(e, "url")), DefaultRepo(l, name)), DefaultRepo(l, name), path);
  }

  lemma RetranslateEntries(l: Loader, es: seq<Json>, ts: seq<Json>)
    requires |es| == |ts| && forall k :: 0 <= k < |es| ==> Translated(l, es[k], ts[k])
    ensures TranslateEntries(l, ts).Ok?
    ensures TranslateEntries(l, ts).value == ts <==> forall k :: 0 <= k < |es| ==> Plain(l, es[k])
  {
    EntriesPointwise(l, ts);
    hide TranslateEntry, Translated, Plain;
    forall k | 0 <= k < |ts|
      ensures TranslateEntry(l, k, ts[k]).Ok?
      ensures TranslateEntry(l, k, ts[k]) == Ok(ts[k]) <==> Plain(l, es[k])
    {
      RetranslateEntry(l, k, es[k], ts[k]);
    }
    var us := TranslateEntries(l, ts).value;
    assert us == ts <==> forall k :: 0 <= k < |ts| ==> us[k] == ts[k];
    assert forall k :: 0 <= k < |ts| ==> TranslateEntry(l, k, ts[k]) == Ok(us[k]);
  }

  /**
   The translator is not idempotent on its own: a second pass drops hashes, sizes and
   repositories, and is the identity exactly when no entry carried any. The migration's
   flatness test is what keeps a translated file from going through again.
   */
  lemma RetranslateExactly(l: Loader, raw: Json)
    requires Translate(l, raw).Ok? && "libraries" in raw.fields
    ensures var t := Translate(l, raw).value;
            && Translate(l, t).Ok?
            && (Translate(l, t) == Ok(t) <==>
                forall k :: 0 <= k < |raw.fields["libraries"].items| ==> Plain(l, raw.fields["libraries"].items[k]))
  {
    TranslationKeeps(l, raw);
    hide TranslateEntries, Translated, Plain;
    var es := raw.fields["libraries"].items;
    var t := Translate(l, raw).value;
    var ts := t.fields["libraries"].items;
    RetranslateEntries(l, es, ts);
    var us := TranslateEntries(l, ts).value;
    var u := Translate(l, t).value;
    assert u.fields == t.fields["libraries" := Arr(us)];
    assert us == ts ==> u.fields == t.fields;
    assert u.fields["libraries"] == Arr(us);
  }

  /** One library with a hash: the second translation loses it. */
  lemma RetranslateExample(l: Loader)
    ensures var raw := Obj(map["libraries" := Arr([Obj(map["name" := Str("g:a:1"), "sha1" := Str("00")])])]);
            var once := Translate(l, raw);
            once.Ok? && Translate(l, once.value).Ok? && Translate(l, once.value) != once
  {
    var e := Obj(map["name" := Str("g:a:1"), "sha1" := Str("00")]);
    var raw := Obj(map["libraries" := Arr([e])]);
    HashedEntry(l, e);
    EntriesPointwise(l, [e]);
    hide TranslateEntries, TranslateEntry, Plain;
    assert [e][0] == e;
    RetranslateExactly(l, raw);
    assert raw.fields["libraries"].items[0] == e;
  }

  lemma HashedEntry(l: Loader, e: Json)
    requires e == Obj(map["name" := Str("g:a:1"), "sha1" := Str("00")])
    ensures TranslateEntry(l, 0, e).Ok? && !Plain(l, e)
  {
    hide Maven.CoordToPath, JoinUrl, DefaultRepo, TrimSlashes, Artifact, NewEntry;
    Maven.SimpleExample();
  }

  /** Quilt's own loader without a `url`: recorded under one repository, downloaded from another. */
  lemma RecordedUrlExample(path: string)
    ensures var name := "org.quiltmc:quilt-loader:0.20.0";
            JoinUrl(DefaultRepo(Quilt, name), path) != JoinUrl(FallbackRepo(name), path)
  {
    var name := "org.quiltmc:quilt-loader:0.20.0";
    assert name[0] == 'o';
    RecordedUrlIsTheDownloadUrl(Quilt, name, None, path);
  }

  /** Whether the URL written into the JSON is the one the jar was downloaded from. */
  lemma RecordedUrlIsTheDownloadUrl(l: Loader, name: string, url: Option<string>, path: string)
    ensures JoinUrl(GetOr(url, DefaultRepo(l, name)), path) == JoinUrl(GetOr(url, FallbackRepo(name)), path)
            <==> url.Some? || l.Fabric? || StartsWith(name, "net.fabricmc:")
  {
    if url.None? && l.Quilt? {
      TrimOnce("https://maven.fabricmc.net");
      TrimOnce("https://maven.quiltmc.org");
      TrimOnce("https://maven.quiltmc.org/repository/release");
      SameUrl(DefaultRepo(l, name), FallbackRepo(name), path);
      assert |"https://maven.fabricmc.net"| == 26 && |"https://maven.quiltmc.org"| == 25;
      assert |"https://maven.quiltmc.org/repository/release"| == 44;
      if StartsWith(name, "net.fabricmc:") {
        assert name[0] == 'n';
      }
    }
  }

  lemma TrimOnce(s: string)
    requires s != "" && s[|s| - 1] != '/'
    ensures TrimSlashes(s + "/") == s
  {
    assert (s + "/")[..|s|] == s;
  }

  // ---------------------------------------------------------------- reading profiles

  datatype Library = Library(name: string, url: Option<string>, sha1: Option<string>)

  datatype Profile = Profile(id: string, libraries: seq<Library>)

  /** An optional string field: absent or null is None, a string is Some, anything else fails the parse. */
  predicate OptStrOk(e: Json, key: string) {
    var v := Get(e, key);
    v.None? || v.value.Null? || v.value.Str?
  }

  predicate LibraryOk(e: Json) {
    && AsStr(Get(e, "name")).Some?
    && OptStrOk(e, "url") && OptStrOk(e, "sha1") && OptStrOk(e, "sha256") && OptStrOk(e, "sha512") && OptStrOk(e, "md5")
    && var size := Get(e, "size"); size.None? || size.value.Null? || AsU64(size).Some?
  }

  predicate LibrariesOk(v: Json, ok: Json -> bool) {
    && AsStr(Get(v, "id")).Some?
    && var libs := Get(v, "libraries");
       libs.None? || (libs.value.Arr? && forall k :: 0 <= k < |libs.value.items| ==> ok(libs.value.items[k]))
  }

  function Entries(v: Json): seq<Json> {
    var libs := Get(v, "libraries");
    if libs.Some? && libs.value.Arr? then libs.value.items else []
  }

  /** The profile readers of both meta clients. */
  function ParseProfile(raw: Json): Option<Profile> {
    if !LibrariesOk(raw, LibraryOk) then None else
      var es := Entries(raw);
      Some(Profile(AsStr(Get(raw, "id")).value,
                   seq(|es|, (k: nat) requires k < |es| =>
                     Library(GetOr(AsStr(Get(es[k], "name")), ""),
                             AsStr(Get(es[k], "url")), AsStr(Get(es[k], "sha1"))))))
  }

  datatype Minimal = Minimal(id: string, names: seq<string>)

  predicate HasName(e: Json) {
    AsStr(Get(e, "name")).Some?
  }

  /** What the re-attach check reads from a version JSON on disk. */
  function ParseMinimal(v: Json): Option<Minimal> {
    if !LibrariesOk(v, HasName) then None else
      var es := Entries(v);
      Some(Minimal(AsStr(Get(v, "id")).value,
                   seq(|es|, (k: nat) requires k < |es| => GetOr(AsStr(Get(es[k], "name")), ""))))
  }

  function Names(libs: seq<Library>): (r: seq<string>)
    ensures |r| == |libs| && forall k :: 0 <= k < |libs| ==> r[k] == libs[k].name
  {
    seq(|libs|, (k: nat) requires k < |libs| => libs[k].name)
  }

  /** A string field in plain terms. */
  predicate HasStr(v: Json, key: string) {
    v.Obj? && key in v.fields && v.fields[key].Str?
  }

  predicate Optional(v: Json, key: string) {
    v.Obj? ==> key !in v.fields || v.fields[key].Null? || v.fields[key].Str?
  }

  predicate LibraryFields(e: Json) {
    && HasStr(e, "name")
    && Optional(e, "url") && Optional(e, "sha1") && Optional(e, "sha256") && Optional(e, "sha512") && Optional(e, "md5")
    && ("size" in e.fields ==>
          e.fields["size"].Null? || (e.fields["size"].Num? && 0 <= e.fields["size"].n < 0x1_0000_0000_0000_0000))
  }

  /** A list of libraries, absent or each satisfying `ok`. */
  predicate LibrariesAre(v: Json, ok: Json -> bool)
    requires v.Obj?
  {
    "libraries" in v.fields ==>
      && v.fields["libraries"].Arr?
      && forall k :: 0 <= k < |v.fields["libraries"].items| ==> ok(v.fields["libraries"].items[k])
  }

  /** One library of a profile against its entry. */
  predicate ReadFrom(lib: Library, e: Json) {
    && HasStr(e, "name") && lib.name == e.fields["name"].s
    && (if HasStr(e, "url") then lib.url == Some(e.fields["url"].s) else lib.url.None?)
    && (if HasStr(e, "sha1") then lib.sha1 == Some(e.fields["sha1"].s) else lib.sha1.None?)
  }

  /** Which JSON is a profile, and which of its fields are read as what. */
  lemma ProfileByFields(raw: Json)
    ensures ParseProfile(raw).Some? <==> HasStr(raw, "id") && LibrariesAre(raw, LibraryFields)
    ensures ParseProfile(raw).Some? ==>
              var p := ParseProfile(raw).value;
              && p.id == raw.fields["id"].s
              && if "libraries" !in raw.fields then p.libraries == []
                 else
                   && |p.libraries| == |raw.fields["libraries"].items|
                   && forall k :: 0 <= k < |p.libraries| ==> ReadFrom(p.libraries[k], raw.fields["libraries"].items[k])
  {
    if HasStr(raw, "id") && "libraries" in raw.fields && raw.fields["libraries"].Arr? {
      var es := raw.fields["libraries"].items;
      forall k | 0 <= k < |es|
        ensures LibraryOk(es[k]) <==> LibraryFields(es[k])
      {
        LibraryByFields(es[k]);
      }
      hide LibraryOk, LibraryFields;
    }
  }

  lemma LibraryByFields(e: Json)
    ensures LibraryOk(e) <==> LibraryFields(e)
  {
  }

  lemma MinimalByFields(v: Json)
    ensures ParseMinimal(v).Some? <==> HasStr(v, "id") && LibrariesAre(v, e => HasStr(e, "name"))
    ensures ParseMinimal(v).Some? ==>
              var m := ParseMinimal(v).value;
              && m.id == v.fields["id"].s
              && if "libraries" !in v.fields then m.names == []
                 else
                   && |m.names| == |v.fields["libraries"].items|
                   && forall k :: 0 <= k < |m.names| ==> m.names[k] == v.fields["libraries"].items[k].fields["name"].s
  {
  }

  /** What was just written reads back as the profile it was made from. */
  lemma TranslatedReadsBack(l: Loader, raw: Json)
    requires ParseProfile(raw).Some? && Translate(l, raw).Ok?
    ensures ParseMinimal(Translate(l, raw).value)
            == Some(Minimal(ParseProfile(raw).value.id, Names(ParseProfile(raw).value.libraries)))
    ensures forall k :: 0 <= k < |ParseProfile(raw).value.libraries| ==>
              Maven.CoordToPath(ParseProfile(raw).value.libraries[k].name).Ok?
  {
    TranslationKeeps(l, raw);
    var t := Translate(l, raw).value;
    var es, ts := Entries(raw), Entries(t);
    var libs := ParseProfile(raw).value.libraries;
    hide Translated, Translate;
    assert |es| == |ts| == |libs|;
    forall k | 0 <= k < |es|
      ensures HasName(ts[k]) && AsStr(Get(ts[k], "name")) == AsStr(Get(es[k], "name")) == Some(libs[k].name)
      ensures Maven.CoordToPath(libs[k].name).Ok?
    {
      assert Translated(l, es[k], ts[k]);
      TranslatedName(l, es[k], ts[k]);
    }
    assert LibrariesOk(t, HasName);
    assert ParseMinimal(t).value.names == Names(libs);
  }

  lemma TranslatedName(l: Loader, e: Json, t: Json)
    requires Translated(l, e, t)
    ensures HasName(t) && AsStr(Get(t, "name")) == AsStr(Get(e, "name"))
    ensures Maven.CoordToPath(AsStr(Get(t, "name")).value).Ok?
  {
    hide Maven.CoordToPath;
  }

  // ---------------------------------------------------------------- version ids

  function Prefix(l: Loader): string {
    match l
    case Fabric => "fabric-loader-"
    case Quilt => "quilt-loader-"
  }

  function PredictVersionId(l: Loader, loaderVersion: string, mc: string): string {
    Prefix(l) + loaderVersion + "-" + mc
  }

  datatype IdError = UnknownLoader | MissingSuffix

  /** The migration's reading of an id: loader by prefix, version between prefix and `-{mc}`. */
  function ParseLoaderId(id: string, mc: string): Result<(Loader, string), IdError> {
    if !StartsWith(id, Prefix(Fabric)) && !StartsWith(id, Prefix(Quilt)) then Err(UnknownLoader) else
      var l := if StartsWith(id, Prefix(Fabric)) then Fabric else Quilt;
      var rest := id[|Prefix(l)|..];
      var suffix := "-" + mc;
      if !EndsWith(rest, suffix) then Err(MissingSuffix) else Ok((l, rest[..|rest| - |suffix|]))
  }

  lemma PredictionReadsBack(l: Loader, loaderVersion: string, mc: string)
    ensures ParseLoaderId(PredictVersionId(l, loaderVersion, mc), mc) == Ok((l, loaderVersion))
  {
    var rest := loaderVersion + ("-" + mc);
    PredictedParts(l, loaderVersion, mc);
    assert EndsWith(rest, "-" + mc) && rest[..|loaderVersion|] == loaderVersion;
    PrefixTells(l, rest);
    hide PredictVersionId, Prefix;
  }

  /** The two formats, spelled out. */
  lemma PredictionSpelled(version: string, mc: string)
    ensures PredictVersionId(Fabric, version, mc) == "fabric-loader-" + version + "-" + mc
    ensures PredictVersionId(Quilt, version, mc) == "quilt-loader-" + version + "-" + mc
  {
  }

  lemma PrefixTells(l: Loader, rest: string)
    ensures var id := Prefix(l) + rest;
            && id[|Prefix(l)|..] == rest && StartsWith(id, Prefix(l))
            && (StartsWith(id, Prefix(Fabric)) <==> l.Fabric?)
  {
    var id := Prefix(l) + rest;
    assert id[0] == Prefix(l)[0];
    assert Prefix(Fabric)[0] == 'f' && Prefix(Quilt)[0] == 'q';
    assert StartsWith(id, Prefix(Fabric)) ==> id[0] == 'f';
  }

  /** Reading an id and predicting it are inverse to each other. */
  lemma IdParsingInvertsPrediction(l: Loader, loaderVersion: string, mc: string, id: string)
    ensures ParseLoaderId(id, mc) == Ok((l, loaderVersion)) <==> id == PredictVersionId(l, loaderVersion, mc)
  {
    hide ParseLoaderId, PredictVersionId, Prefix;
    PredictionReadsBack(l, loaderVersion, mc);
    if ParseLoaderId(id, mc) == Ok((l, loaderVersion)) {
      ReadingHasParts(l, loaderVersion, mc, id);
      PredictedParts(l, loaderVersion, mc);
    }
  }

  lemma ReadingHasParts(l: Loader, loaderVersion: string, mc: string, id: string)
    requires ParseLoaderId(id, mc) == Ok((l, loaderVersion))
    ensures id == Prefix(l) + (loaderVersion + ("-" + mc))
  {
    hide Prefix;
    var rest := id[|Prefix(l)|..];
    assert rest == loaderVersion + ("-" + mc);
    assert id == Prefix(l) + rest;
  }

  lemma PredictedParts(l: Loader, loaderVersion: string, mc: string)
    ensures PredictVersionId(l, loaderVersion, mc) == Prefix(l) + (loaderVersion + ("-" + mc))
  {
  }

  // ---------------------------------------------------------------- migration

  datatype MigrateError =
    | ReadFailed | WriteFailed | Unparseable | NoInheritsFrom | FetchFailed
    | BadId(e: IdError)
    | TranslateFailed(e2: TranslateError)

  /** The meta API: None when the request fails. */
  type Meta = (Loader, string, string) -> Option<Json>

  /** Whether the file system serves this call. */
  datatype Io = Io(readable: bool, writable: bool)

  /** What the call does: the file it writes (if any), the fetch it makes (if any), how it ends. */
  datatype Outcome = Outcome(
    written: Option<Json>, fetched: Option<(Loader, string, string)>, result: Result<(), MigrateError>)

  /** `file` is the version JSON on disk: None when absent, `Some(None)` when it does not parse. */
  function MigrateFile(versionId: string, file: Option<Option<Json>>, meta: Meta, io: Io): Outcome {
    if file.None? then Outcome(None, None, Ok(()))
    else if !io.readable then Outcome(None, None, Err(ReadFailed))
    else if file.value.None? then Outcome(None, None, Err(Unparseable))
    else
      var v := file.value.value;
      if !IsFlat(v) then Outcome(None, None, Ok(())) else
        var id := GetOr(AsStr(Get(v, "id")), versionId);
        var mc := AsStr(Get(v, "inheritsFrom"));
        if mc.None? then Outcome(None, None, Err(NoInheritsFrom)) else
          var parsed := ParseLoaderId(id, mc.value);
          if parsed.Err? then Outcome(None, None, Err(BadId(parsed.error))) else
            var (l, version) := parsed.value;
            var request := (l, mc.value, version);
            var raw := meta(l, mc.value, version);
            if raw.None? || ParseProfile(raw.value).None? then Outcome(None, Some(request), Err(FetchFailed)) else
              var t := Translate(l, raw.value);
              if t.Err? then Outcome(None, Some(request), Err(TranslateFailed(t.error)))
              else if !io.writable then Outcome(None, Some(request), Err(WriteFailed))
              else Outcome(Some(t.value), Some(request), Ok(()))
  }

  function Lookup<V>(m: map<string, V>, k: string): Option<V> {
    if k in m then Some(m[k]) else None
  }

  class VersionStore {
    /** Version JSONs by the id of their directory. */
    var files: map<string, Option<Json>>
    /** Every profile request made, in order. */
    var fetches: seq<(Loader, string, string)>

    constructor (initial: map<string, Option<Json>>)
      ensures files == initial && fetches == []
    {
      files, fetches := initial, [];
    }

    method MigrateInPlaceIfNeeded(versionId: string, meta: Meta, io: Io) returns (r: Result<(), MigrateError>)
      modifies this
      ensures var o := MigrateFile(versionId, Lookup(old(files), versionId), meta, io);
              && r == o.result
              && files == (if o.written.Some? then old(files)[versionId := Some(o.written.value)] else old(files))
              && fetches == (if o.fetched.Some? then old(fetches) + [o.fetched.value] else old(fetches))
      ensures r.Ok? && versionId in files && files[versionId].Some? ==> !IsFlat(files[versionId].value)
    {
      if versionId !in files {
        return Ok(());
      }
      if !io.readable {
        return Err(ReadFailed);
      }
      var file := files[versionId];
      if file.None? {
        return Err(Unparseable);
      }
      var v := file.value;
      if !IsFlat(v) {
        return Ok(());
      }
      var id := GetOr(AsStr(Get(v, "id")), versionId);
      var mc := AsStr(Get(v, "inheritsFrom"));
      if mc.None? {
        return Err(NoInheritsFrom);
      }
      var parsed := ParseLoaderId(id, mc.value);
      if parsed.Err? {
        return Err(BadId(parsed.error));
      }
      var (l, version) := parsed.value;
      fetches := fetches + [(l, mc.value, version)];
      var raw := meta(l, mc.value, version);
      if raw.None? || ParseProfile(raw.value).None? {
        return Err(FetchFailed);
      }
      var t := ToMojangShape(l, raw.value);
      if t.Err? {
        return Err(TranslateFailed(t.error));
      }
      if !io.writable {
        return Err(WriteFailed);
      }
      TranslationIsNeverFlat(l, raw.value);
      files := files[versionId := Some(t.value)];
      r := Ok(());
    }

    /**
     Migrating twice is migrating once: the second call changes no file and makes no request,
     whatever the network does, and can only fail to read the file.
     */
    method MigrateTwice(versionId: string, meta: Meta, io: Io, later: Meta, laterIo: Io)
      returns (r: Result<(), MigrateError>)
      modifies this
      ensures var o := MigrateFile(versionId, Lookup(old(files), versionId), meta, io);
              o.result.Ok? ==>
                && r == (if versionId in old(files) && !laterIo.readable then Err(ReadFailed) else Ok(()))
                && files == (if o.written.Some? then old(files)[versionId := Some(o.written.value)] else old(files))
                && fetches == (if o.fetched.Some? then old(fetches) + [o.fetched.value] else old(fetches))
    {
      r := MigrateInPlaceIfNeeded(versionId, meta, io);
      if r.Ok? {
        r := MigrateInPlaceIfNeeded(versionId, later, laterIo);
      }
    }
  }

  /** The file the migration leaves is settled: a second migration neither fetches nor writes. */
  lemma MigrationSettles(versionId: string, file: Option<Option<Json>>, meta: Meta, io: Io, later: Meta, laterIo: Io)
    requires MigrateFile(versionId, file, meta, io).result.Ok? && laterIo.readable
    ensures var o := MigrateFile(versionId, file, meta, io);
            var left := if o.written.Some? then Some(Some(o.written.value)) else file;
            MigrateFile(versionId, left, later, laterIo) == Outcome(None, None, Ok(()))
  {
    var o := MigrateFile(versionId, file, meta, io);
    if o.written.Some? {
      var (l, mc, version) := o.fetched.value;
      TranslationIsNeverFlat(l, meta(l, mc, version).value);
    }
  }

  /** A stale install is re-fetched under the id it was predicted with, and its libraries keep their names. */
  lemma MigrationFetchesItsOwnProfile(l: Loader, loaderVersion: string, mc: string, v: Json, meta: Meta, io: Io)
    requires IsFlat(v) && io.readable && AsStr(Get(v, "inheritsFrom")) == Some(mc)
    requires AsStr(Get(v, "id")) == Some(PredictVersionId(l, loaderVersion, mc))
    ensures var o := MigrateFile(PredictVersionId(l, loaderVersion, mc), Some(Some(v)), meta, io);
            && o.fetched == Some((l, mc, loaderVersion))
            && (o.written.Some? <==>
                  && io.writable && o.result.Ok?
                  && meta(l, mc, loaderVersion).Some? && ParseProfile(meta(l, mc, loaderVersion).value).Some?
                  && Translate(l, meta(l, mc, loaderVersion).value).Ok?)
            && (o.written.Some? ==> Translate(l, meta(l, mc, loaderVersion).value) == Ok(o.written.value))
            && (o.written.Some? ==>
                  && meta(l, mc, loaderVersion).Some? && ParseProfile(meta(l, mc, loaderVersion).value).Some?
                  && var p := ParseProfile(meta(l, mc, loaderVersion).value).value;
                     ParseMinimal(o.written.value) == Some(Minimal(p.id, Names(p.libraries))))
  {
    IdParsingInvertsPrediction(l, loaderVersion, mc, PredictVersionId(l, loaderVersion, mc));
    var o := MigrateFile(PredictVersionId(l, loaderVersion, mc), Some(Some(v)), meta, io);
    if o.written.Some? {
      TranslatedReadsBack(l, meta(l, mc, loaderVersion).value);
    }
  }
}
