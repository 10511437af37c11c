/** The hand-written scan for `<version>` texts in a Maven metadata document. */
module MavenMetadata {
  import opened Strings

  /** The opening tag: nine characters, the only `<` in front. */
  function Open(): (s: string)
    ensures |s| == 9 && s[0] == '<' && s[1] == 'v' && s[8] == '>' && forall k :: 1 <= k < 9 ==> s[k] != '<'
  {
    "<version>"
  }

  /** `char::is_whitespace`: the characters with the Unicode property White_Space. */
  predicate IsSpace(c: char) {
    || '\U{9}' <= c <= '\U{d}' || c == ' ' || c == '\U{85}' || c == '\U{a0}' || c == '\U{1680}'
    || '\U{2000}' <= c <= '\U{200a}' || c == '\U{2028}' || c == '\U{2029}' || c == '\U{202f}'
    || c == '\U{205f}' || c == '\U{3000}'
  }

  function TrimStart(s: string): string {
    if s != "" && IsSpace(s[0]) then TrimStart(s[1..]) else s
  }

  function TrimEnd(s: string): string {
    if s != "" && IsSpace(s[|s| - 1]) then TrimEnd(s[..|s| - 1]) else s
  }

  function Trim(s: string): string {
    TrimEnd(TrimStart(s))
  }

  /** Trimming takes off white space at both ends and nothing else. */
  lemma TrimExactly(s: string) returns (front: string, back: string)
    ensures s == front + Trim(s) + back
    ensures (forall c :: c in front ==> IsSpace(c)) && (forall c :: c in back ==> IsSpace(c))
    ensures Trim(s) != "" ==> !IsSpace(Trim(s)[0]) && !IsSpace(Trim(s)[|Trim(s)| - 1])
  {
    hide IsSpace;
    front := TrimStartExactly(s);
    back := TrimEndExactly(TrimStart(s));
  }

  lemma {:induction false} TrimStartExactly(s: string) returns (front: string)
    ensures s == front + TrimStart(s) && forall c :: c in front ==> IsSpace(c)
    ensures TrimStart(s) != "" ==> !IsSpace(TrimStart(s)[0])
  {
    hide IsSpace;
    front := "";
    if s != "" && IsSpace(s[0]) {
      var more := TrimStartExactly(s[1..]);
      front := [s[0]] + more;
      assert s == [s[0]] + s[1..];
    }
  }

  lemma {:induction false} TrimEndExactly(s: string) returns (back: string)
    ensures s == TrimEnd(s) + back && forall c :: c in back ==> IsSpace(c)
    ensures TrimEnd(s) != "" ==> !IsSpace(TrimEnd(s)[|TrimEnd(s)| - 1])
  {
    hide IsSpace;
    back := "";
    if s != "" && IsSpace(s[|s| - 1]) {
      var more := TrimEndExactly(s[..|s| - 1]);
      back := more + [s[|s| - 1]];
      assert s == s[..|s| - 1] + [s[|s| - 1]];
    }
  }

  /** White space, by code point. */
  lemma SpacesSpelled(c: char)
    ensures IsSpace(c) <==> (c as int in {32, 133, 160, 5760, 8232, 8233, 8239, 8287, 12288}
                             || 9 <= c as int <= 13 || 8192 <= c as int <= 8202)
  {
  }

  /** What the scan looks for. */
  lemma TagSpelled(xml: string, i: nat)
    ensures TagAt(xml, i) <==> i + 9 <= |xml| && xml[i..i + 9] == "<version>"
  {
  }

  /** An opening tag begins at position `i`. */
  predicate TagAt(xml: string, i: nat) {
    i + 9 <= |xml| && xml[i..i + 9] == Open()
  }

  /** The text after the tag at `i`, up to the next `<` or the end, trimmed. */
  function TextAfter(xml: string, i: nat): string
    requires TagAt(xml, i)
  {
    var rest := xml[i + 9..];
    Trim(rest[..FirstIndexOf(rest, '<')])
  }

  /** The texts after every opening tag from position `i` on, looking at every position, in order. */
  function Texts(xml: string, i: nat): seq<string>
    requires i <= |xml|
    decreases |xml| - i
  {
    if i == |xml| then []
    else (if TagAt(xml, i) && TextAfter(xml, i) != "" then [TextAfter(xml, i)] else []) + Texts(xml, i + 1)
  }

  /** Positions that do not hold a `<` hold no tag. */
  lemma {:induction false} NothingBetween(xml: string, i: nat, j: nat)
    requires i <= j <= |xml| && forall k :: i <= k < j ==> xml[k] != '<'
    ensures Texts(xml, i) == Texts(xml, j)
    decreases j - i
  {
    if i < j {
      NothingBetween(xml, i + 1, j);
      assert !TagAt(xml, i) by {
        if i + 9 <= |xml| {
          assert xml[i..i + 9][0] == xml[i];
        }
      }
    }
  }

  lemma SkipTag(xml: string, i: nat, end: nat)
    requires TagAt(xml, i) && i + 9 <= end <= |xml| && forall k :: i + 9 <= k < end ==> xml[k] != '<'
    ensures Texts(xml, i) == (if TextAfter(xml, i) != "" then [TextAfter(xml, i)] else []) + Texts(xml, end)
  {
    forall k | i + 1 <= k < end
      ensures xml[k] != '<'
    {
      if k < i + 9 {
        assert xml[k] == xml[i..i + 9][k - i];
      }
    }
    NothingBetween(xml, i + 1, end);
  }

  /** The scan jumps from each tag to the end of its text and loses no tag on the way. */
  method ExtractVersions(xml: string) returns (out: seq<string>)
    ensures out == Texts(xml, 0)
  {
    hide Open, Trim, TextAfter, Texts;
    out := [];
    var i := 0;
    while i + 9 <= |xml|
      invariant 0 <= i <= |xml|
      invariant Texts(xml, 0) == out + Texts(xml, i)
      decreases |xml| - i
    {
      if xml[i..i + 9] == Open() {
        var start := i + 9;
        var end := start;
        while end < |xml| && xml[end] != '<'
          invariant start <= end <= |xml|
          invariant forall k :: start <= k < end ==> xml[k] != '<'
        {
          end := end + 1;
        }
        assert TagAt(xml, i);
        TextEnds(xml, i, end);
        SkipTag(xml, i, end);
        var trimmed := Trim(xml[start..end]);
        if trimmed != "" {
          out := out + [trimmed];
        }
        i := end;
      } else {
        NoTagHere(xml, i);
        i := i + 1;
      }
    }
    TailIsEmpty(xml, i);
  }

  lemma NoTagHere(xml: string, i: nat)
    requires i < |xml| && !TagAt(xml, i)
    ensures Texts(xml, i) == Texts(xml, i + 1)
  {
  }

  lemma TextEnds(xml: string, i: nat, end: nat)
    requires TagAt(xml, i) && i + 9 <= end <= |xml| && forall k :: i + 9 <= k < end ==> xml[k] != '<'
    requires end == |xml| || xml[end] == '<'
    ensures TextAfter(xml, i) == Trim(xml[i + 9..end])
  {
    var start := i + 9;
    var rest := xml[start..];
    var n := FirstIndexOf(rest, '<');
    assert forall k :: 0 <= k < end - start ==> rest[k] == xml[start + k];
    assert end < |xml| ==> rest[end - start] == '<';
    assert n == end - start;
    assert rest[..n] == xml[start..end];
  }

  lemma {:induction false} TailIsEmpty(xml: string, i: nat)
    requires i <= |xml| < i + 9
    ensures Texts(xml, i) == []
    decreases |xml| - i
  {
    if i < |xml| {
      TailIsEmpty(xml, i + 1);
    }
  }

  // ---------------------------------------------------------------- recovering a rendered list

  /** The closing tag. */
  function Close(): (s: string)
    ensures |s| == 10 && s[0] == '<' && s[1] == '/' && forall k :: 1 <= k < 10 ==> s[k] != '<'
  {
    "</version>"
  }

  function EndOfList(): (s: string)
    ensures |s| == 11 && s[0] == '<' && s[1] == '/' && forall k :: 1 <= k < 11 ==> s[k] != '<'
  {
    "</versions>"
  }

  function Render(versions: seq<string>): string {
    if versions == [] then EndOfList() else Open() + versions[0] + Close() + Render(versions[1..])
  }

  function Document(versions: seq<string>): string {
    "<versions>" + Render(versions)
  }

  /** What a version string must be for the scan to return it unchanged. */
  predicate Scannable(v: string) {
    v != "" && Trim(v) == v && Free(v, '<')
  }

  /** One rendered version contributes exactly itself. */
  lemma ScanElement(before: string, v: string, rest: string)
    requires Scannable(v)
    ensures var next := before + Open() + v + Close();
            Texts(next + rest, |before|) == [v] + Texts(next + rest, |next|)
  {
    hide Open, Close, Trim, TextAfter, Texts;
    var next := before + Open() + v + Close();
    var xml := next + rest;
    var i, end := |before|, |before| + 9 + |v|;
    Pieces(before, Open(), v, Close(), rest);
    assert TagAt(xml, i);
    assert forall k :: 0 <= k < |v| ==> v[k] in v;
    assert forall k :: i + 9 <= k < end ==> xml[k] == xml[i + 9..end][k - i - 9];
    assert xml[end] == xml[end..][0];
    TextEnds(xml, i, end);
    SkipTag(xml, i, end);
    ClosingTag(xml, end, Close(), rest);
  }

  lemma Pieces(a: string, b: string, c: string, d: string, e: string)
    ensures var xml := a + b + c + d + e;
            && xml[|a|..|a| + |b|] == b
            && xml[|a| + |b|..|a| + |b| + |c|] == c
            && xml[|a| + |b| + |c|..] == d + e
  {
  }

  lemma {:induction false} ScanFindsRendered(before: string, versions: seq<string>)
    requires forall k :: 0 <= k < |versions| ==> Scannable(versions[k])
    ensures Texts(before + Render(versions), |before|) == versions
    decreases |versions|
  {
    hide Open, Close, EndOfList, Texts, Scannable;
    if versions == [] {
      ScanEnd(before);
    } else {
      var v, rest := versions[0], Render(versions[1..]);
      var next := before + Open() + v + Close();
      ScanElement(before, v, rest);
      assert before + Render(versions) == next + rest;
      ScanFindsRendered(next, versions[1..]);
      assert versions == [v] + versions[1..];
    }
  }

  lemma ScanEnd(before: string)
    ensures Texts(before + EndOfList(), |before|) == []
  {
    hide Open, EndOfList, TextAfter;
    var xml := before + EndOfList();
    assert xml[|before|..] == EndOfList() + "";
    ClosingTag(xml, |before|, EndOfList(), "");
  }

  /** A closing tag contributes nothing. */
  lemma ClosingTag(xml: string, i: nat, tag: string, rest: string)
    requires i <= |xml| && xml[i..] == tag + rest && |tag| >= 2 && tag[0] == '<' && tag[1] == '/'
    requires forall k :: 1 <= k < |tag| ==> tag[k] != '<'
    ensures Texts(xml, i) == Texts(xml, i + |tag|)
  {
    hide Open, TextAfter;
    assert xml[i] == xml[i..][0] == '<' && xml[i + 1] == xml[i..][1] == '/';
    assert !TagAt(xml, i) by {
      if i + 9 <= |xml| {
        assert xml[i..i + 9][1] == xml[i + 1];
      }
    }
    assert forall k :: i + 1 <= k < i + |tag| ==> xml[k] == xml[i..][k - i] == tag[k - i];
    NothingBetween(xml, i + 1, i + |tag|);
  }

  /** Any list of trimmed, non-empty, `<`-free versions is recovered from its rendered document. */
  lemma ScanRecoversVersions(versions: seq<string>)
    requires forall k :: 0 <= k < |versions| ==> Scannable(versions[k])
    ensures Texts(Document(versions), 0) == versions
  {
    ScanFindsRendered("<versions>", versions);
    HeadHasNoTag(Render(versions));
  }

  /** `<versions>` is not `<version>`. */
  lemma HeadHasNoTag(rest: string)
    ensures Texts("<versions>" + rest, 0) == Texts("<versions>" + rest, 10)
  {
    hide Open, TextAfter;
    var head := "<versions>";
    var xml := head + rest;
    assert xml[0..9][8] == head[8] == 's';
    assert forall k :: 1 <= k < 10 ==> head[k] != '<';
    assert forall k :: 1 <= k < 10 ==> xml[k] == head[k];
    NothingBetween(xml, 1, 10);
  }
}
