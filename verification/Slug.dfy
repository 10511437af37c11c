/** Directory names for instances. */
module Slug {
  import opened Counting
  import opened Decimals
  import opened Strings

  const MAX_SLUG_LEN: nat := 40

  predicate SlugChar(c: char) {
    'a' <= c <= 'z' || '0' <= c <= '9' || c == '-'
  }

  predicate SlugChars(s: string) {
    forall k :: 0 <= k < |s| ==> SlugChar(s[k])
  }

  /** `str::to_lowercase` and `char::is_whitespace`. */
  datatype Unicode = Unicode(lower: string -> string, isSpace: char -> bool)

  predicate SlugCharsAndBlanks(s: string) {
    forall k :: 0 <= k < |s| ==> SlugChar(s[k]) || s[k] == ' '
  }

  /**
   Lower-casing leaves slug characters and blanks alone and leaves no ASCII capital; a blank is
   white space and slug characters are not.
   */
  ghost predicate UnicodeLaw(u: Unicode) {
    && (forall s :: SlugCharsAndBlanks(s) ==> u.lower(s) == s)
    && (forall s, c :: c in u.lower(s) ==> !IsUpper(c))
    && (forall c :: SlugChar(c) ==> !u.isSpace(c)) && u.isSpace(' ')
  }

  // ---------------------------------------------------------------- the pipeline

  function SpacesToDashes(u: Unicode, s: string): (r: string)
    ensures |r| == |s| && forall k :: 0 <= k < |s| ==> r[k] == if u.isSpace(s[k]) then '-' else s[k]
  {
    seq(|s|, (k: nat) requires k < |s| => if u.isSpace(s[k]) then '-' else s[k])
  }

  predicate Kept(c: char) {
    SlugChar(c) || IsUpper(c)
  }

  function Strip(s: string): (r: string)
    ensures forall c :: c in r ==> c in s && Kept(c)
  {
    if s == "" then "" else (if Kept(s[0]) then [s[0]] else "") + Strip(s[1..])
  }

  /** The text so far with dash runs collapsed; a dash is dropped when the previous character was one. */
  function Collapse(s: string): string {
    if s == "" then ""
    else
      var n := |s| - 1;
      Collapse(s[..n]) + if s[n] == '-' && n > 0 && s[n - 1] == '-' then "" else [s[n]]
  }

  function TrimLeft(s: string): string {
    if s != "" && s[0] == '-' then TrimLeft(s[1..]) else s
  }

  function TrimRight(s: string): string {
    if s != "" && s[|s| - 1] == '-' then TrimRight(s[..|s| - 1]) else s
  }

  function Truncate(s: string): string {
    if |s| > MAX_SLUG_LEN then s[..MAX_SLUG_LEN] else s
  }

  /** The name before it is cut to length. */
  function Trimmed(u: Unicode, name: string): string {
    TrimRight(TrimLeft(Collapse(Strip(SpacesToDashes(u, u.lower(name))))))
  }

  function Slugify(u: Unicode, name: string): string {
    var truncated := Truncate(Trimmed(u, name));
    if truncated == "" then "instance" else truncated
  }

  method CollapseDashes(stripped: string) returns (collapsed: string)
    ensures collapsed == Collapse(stripped)
  {
    collapsed := "";
    var prevDash := false;
    for i := 0 to |stripped|
      invariant collapsed == Collapse(stripped[..i])
      invariant prevDash == (i > 0 && stripped[i - 1] == '-')
    {
      assert stripped[..i + 1][..i] == stripped[..i];
      var c := stripped[i];
      if c == '-' {
        if !prevDash {
          collapsed := collapsed + ['-'];
        }
        prevDash := true;
      } else {
        collapsed := collapsed + [c];
        prevDash := false;
      }
    }
    assert stripped[..|stripped|] == stripped;
  }

  // ---------------------------------------------------------------- what a slug looks like

  predicate NoDoubleDash(s: string) {
    forall k :: 0 <= k < |s| - 1 ==> !(s[k] == '-' && s[k + 1] == '-')
  }

  /** The shape of every slug: note that it may end in a dash. */
  predicate Neat(s: string) {
    0 < |s| <= MAX_SLUG_LEN && SlugChars(s) && s[0] != '-' && NoDoubleDash(s)
  }

  lemma {:induction false} CollapseShape(s: string)
    requires SlugChars(s)
    ensures SlugChars(Collapse(s)) && NoDoubleDash(Collapse(s))
    ensures s != "" ==> Collapse(s) != "" && Collapse(s)[|Collapse(s)| - 1] == s[|s| - 1]
    decreases |s|
  {
    if s != "" {
      CollapseShape(s[..|s| - 1]);
    }
  }

  lemma {:induction false} TrimLeftShape(s: string)
    requires SlugChars(s) && NoDoubleDash(s)
    ensures SlugChars(TrimLeft(s)) && NoDoubleDash(TrimLeft(s)) && (TrimLeft(s) != "" ==> TrimLeft(s)[0] != '-')
  {
    if s != "" && s[0] == '-' {
      assert forall k :: 0 <= k < |s[1..]| ==> s[1..][k] == s[k + 1];
      TrimLeftShape(s[1..]);
    }
  }

  lemma {:induction false} TrimRightShape(s: string)
    requires SlugChars(s) && NoDoubleDash(s) && (s != "" ==> s[0] != '-')
    ensures TrimRight(s) <= s && (TrimRight(s) != "" ==> TrimRight(s)[|TrimRight(s)| - 1] != '-')
  {
    if s != "" && s[|s| - 1] == '-' {
      TrimRightShape(s[..|s| - 1]);
    }
  }

  lemma StrippedShape(u: Unicode, name: string)
    requires UnicodeLaw(u)
    ensures SlugChars(Strip(SpacesToDashes(u, u.lower(name))))
  {
    var lowered := u.lower(name);
    var spaced := SpacesToDashes(u, lowered);
    var stripped := Strip(spaced);
    forall k | 0 <= k < |stripped|
      ensures SlugChar(stripped[k])
    {
      assert stripped[k] in stripped && stripped[k] in spaced;
      var j :| 0 <= j < |spaced| && spaced[j] == stripped[k];
      assert lowered[j] in lowered;
    }
  }

  /** Every slug is non-empty, at most 40 characters of [a-z0-9-], without a leading or doubled dash. */
  lemma SlugIsNeat(u: Unicode, name: string)
    requires UnicodeLaw(u)
    ensures Neat(Slugify(u, name))
  {
    hide UnicodeLaw, Trimmed, SlugChars, NoDoubleDash;
    TrimmedShape(u, name);
    TruncateNeat(Trimmed(u, name));
    InstanceIsNeat();
  }

  lemma TrimmedShape(u: Unicode, name: string)
    requires UnicodeLaw(u)
    ensures var t := Trimmed(u, name);
            SlugChars(t) && NoDoubleDash(t) && (t != "" ==> t[0] != '-' && t[|t| - 1] != '-')
  {
    var stripped := Strip(SpacesToDashes(u, u.lower(name)));
    StrippedShape(u, name);
    hide Strip, SpacesToDashes, Collapse, TrimLeft, TrimRight, UnicodeLaw, SlugChars, NoDoubleDash;
    CollapseShape(stripped);
    TrimLeftShape(Collapse(stripped));
    TrimRightShape(TrimLeft(Collapse(stripped)));
    PrefixShape(Trimmed(u, name), TrimLeft(Collapse(stripped)));
  }

  lemma PrefixShape(s: string, t: string)
    requires s <= t && SlugChars(t) && NoDoubleDash(t)
    ensures SlugChars(s) && NoDoubleDash(s)
  {
  }

  lemma TruncateNeat(s: string)
    requires s != "" ==> SlugChars(s) && NoDoubleDash(s) && s[0] != '-'
    ensures s != "" ==> Neat(Truncate(s))
  {
    if s != "" {
      PrefixShape(Truncate(s), s);
    }
  }

  lemma InstanceIsNeat()
    ensures Neat("instance")
  {
  }

  lemma {:induction false} StripKeeps(s: string)
    requires SlugChars(s)
    ensures Strip(s) == s
  {
    if s != "" {
      assert forall k :: 0 <= k < |s[1..]| ==> s[1..][k] == s[k + 1];
      StripKeeps(s[1..]);
      assert s == [s[0]] + s[1..];
    }
  }

  lemma {:induction false} CollapseKeeps(s: string)
    requires NoDoubleDash(s)
    ensures Collapse(s) == s
    decreases |s|
  {
    if s != "" {
      CollapseKeeps(s[..|s| - 1]);
      assert s == s[..|s| - 1] + [s[|s| - 1]];
    }
  }

  lemma FrontKeeps(u: Unicode, s: string)
    requires UnicodeLaw(u) && SlugChars(s) && NoDoubleDash(s)
    ensures Collapse(Strip(SpacesToDashes(u, u.lower(s)))) == s
  {
    hide Strip, Collapse;
    assert SlugCharsAndBlanks(s);
    assert SpacesToDashes(u, s) == s;
    StripKeeps(s);
    CollapseKeeps(s);
  }

  lemma TrimNeat(s: string)
    requires Neat(s)
    ensures TrimRight(TrimLeft(s)) == if s[|s| - 1] == '-' then s[..|s| - 1] else s
    ensures s[|s| - 1] == '-' ==> |s| > 1 && s[|s| - 2] != '-'
  {
    if s[|s| - 1] == '-' {
      var t := s[..|s| - 1];
      assert t != "" && t[|t| - 1] == s[|s| - 2];
    }
  }

  /** A second pass over a slug only removes one trailing dash. */
  lemma SlugifyNeat(u: Unicode, s: string)
    requires UnicodeLaw(u) && Neat(s)
    ensures Slugify(u, s) == if s[|s| - 1] == '-' then s[..|s| - 1] else s
  {
    hide UnicodeLaw, Strip, SpacesToDashes, Collapse, TrimLeft, TrimRight;
    FrontKeeps(u, s);
    TrimNeat(s);
  }

  // ---------------------------------------------------------------- the trailing dash

  /** The forty-first character exists and the fortieth is a dash: the cut falls right behind a dash. */
  predicate CutBehindDash(u: Unicode, name: string) {
    |Trimmed(u, name)| > MAX_SLUG_LEN && Trimmed(u, name)[MAX_SLUG_LEN - 1] == '-'
  }

  /** Trimming comes before the cut, so exactly the names cut behind a dash get a slug that ends in one. */
  lemma TrailingDashExactly(u: Unicode, name: string)
    requires UnicodeLaw(u)
    ensures var slug := Slugify(u, name); slug != "" && (slug[|slug| - 1] == '-' <==> CutBehindDash(u, name))
  {
    hide UnicodeLaw, Trimmed, SlugChars, NoDoubleDash;
    TrimmedShape(u, name);
  }

  /**
   Slugs are a fixed point exactly when the name was not cut behind a dash, and two
   applications always reach one.
   */
  lemma SlugifyTwice(u: Unicode, name: string)
    requires UnicodeLaw(u)
    ensures var once := Slugify(u, name);
            var twice := Slugify(u, once);
            && (twice == once <==> !CutBehindDash(u, name))
            && Slugify(u, twice) == twice
  {
    SlugIsNeat(u, name);
    TrailingDashExactly(u, name);
    hide Slugify, UnicodeLaw, CutBehindDash;
    var once := Slugify(u, name);
    SlugifyNeat(u, once);
    SlugIsNeat(u, once);
    var twice := Slugify(u, once);
    if once[|once| - 1] == '-' {
      assert twice[|twice| - 1] == once[|once| - 2];
    }
    SlugifyNeat(u, twice);
  }

  /** Thirty-nine letters, a blank, a letter: the slug is the thirty-nine letters and a dash. */
  lemma TrailingDashExample(u: Unicode)
    requires UnicodeLaw(u)
    ensures var word := seq(39, _ => 'a');
            CutBehindDash(u, word + " b") && Slugify(u, word + " b") == word + "-"
  {
    var word := seq(39, _ => 'a');
    var dashed := word + "-b";
    DashedName(u, word);
    StripKeeps(dashed);
    CollapseKeeps(dashed);
    hide Strip, Collapse, SpacesToDashes, UnicodeLaw;
    assert TrimLeft(dashed) == dashed && TrimRight(dashed) == dashed;
    assert dashed[..MAX_SLUG_LEN] == word + "-";
  }

  lemma DashedName(u: Unicode, word: string)
    requires UnicodeLaw(u) && forall k :: 0 <= k < |word| ==> word[k] == 'a'
    ensures SpacesToDashes(u, u.lower(word + " b")) == word + "-b"
    ensures SlugChars(word + "-b") && NoDoubleDash(word + "-b")
  {
    var name := word + " b";
    assert SlugCharsAndBlanks(name) && u.lower(name) == name;
    assert SlugChar('a') && SlugChar('b');
    assert SpacesToDashes(u, name) == word + "-b";
  }

  // ---------------------------------------------------------------- what a slug says

  /** The ASCII letters and digits of a text. */
  function Letters(s: string): string {
    if s == "" then ""
    else
      var n := |s| - 1;
      Letters(s[..n]) + if Kept(s[n]) && s[n] != '-' then [s[n]] else ""
  }

  lemma {:induction false} LettersAppend(a: string, b: string)
    ensures Letters(a + b) == Letters(a) + Letters(b)
    decreases |b|
  {
    if b == "" {
      assert a + b == a;
    } else {
      var n := |b| - 1;
      LettersAppend(a, b[..n]);
      assert (a + b)[..|a| + n] == a + b[..n];
    }
  }

  lemma {:induction false} LettersOfStrip(s: string)
    ensures Letters(Strip(s)) == Letters(s)
  {
    if s != "" {
      LettersOfStrip(s[1..]);
      assert s == [s[0]] + s[1..];
      LettersAppend([s[0]], s[1..]);
      LettersAppend(if Kept(s[0]) then [s[0]] else "", Strip(s[1..]));
      OneLetter(s[0]);
    }
  }

  lemma OneLetter(c: char)
    ensures Letters([c]) == if Kept(c) && c != '-' then [c] else ""
  {
    assert [c][..0] == "";
  }

  lemma {:induction false} LettersOfSpaces(u: Unicode, s: string)
    requires forall k :: 0 <= k < |s| && Kept(s[k]) ==> !u.isSpace(s[k])
    ensures Letters(SpacesToDashes(u, s)) == Letters(s)
    decreases |s|
  {
    if s != "" {
      var n := |s| - 1;
      LettersOfSpaces(u, s[..n]);
      assert SpacesToDashes(u, s)[..n] == SpacesToDashes(u, s[..n]);
    }
  }

  lemma {:induction false} LettersOfCollapse(s: string)
    ensures Letters(Collapse(s)) == Letters(s)
    decreases |s|
  {
    if s != "" {
      var n := |s| - 1;
      LettersOfCollapse(s[..n]);
      assert Collapse(s[..n]) + "" == Collapse(s[..n]);
      LettersAppend(Collapse(s[..n]), [s[n]]);
      OneLetter(s[n]);
    }
  }

  lemma {:induction false} LettersOfTrimLeft(s: string)
    ensures Letters(TrimLeft(s)) == Letters(s)
  {
    if s != "" && s[0] == '-' {
      LettersOfTrimLeft(s[1..]);
      assert s == [s[0]] + s[1..];
      LettersAppend([s[0]], s[1..]);
      OneLetter(s[0]);
    }
  }

  lemma {:induction false} LettersOfTrimRight(s: string)
    ensures Letters(TrimRight(s)) == Letters(s)
  {
    if s != "" && s[|s| - 1] == '-' {
      LettersOfTrimRight(s[..|s| - 1]);
    }
  }

  lemma LettersOfTruncate(s: string)
    ensures Letters(Truncate(s)) <= Letters(s)
  {
    LettersAppend(Truncate(s), s[|Truncate(s)|..]);
    assert s == Truncate(s) + s[|Truncate(s)|..];
  }

  /** Trimmed slug text without letters is empty. */
  lemma NothingLeft(s: string)
    requires SlugChars(s) && (s != "" ==> s[0] != '-')
    ensures Letters(s) == "" <==> s == ""
  {
    if s != "" {
      assert s == [s[0]] + s[1..];
      LettersAppend([s[0]], s[1..]);
      OneLetter(s[0]);
    }
  }

  lemma TrimmedSaysTheName(u: Unicode, name: string)
    requires UnicodeLaw(u)
    ensures Letters(Trimmed(u, name)) == Letters(u.lower(name))
    ensures Trimmed(u, name) == "" <==> Letters(u.lower(name)) == ""
  {
    var lowered := u.lower(name);
    assert forall k :: 0 <= k < |lowered| ==> lowered[k] in lowered;
    LettersOfSpaces(u, lowered);
    StrippedShape(u, name);
    var stripped := Strip(SpacesToDashes(u, lowered));
    LettersOfStrip(SpacesToDashes(u, lowered));
    hide UnicodeLaw, Strip, SpacesToDashes, Collapse, TrimLeft, TrimRight, Letters;
    CollapseShape(stripped);
    LettersOfCollapse(stripped);
    TrimLeftShape(Collapse(stripped));
    LettersOfTrimLeft(Collapse(stripped));
    TrimRightShape(TrimLeft(Collapse(stripped)));
    LettersOfTrimRight(TrimLeft(Collapse(stripped)));
    NothingLeft(Trimmed(u, name));
  }

  /**
   A slug spells its name: its letters and digits are those of the lower-cased name, in order,
   all of them unless the slug was cut at 40 characters; `instance` stands for a name without any.
   */
  lemma SlugSpellsTheName(u: Unicode, name: string)
    requires UnicodeLaw(u)
    ensures var all, slug := Letters(u.lower(name)), Slugify(u, name);
            if all == "" then slug == "instance"
            else Letters(slug) <= all && (|slug| < MAX_SLUG_LEN ==> Letters(slug) == all)
  {
    hide UnicodeLaw, Strip, SpacesToDashes, Collapse, TrimLeft, TrimRight, Letters;
    TrimmedSaysTheName(u, name);
    LettersOfTruncate(Trimmed(u, name));
  }

  method MakeSlug(u: Unicode, displayName: string) returns (slug: string)
    ensures slug == Slugify(u, displayName)
    ensures UnicodeLaw(u) ==> Neat(slug)
  {
    var stripped := Strip(SpacesToDashes(u, u.lower(displayName)));
    var collapsed := CollapseDashes(stripped);
    var truncated := Truncate(TrimRight(TrimLeft(collapsed)));
    slug := if truncated == "" then "instance" else truncated;
    if UnicodeLaw(u) {
      SlugIsNeat(u, displayName);
    }
  }

  // ---------------------------------------------------------------- a slug as words

  predicate EndsInDash(s: string) {
    s != "" && s[|s| - 1] == '-'
  }

  /** The words between dashes. */
  function Words(s: string): seq<string> {
    if s == "" then []
    else
      var n := |s| - 1;
      var front := Words(s[..n]);
      if s[n] == '-' then front
      else if s[..n] == "" || EndsInDash(s[..n]) || front == [] then front + [[s[n]]]
      else front[..|front| - 1] + [front[|front| - 1] + [s[n]]]
  }

  /** The name with white space as dashes and everything but letters, digits and dashes gone. */
  function Cleaned(u: Unicode, s: string): string {
    Strip(SpacesToDashes(u, s))
  }

  /** Cleaning works character by character. */
  lemma CleanedSpelled(u: Unicode, before: string, c: char, after: string)
    ensures Cleaned(u, before + [c] + after)
            == Cleaned(u, before)
               + (if u.isSpace(c) then "-"
                  else if 'a' <= c <= 'z' || 'A' <= c <= 'Z' || '0' <= c <= '9' || c == '-' then [c] else "")
               + Cleaned(u, after)
    ensures Cleaned(u, "") == ""
  {
    hide Strip;
    var one := if u.isSpace(c) then '-' else c;
    assert SpacesToDashes(u, before + [c] + after) == SpacesToDashes(u, before) + [one] + SpacesToDashes(u, after);
    StripAppend(SpacesToDashes(u, before) + [one], SpacesToDashes(u, after));
    StripAppend(SpacesToDashes(u, before), [one]);
    StripOne(one);
    assert SpacesToDashes(u, "") == "";
  }

  lemma StripOne(c: char)
    ensures Strip([c]) == (if Kept(c) then [c] else "") && Strip("") == ""
  {
    assert [c][1..] == "";
  }

  lemma {:induction false} StripAppend(a: string, b: string)
    ensures Strip(a + b) == Strip(a) + Strip(b)
  {
    if a == "" {
      assert a + b == b;
    } else {
      assert (a + b)[1..] == a[1..] + b;
      StripAppend(a[1..], b);
    }
  }

  lemma {:induction false} WordsOfCollapse(s: string)
    ensures Words(Collapse(s)) == Words(s) && EndsInDash(Collapse(s)) == EndsInDash(s)
    ensures s == "" <==> Collapse(s) == ""
    decreases |s|
  {
    if s != "" {
      var n := |s| - 1;
      WordsOfCollapse(s[..n]);
      var t := Collapse(s[..n]);
      assert Collapse(s) == t + [s[n]] || Collapse(s) == t + "";
      assert (t + [s[n]])[..|t|] == t && t + "" == t;
    }
  }

  lemma {:induction false} WordsOfLeadingDash(s: string)
    ensures Words("-" + s) == Words(s)
    decreases |s|
  {
    if s == "" {
      assert "-" + s == "-" && "-"[..0] == "";
    } else {
      var n := |s| - 1;
      WordsOfLeadingDash(s[..n]);
      assert ("-" + s)[..n + 1] == "-" + s[..n];
      NoWords(s[..n]);
    }
  }

  /** Without words there are only dashes; otherwise the words are not empty. */
  lemma {:induction false} NoWords(s: string)
    ensures s != "" && !EndsInDash(s) ==> Words(s) != []
    ensures Words(s) == [] ==> forall k :: 0 <= k < |s| ==> s[k] == '-'
    decreases |s|
  {
    if s != "" {
      NoWords(s[..|s| - 1]);
    }
  }

  lemma {:induction false} WordsOfTrimLeft(s: string)
    ensures Words(TrimLeft(s)) == Words(s)
  {
    if s != "" && s[0] == '-' {
      WordsOfTrimLeft(s[1..]);
      WordsOfLeadingDash(s[1..]);
      assert s == "-" + s[1..];
    }
  }

  lemma {:induction false} WordsOfTrimRight(s: string)
    ensures Words(TrimRight(s)) == Words(s)
  {
    if s != "" && s[|s| - 1] == '-' {
      WordsOfTrimRight(s[..|s| - 1]);
    }
  }

  /** A text without leading or doubled dashes is its words, joined by dashes. */
  lemma {:induction false} JoinedWords(s: string)
    requires NoDoubleDash(s) && (s != "" ==> s[0] != '-')
    ensures s == Join(Words(s), '-') + (if EndsInDash(s) then "-" else "")
    decreases |s|
  {
    if s != "" {
      hide Words, Join;
      var n := |s| - 1;
      JoinedWords(s[..n]);
      JoinedOneMore(s[..n], s[n]);
      assert s == s[..n] + [s[n]];
    }
  }

  lemma JoinedOneMore(front: string, c: char)
    requires front != "" ==> front[0] != '-'
    requires front == "" || EndsInDash(front) ==> c != '-'
    requires front == Join(Words(front), '-') + (if EndsInDash(front) then "-" else "")
    ensures front + [c] == Join(Words(front + [c]), '-') + (if c == '-' then "-" else "")
  {
    hide Words, Join;
    WordsOneMore(front, c);
    NoWords(front);
    var ws := Words(front);
    if c == '-' {
    } else if front == "" {
      OneWord([c]);
      assert front + [c] == [c] && ws + [[c]] == [[c]];
    } else if EndsInDash(front) {
      WordsNotEmpty(front);
      JoinAppend(ws, [[c]], '-');
      OneWord([c]);
    } else {
      JoinExtend(ws, c);
    }
  }

  lemma OneWord(w: string)
    ensures Join([w], '-') == w
  {
  }

  /** How one more character changes the words. */
  lemma WordsOneMore(front: string, c: char)
    ensures var ws := Words(front);
            Words(front + [c])
            == if c == '-' then ws
               else if front == "" || EndsInDash(front) || ws == [] then ws + [[c]]
               else ws[..|ws| - 1] + [ws[|ws| - 1] + [c]]
    ensures Words("") == []
  {
    assert (front + [c])[..|front|] == front;
  }

  lemma WordsNotEmpty(s: string)
    requires s != "" && s[0] != '-'
    ensures Words(s) != []
  {
    NoWords(s);
  }

  lemma {:induction false} JoinExtend(ws: seq<string>, c: char)
    requires ws != []
    ensures Join(ws[..|ws| - 1] + [ws[|ws| - 1] + [c]], '-') == Join(ws, '-') + [c]
  {
    var front, last := ws[..|ws| - 1], ws[|ws| - 1];
    assert ws == front + [last];
    assert Join([last + [c]], '-') == last + [c] && Join([last], '-') == last;
    if front == [] {
      assert front + [last + [c]] == [last + [c]] && front + [last] == [last];
    } else {
      JoinAppend(front, [last + [c]], '-');
      JoinAppend(front, [last], '-');
    }
  }

  /**
   A slug is the words of the cleaned name joined by single dashes and cut at 40 characters;
   `instance` when there are none.
   */
  lemma SlugIsItsWords(u: Unicode, name: string)
    requires UnicodeLaw(u)
    ensures var joined := Join(Words(Cleaned(u, u.lower(name))), '-');
            Slugify(u, name) == if joined == "" then "instance" else if |joined| > 40 then joined[..40] else joined
  {
    var cleaned := Cleaned(u, u.lower(name));
    TrimmedShape(u, name);
    hide UnicodeLaw, Strip, SpacesToDashes, Collapse, TrimLeft, TrimRight, SlugChars, NoDoubleDash, Words;
    JoinedWords(Trimmed(u, name));
    WordsOfCollapse(cleaned);
    WordsOfTrimLeft(Collapse(cleaned));
    WordsOfTrimRight(TrimLeft(Collapse(cleaned)));
    var joined := Join(Words(cleaned), '-');
    assert Trimmed(u, name) == joined + "" == joined;
  }

  // ---------------------------------------------------------------- unique slugs

  function Candidate(base: string, k: nat): string
    requires k >= 1
  {
    if k == 1 then base else base + "-" + ToDec(k)
  }

  lemma CandidateSpelled(base: string, k: nat)
    ensures Candidate(base, 1) == base && (k >= 2 ==> Candidate(base, k) == base + "-" + ToDec(k))
  {
  }

  lemma CandidateInjective(base: string, j: nat, k: nat)
    requires j >= 1 && k >= 1 && Candidate(base, j) == Candidate(base, k)
    ensures j == k
  {
    if j > 1 && k > 1 {
      assert ToDec(j) == Candidate(base, j)[|base| + 1..];
      assert ToDec(k) == Candidate(base, k)[|base| + 1..];
      DecInjective(j, k);
    }
  }

  function Candidates(base: string, n: nat): (r: set<string>)
    ensures forall k :: 1 <= k <= n ==> Candidate(base, k) in r
    ensures forall s :: s in r ==> exists k :: 1 <= k <= n && Candidate(base, k) == s
  {
    if n == 0 then {} else Candidates(base, n - 1) + {Candidate(base, n)}
  }

  lemma {:induction false} CandidatesCount(base: string, n: nat)
    ensures |Candidates(base, n)| == n
  {
    if n > 0 {
      CandidatesCount(base, n - 1);
      if Candidate(base, n) in Candidates(base, n - 1) {
        var k :| 1 <= k <= n - 1 && Candidate(base, k) == Candidate(base, n);
        CandidateInjective(base, k, n);
      }
    }
  }

  /** With at most 9998 names in use one of the first 9999 candidates is free. */
  lemma SomeCandidateIsFree(base: string, taken: set<string>)
    requires |taken| <= 9998
    ensures exists k :: 1 <= k <= 9999 && Candidate(base, k) !in taken
  {
    var all := Candidates(base, 9999);
    CandidatesCount(base, 9999);
    if all <= taken {
      SubsetSize(all, taken);
    } else {
      var s :| s in all && s !in taken;
    }
  }

  /**
   The least free candidate. `number` is 1 for the base itself and 10000 for the safety valve,
   which is out of reach while at most 9998 names are in use.
   */
  method UniqueSlug(base: string, taken: set<string>) returns (slug: string, ghost number: nat)
    ensures 1 <= number <= 10000 && slug == Candidate(base, number)
    ensures forall k :: 1 <= k < number ==> Candidate(base, k) in taken
    ensures number < 10000 ==> slug !in taken
    ensures |taken| <= 9998 ==> number < 10000
  {
    if base !in taken {
      return base, 1;
    }
    var n := 2;
    while true
      invariant 2 <= n <= 9999
      invariant forall k :: 1 <= k < n ==> Candidate(base, k) in taken
      decreases 10000 - n
    {
      var candidate := base + "-" + ToDec(n);
      assert candidate == Candidate(base, n);
      if candidate !in taken {
        return candidate, n;
      }
      n := n + 1;
      if n > 9999 {
        if |taken| <= 9998 {
          SomeCandidateIsFree(base, taken);
        }
        return base + "-" + ToDec(n), n;
      }
    }
  }
}
