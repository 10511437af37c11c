/**
 `${var}` substitution by one `str::replace` per variable, against the simultaneous
 substitution it is meant to be. Proves exactly which variable values make the two agree
 on every template and make the order of the variables irrelevant.
 */
module Substitute {
  import opened Strings

  // ---------------------------------------------------------------- str::replace

  /** Every non-overlapping occurrence of `key`, found from the left. */
  function Replace(s: string, key: string, v: string): string
    requires key != ""
    decreases |s|
  {
    if s == "" then ""
    else if key <= s then v + Replace(s[|key|..], key, v)
    else [s[0]] + Replace(s[1..], key, v)
  }

  function Key(name: string): (k: string)
    ensures |k| == |name| + 3 && k[0] == '$'
  {
    "${" + name + "}"
  }

  datatype Var = Var(name: string, value: string)

  /** The replacements one after the other, in table order. */
  function Sequential(table: seq<Var>, s: string): string {
    if table == [] then s
    else
      var last := table[|table| - 1];
      Replace(Sequential(table[..|table| - 1], s), Key(last.name), last.value)
  }

  // ---------------------------------------------------------------- templates

  /** `Val(n)` is the text that replaced a `${n}`. */
  datatype Seg = Lit(text: string) | Tok(name: string) | Val(of: string)

  type Template = seq<Seg>

  /** A variable name: nothing that could start or end a placeholder. */
  predicate NameOk(name: string) {
    Free(name, '$') && Free(name, '{') && Free(name, '}')
  }

  /** Dollar-free literals and un-nested placeholders. */
  predicate WellFormed(t: Template) {
    forall i :: 0 <= i < |t| ==> (t[i].Lit? && Free(t[i].text, '$')) || (t[i].Tok? && NameOk(t[i].name))
  }

  function TextOf(seg: Seg, vals: map<string, string>): string {
    match seg
    case Lit(text) => text
    case Tok(name) => Key(name)
    case Val(n) => if n in vals then vals[n] else ""
  }

  function Print(t: Template, vals: map<string, string>): string {
    if t == [] then "" else TextOf(t[0], vals) + Print(t[1..], vals)
  }

  /** All placeholders at once; unknown names stay as they are. */
  function Simultaneous(t: Template, vals: map<string, string>): string {
    Print(Fill(t, vals.Keys), vals)
  }

  /** The template after the variables in `done` were replaced. */
  function Fill(t: Template, done: set<string>): (r: Template)
    ensures |r| == |t|
    ensures forall i :: 0 <= i < |t| ==> r[i] == FillSeg(t[i], done)
  {
    seq(|t|, (i: nat) requires i < |t| => FillSeg(t[i], done))
  }

  function FillSeg(seg: Seg, done: set<string>): Seg {
    if seg.Tok? && seg.name in done then Val(seg.name) else seg
  }

  // ---------------------------------------------------------------- one replacement

  /** No occurrence of `key` can begin inside `text`, whatever follows it. */
  ghost predicate NoOverlap(text: string, key: string) {
    forall p :: 0 <= p < |text| ==> !(key <= text[p..]) && !(text[p..] <= key)
  }

  lemma {:induction false} ReplaceSkips(text: string, rest: string, key: string, v: string)
    requires key != "" && NoOverlap(text, key)
    ensures Replace(text + rest, key, v) == text + Replace(rest, key, v)
    decreases |text|
  {
    if text == "" {
      assert text + rest == rest;
    } else {
      var s := text + rest;
      assert text[0..] == text;
      assert !(key <= s) by {
        if |key| <= |text| {
          assert s[..|key|] == text[..|key|];
        } else {
          assert s[..|text|] == text;
        }
      }
      forall p | 0 <= p < |text[1..]|
        ensures !(key <= text[1..][p..]) && !(text[1..][p..] <= key)
      {
        assert text[1..][p..] == text[p + 1..];
      }
      assert s[1..] == text[1..] + rest;
      ReplaceSkips(text[1..], rest, key, v);
    }
  }

  lemma ReplaceTakes(rest: string, key: string, v: string)
    requires key != ""
    ensures Replace(key + rest, key, v) == v + Replace(rest, key, v)
  {
    assert (key + rest)[|key|..] == rest;
  }

  lemma {:induction false} ReplaceByItself(s: string, key: string)
    requires key != ""
    ensures Replace(s, key, key) == s
    decreases |s|
  {
    if s != "" {
      if key <= s {
        ReplaceByItself(s[|key|..], key);
        assert s == key + s[|key|..];
      } else {
        ReplaceByItself(s[1..], key);
      }
    }
  }

  /** A text whose only possible dollar is its first character can only meet a key there. */
  lemma OneDollar(text: string, name: string)
    requires forall p :: 1 <= p < |text| ==> text[p] != '$'
    requires text == "" || (!(Key(name) <= text) && !(text <= Key(name)))
    ensures NoOverlap(text, Key(name))
  {
    forall p | 0 <= p < |text|
      ensures !(Key(name) <= text[p..]) && !(text[p..] <= Key(name))
    {
      if p == 0 {
        assert text[0..] == text;
      } else {
        assert text[p..][0] == text[p];
      }
    }
  }

  lemma LiteralMissesKey(text: string, name: string)
    requires Free(text, '$')
    ensures NoOverlap(text, Key(name))
  {
    assert forall p :: 0 <= p < |text| ==> text[p] in text;
    OneDollar(text, name);
  }

  lemma OtherTokenMissesKey(other: string, name: string)
    requires NameOk(other) && NameOk(name) && other != name
    ensures NoOverlap(Key(other), Key(name))
  {
    var a, b := Key(other), Key(name);
    assert forall k :: 0 <= k < |other| ==> a[k + 2] == other[k] && other[k] in other;
    assert forall k :: 0 <= k < |name| ==> b[k + 2] == name[k] && name[k] in name;
    assert a[|other| + 2] == '}' && b[|name| + 2] == '}';
    if |other| == |name| {
      var k :| 0 <= k < |name| && other[k] != name[k];
      assert a[k + 2] != b[k + 2];
    } else if |other| < |name| {
      assert b[|other| + 2] != '}';
    } else {
      assert a[|name| + 2] != '}';
    }
    OneDollar(a, name);
  }

  // ---------------------------------------------------------------- sufficiency

  /** Replacing the variable `m` cannot disturb the value of the variable `n`. */
  ghost predicate Harmless(vals: map<string, string>, n: string, m: string)
    requires n in vals && m in vals
  {
    vals[m] == Key(m) || NoOverlap(vals[n], Key(m))
  }

  /** No variable's value can complete or contain another variable's placeholder. */
  ghost predicate Clean(vals: map<string, string>) {
    forall n, m :: n in vals && m in vals && n != m ==> Harmless(vals, n, m)
  }

  predicate NamesOk(vals: map<string, string>) {
    forall n :: n in vals ==> NameOk(n)
  }

  /** A segment reached on the way: original text, an untouched placeholder, or an inserted value. */
  ghost predicate SegOk(seg: Seg, vals: map<string, string>, m: string) {
    match seg
    case Lit(text) => Free(text, '$')
    case Tok(name) => NameOk(name)
    case Val(n) => n in vals && NoOverlap(vals[n], Key(m))
  }

  lemma {:induction false} ReplaceStep(t: Template, vals: map<string, string>, m: string)
    requires m in vals && NameOk(m) && forall i :: 0 <= i < |t| ==> SegOk(t[i], vals, m)
    ensures Replace(Print(t, vals), Key(m), vals[m]) == Print(Fill(t, {m}), vals)
    decreases |t|
  {
    if t != [] {
      var text, rest := TextOf(t[0], vals), Print(t[1..], vals);
      assert SegOk(t[0], vals, m);
      assert forall i :: 0 <= i < |t[1..]| ==> SegOk(t[1..][i], vals, m);
      ReplaceStep(t[1..], vals, m);
      assert Fill(t, {m})[1..] == Fill(t[1..], {m});
      if t[0] == Tok(m) {
        ReplaceTakes(rest, Key(m), vals[m]);
      } else {
        match t[0] {
          case Lit(s) => LiteralMissesKey(s, m);
          case Tok(name) => OtherTokenMissesKey(name, m);
          case Val(_) =>
        }
        ReplaceSkips(text, rest, Key(m), vals[m]);
      }
    }
  }

  /** `table` lists every variable of `vals` exactly once, in some order. */
  ghost predicate Lists(table: seq<Var>, vals: map<string, string>) {
    && (forall i :: 0 <= i < |table| ==> table[i].name in vals && table[i].value == vals[table[i].name])
    && (forall i, j :: 0 <= i < j < |table| ==> table[i].name != table[j].name)
    && (forall n :: n in vals ==> n in NamesIn(table))
  }

  function NamesIn(table: seq<Var>): set<string> {
    set i | 0 <= i < |table| :: table[i].name
  }

  lemma FillTwice(t: Template, done: set<string>, m: string)
    ensures Fill(Fill(t, done), {m}) == Fill(t, done + {m})
  {
  }

  lemma {:induction false} PrintAgrees(t: Template, u: Template, vals: map<string, string>)
    requires |t| == |u| && forall i :: 0 <= i < |t| ==> TextOf(t[i], vals) == TextOf(u[i], vals)
    ensures Print(t, vals) == Print(u, vals)
    decreases |t|
  {
    if t != [] {
      PrintAgrees(t[1..], u[1..], vals);
    }
  }

  /** One more replacement fills one more variable's placeholders and nothing else. */
  lemma FillOneMore(t: Template, vals: map<string, string>, done: set<string>, m: string)
    requires WellFormed(t) && NamesOk(vals) && done <= vals.Keys && m in vals && m !in done
    requires forall n :: n in done ==> Harmless(vals, n, m)
    ensures Replace(Print(Fill(t, done), vals), Key(m), vals[m]) == Print(Fill(t, done + {m}), vals)
  {
    var before := Fill(t, done);
    FillTwice(t, done, m);
    if vals[m] == Key(m) {
      ReplaceByItself(Print(before, vals), Key(m));
      PrintAgrees(before, Fill(t, done + {m}), vals);
    } else {
      forall i | 0 <= i < |t|
        ensures SegOk(before[i], vals, m)
      {
        if before[i].Val? {
          assert Harmless(vals, before[i].of, m);
        }
      }
      ReplaceStep(before, vals, m);
    }
  }

  /** No value disturbs a variable that comes later in the table. */
  ghost predicate CleanInOrder(table: seq<Var>, vals: map<string, string>) {
    && (forall i :: 0 <= i < |table| ==> table[i].name in vals)
    && (forall i, j :: 0 <= i < j < |table| ==> Harmless(vals, table[i].name, table[j].name))
  }

  lemma NamesStep(table: seq<Var>, k: nat)
    requires 0 < k <= |table|
    ensures table[..k][..k - 1] == table[..k - 1]
    ensures NamesIn(table[..k]) == NamesIn(table[..k - 1]) + {table[k - 1].name}
  {
    assert forall i :: 0 <= i < k - 1 ==> table[..k][i] == table[..k - 1][i];
    assert table[..k][k - 1].name == table[k - 1].name;
  }

  /** After the first `k` replacements exactly the placeholders of those variables are filled. */
  lemma {:induction false} PrefixFills(t: Template, vals: map<string, string>, table: seq<Var>, k: nat)
    requires WellFormed(t) && NamesOk(vals) && Lists(table, vals) && CleanInOrder(table, vals) && k <= |table|
    ensures Sequential(table[..k], Print(t, vals)) == Print(Fill(t, NamesIn(table[..k])), vals)
    decreases k
  {
    if k == 0 {
      assert Fill(t, NamesIn(table[..0])) == t;
    } else {
      hide NamesOk, WellFormed, Print, Replace, Harmless;
      PrefixFills(t, vals, table, k - 1);
      NamesStep(table, k);
      FillOneMore(t, vals, NamesIn(table[..k - 1]), table[k - 1].name);
    }
  }

  /** For one table in its own order only the later variables matter to a value. */
  lemma OrderSuffices(t: Template, vals: map<string, string>, table: seq<Var>)
    requires WellFormed(t) && NamesOk(vals) && Lists(table, vals) && CleanInOrder(table, vals)
    ensures Sequential(table, Print(t, vals)) == Simultaneous(t, vals)
  {
    PrefixFills(t, vals, table, |table|);
    assert table[..|table|] == table;
    assert NamesIn(table) == vals.Keys;
  }

  lemma CleanSuffices(t: Template, vals: map<string, string>, table: seq<Var>)
    requires WellFormed(t) && NamesOk(vals) && Clean(vals) && Lists(table, vals)
    ensures Sequential(table, Print(t, vals)) == Simultaneous(t, vals)
  {
    hide Harmless;
    OrderSuffices(t, vals, table);
  }

  // ---------------------------------------------------------------- necessity

  /** A replacement that finds its key and changes nothing replaced the key by itself. */
  lemma {:induction false} FixedMeansSame(s: string, key: string, v: string, p: nat)
    requires key != "" && p <= |s| && key <= s[p..] && Replace(s, key, v) == s
    ensures v == key
    decreases |s|
  {
    if key <= s {
      ReplaceLength(s, key, v);
      assert Count(s, key) >= 1;
      SameLength(Count(s, key), |v|, |key|);
      assert s == key + s[|key|..];
      assert v == s[..|v|];
    } else {
      assert p > 0 by {
        assert s[0..] == s;
      }
      assert s == [s[0]] + s[1..];
      assert Replace(s[1..], key, v) == s[1..];
      assert s[1..][p - 1..] == s[p..];
      FixedMeansSame(s[1..], key, v, p - 1);
    }
  }

  function Count(s: string, key: string): nat
    requires key != ""
    decreases |s|
  {
    if s == "" then 0 else if key <= s then 1 + Count(s[|key|..], key) else Count(s[1..], key)
  }

  lemma {:induction false} ReplaceLength(s: string, key: string, v: string)
    requires key != ""
    ensures |Replace(s, key, v)| == |s| + Count(s, key) * (|v| - |key|)
    decreases |s|
  {
    if s != "" {
      if key <= s {
        ReplaceLength(s[|key|..], key, v);
        Distribute(Count(s[|key|..], key), |v| - |key|);
      } else {
        ReplaceLength(s[1..], key, v);
      }
    }
  }

  lemma Distribute(n: nat, d: int)
    ensures (1 + n) * d == d + n * d
  {
  }

  lemma SameLength(n: nat, a: nat, b: nat)
    requires n >= 1 && n * (a - b) == 0
    ensures a == b
  {
  }

  /** Put `n` and `m` last, in this order. */
  lemma OrderEndingIn(vals: map<string, string>, n: string, m: string) returns (table: seq<Var>)
    requires n in vals && m in vals && n != m
    ensures Lists(table, vals) && |table| >= 2
    ensures table[|table| - 2] == Var(n, vals[n]) && table[|table| - 1] == Var(m, vals[m])
  {
    hide NamesIn;
    var front := AnyOrder(vals - {n, m});
    var a, b := Var(n, vals[n]), Var(m, vals[m]);
    table := front + [a, b];
    NamesAppend(front, a);
    NamesAppend(front + [a], b);
    assert table == front + [a] + [b];
  }

  lemma NamesAppend(front: seq<Var>, last: Var)
    ensures NamesIn(front + [last]) == NamesIn(front) + {last.name}
  {
    var table := front + [last];
    assert table[|front|] == last;
    assert forall i :: 0 <= i < |front| ==> table[i] == front[i];
  }

  lemma ListsOneMore(vals: map<string, string>, n: string, front: seq<Var>)
    requires n in vals && Lists(front, vals - {n})
    ensures Lists(front + [Var(n, vals[n])], vals)
  {
    NamesAppend(front, Var(n, vals[n]));
    hide NamesIn;
  }

  lemma {:induction false} AnyOrder(vals: map<string, string>) returns (table: seq<Var>)
    ensures Lists(table, vals)
    decreases |vals.Keys|
  {
    if vals.Keys == {} {
      table := [];
    } else {
      hide Lists;
      var n :| n in vals.Keys;
      assert (vals - {n}).Keys == vals.Keys - {n};
      var front := AnyOrder(vals - {n});
      ListsOneMore(vals, n, front);
      table := front + [Var(n, vals[n])];
    }
  }

  /** Replacements of other variables leave a template that only mentions `n` alone. */
  lemma {:induction false} OthersLeaveAlone(t: Template, vals: map<string, string>, table: seq<Var>, n: string)
    requires WellFormed(t) && NamesOk(vals) && forall i :: 0 <= i < |t| && t[i].Tok? ==> t[i].name == n
    requires forall i :: 0 <= i < |table| ==>
               table[i].name in vals && table[i].name != n && table[i].value == vals[table[i].name]
    ensures Sequential(table, Print(t, vals)) == Print(t, vals)
    decreases |table|
  {
    if table != [] {
      OthersLeaveAlone(t, vals, table[..|table| - 1], n);
      var m := table[|table| - 1].name;
      assert forall i :: 0 <= i < |t| ==> SegOk(t[i], vals, m);
      ReplaceStep(t, vals, m);
      assert Fill(t, {m}) == t;
    }
  }

  /** The rest of the key after a non-empty start is free of dollars. */
  lemma KeyTail(m: string, k: nat)
    requires NameOk(m) && 1 <= k <= |Key(m)|
    ensures Free(Key(m)[k..], '$')
  {
    forall p | 0 <= p < |Key(m)[k..]|
      ensures Key(m)[k..][p] != '$'
    {
      var q := p + k;
      assert Key(m)[k..][p] == Key(m)[q];
      if 2 <= q < |m| + 2 {
        assert Key(m)[q] == m[q - 2] && m[q - 2] in m;
      }
    }
  }

  /** Every overlap shows on some template: complete the half-written placeholder with a literal. */
  lemma OverlapShows(vals: map<string, string>, n: string, m: string) returns (t: Template, table: seq<Var>)
    requires NamesOk(vals) && n in vals && m in vals && n != m && !Harmless(vals, n, m)
    ensures WellFormed(t) && Lists(table, vals)
    ensures Sequential(table, Print(t, vals)) != Simultaneous(t, vals)
  {
    hide Replace, Lists, Simultaneous, Sequential, NameOk, WellFormed, Print;
    var key := Key(m);
    var p, lit := Completion(vals[n], m);
    t := [Tok(n), Lit(lit)];
    table := OrderEndingIn(vals, n, m);
    EndsWithBoth(t, lit, vals, table, n, m);
    if Replace(vals[n] + lit, key, vals[m]) == vals[n] + lit {
      FixedMeansSame(vals[n] + lit, key, vals[m], p);
    }
  }

  /** A dollar-free literal that completes the placeholder begun in `text`. */
  lemma Completion(text: string, m: string) returns (p: nat, lit: string)
    requires NameOk(m) && !NoOverlap(text, Key(m))
    ensures p <= |text + lit| && Key(m) <= (text + lit)[p..] && Free(lit, '$')
  {
    hide NameOk;
    var key := Key(m);
    p :| 0 <= p < |text| && (key <= text[p..] || text[p..] <= key);
    var have := text[p..];
    if key <= have {
      lit := "";
      assert text + lit == text;
    } else {
      lit := key[|have|..];
      KeyTail(m, |have|);
      assert (text + lit)[p..] == have + lit == key;
    }
  }

  /** On a template with the one placeholder `n`, only the last two replacements act. */
  lemma EndsWithBoth(t: Template, lit: string, vals: map<string, string>, table: seq<Var>, n: string, m: string)
    requires NamesOk(vals) && n in vals && m in vals && n != m && Free(lit, '$') && t == [Tok(n), Lit(lit)]
    requires Lists(table, vals) && |table| >= 2
    requires table[|table| - 2] == Var(n, vals[n]) && table[|table| - 1] == Var(m, vals[m])
    ensures WellFormed(t) && Simultaneous(t, vals) == vals[n] + lit
    ensures Sequential(table, Print(t, vals)) == Replace(vals[n] + lit, Key(m), vals[m])
  {
    hide Replace, Print, NamesOk;
    var k := |table| - 2;
    FrontAvoids(vals, table, n, m);
    OthersLeaveAlone(t, vals, table[..k], n);
    SequentialStep(table, k, Print(t, vals));
    SequentialStep(table, k + 1, Print(t, vals));
    assert table[..|table|] == table;
    FillsToText(t, lit, vals, n);
  }

  lemma SequentialStep(table: seq<Var>, k: nat, s: string)
    requires k < |table|
    ensures Sequential(table[..k + 1], s) == Replace(Sequential(table[..k], s), Key(table[k].name), table[k].value)
  {
    assert table[..k + 1][..k] == table[..k];
  }

  lemma FrontAvoids(vals: map<string, string>, table: seq<Var>, n: string, m: string)
    requires Lists(table, vals) && |table| >= 2 && table[|table| - 2].name == n
    ensures var front := table[..|table| - 2];
            forall i :: 0 <= i < |front| ==>
              front[i].name in vals && front[i].name != n && front[i].value == vals[front[i].name]
  {
  }

  lemma FillsToText(t: Template, lit: string, vals: map<string, string>, n: string)
    requires NamesOk(vals) && n in vals && Free(lit, '$') && t == [Tok(n), Lit(lit)]
    ensures WellFormed(t) && Simultaneous(t, vals) == vals[n] + lit
    ensures Replace(Print(t, vals), Key(n), vals[n]) == vals[n] + lit
  {
    hide Replace;
    assert forall i :: 0 <= i < |t| ==> SegOk(t[i], vals, n);
    ReplaceStep(t, vals, n);
    TwoSegments(n, lit, vals);
    PrintAgrees(Fill(t, {n}), Fill(t, vals.Keys), vals);
  }

  lemma TwoSegments(n: string, lit: string, vals: map<string, string>)
    requires n in vals
    ensures Print(Fill([Tok(n), Lit(lit)], {n}), vals) == vals[n] + lit
  {
    var f := Fill([Tok(n), Lit(lit)], {n});
    assert f == [Val(n), Lit(lit)];
    assert f[1..] == [Lit(lit)] && f[1..][1..] == [];
    assert Print(f[1..], vals) == lit;
  }

  /**
   Exactly when "the order of replacement is irrelevant": for any variables, the sequential
   replacements equal the simultaneous substitution on every well-formed template and in every
   order of the table, if and only if no value contains, or ends in the start of, another
   variable's placeholder (placeholders that are their own value aside).
   */
  lemma SequentialIsSimultaneousExactly(vals: map<string, string>)
    requires NamesOk(vals)
    ensures Clean(vals) <==>
            (forall t: Template, table: seq<Var> :: WellFormed(t) && Lists(table, vals)
               ==> Sequential(table, Print(t, vals)) == Simultaneous(t, vals))
  {
    if Clean(vals) {
      forall t: Template, table: seq<Var> | WellFormed(t) && Lists(table, vals)
        ensures Sequential(table, Print(t, vals)) == Simultaneous(t, vals)
      {
        CleanSuffices(t, vals, table);
      }
    } else {
      var n, m :| n in vals && m in vals && n != m && !Harmless(vals, n, m);
      var t, table := OverlapShows(vals, n, m);
      assert WellFormed(t) && Lists(table, vals);
    }
  }

  /** Dollar-free values are always clean. */
  lemma DollarFreeIsClean(vals: map<string, string>)
    requires forall n :: n in vals ==> Free(vals[n], '$')
    ensures Clean(vals)
  {
    forall n, m | n in vals && m in vals && n != m
      ensures Harmless(vals, n, m)
    {
      LiteralMissesKey(vals[n], m);
    }
  }

  // ---------------------------------------------------------------- the launcher's table

  /** Paths and the separator are already rendered as text. */
  datatype Context = Context(
    authPlayerName: string, authUuid: string, authAccessToken: string, authXuid: string, clientid: string,
    authXboxUserHash: string, userType: string, versionName: string, versionType: string, gameDirectory: string,
    assetsRoot: string, assetsIndexName: string, nativesDirectory: string, libraryDirectory: string, classpath: string,
    classpathSeparator: string, arch: string, launcherName: string, launcherVersion: string,
    resolutionWidth: string, resolutionHeight: string)

  function Table(ctx: Context): seq<Var> {
    [ Var("auth_player_name", ctx.authPlayerName),
      Var("auth_uuid", ctx.authUuid),
      Var("auth_access_token", ctx.authAccessToken),
      Var("auth_xuid", ctx.authXuid),
      Var("clientid", ctx.clientid),
      Var("auth_xbox_user_hash", ctx.authXboxUserHash),
      Var("user_type", ctx.userType),
      Var("version_name", ctx.versionName),
      Var("version_type", ctx.versionType),
      Var("game_directory", ctx.gameDirectory),
      Var("assets_root", ctx.assetsRoot),
      Var("assets_index_name", ctx.assetsIndexName),
      Var("natives_directory", ctx.nativesDirectory),
      Var("library_directory", ctx.libraryDirectory),
      Var("classpath", ctx.classpath),
      Var("classpath_separator", ctx.classpathSeparator),
      Var("arch", ctx.arch),
      Var("launcher_name", ctx.launcherName),
      Var("launcher_version", ctx.launcherVersion),
      Var("resolution_width", ctx.resolutionWidth),
      Var("resolution_height", ctx.resolutionHeight) ]
  }

  predicate Distinct(table: seq<Var>) {
    forall i, j :: 0 <= i < j < |table| ==> table[i].name != table[j].name
  }

  function ValuesOf(table: seq<Var>): (vals: map<string, string>)
    requires Distinct(table)
    ensures vals.Keys == NamesIn(table)
    ensures forall i :: 0 <= i < |table| ==> table[i].name in vals && vals[table[i].name] == table[i].value
  {
    if table == [] then map[]
    else
      var n := |table| - 1;
      var front := ValuesOf(table[..n]);
      assert forall i :: 0 <= i < n ==> table[..n][i] == table[i];
      front[table[n].name := table[n].value]
  }

  /** The 21 names differ pairwise: the pairs whose second name stands below `hi`. */
  predicate DistinctUpTo(table: seq<Var>, lo: nat, hi: nat) {
    forall i, j :: 0 <= i < j < |table| && lo <= j < hi ==> table[i].name != table[j].name
  }

  lemma FirstNamesDiffer(ctx: Context)
    ensures DistinctUpTo(Table(ctx), 0, 9)
  {
  }

  lemma NextNamesDiffer(ctx: Context)
    ensures DistinctUpTo(Table(ctx), 9, 14)
  {
  }

  lemma LaterNamesDiffer(ctx: Context)
    ensures DistinctUpTo(Table(ctx), 14, 18)
  {
  }

  lemma LastNamesDiffer(ctx: Context)
    ensures DistinctUpTo(Table(ctx), 18, 21)
  {
  }

  lemma TableIsDistinct(ctx: Context)
    ensures Distinct(Table(ctx))
  {
    FirstNamesDiffer(ctx);
    NextNamesDiffer(ctx);
    LaterNamesDiffer(ctx);
    LastNamesDiffer(ctx);
    assert |Table(ctx)| == 21;
    hide Table;
  }

  /** The variables of one launch by name. */
  function Values(ctx: Context): map<string, string> {
    TableIsDistinct(ctx);
    ValuesOf(Table(ctx))
  }

  method SubstituteVars(template: string, ctx: Context) returns (out: string)
    ensures out == Sequential(Table(ctx), template)
  {
    var vars := Table(ctx);
    out := template;
    for i := 0 to |vars|
      invariant out == Sequential(vars[..i], template)
    {
      SequentialStep(vars, i, template);
      out := Replace(out, Key(vars[i].name), vars[i].value);
    }
    assert vars[..|vars|] == vars;
  }

  method SubstituteAll(templates: seq<string>, ctx: Context) returns (out: seq<string>)
    ensures |out| == |templates|
    ensures forall k :: 0 <= k < |templates| ==> out[k] == Sequential(Table(ctx), templates[k])
  {
    out := [];
    for k := 0 to |templates|
      invariant |out| == k
      invariant forall j :: 0 <= j < k ==> out[j] == Sequential(Table(ctx), templates[j])
    {
      var one := SubstituteVars(templates[k], ctx);
      out := out + [one];
    }
  }

  lemma TableNamesOk(ctx: Context)
    ensures forall i :: 0 <= i < |Table(ctx)| ==> NameOk(Table(ctx)[i].name)
  {
    AuthNamesOk();
    AccountNamesOk();
    PathNamesOk();
    DirectoryNamesOk();
    LibraryNamesOk();
    PlatformNamesOk();
    LauncherNamesOk();
    hide NameOk;
  }

  lemma AuthNamesOk()
    ensures NameOk("auth_player_name") && NameOk("auth_uuid") && NameOk("auth_access_token") && NameOk("auth_xuid")
  {
  }

  lemma AccountNamesOk()
    ensures NameOk("clientid") && NameOk("auth_xbox_user_hash") && NameOk("user_type")
  {
  }

  lemma PathNamesOk()
    ensures NameOk("version_name") && NameOk("version_type") && NameOk("game_directory") && NameOk("assets_root")
  {
  }

  lemma DirectoryNamesOk()
    ensures NameOk("assets_index_name") && NameOk("natives_directory")
  {
  }

  lemma LibraryNamesOk()
    ensures NameOk("library_directory") && NameOk("launcher_version")
  {
  }

  lemma PlatformNamesOk()
    ensures NameOk("classpath") && NameOk("classpath_separator") && NameOk("arch") && NameOk("launcher_name")
  {
  }

  lemma LauncherNamesOk()
    ensures NameOk("resolution_width") && NameOk("resolution_height")
  {
  }

  /**
   The launcher's own table: with dollar-free values it substitutes simultaneously, in this and in every other
   order.
   */
  lemma LauncherSubstitutesSimultaneously(ctx: Context, t: Template, table: seq<Var>)
    requires WellFormed(t)
    requires forall i :: 0 <= i < |Table(ctx)| ==> Free(Table(ctx)[i].value, '$')
    requires Lists(table, Values(ctx))
    ensures var vals := Values(ctx);
            Sequential(table, Print(t, vals)) == Sequential(Table(ctx), Print(t, vals)) == Simultaneous(t, vals)
  {
    TableNamesOk(ctx);
    hide Table;
    var launcher := Table(ctx);
    TableIsDistinct(ctx);
    var vals := Values(ctx);
    forall n | n in vals
      ensures Free(vals[n], '$') && NameOk(n)
    {
      var i :| 0 <= i < |launcher| && launcher[i].name == n;
    }
    DollarFreeIsClean(vals);
    CleanSuffices(t, vals, table);
    CleanSuffices(t, vals, launcher);
  }

  /** In the launcher's own order: it is enough that no value disturbs a variable listed after it. */
  lemma LauncherOrderSuffices(ctx: Context, t: Template)
    requires WellFormed(t) && CleanInOrder(Table(ctx), Values(ctx))
    ensures var vals := Values(ctx);
            Sequential(Table(ctx), Print(t, vals)) == Simultaneous(t, vals)
  {
    TableNamesOk(ctx);
    hide Table, Harmless;
    TableIsDistinct(ctx);
    var vals, launcher := Values(ctx), Table(ctx);
    forall n | n in vals
      ensures NameOk(n)
    {
      var i :| 0 <= i < |launcher| && launcher[i].name == n;
    }
    OrderSuffices(t, vals, launcher);
  }

  // ---------------------------------------------------------------- which value goes where

  /** No value of the context contains a dollar. */
  predicate DollarFree(ctx: Context) {
    && Free(ctx.authPlayerName, '$') && Free(ctx.authUuid, '$') && Free(ctx.authAccessToken, '$')
    && Free(ctx.authXuid, '$') && Free(ctx.clientid, '$') && Free(ctx.authXboxUserHash, '$')
    && Free(ctx.userType, '$') && Free(ctx.versionName, '$') && Free(ctx.versionType, '$')
    && Free(ctx.gameDirectory, '$') && Free(ctx.assetsRoot, '$') && Free(ctx.assetsIndexName, '$')
    && Free(ctx.nativesDirectory, '$') && Free(ctx.libraryDirectory, '$') && Free(ctx.classpath, '$')
    && Free(ctx.classpathSeparator, '$') && Free(ctx.arch, '$') && Free(ctx.launcherName, '$')
    && Free(ctx.launcherVersion, '$') && Free(ctx.resolutionWidth, '$') && Free(ctx.resolutionHeight, '$')
  }

  /** The placeholders the launcher knows. */
  const NAMES: set<string> := {
    "auth_player_name", "auth_uuid", "auth_access_token", "auth_xuid",
    "clientid", "auth_xbox_user_hash", "user_type", "version_name",
    "version_type", "game_directory", "assets_root", "assets_index_name",
    "natives_directory", "library_directory", "classpath", "classpath_separator",
    "arch", "launcher_name", "launcher_version", "resolution_width",
    "resolution_height" }

  lemma DollarFreeTable(ctx: Context)
    requires DollarFree(ctx)
    ensures forall i :: 0 <= i < |Table(ctx)| ==> Free(Table(ctx)[i].value, '$')
  {
    hide Free;
  }

  lemma TableNames(ctx: Context)
    ensures NamesIn(Table(ctx)) == NAMES
  {
    forall n | n in NAMES
      ensures n in NamesIn(Table(ctx))
    {
      NameIsListed(ctx, n);
    }
    ListedIsName(ctx);
    hide Table;
  }

  lemma ListedIsName(ctx: Context)
    ensures forall i :: 0 <= i < |Table(ctx)| ==> Table(ctx)[i].name in NAMES
  {
  }

  lemma NameIsListed(ctx: Context, n: string)
    requires n in NAMES
    ensures exists i :: 0 <= i < |Table(ctx)| && Table(ctx)[i].name == n
  {
    var t := Table(ctx);
    assert t[0].name == "auth_player_name";
    assert t[1].name == "auth_uuid";
    assert t[2].name == "auth_access_token";
    assert t[3].name == "auth_xuid";
    assert t[4].name == "clientid";
    assert t[5].name == "auth_xbox_user_hash";
    assert t[6].name == "user_type";
    assert t[7].name == "version_name";
    assert t[8].name == "version_type";
    assert t[9].name == "game_directory";
    assert t[10].name == "assets_root";
    assert t[11].name == "assets_index_name";
    assert t[12].name == "natives_directory";
    assert t[13].name == "library_directory";
    assert t[14].name == "classpath";
    assert t[15].name == "classpath_separator";
    assert t[16].name == "arch";
    assert t[17].name == "launcher_name";
    assert t[18].name == "launcher_version";
    assert t[19].name == "resolution_width";
    assert t[20].name == "resolution_height";
  }

  /** A placeholder on its own becomes the value listed with its name. */
  lemma OnePlaceholder(ctx: Context, i: nat, name: string, value: string)
    requires DollarFree(ctx) && i < |Table(ctx)| && Table(ctx)[i] == Var(name, value)
    ensures Sequential(Table(ctx), "${" + name + "}") == value
  {
    hide DollarFree, Table, Sequential, Lists;
    DollarFreeTable(ctx);
    TableNamesOk(ctx);
    TableIsDistinct(ctx);
    TableListsValues(ctx);
    var vals, t := Values(ctx), [Tok(name)];
    assert NameOk(name) && WellFormed(t);
    LauncherSubstitutesSimultaneously(ctx, t, Table(ctx));
    assert Table(ctx)[i].name == name;
    ValueListed(ctx, i);
    OneToken(name, vals);
  }

  lemma TableListsValues(ctx: Context)
    ensures Lists(Table(ctx), Values(ctx))
  {
    TableIsDistinct(ctx);
    hide Table;
  }

  lemma ValueListed(ctx: Context, i: nat)
    requires i < |Table(ctx)|
    ensures Table(ctx)[i].name in Values(ctx) && Values(ctx)[Table(ctx)[i].name] == Table(ctx)[i].value
  {
    TableIsDistinct(ctx);
    hide Table;
  }

  lemma OneToken(name: string, vals: map<string, string>)
    ensures Print([Tok(name)], vals) == "${" + name + "}"
    ensures Simultaneous([Tok(name)], vals) == if name in vals then vals[name] else "${" + name + "}"
  {
    var t := [Tok(name)];
    assert t[1..] == [];
    assert Fill(t, vals.Keys)[1..] == [];
    assert Print([], vals) == "" && Key(name) + "" == Key(name);
    if name in vals {
      assert Print(Fill(t, vals.Keys), vals) == vals[name] + "";
    }
  }

  lemma UnknownHasNoValue(ctx: Context, name: string)
    requires name !in NAMES
    ensures name !in Values(ctx)
  {
    TableNames(ctx);
    TableIsDistinct(ctx);
    hide Table, NamesIn;
  }

  /** Any other name stays as it is written. */
  lemma UnknownPlaceholderStays(ctx: Context, name: string)
    requires DollarFree(ctx) && NameOk(name) && name !in NAMES
    ensures Sequential(Table(ctx), "${" + name + "}") == "${" + name + "}"
  {
    UnknownHasNoValue(ctx, name);
    DollarFreeStays(ctx, name);
  }

  lemma DollarFreeStays(ctx: Context, name: string)
    requires DollarFree(ctx) && NameOk(name) && name !in Values(ctx)
    ensures Sequential(Table(ctx), "${" + name + "}") == "${" + name + "}"
  {
    hide DollarFree, Table, Sequential, Lists, Values;
    DollarFreeTable(ctx);
    TableListsValues(ctx);
    var vals, t := Values(ctx), [Tok(name)];
    assert WellFormed(t);
    LauncherSubstitutesSimultaneously(ctx, t, Table(ctx));
    OneToken(name, vals);
  }

  /** Who plays. */
  lemma PlayerPlaceholders(ctx: Context)
    requires DollarFree(ctx)
    ensures Sequential(Table(ctx), "${" + "auth_player_name" + "}") == ctx.authPlayerName
    ensures Sequential(Table(ctx), "${" + "auth_uuid" + "}") == ctx.authUuid
    ensures Sequential(Table(ctx), "${" + "auth_access_token" + "}") == ctx.authAccessToken
    ensures Sequential(Table(ctx), "${" + "auth_xuid" + "}") == ctx.authXuid
  {
    hide DollarFree, Sequential, Key;
    OnePlaceholder(ctx, 0, "auth_player_name", ctx.authPlayerName);
    OnePlaceholder(ctx, 1, "auth_uuid", ctx.authUuid);
    OnePlaceholder(ctx, 2, "auth_access_token", ctx.authAccessToken);
    OnePlaceholder(ctx, 3, "auth_xuid", ctx.authXuid);
  }

  /** With which account. */
  lemma AccountPlaceholders(ctx: Context)
    requires DollarFree(ctx)
    ensures Sequential(Table(ctx), "${" + "clientid" + "}") == ctx.clientid
    ensures Sequential(Table(ctx), "${" + "auth_xbox_user_hash" + "}") == ctx.authXboxUserHash
    ensures Sequential(Table(ctx), "${" + "user_type" + "}") == ctx.userType
  {
    hide DollarFree, Sequential, Key;
    OnePlaceholder(ctx, 4, "clientid", ctx.clientid);
    OnePlaceholder(ctx, 5, "auth_xbox_user_hash", ctx.authXboxUserHash);
    OnePlaceholder(ctx, 6, "user_type", ctx.userType);
  }

  /** What is launched, and from where. */
  lemma VersionPlaceholders(ctx: Context)
    requires DollarFree(ctx)
    ensures Sequential(Table(ctx), "${" + "version_name" + "}") == ctx.versionName
    ensures Sequential(Table(ctx), "${" + "version_type" + "}") == ctx.versionType
    ensures Sequential(Table(ctx), "${" + "game_directory" + "}") == ctx.gameDirectory
    ensures Sequential(Table(ctx), "${" + "assets_root" + "}") == ctx.assetsRoot
    ensures Sequential(Table(ctx), "${" + "assets_index_name" + "}") == ctx.assetsIndexName
  {
    hide DollarFree, Sequential, Key;
    OnePlaceholder(ctx, 7, "version_name", ctx.versionName);
    OnePlaceholder(ctx, 8, "version_type", ctx.versionType);
    OnePlaceholder(ctx, 9, "game_directory", ctx.gameDirectory);
    OnePlaceholder(ctx, 10, "assets_root", ctx.assetsRoot);
    OnePlaceholder(ctx, 11, "assets_index_name", ctx.assetsIndexName);
  }

  /** Natives, libraries and the class path. */
  lemma LibraryPlaceholders(ctx: Context)
    requires DollarFree(ctx)
    ensures Sequential(Table(ctx), "${" + "natives_directory" + "}") == ctx.nativesDirectory
    ensures Sequential(Table(ctx), "${" + "library_directory" + "}") == ctx.libraryDirectory
    ensures Sequential(Table(ctx), "${" + "classpath" + "}") == ctx.classpath
    ensures Sequential(Table(ctx), "${" + "classpath_separator" + "}") == ctx.classpathSeparator
  {
    hide DollarFree, Sequential, Key;
    OnePlaceholder(ctx, 12, "natives_directory", ctx.nativesDirectory);
    OnePlaceholder(ctx, 13, "library_directory", ctx.libraryDirectory);
    OnePlaceholder(ctx, 14, "classpath", ctx.classpath);
    OnePlaceholder(ctx, 15, "classpath_separator", ctx.classpathSeparator);
  }

  /** The platform, the launcher and the window. */
  lemma LauncherPlaceholders(ctx: Context)
    requires DollarFree(ctx)
    ensures Sequential(Table(ctx), "${" + "arch" + "}") == ctx.arch
    ensures Sequential(Table(ctx), "${" + "launcher_name" + "}") == ctx.launcherName
    ensures Sequential(Table(ctx), "${" + "launcher_version" + "}") == ctx.launcherVersion
    ensures Sequential(Table(ctx), "${" + "resolution_width" + "}") == ctx.resolutionWidth
    ensures Sequential(Table(ctx), "${" + "resolution_height" + "}") == ctx.resolutionHeight
  {
    hide DollarFree, Sequential, Key;
    OnePlaceholder(ctx, 16, "arch", ctx.arch);
    OnePlaceholder(ctx, 17, "launcher_name", ctx.launcherName);
    OnePlaceholder(ctx, 18, "launcher_version", ctx.launcherVersion);
    OnePlaceholder(ctx, 19, "resolution_width", ctx.resolutionWidth);
    OnePlaceholder(ctx, 20, "resolution_height", ctx.resolutionHeight);
  }

  /** The order does matter once a value spells a placeholder: a player called `${arch}`. */
  lemma OrderMatters(arch: string)
    requires arch != Key("arch")
    ensures var player, platform := Var("auth_player_name", Key("arch")), Var("arch", arch);
            && Sequential([player, platform], Key("auth_player_name")) == arch
            && Sequential([platform, player], Key("auth_player_name")) == Key("arch")
  {
    AuthNamesOk();
    PlatformNamesOk();
    assert |"arch"| != |"auth_player_name"|;
    TwoVariables("auth_player_name", "arch", arch);
  }

  lemma TwoVariables(n: string, m: string, v: string)
    requires NameOk(n) && NameOk(m) && n != m
    ensures Sequential([Var(n, Key(m)), Var(m, v)], Key(n)) == v
    ensures Sequential([Var(m, v), Var(n, Key(m))], Key(n)) == Key(m)
  {
    SequentialPair(Var(n, Key(m)), Var(m, v), Key(n));
    SequentialPair(Var(m, v), Var(n, Key(m)), Key(n));
    ReplaceWhole(Key(n), Key(m));
    ReplaceWhole(Key(m), v);
    OtherTokenMissesKey(n, m);
    ReplaceSkips(Key(n), "", Key(m), v);
    hide Key, Sequential;
    assert Key(n) + "" == Key(n);
  }

  lemma SequentialPair(a: Var, b: Var, s: string)
    ensures Sequential([a, b], s) == Replace(Replace(s, Key(a.name), a.value), Key(b.name), b.value)
  {
    hide Replace, Key;
    assert [a, b][..1] == [a] && [a][..0] == [];
    assert Sequential([a], s) == Replace(s, Key(a.name), a.value);
  }

  lemma ReplaceWhole(key: string, v: string)
    requires key != ""
    ensures Replace(key, key, v) == v
  {
    ReplaceTakes("", key, v);
    assert key + "" == key && v + "" == v;
  }
}
