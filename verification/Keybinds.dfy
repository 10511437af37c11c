/** The wire format of key bindings: parser, printer, and the event matcher. */
module Keybinds {
  import opened Common
  import opened Strings
  import opened Decimals

  /** `other` stands for the modifier bits that have no wire name. */
  datatype Mods = Mods(ctrl: bool, alt: bool, shift: bool, other: nat)

  type u8 = n: int | 0 <= n < 256

  /** Keys without a wire name; they are printed by their debug name. */
  datatype OtherKey = NullKey | CapsLock | ScrollLock | NumLock | PrintScreen | Pause | Menu | KeypadBegin

  datatype Code =
    | Char(c: char) | F(n: u8)
    | Enter | Esc | Tab | BackTab | Backspace | Up | Down | Left | Right
    | Home | End | PageUp | PageDown | Delete | Insert
    | Other(key: OtherKey)

  datatype KeySpec = KeySpec(code: Code, mods: Mods)

  const NONE := Mods(false, false, false, 0)

  // ---------------------------------------------------------------- numbers

  /** `str::parse::<u8>()`: an optional plus sign, at least one digit, no overflow. */
  function ParseU8(s: string): Option<u8> {
    var d := if s != "" && s[0] == '+' then s[1..] else s;
    if d == "" || !AllDigits(d) || Value(d) > 255 then None else Some(Value(d))
  }

  // ---------------------------------------------------------------- printing

  function Debug(k: OtherKey): string {
    match k
    case NullKey => "Null"
    case CapsLock => "CapsLock"
    case ScrollLock => "ScrollLock"
    case NumLock => "NumLock"
    case PrintScreen => "PrintScreen"
    case Pause => "Pause"
    case Menu => "Menu"
    case KeypadBegin => "KeypadBegin"
  }

  function CodeName(code: Code): string {
    match code
    case Char(c) => if c == ' ' then "Space" else [c]
    case F(n) => "F" + ToDec(n)
    case Enter => "Enter"
    case Esc => "Esc"
    case Tab => "Tab"
    case BackTab => "BackTab"
    case Backspace => "Backspace"
    case Up => "Up"
    case Down => "Down"
    case Left => "Left"
    case Right => "Right"
    case Home => "Home"
    case End => "End"
    case PageUp => "PageUp"
    case PageDown => "PageDown"
    case Delete => "Delete"
    case Insert => "Insert"
    case Other(k) => Debug(k)
  }

  function ModNames(m: Mods): seq<string> {
    (if m.ctrl then ["Ctrl"] else []) + (if m.alt then ["Alt"] else []) + (if m.shift then ["Shift"] else [])
  }

  function ToWire(k: KeySpec): string {
    var parts := Join(ModNames(k.mods), '+');
    if parts == "" then CodeName(k.code) else parts + "+" + CodeName(k.code)
  }

  /** The printer pushes the modifier names in a fixed order. */
  method KeyspecToWire(k: KeySpec) returns (s: string)
    ensures s == ToWire(k)
  {
    var parts: seq<string> := [];
    if k.mods.ctrl {
      parts := parts + ["Ctrl"];
    }
    if k.mods.alt {
      parts := parts + ["Alt"];
    }
    if k.mods.shift {
      parts := parts + ["Shift"];
    }
    assert parts == ModNames(k.mods);
    var partsStr := Join(parts, '+');
    s := if partsStr == "" then CodeName(k.code) else partsStr + "+" + CodeName(k.code);
  }

  // ---------------------------------------------------------------- parsing

  datatype WireError = EmptyModifier | UnknownModifier(part: string) | UnknownKey(part: string)

  function AddModifier(m: Mods, part: string): Result<Mods, WireError> {
    var p := Lower(part);
    if p == "ctrl" || p == "control" then Ok(m.(ctrl := true))
    else if p == "alt" || p == "meta" then Ok(m.(alt := true))
    else if p == "shift" then Ok(m.(shift := true))
    else if p == "" then Err(EmptyModifier)
    else Err(UnknownModifier(p))
  }

  /** The modifiers from left to right; the first bad one decides the error. */
  function Modifiers(parts: seq<string>): Result<Mods, WireError> {
    if parts == [] then Ok(NONE)
    else
      var m := Modifiers(parts[..|parts| - 1]);
      if m.Err? then m else AddModifier(m.value, parts[|parts| - 1])
  }

  function NamedKey(lower: string): Option<Code> {
    if lower == "space" then Some(Char(' '))
    else if lower == "enter" || lower == "return" then Some(Enter)
    else if lower == "esc" || lower == "escape" then Some(Esc)
    else if lower == "tab" then Some(Tab)
    else if lower == "backtab" then Some(BackTab)
    else if lower == "backspace" then Some(Backspace)
    else if lower == "up" then Some(Up)
    else if lower == "down" then Some(Down)
    else if lower == "left" then Some(Left)
    else if lower == "right" then Some(Right)
    else if lower == "home" then Some(Home)
    else if lower == "end" then Some(End)
    else if lower == "pageup" || lower == "pgup" then Some(PageUp)
    else if lower == "pagedown" || lower == "pgdn" then Some(PageDown)
    else if lower == "delete" || lower == "del" then Some(Delete)
    else if lower == "insert" || lower == "ins" then Some(Insert)
    else None
  }

  /** A string of one byte is that character; a single non-ASCII character has more than one byte. */
  function ParseKeycode(s: string): Option<Code> {
    if |s| == 1 && s[0] as int < 128 then Some(Char(s[0]))
    else
      var n := if s != "" && (s[0] == 'F' || s[0] == 'f') then ParseU8(s[1..]) else None;
      if n.Some? then Some(F(n.value)) else NamedKey(Lower(s))
  }

  function ImpliedShift(code: Code, m: Mods): Mods {
    if code.Char? && IsUpper(code.c) then m.(shift := true) else m
  }

  function FromWire(s: string): Result<KeySpec, WireError> {
    var parts := Split(s, '+');
    var m := Modifiers(parts[..|parts| - 1]);
    if m.Err? then Err(m.error)
    else
      var last := parts[|parts| - 1];
      var code := ParseKeycode(last);
      if code.None? then Err(UnknownKey(last)) else Ok(KeySpec(code.value, ImpliedShift(code.value, m.value)))
  }

  lemma {:induction false} FirstBadModifierWins(parts: seq<string>, n: nat)
    requires n <= |parts| && Modifiers(parts[..n]).Err?
    ensures Modifiers(parts) == Modifiers(parts[..n])
    decreases |parts|
  {
    if n == |parts| {
      assert parts[..n] == parts;
    } else {
      assert parts[..|parts| - 1][..n] == parts[..n];
      FirstBadModifierWins(parts[..|parts| - 1], n);
    }
  }

  method KeyspecFromWire(s: string) returns (r: Result<KeySpec, WireError>)
    ensures r == FromWire(s)
  {
    hide AddModifier, ParseKeycode;
    var modifiers := NONE;
    var rawParts := Split(s, '+');
    var modParts, codePart := rawParts[..|rawParts| - 1], rawParts[|rawParts| - 1];
    for i := 0 to |modParts|
      invariant Modifiers(modParts[..i]) == Ok(modifiers)
    {
      assert modParts[..i + 1][..i] == modParts[..i];
      var next := AddModifier(modifiers, modParts[i]);
      if next.Err? {
        FirstBadModifierWins(modParts, i + 1);
        return Err(next.error);
      }
      modifiers := next.value;
    }
    assert modParts[..|modParts|] == modParts;
    var code := ParseKeycode(codePart);
    if code.None? {
      return Err(UnknownKey(codePart));
    }
    if code.value.Char? && IsUpper(code.value.c) {
      modifiers := modifiers.(shift := true);
    }
    r := Ok(KeySpec(code.value, modifiers));
  }

  // ---------------------------------------------------------------- round trips

  /** The key specs the wire format can carry. */
  predicate Printable(k: KeySpec) {
    && k.mods.other == 0
    && !k.code.Other?
    && (k.code.Char? ==> k.code.c != '+' && k.code.c as int < 128 && (IsUpper(k.code.c) ==> k.mods.shift))
  }

  lemma {:induction false} ModifiersAreNamed(parts: seq<string>)
    requires Modifiers(parts).Ok?
    ensures Modifiers(parts).value.other == 0
    decreases |parts|
  {
    if parts != [] {
      ModifiersAreNamed(parts[..|parts| - 1]);
      hide Lower;
    }
  }

  /** Everything that parses can be printed. */
  lemma ParsedIsPrintable(s: string)
    requires FromWire(s).Ok?
    ensures Printable(FromWire(s).value)
  {
    hide Lower, NamedKey, Split;
    var parts := Split(s, '+');
    JoinSplit(s, '+');
    ModifiersAreNamed(parts[..|parts| - 1]);
    assert parts[|parts| - 1] in parts;
    NamedKeyIsPlain(Lower(parts[|parts| - 1]));
  }

  lemma NamedKeyIsPlain(lower: string)
    ensures NamedKey(lower).Some? ==>
              var code := NamedKey(lower).value; !code.Other? && !code.F? && (code.Char? ==> code.c == ' ')
  {
  }

  lemma ParseOfCodeName(code: Code)
    requires !code.Other? && (code.Char? ==> code.c as int < 128)
    ensures ParseKeycode(CodeName(code)) == Some(code)
  {
    if code.F? {
      var s := CodeName(code);
      assert s[1..] == ToDec(code.n);
      ValueOfDec(code.n);
      assert ToDec(code.n)[0] in ToDec(code.n);
    } else if !code.Char? || code.c == ' ' {
      NamedCodesReadBack(code);
    }
  }

  lemma NamedCodesReadBack(code: Code)
    requires !code.Other? && !code.F? && (code.Char? ==> code.c == ' ')
    ensures var s := CodeName(code); |s| > 1 && s[0] != 'F' && s[0] != 'f' && NamedKey(Lower(s)) == Some(code)
  {
    LowerNames1();
    LowerNames2();
    LowerNames3();
    NamedKeys1();
    NamedKeys2();
    NamedKeys3();
    hide Lower, NamedKey;
  }

  lemma LowerNames1()
    ensures Lower("Space") == "space"
    ensures Lower("Enter") == "enter"
    ensures Lower("Esc") == "esc"
    ensures Lower("Tab") == "tab"
    ensures Lower("BackTab") == "backtab"
    ensures Lower("Backspace") == "backspace"
  {
  }

  lemma LowerNames2()
    ensures Lower("Up") == "up"
    ensures Lower("Down") == "down"
    ensures Lower("Left") == "left"
    ensures Lower("Right") == "right"
    ensures Lower("Home") == "home"
  {
  }

  lemma LowerNames3()
    ensures Lower("End") == "end"
    ensures Lower("PageUp") == "pageup"
    ensures Lower("PageDown") == "pagedown"
    ensures Lower("Delete") == "delete"
    ensures Lower("Insert") == "insert"
  {
  }

  lemma NamedKeys1()
    ensures NamedKey("space") == Some(Char(' '))
    ensures NamedKey("enter") == Some(Enter)
    ensures NamedKey("esc") == Some(Esc)
    ensures NamedKey("tab") == Some(Tab)
    ensures NamedKey("backtab") == Some(BackTab)
    ensures NamedKey("backspace") == Some(Backspace)
  {
  }

  lemma NamedKeys2()
    ensures NamedKey("up") == Some(Up)
    ensures NamedKey("down") == Some(Down)
    ensures NamedKey("left") == Some(Left)
    ensures NamedKey("right") == Some(Right)
    ensures NamedKey("home") == Some(Home)
  {
  }

  lemma NamedKeys3()
    ensures NamedKey("end") == Some(End)
    ensures NamedKey("pageup") == Some(PageUp)
    ensures NamedKey("pagedown") == Some(PageDown)
    ensures NamedKey("delete") == Some(Delete)
    ensures NamedKey("insert") == Some(Insert)
  {
  }

  /** The other spellings the parser takes. */
  lemma KeyAliases()
    ensures NamedKey("return") == Some(Enter)
    ensures NamedKey("escape") == Some(Esc)
    ensures NamedKey("pgup") == Some(PageUp) && NamedKey("pgdn") == Some(PageDown)
  {
  }

  lemma ShortAliases()
    ensures NamedKey("del") == Some(Delete) && NamedKey("ins") == Some(Insert)
  {
  }

  /** Modifier names in any case, with their aliases. */
  lemma ModifierAliases(m: Mods, part: string)
    ensures Lower(part) == "ctrl" || Lower(part) == "control" ==> AddModifier(m, part) == Ok(m.(ctrl := true))
    ensures Lower(part) == "alt" || Lower(part) == "meta" ==> AddModifier(m, part) == Ok(m.(alt := true))
    ensures Lower(part) == "shift" ==> AddModifier(m, part) == Ok(m.(shift := true))
    ensures part == "" ==> AddModifier(m, part) == Err(EmptyModifier)
    ensures AddModifier(m, part).Ok? ==> Lower(part) in {"ctrl", "control", "alt", "meta", "shift"}
  {
  }

  /** One ASCII character is itself, and an upper-case letter brings its Shift along. */
  lemma LetterParses(c: char)
    requires c as int < 128 && c != '+'
    ensures FromWire([c]) == Ok(KeySpec(Char(c), Mods(false, false, 'A' <= c <= 'Z', 0)))
  {
    FreeIndex([c], '+');
    assert Split([c], '+') == [[c]];
    assert [[c]][..0] == [];
  }

  /** Which numbers are read: up to 255, with a plus or leading zeros if one likes, and never nothing. */
  lemma NumbersRead(n: nat)
    ensures ParseU8(ToDec(n)) == (if n <= 255 then Some(n) else None)
    ensures ParseU8("+" + ToDec(n)) == ParseU8(ToDec(n)) && ParseU8("0" + ToDec(n)) == ParseU8(ToDec(n))
    ensures ParseU8("") == None && ParseU8("+") == None
  {
    ValueOfDec(n);
    LeadingZero(ToDec(n));
    assert ("+" + ToDec(n))[1..] == ToDec(n);
    assert ToDec(n)[0] in ToDec(n);
  }

  /** Function keys in either case of the letter. */
  lemma FunctionKeyParses(n: u8)
    ensures ParseKeycode("F" + ToDec(n)) == Some(F(n)) && ParseKeycode("f" + ToDec(n)) == Some(F(n))
  {
    ValueOfDec(n);
    assert ("F" + ToDec(n))[1..] == ToDec(n) && ("f" + ToDec(n))[1..] == ToDec(n);
    assert ToDec(n)[0] in ToDec(n);
  }

  /** The printed form, spelled out. */
  lemma WireSpelled(k: KeySpec)
    ensures ToWire(k) == (if k.mods.ctrl then "Ctrl+" else "") + (if k.mods.alt then "Alt+" else "")
                         + (if k.mods.shift then "Shift+" else "") + CodeName(k.code)
  {
    hide CodeName, ModNames, Join;
    var m := k.mods;
    JoinedModifiers(m);
    var front := (if m.ctrl then "Ctrl+" else "") + (if m.alt then "Alt+" else "") + (if m.shift then "Shift+" else "");
    if Join(ModNames(m), '+') == "" {
      assert front == "";
      assert front + CodeName(k.code) == CodeName(k.code);
    } else {
      assert front == Join(ModNames(m), '+') + "+";
    }
  }

  lemma JoinedModifiers(m: Mods)
    ensures var parts := Join(ModNames(m), '+');
            (if parts == "" then "" else parts + "+")
            == (if m.ctrl then "Ctrl+" else "") + (if m.alt then "Alt+" else "") + (if m.shift then "Shift+" else "")
  {
    if m.ctrl && m.alt && m.shift {
      JoinedPair("Ctrl", ["Alt", "Shift"]);
      JoinedPair("Alt", ["Shift"]);
      assert ModNames(m) == ["Ctrl"] + ["Alt", "Shift"] && ["Alt", "Shift"] == ["Alt"] + ["Shift"];
    } else if m.ctrl && m.alt {
      JoinedPair("Ctrl", ["Alt"]);
      assert ModNames(m) == ["Ctrl"] + ["Alt"];
    } else if m.ctrl && m.shift {
      JoinedPair("Ctrl", ["Shift"]);
      assert ModNames(m) == ["Ctrl"] + ["Shift"];
    } else if m.alt && m.shift {
      JoinedPair("Alt", ["Shift"]);
      assert ModNames(m) == ["Alt"] + ["Shift"];
    }
  }

  lemma JoinedPair(first: string, rest: seq<string>)
    requires rest != []
    ensures Join([first] + rest, '+') == first + "+" + Join(rest, '+')
  {
    assert ([first] + rest)[1..] == rest;
  }

  lemma KeyNamesSpelled(c: char, n: u8)
    ensures CodeName(Char(' ')) == "Space" && (c != ' ' ==> CodeName(Char(c)) == [c])
    ensures CodeName(F(n)) == "F" + ToDec(n)
    ensures CodeName(Enter) == "Enter" && CodeName(Esc) == "Esc" && CodeName(Tab) == "Tab"
    ensures CodeName(BackTab) == "BackTab" && CodeName(Backspace) == "Backspace"
  {
  }

  lemma MoveNamesSpelled()
    ensures CodeName(Up) == "Up" && CodeName(Down) == "Down" && CodeName(Left) == "Left" && CodeName(Right) == "Right"
    ensures CodeName(Home) == "Home" && CodeName(End) == "End"
    ensures CodeName(PageUp) == "PageUp" && CodeName(PageDown) == "PageDown"
    ensures CodeName(Delete) == "Delete" && CodeName(Insert) == "Insert"
  {
  }

  lemma ModifierNames(m: Mods)
    ensures AddModifier(m, "Ctrl") == Ok(m.(ctrl := true))
    ensures AddModifier(m, "Alt") == Ok(m.(alt := true))
    ensures AddModifier(m, "Shift") == Ok(m.(shift := true))
  {
    assert Lower("Ctrl") == "ctrl" && Lower("Alt") == "alt" && Lower("Shift") == "shift";
  }

  lemma ModNamesReadBack(m: Mods)
    ensures Modifiers(ModNames(m)) == Ok(m.(other := 0))
  {
    hide AddModifier;
    var a := if m.ctrl then ["Ctrl"] else [];
    var b := a + if m.alt then ["Alt"] else [];
    ModifierNames(NONE);
    ModifiersStep([], "Ctrl");
    assert [] + ["Ctrl"] == ["Ctrl"];
    ModifierNames(Modifiers(a).value);
    ModifiersStep(a, "Alt");
    assert m.alt || b == a;
    ModifierNames(Modifiers(b).value);
    ModifiersStep(b, "Shift");
    assert ModNames(m) == b + if m.shift then ["Shift"] else [];
    assert m.shift || ModNames(m) == b;
  }

  lemma ModifiersStep(parts: seq<string>, p: string)
    requires Modifiers(parts).Ok?
    ensures Modifiers(parts + [p]) == AddModifier(Modifiers(parts).value, p)
  {
    assert (parts + [p])[..|parts|] == parts;
  }

  lemma WireIsJoin(k: KeySpec)
    ensures ToWire(k) == Join(ModNames(k.mods) + [CodeName(k.code)], '+')
  {
    var names := ModNames(k.mods);
    if names != [] {
      JoinAppend(names, [CodeName(k.code)], '+');
      assert names[0] != "" && Join(names, '+') != "";
    } else {
      assert names + [CodeName(k.code)] == [CodeName(k.code)];
    }
  }

  lemma PartsArePlusFree(k: KeySpec)
    requires !k.code.Other? && (k.code.Char? ==> k.code.c != '+')
    ensures AllFree(ModNames(k.mods) + [CodeName(k.code)], '+')
  {
    CodeNameIsPlusFree(k.code);
    hide CodeName;
    assert Free("Ctrl", '+') && Free("Alt", '+') && Free("Shift", '+');
  }

  lemma CodeNameIsPlusFree(code: Code)
    requires !code.Other? && (code.Char? ==> code.c != '+')
    ensures Free(CodeName(code), '+')
  {
  }

  /**
   Which key specs survive being saved and loaded: printing then parsing gives the spec back
   if and only if it uses named modifiers only, has a wire name, is not the plus key or a
   non-ASCII character, and carries Shift when it is an upper-case letter.
   */
  lemma RoundTripExactly(k: KeySpec)
    ensures FromWire(ToWire(k)) == Ok(k) <==> Printable(k)
  {
    if FromWire(ToWire(k)) == Ok(k) {
      ParsedIsPrintable(ToWire(k));
    }
    if Printable(k) {
      var parts := ModNames(k.mods) + [CodeName(k.code)];
      WireIsJoin(k);
      PartsArePlusFree(k);
      SplitJoin(parts, '+');
      ModNamesReadBack(k.mods);
      ParseOfCodeName(k.code);
      hide ModNames, CodeName, ParseKeycode, Split, Modifiers, Join, ToWire;
      assert parts[..|parts| - 1] == ModNames(k.mods);
    }
  }

  /** A binding that loads keeps its meaning when it is saved and loaded again, however it was spelled. */
  lemma ReloadIsStable(s: string)
    requires FromWire(s).Ok?
    ensures FromWire(ToWire(FromWire(s).value)) == FromWire(s)
  {
    ParsedIsPrintable(s);
    RoundTripExactly(FromWire(s).value);
  }

  // ---------------------------------------------------------------- matching events

  /** Shift is implied by an upper-case letter. */
  function EffectiveMods(k: KeySpec): Mods {
    if k.code.Char? && IsUpper(k.code.c) then k.mods.(shift := false) else k.mods
  }

  predicate Matches(k: KeySpec, ev: KeySpec) {
    if EffectiveMods(k) != EffectiveMods(ev) then false
    else if k.code.Char? && ev.code.Char? then
      if k.mods.ctrl then LowerChar(k.code.c) == LowerChar(ev.code.c) else k.code.c == ev.code.c
    else k.code == ev.code
  }

  /** What a binding stands for: effective modifiers, and the letter without its case under Ctrl. */
  function Meaning(k: KeySpec): (Code, Mods) {
    (if k.code.Char? && k.mods.ctrl then Char(LowerChar(k.code.c)) else k.code, EffectiveMods(k))
  }

  /**
   When a binding accepts an event: Control, Alt and the nameless bits agree; Shift agrees, where
   an upper-case letter does not need it; and the codes agree, letters in either case under Control.
   */
  lemma MatchesInPlain(k: KeySpec, ev: KeySpec)
    ensures Matches(k, ev) <==>
            var upper := k.code.Char? && 'A' <= k.code.c <= 'Z';
            var upperEv := ev.code.Char? && 'A' <= ev.code.c <= 'Z';
            && k.mods.ctrl == ev.mods.ctrl && k.mods.alt == ev.mods.alt && k.mods.other == ev.mods.other
            && ((k.mods.shift && !upper) == (ev.mods.shift && !upperEv))
            && (k.code == ev.code || (k.mods.ctrl && k.code.Char? && ev.code.Char? && SameLetter(k.code.c, ev.code.c)))
  {
  }

  /** Matching is equality of meanings, so it is an equivalence relation on key and modifier pairs. */
  lemma MatchesIsSameMeaning(k: KeySpec, ev: KeySpec)
    ensures Matches(k, ev) <==> Meaning(k) == Meaning(ev)
  {
    assert EffectiveMods(k).ctrl == k.mods.ctrl && EffectiveMods(ev).ctrl == ev.mods.ctrl;
  }

  lemma MatchesIsEquivalence(a: KeySpec, b: KeySpec, c: KeySpec)
    ensures Matches(a, a)
    ensures Matches(a, b) <==> Matches(b, a)
    ensures Matches(a, b) && Matches(b, c) ==> Matches(a, c)
  {
    MatchesIsSameMeaning(a, b);
    MatchesIsSameMeaning(b, a);
    MatchesIsSameMeaning(b, c);
    MatchesIsSameMeaning(a, c);
  }

  /** Which events a saved and reloaded binding accepts: the same ones, if it can be saved at all. */
  lemma ReloadedBindingAcceptsTheSame(k: KeySpec, ev: KeySpec)
    requires Printable(k)
    ensures FromWire(ToWire(k)).Ok? && (Matches(FromWire(ToWire(k)).value, ev) <==> Matches(k, ev))
  {
    RoundTripExactly(k);
  }
}
