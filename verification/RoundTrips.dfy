/** Printing then parsing gives back every valid key, stroke, chord and scope. */
module RoundTrips {
  import opened Seqs
  import opened Input
  import opened InputText
  import S = Strings

  // ---- Keys ----

  lemma SpelledKey(name: string, lower: string, key: Key)
    requires NamedKey(lower) == Some(key) && |name| == |lower| > 1 && forall i | 0 <= i < |name| :: lower[i] == S.Lower(name[i])
    ensures ParseKey(name) == Ok(key)
  {
    hide NamedKey;
    assert S.ToLower(name) == lower;
  }

  lemma EditingNames()
    ensures NamedKey("space") == Some(Space)
    ensures NamedKey("enter") == Some(Enter)
    ensures NamedKey("escape") == Some(Escape)
    ensures NamedKey("tab") == Some(Tab)
    ensures NamedKey("backspace") == Some(Backspace)
    ensures NamedKey("delete") == Some(Delete)
    ensures NamedKey("insert") == Some(Insert)
  {
  }

  lemma MovementNames()
    ensures NamedKey("home") == Some(Home)
    ensures NamedKey("end") == Some(End)
    ensures NamedKey("pageup") == Some(PageUp)
    ensures NamedKey("pagedown") == Some(PageDown)
  {
  }

  lemma ArrowNames()
    ensures NamedKey("arrowup") == Some(ArrowUp)
    ensures NamedKey("arrowdown") == Some(ArrowDown)
    ensures NamedKey("arrowleft") == Some(ArrowLeft)
    ensures NamedKey("arrowright") == Some(ArrowRight)
  {
  }

  lemma MinusNames()
    ensures NamedKey("minus") == Some(Minus)
    ensures NamedKey("equal") == Some(Equal)
  {
  }

  lemma CommaName()
    ensures NamedKey("comma") == Some(Comma)
  {
  }

  lemma PeriodName()
    ensures NamedKey("period") == Some(Period)
  {
  }

  lemma SlashName()
    ensures NamedKey("slash") == Some(Slash)
  {
  }

  lemma BackslashName()
    ensures NamedKey("backslash") == Some(Backslash)
  {
  }

  lemma SemicolonName()
    ensures NamedKey("semicolon") == Some(Semicolon)
  {
  }

  lemma QuoteName()
    ensures NamedKey("quote") == Some(Quote)
  {
  }

  lemma BracketLeftName()
    ensures NamedKey("bracketleft") == Some(BracketLeft)
  {
  }

  lemma BracketRightName()
    ensures NamedKey("bracketright") == Some(BracketRight)
  {
  }

  lemma BackquoteName()
    ensures NamedKey("backquote") == Some(Backquote)
  {
  }

  lemma EditingKeys(key: Key)
    requires key.Space? || key.Enter? || key.Escape? || key.Tab? || key.Backspace? || key.Delete? || key.Insert?
    ensures ParseKey(PrintKey(key)) == Ok(key)
  {
    hide NamedKey, ParseKey;
    EditingNames();
    match key
    case Space => SpelledKey("Space", "space", key);
    case Enter => SpelledKey("Enter", "enter", key);
    case Escape => SpelledKey("Escape", "escape", key);
    case Tab => SpelledKey("Tab", "tab", key);
    case Backspace => SpelledKey("Backspace", "backspace", key);
    case Delete => SpelledKey("Delete", "delete", key);
    case Insert => SpelledKey("Insert", "insert", key);
  }

  lemma MovementKeys(key: Key)
    requires key.Home? || key.End? || key.PageUp? || key.PageDown?
    ensures ParseKey(PrintKey(key)) == Ok(key)
  {
    hide NamedKey, ParseKey;
    MovementNames();
    match key
    case Home => SpelledKey("Home", "home", key);
    case End => SpelledKey("End", "end", key);
    case PageUp => SpelledKey("PageUp", "pageup", key);
    case PageDown => SpelledKey("PageDown", "pagedown", key);
  }

  lemma ArrowKeys(key: Key)
    requires key.ArrowUp? || key.ArrowDown? || key.ArrowLeft? || key.ArrowRight?
    ensures ParseKey(PrintKey(key)) == Ok(key)
  {
    hide NamedKey, ParseKey;
    ArrowNames();
    match key
    case ArrowUp => SpelledKey("ArrowUp", "arrowup", key);
    case ArrowDown => SpelledKey("ArrowDown", "arrowdown", key);
    case ArrowLeft => SpelledKey("ArrowLeft", "arrowleft", key);
    case ArrowRight => SpelledKey("ArrowRight", "arrowright", key);
  }

  lemma SymbolKeys(key: Key)
    requires key.Minus? || key.Equal? || key.Comma? || key.Period? || key.Slash?
    ensures ParseKey(PrintKey(key)) == Ok(key)
  {
    hide NamedKey, ParseKey;
    MinusNames();
    match key
    case Minus => SpelledKey("Minus", "minus", key);
    case Equal => SpelledKey("Equal", "equal", key);
    case Comma =>
      CommaName();
      SpelledKey("Comma", "comma", key);
    case Period =>
      PeriodName();
      SpelledKey("Period", "period", key);
    case Slash =>
      SlashName();
      SpelledKey("Slash", "slash", key);
  }

  lemma MarkKeys(key: Key)
    requires key.Backslash? || key.Semicolon? || key.Quote?
    ensures ParseKey(PrintKey(key)) == Ok(key)
  {
    hide NamedKey, ParseKey;
    match key
    case Backslash =>
      BackslashName();
      SpelledKey("Backslash", "backslash", key);
    case Semicolon =>
      SemicolonName();
      SpelledKey("Semicolon", "semicolon", key);
    case Quote =>
      QuoteName();
      SpelledKey("Quote", "quote", key);
  }

  lemma BracketKeys(key: Key)
    requires key.BracketLeft? || key.BracketRight? || key.Backquote?
    ensures ParseKey(PrintKey(key)) == Ok(key)
  {
    hide NamedKey, ParseKey;
    match key
    case BracketLeft =>
      BracketLeftName();
      SpelledKey("BracketLeft", "bracketleft", key);
    case BracketRight =>
      BracketRightName();
      SpelledKey("BracketRight", "bracketright", key);
    case Backquote =>
      BackquoteName();
      SpelledKey("Backquote", "backquote", key);
  }

  lemma NoNameStartsWithF(lower: string)
    requires lower != [] && lower[0] == 'f'
    ensures NamedKey(lower) == None
  {
  }

  lemma FunctionKeys(number: nat)
    requires 1 <= number <= 24
    ensures ParseKey(PrintKey(Function(number))) == Ok(Function(number))
  {
    hide NamedKey, S.Decimal, S.Digits;
    var digits := S.Digits(number);
    var lower := S.ToLower("F" + digits);
    assert lower[1..] == digits by { assert forall i | 0 <= i < |digits| :: IsDigit(digits[i]); }
    NoNameStartsWithF(lower);
    S.DecimalOfDigits(number);
  }

  lemma KeyRoundTrip(key: Key)
    requires ValidKey(key)
    ensures ParseKey(PrintKey(key)) == Ok(key)
  {
    hide ParseKey, PrintKey;
    match key
    case Character(c) => CharacterKeys(c);
    case Function(number) => FunctionKeys(number);
    case Space => EditingKeys(key);
    case Enter => EditingKeys(key);
    case Escape => EditingKeys(key);
    case Tab => EditingKeys(key);
    case Backspace => EditingKeys(key);
    case Delete => EditingKeys(key);
    case Insert => EditingKeys(key);
    case Home => MovementKeys(key);
    case End => MovementKeys(key);
    case PageUp => MovementKeys(key);
    case PageDown => MovementKeys(key);
    case ArrowUp => ArrowKeys(key);
    case ArrowDown => ArrowKeys(key);
    case ArrowLeft => ArrowKeys(key);
    case ArrowRight => ArrowKeys(key);
    case Minus => SymbolKeys(key);
    case Equal => SymbolKeys(key);
    case Comma => SymbolKeys(key);
    case Period => SymbolKeys(key);
    case Slash => SymbolKeys(key);
    case Backslash => MarkKeys(key);
    case Semicolon => MarkKeys(key);
    case Quote => MarkKeys(key);
    case BracketLeft => BracketKeys(key);
    case BracketRight => BracketKeys(key);
    case Backquote => BracketKeys(key);
  }

  lemma CharacterKeys(c: char)
    requires IsUpper(c) || IsDigit(c)
    ensures ParseKey(PrintKey(Character(c))) == Ok(Character(c))
  {
    hide NamedKey;
  }

  /** Whatever parses as a key is a valid one. */
  lemma ParsedKeyIsValid(source: string)
    ensures ParseKey(source).Ok? ==> ValidKey(ParseKey(source).value)
  {
    NamedIsValid(S.ToLower(source));
    hide NamedKey;
  }

  lemma NamedIsValid(lower: string)
    ensures NamedKey(lower).Some? ==> ValidKey(NamedKey(lower).value)
  {
  }

  /** Letter case never matters in a key name. */
  lemma KeyCaseInsensitive(a: string, b: string)
    requires S.ToLower(a) == S.ToLower(b)
    ensures ParseKey(a) == ParseKey(b)
  {
    hide NamedKey;
    assert |a| == |S.ToLower(a)| == |S.ToLower(b)| == |b|;
    if |a| == 1 { assert S.Lower(a[0]) == S.ToLower(a)[0] == S.ToLower(b)[0] == S.Lower(b[0]); }
  }

  // ---- Aliases ----

  /** The other names of keys. */
  const ALIASES: seq<(string, Key)> := [("return", Enter), ("esc", Escape), ("del", Delete), ("ins", Insert),
    ("up", ArrowUp), ("down", ArrowDown), ("left", ArrowLeft), ("right", ArrowRight), ("equals", Equal)]

  lemma ReturnAlias()
    ensures NamedKey("return") == Some(Enter)
  {
  }

  lemma EscAlias()
    ensures NamedKey("esc") == Some(Escape)
  {
  }

  lemma DelAlias()
    ensures NamedKey("del") == Some(Delete)
  {
  }

  lemma InsAlias()
    ensures NamedKey("ins") == Some(Insert)
  {
  }

  lemma UpAlias()
    ensures NamedKey("up") == Some(ArrowUp)
  {
  }

  lemma DownAlias()
    ensures NamedKey("down") == Some(ArrowDown)
  {
  }

  lemma LeftAlias()
    ensures NamedKey("left") == Some(ArrowLeft)
  {
  }

  lemma RightAlias()
    ensures NamedKey("right") == Some(ArrowRight)
  {
  }

  lemma EqualsAlias()
    ensures NamedKey("equals") == Some(Equal)
  {
  }

  /** Each alias, in any letter case, parses as the printed name of its key does. */
  lemma AliasParses(i: nat, spelling: string)
    requires i < |ALIASES| && S.ToLower(spelling) == ALIASES[i].0
    ensures ParseKey(spelling) == Ok(ALIASES[i].1) == ParseKey(PrintKey(ALIASES[i].1))
  {
    hide NamedKey, PrintKey;
    ReturnAlias();
    EscAlias();
    DelAlias();
    InsAlias();
    UpAlias();
    DownAlias();
    LeftAlias();
    RightAlias();
    EqualsAlias();
    assert |spelling| == |ALIASES[i].0| > 1;
    KeyRoundTrip(ALIASES[i].1);
  }

  /** The other names of modifiers. */
  const MODIFIER_ALIASES: seq<(string, Flag)> := [("control", ControlFlag), ("option", AltFlag),
    ("cmd", SuperFlag), ("command", SuperFlag), ("meta", SuperFlag)]

  lemma ModifierAlias(i: nat, spelling: string)
    requires i < |MODIFIER_ALIASES| && S.ToLower(spelling) == MODIFIER_ALIASES[i].0
    ensures FlagOf(spelling) == Some(MODIFIER_ALIASES[i].1)
  {
  }

  // ---- Words ----

  predicate Word(s: string) { s != [] && forall i | 0 <= i < |s| :: IsAlphanumeric(s[i]) }

  lemma EditingWords(key: Key)
    requires key.Space? || key.Enter? || key.Escape? || key.Tab? || key.Backspace? || key.Delete? || key.Insert?
    ensures Word(PrintKey(key))
  {
  }

  lemma MovementWords(key: Key)
    requires key.Home? || key.End? || key.PageUp? || key.PageDown?
      || key.ArrowUp? || key.ArrowDown? || key.ArrowLeft? || key.ArrowRight?
    ensures Word(PrintKey(key))
  {
  }

  lemma SymbolWords(key: Key)
    requires key.Minus? || key.Equal? || key.Comma? || key.Period? || key.Slash? || key.Backslash?
    ensures Word(PrintKey(key))
  {
  }

  lemma BracketWords(key: Key)
    requires key.Semicolon? || key.Quote? || key.BracketLeft? || key.BracketRight? || key.Backquote?
    ensures Word(PrintKey(key))
  {
  }

  lemma FunctionWord(number: nat)
    ensures Word(PrintKey(Function(number)))
  {
    hide S.Digits;
    var digits := S.Digits(number);
    assert forall i | 0 <= i < |digits| :: IsDigit(digits[i]);
  }

  lemma CharacterWord(c: char)
    requires IsUpper(c) || IsDigit(c)
    ensures Word(PrintKey(Character(c)))
  {
  }

  lemma KeyIsWord(key: Key)
    requires ValidKey(key)
    ensures Word(PrintKey(key))
  {
    hide PrintKey, Word;
    match key
    case Character(c) => CharacterWord(c);
    case Function(number) => FunctionWord(number);
    case Space | Enter | Escape | Tab | Backspace | Delete | Insert => EditingWords(key);
    case Home | End | PageUp | PageDown | ArrowUp | ArrowDown | ArrowLeft | ArrowRight => MovementWords(key);
    case Minus | Equal | Comma | Period | Slash | Backslash => SymbolWords(key);
    case Semicolon | Quote | BracketLeft | BracketRight | Backquote => BracketWords(key);
  }

  lemma WordIsPlain(s: string)
    requires Word(s)
    ensures '+' !in s && ',' !in s && S.Tight(s)
  {
  }

  // ---- Strokes ----

  lemma ModifiersAreWords(m: Modifiers)
    ensures forall i | 0 <= i < |ModifierNames(m)| :: Word(ModifierNames(m)[i])
  {
  }

  lemma {:induction false} SplitWords(names: seq<string>, key: string)
    requires Word(key) && forall i | 0 <= i < |names| :: Word(names[i])
    ensures S.Split(Prefixes(names) + key, '+') == names + [key]
  {
    hide S.Split;
    if names == [] {
      WordIsPlain(key);
      S.SplitWhole(key, '+');
      assert Prefixes([]) + key == key;
    } else {
      var rest := Prefixes(names[1..]) + key;
      WordIsPlain(names[0]);
      SplitWords(names[1..], key);
      S.SplitFirst(names[0], '+', rest);
      assert Prefixes(names) + key == names[0] + ['+'] + rest;
      assert [names[0]] + (names[1..] + [key]) == names + [key];
    }
  }

  lemma TrimmedWords(words: seq<string>)
    requires forall i | 0 <= i < |words| :: Word(words[i])
    ensures Trimmed(words) == words
  {
    hide S.Trim;
    forall i | 0 <= i < |words| ensures S.Trim(words[i]) == words[i] {
      WordIsPlain(words[i]);
      S.TrimTight(words[i]);
    }
  }

  lemma {:induction false} AddModifiersConcat(m: Modifiers, a: seq<string>, b: seq<string>)
    requires AddModifiers(m, a).Ok?
    ensures AddModifiers(m, a + b) == AddModifiers(AddModifiers(m, a).value, b)
    decreases |a|
  {
    hide AddModifier;
    if a == [] {
      assert a + b == b;
    } else {
      assert (a + b)[1..] == a[1..] + b;
      AddModifiersConcat(AddModifier(m, a[0]).value, a[1..], b);
    }
  }

  /** Every name denotes a flag that is not yet set, and no two the same one. */
  ghost predicate Acceptable(m: Modifiers, names: seq<string>) {
    && (forall i | 0 <= i < |names| :: FlagOf(names[i]).Some? && !Has(m, FlagOf(names[i]).value))
    && forall i, j | 0 <= i < j < |names| :: FlagOf(names[i]) != FlagOf(names[j])
  }

  ghost predicate Names(names: seq<string>, flag: Flag) { exists i :: 0 <= i < |names| && FlagOf(names[i]) == Some(flag) }

  lemma NamesCons(name: string, rest: seq<string>, flag: Flag)
    ensures Names([name] + rest, flag) <==> FlagOf(name) == Some(flag) || Names(rest, flag)
  {
    hide FlagOf;
    var names := [name] + rest;
    if Names(rest, flag) {
      var i :| 0 <= i < |rest| && FlagOf(rest[i]) == Some(flag);
      assert names[i + 1] == rest[i];
    }
    if FlagOf(name) == Some(flag) { assert names[0] == name; }
    if Names(names, flag) {
      var i :| 0 <= i < |names| && FlagOf(names[i]) == Some(flag);
      if i > 0 { assert rest[i - 1] == names[i]; }
    }
  }

  lemma WithHas(m: Modifiers, flag: Flag, other: Flag)
    ensures Has(With(m, flag), other) <==> Has(m, other) || other == flag
  {
  }

  /** The name is known and new, and clashes with none of the rest. */
  ghost predicate Fresh(m: Modifiers, name: string, rest: seq<string>) {
    && FlagOf(name).Some? && !Has(m, FlagOf(name).value)
    && forall i | 0 <= i < |rest| :: FlagOf(rest[i]) != FlagOf(name)
  }

  lemma AcceptableSplit(m: Modifiers, name: string, rest: seq<string>)
    ensures Acceptable(m, [name] + rest) <==> Fresh(m, name, rest) && Acceptable(m, rest)
  {
    hide FlagOf, Has;
    var names := [name] + rest;
    assert names[0] == name && forall i | 0 <= i < |rest| :: names[i + 1] == rest[i];
    if Acceptable(m, names) {
      forall i, j | 0 <= i < j < |rest| ensures FlagOf(rest[i]) != FlagOf(rest[j]) {
        assert names[i + 1] == rest[i] && names[j + 1] == rest[j];
      }
      forall i | 0 <= i < |rest| ensures FlagOf(rest[i]).Some? && !Has(m, FlagOf(rest[i]).value) && FlagOf(rest[i]) != FlagOf(name) {
        assert names[i + 1] == rest[i];
      }
    }
    if Fresh(m, name, rest) && Acceptable(m, rest) {
      forall i, j | 0 <= i < j < |names| ensures FlagOf(names[i]) != FlagOf(names[j]) {
        assert names[j] == rest[j - 1];
        if i > 0 { assert names[i] == rest[i - 1]; }
      }
      forall i | 0 <= i < |names| ensures FlagOf(names[i]).Some? && !Has(m, FlagOf(names[i]).value) {
        if i > 0 { assert names[i] == rest[i - 1]; }
      }
    }
  }

  lemma AcceptableWith(m: Modifiers, flag: Flag, rest: seq<string>)
    ensures Acceptable(With(m, flag), rest) <==> Acceptable(m, rest) && forall i | 0 <= i < |rest| :: FlagOf(rest[i]) != Some(flag)
  {
    hide FlagOf, Has, With;
    forall other ensures Has(With(m, flag), other) <==> Has(m, other) || other == flag { WithHas(m, flag, other); }
  }

  lemma AcceptableCons(m: Modifiers, name: string, rest: seq<string>)
    ensures Acceptable(m, [name] + rest) <==>
      FlagOf(name).Some? && !Has(m, FlagOf(name).value) && Acceptable(With(m, FlagOf(name).value), rest)
  {
    hide FlagOf, Has, With, Acceptable;
    AcceptableSplit(m, name, rest);
    if FlagOf(name).Some? { AcceptableWith(m, FlagOf(name).value, rest); }
  }

  /** Modifier names are accepted iff each is known and no two denote the same flag, in any order and spelling; then
      exactly the denoted flags are set. */
  lemma {:induction false} ModifiersAcceptedExactly(m: Modifiers, names: seq<string>)
    ensures AddModifiers(m, names).Ok? <==> Acceptable(m, names)
    ensures AddModifiers(m, names).Ok? ==>
      forall flag :: Has(AddModifiers(m, names).value, flag) <==> Has(m, flag) || Names(names, flag)
    decreases |names|
  {
    hide FlagOf, Has, With, Acceptable, Names;
    if names == [] {
      NoNames(m);
    } else {
      var name, rest := names[0], names[1..];
      assert names == [name] + rest;
      AcceptableCons(m, name, rest);
      if FlagOf(name).Some? && !Has(m, FlagOf(name).value) {
        ModifiersAcceptedExactly(With(m, FlagOf(name).value), rest);
        forall flag
          ensures Has(With(m, FlagOf(name).value), flag) || Names(rest, flag) <==> Has(m, flag) || Names(names, flag)
        {
          WithHas(m, FlagOf(name).value, flag);
          NamesCons(name, rest, flag);
        }
      }
    }
  }

  lemma NoNames(m: Modifiers)
    ensures Acceptable(m, []) && forall flag :: !Names([], flag)
  {
  }

  /** The names before the `i`-th are accepted, and the error is about the `i`-th. */
  predicate Offends(m: Modifiers, names: seq<string>, i: nat, error: KeyError) {
    && i < |names| && AddModifiers(m, names[..i]).Ok?
    && error == if FlagOf(names[i]).None? then UnknownModifier(names[i]) else DuplicateModifier(names[i])
  }

  /** The error names the first offending modifier. */
  lemma {:induction false} ModifierErrorIsFirst(m: Modifiers, names: seq<string>)
    requires AddModifiers(m, names).Err?
    ensures exists i: nat :: Offends(m, names, i, AddModifiers(m, names).error)
    decreases |names|
  {
    hide FlagOf, Has, With;
    if AddModifier(m, names[0]).Err? {
      assert Offends(m, names, 0, AddModifiers(m, names).error);
    } else {
      var m', rest := AddModifier(m, names[0]).value, names[1..];
      ModifierErrorIsFirst(m', rest);
      var i: nat :| Offends(m', rest, i, AddModifiers(m', rest).error);
      assert names[..i + 1][1..] == rest[..i];
      assert Offends(m, names, i + 1, AddModifiers(m, names).error);
    }
  }

  lemma AddOne(m: Modifiers, name: string)
    ensures AddModifiers(m, [name]) == AddModifier(m, name)
  {
    hide AddModifier;
    assert [name][1..] == [];
  }

  lemma LowerModifiers()
    ensures S.ToLower("Ctrl") == "ctrl" && S.ToLower("Alt") == "alt"
    ensures S.ToLower("Shift") == "shift" && S.ToLower("Super") == "super"
  {
    hide S.ToLower;
    assert S.ToLower("Ctrl") == "ctrl";
    assert S.ToLower("Alt") == "alt";
    assert S.ToLower("Shift") == "shift";
    assert S.ToLower("Super") == "super";
  }

  lemma AddNamed(m: Modifiers)
    ensures !m.control ==> AddModifiers(m, ["Ctrl"]) == Ok(m.(control := true))
    ensures !m.alt ==> AddModifiers(m, ["Alt"]) == Ok(m.(alt := true))
    ensures !m.shift ==> AddModifiers(m, ["Shift"]) == Ok(m.(shift := true))
    ensures !m.superKey ==> AddModifiers(m, ["Super"]) == Ok(m.(superKey := true))
    ensures AddModifiers(m, []) == Ok(m)
  {
    hide AddModifiers;
    LowerModifiers();
    AddOne(m, "Ctrl");
    AddOne(m, "Alt");
    AddOne(m, "Shift");
    AddOne(m, "Super");
    AddNone(m);
  }

  lemma AddNone(m: Modifiers)
    ensures AddModifiers(m, []) == Ok(m)
  {
  }

  lemma ModifiersRoundTrip(m: Modifiers)
    ensures AddModifiers(NO_MODIFIERS, ModifierNames(m)) == Ok(m)
  {
    hide AddModifiers;
    var a, b := if m.control then ["Ctrl"] else [], if m.alt then ["Alt"] else [];
    var c, d := if m.shift then ["Shift"] else [], if m.superKey then ["Super"] else [];
    var m1 := NO_MODIFIERS.(control := m.control);
    var m2 := m1.(alt := m.alt);
    var m3 := m2.(shift := m.shift);
    AddNamed(NO_MODIFIERS);
    AddNamed(m1);
    AddNamed(m2);
    AddNamed(m3);
    AddModifiersConcat(NO_MODIFIERS, a, b);
    AddModifiersConcat(NO_MODIFIERS, a + b, c);
    AddModifiersConcat(NO_MODIFIERS, a + b + c, d);
  }

  lemma StrokeRoundTrip(s: KeyStroke)
    requires ValidKey(s.key)
    ensures ParseStroke(PrintStroke(s)) == Ok(s)
  {
    hide S.Split, Trimmed, ModifierNames, ParseKey, PrintKey, AddModifiers, Word;
    var names, key := ModifierNames(s.modifiers), PrintKey(s.key);
    ModifiersAreWords(s.modifiers);
    KeyIsWord(s.key);
    SplitWords(names, key);
    TrimmedWords(names + [key]);
    ModifiersRoundTrip(s.modifiers);
    KeyRoundTrip(s.key);
    assert (names + [key])[..|names|] == names;
    assert key != [] by { NotEmpty(key); }
  }

  lemma NotEmpty(s: string)
    requires Word(s)
    ensures s != []
  {
  }

  // ---- Chords ----

  lemma {:induction false} PrefixesArePlain(names: seq<string>)
    requires forall i | 0 <= i < |names| :: Word(names[i])
    ensures ',' !in Prefixes(names) && (names != [] ==> Prefixes(names) != [] && IsAlphanumeric(Prefixes(names)[0]))
  {
    if names != [] {
      PrefixesArePlain(names[1..]);
      WordIsPlain(names[0]);
    }
  }

  lemma StrokeIsPlain(s: KeyStroke)
    requires ValidKey(s.key)
    ensures ',' !in PrintStroke(s) && S.Tight(PrintStroke(s))
  {
    hide ModifierNames, PrintKey, Prefixes;
    var names, key := ModifierNames(s.modifiers), PrintKey(s.key);
    ModifiersAreWords(s.modifiers);
    KeyIsWord(s.key);
    PrefixesArePlain(names);
    WordIsPlain(key);
    NoPrefixes();
    var text := Prefixes(names) + key;
    assert text[|text| - 1] == key[|key| - 1];
    assert text[0] == if names == [] then key[0] else Prefixes(names)[0];
  }

  lemma NoPrefixes()
    ensures Prefixes([]) == []
  {
  }

  lemma {:induction false} StrokesRoundTrip(indent: string, strokes: seq<KeyStroke>)
    requires strokes != [] && forall i | 0 <= i < |strokes| :: ValidKey(strokes[i].key)
    requires indent == [] || indent == [' ']
    ensures ParseStrokes(S.Split(indent + PrintChord(strokes), ',')) == Ok(strokes)
    decreases |strokes|
  {
    hide S.Split, S.Trim, S.Tight, PrintStroke, ParseStroke;
    var first := PrintStroke(strokes[0]);
    StrokeIsPlain(strokes[0]);
    StrokeRoundTrip(strokes[0]);
    S.TrimTight(first);
    assert [] + first == first;
    assert ',' !in indent + first;
    if |strokes| == 1 {
      S.SplitWhole(indent + first, ',');
      assert strokes == [strokes[0]] + [];
    } else {
      var rest := [' '] + PrintChord(strokes[1..]);
      S.SplitFirst(indent + first, ',', rest);
      StrokesRoundTrip([' '], strokes[1..]);
      assert indent + PrintChord(strokes) == indent + first + [','] + rest;
      assert ([indent + first] + S.Split(rest, ','))[1..] == S.Split(rest, ',');
      assert strokes == [strokes[0]] + strokes[1..];
    }
  }

  /** Parsing the displayed form of a chord gives back the chord. */
  lemma ChordRoundTrip(chord: Chord)
    ensures ParseChord(PrintChord(chord)) == Ok(chord)
  {
    hide PrintChord, ParseStrokes;
    StrokesRoundTrip([], chord);
    assert [] + PrintChord(chord) == PrintChord(chord);
  }

  lemma {:induction false} ParsedStrokesAreValid(parts: seq<string>)
    ensures var r := ParseStrokes(parts);
      r.Ok? ==> |r.value| == |parts| && forall i | 0 <= i < |r.value| :: ValidKey(r.value[i].key)
    decreases |parts|
  {
    hide ValidKey, ParseKey, AddModifiers, Trimmed, S.Split, S.Trim;
    if parts != [] {
      ParsedStrokesAreValid(parts[1..]);
      ParsedStrokeIsValid(S.Trim(parts[0]));
    }
  }

  lemma ParsedStrokeIsValid(source: string)
    ensures ParseStroke(source).Ok? ==> ValidKey(ParseStroke(source).value.key)
  {
    hide ParseKey, AddModifiers, Trimmed;
    var parts := Trimmed(S.Split(source, '+'));
    ParsedKeyIsValid(parts[|parts| - 1]);
  }

  /** Whatever spelling a chord was parsed from, it is valid and printing and parsing it again changes nothing. */
  lemma ParsePrintParseChord(source: string)
    requires ParseChord(source).Ok?
    ensures ValidChord(ParseChord(source).value)
    ensures ParseChord(PrintChord(ParseChord(source).value)) == ParseChord(source)
  {
    hide ParseStrokes, PrintChord, S.Split;
    ParsedStrokesAreValid(S.Split(source, ','));
    ChordRoundTrip(ParseChord(source).value);
  }

  // ---- What is refused ----

  /** What becomes of the parts of a stroke: a blank key is refused first, then its modifiers, then its key. */
  predicate Judged(names: seq<string>, key: string, r: Result<KeyStroke>) {
    if key == [] then r == Err(EmptyStroke)
    else match AddModifiers(NO_MODIFIERS, names)
      case Err(e) => r == Err(e)
      case Ok(m) => if ParseKey(key).Err? then r == Err(UnknownKey) else r == Ok(KeyStroke(ParseKey(key).value, m))
  }

  lemma PartsJudged(parts: seq<string>)
    requires parts != []
    ensures Judged(parts[..|parts| - 1], parts[|parts| - 1], StrokeOf(parts))
  {
    hide ParseKey, AddModifiers;
    KeyRefused(parts[|parts| - 1]);
  }

  /** A stroke is refused for a blank key first, then for its modifiers, then for its key. */
  lemma StrokeRefused(source: string)
    ensures var parts := Trimmed(S.Split(source, '+')); Judged(parts[..|parts| - 1], parts[|parts| - 1], ParseStroke(source))
  {
    hide Judged, Trimmed, S.Split, S.Trim, StrokeOf;
    PartsJudged(Trimmed(S.Split(source, '+')));
  }

  lemma KeyRefused(source: string)
    ensures ParseKey(source).Err? ==> ParseKey(source).error == UnknownKey
  {
    hide NamedKey;
  }

  /** The `i`-th part is the first that does not parse. */
  predicate Fails(parts: seq<string>, i: nat) {
    && i < |parts| && ParseStroke(S.Trim(parts[i])).Err?
    && forall j | 0 <= j < i :: ParseStroke(S.Trim(parts[j])).Ok?
  }

  lemma {:induction false} FirstPartFails(parts: seq<string>)
    ensures match ParseStrokes(parts)
      case Ok(strokes) => |strokes| == |parts| && forall i | 0 <= i < |parts| :: ParseStroke(S.Trim(parts[i])) == Ok(strokes[i])
      case Err(e) => exists i: nat :: Fails(parts, i) && ParseStroke(S.Trim(parts[i])).error == e
    decreases |parts|
  {
    hide ParseStroke, S.Trim;
    if parts != [] {
      var rest := parts[1..];
      FirstPartFails(rest);
      assert forall i | 0 <= i < |rest| :: rest[i] == parts[i + 1];
      if ParseStroke(S.Trim(parts[0])).Err? {
        assert Fails(parts, 0);
      } else if ParseStrokes(rest).Err? {
        var i: nat :| Fails(rest, i) && ParseStroke(S.Trim(rest[i])).error == ParseStrokes(rest).error;
        forall j | 0 <= j < i + 1 ensures ParseStroke(S.Trim(parts[j])).Ok? {
          if j > 0 { assert rest[j - 1] == parts[j]; }
        }
        assert Fails(parts, i + 1);
      }
    }
  }

  /** A chord is refused for its first bad stroke, or else for having more than eight; it is never empty. */
  lemma ChordRefused(source: string)
    ensures var parts := S.Split(source, ',');
      match ParseChord(source)
      case Ok(chord) => |chord| == |parts| <= 8 && forall i | 0 <= i < |parts| :: ParseStroke(S.Trim(parts[i])) == Ok(chord[i])
      case Err(e) =>
        || (exists i: nat :: Fails(parts, i) && ParseStroke(S.Trim(parts[i])).error == e)
        || ((forall i | 0 <= i < |parts| :: ParseStroke(S.Trim(parts[i])).Ok?) && |parts| > 8 && e == TooManyStrokes(|parts|))
  {
    hide ParseStroke, S.Trim, Fails, ParseStrokes;
    FirstPartFails(S.Split(source, ','));
  }

  /** A scope with a known kind and a name is refused for the name, anything else as unknown. */
  lemma ScopeRefused(source: string)
    requires ParseScope(source).Err?
    ensures source != "global"
    ensures if |source| > 6 && (source[..6] == "modal:" || source[..6] == "focus:")
            then ParseScope(source).error == InvalidScopeName && !ValidScopeName(source[6..])
            else ParseScope(source).error == UnknownScope
  {
    hide ValidScopeName;
  }

  // ---- Scopes ----

  lemma ScopeRoundTrip(scope: BindingScope)
    requires scope.Valid()
    ensures ParseScope(PrintScope(scope)) == Ok(scope)
  {
    var text := PrintScope(scope);
    if !scope.Global? {
      assert text[6..] == scope.name;
      assert text[..6] == if scope.Modal? then "modal:" else "focus:";
      assert text[0] == if scope.Modal? then 'm' else 'f';
      assert "global"[0] == 'g' && "modal:"[0] == 'm';
    }
  }

  /** A scope parses exactly from its own printed form. */
  lemma ParsePrintParseScope(source: string)
    requires ParseScope(source).Ok?
    ensures ParseScope(source).value.Valid()
    ensures PrintScope(ParseScope(source).value) == source
  {
    if "modal:" <= source { assert source == "modal:" + source[6..]; }
    if "focus:" <= source { assert source == "focus:" + source[6..]; }
  }
}
