/** The written form of keys, strokes, chords and scopes: printers and parsers. */
module InputText {
  import opened Seqs
  import opened Input
  import S = Strings

  datatype KeyError =
    | UnknownKey | EmptyStroke | UnknownModifier(name: string) | DuplicateModifier(name: string)
    | EmptyChord | TooManyStrokes(count: nat) | UnknownScope | InvalidScopeName

  datatype Result<+T> = Ok(value: T) | Err(error: KeyError)

  // ---- Keys ----

  function PrintKey(key: Key): string {
    match key
    case Character(c) => [S.Upper(c)]
    case Space => "Space"
    case Enter => "Enter"
    case Escape => "Escape"
    case Tab => "Tab"
    case Backspace => "Backspace"
    case Delete => "Delete"
    case Insert => "Insert"
    case Home => "Home"
    case End => "End"
    case PageUp => "PageUp"
    case PageDown => "PageDown"
    case ArrowUp => "ArrowUp"
    case ArrowDown => "ArrowDown"
    case ArrowLeft => "ArrowLeft"
    case ArrowRight => "ArrowRight"
    case Function(number) => "F" + S.Digits(number)
    case Minus => "Minus"
    case Equal => "Equal"
    case Comma => "Comma"
    case Period => "Period"
    case Slash => "Slash"
    case Backslash => "Backslash"
    case Semicolon => "Semicolon"
    case Quote => "Quote"
    case BracketLeft => "BracketLeft"
    case BracketRight => "BracketRight"
    case Backquote => "Backquote"
  }

  /** The lower-case names and aliases of the named keys. */
  function NamedKey(lower: string): Option<Key> {
    if lower == "space" then Some(Space)
    else if lower == "enter" || lower == "return" then Some(Enter)
    else if lower == "escape" || lower == "esc" then Some(Escape)
    else if lower == "tab" then Some(Tab)
    else if lower == "backspace" then Some(Backspace)
    else if lower == "delete" || lower == "del" then Some(Delete)
    else if lower == "insert" || lower == "ins" then Some(Insert)
    else if lower == "home" then Some(Home)
    else if lower == "end" then Some(End)
    else if lower == "pageup" then Some(PageUp)
    else if lower == "pagedown" then Some(PageDown)
    else if lower == "arrowup" || lower == "up" then Some(ArrowUp)
    else if lower == "arrowdown" || lower == "down" then Some(ArrowDown)
    else if lower == "arrowleft" || lower == "left" then Some(ArrowLeft)
    else if lower == "arrowright" || lower == "right" then Some(ArrowRight)
    else if lower == "minus" then Some(Minus)
    else if lower == "equal" || lower == "equals" then Some(Equal)
    else if lower == "comma" then Some(Comma)
    else if lower == "period" then Some(Period)
    else if lower == "slash" then Some(Slash)
    else if lower == "backslash" then Some(Backslash)
    else if lower == "semicolon" then Some(Semicolon)
    else if lower == "quote" then Some(Quote)
    else if lower == "bracketleft" then Some(BracketLeft)
    else if lower == "bracketright" then Some(BracketRight)
    else if lower == "backquote" then Some(Backquote)
    else None
  }

  function ParseFunction(lower: string): Result<Key> {
    if lower == [] || lower[0] != 'f' then Err(UnknownKey)
    else match S.ParseUnsigned(lower[1..], 255)
      case Some(number) => if 1 <= number <= 24 then Ok(Function(number)) else Err(UnknownKey)
      case None => Err(UnknownKey)
  }

  function ParseKey(source: string): Result<Key> {
    if |source| == 1 && IsAlphanumeric(source[0]) then Ok(Character(S.Upper(source[0])))
    else match NamedKey(S.ToLower(source))
      case Some(key) => Ok(key)
      case None => ParseFunction(S.ToLower(source))
  }

  // ---- Strokes ----

  function ModifierNames(m: Modifiers): seq<string> {
    (if m.control then ["Ctrl"] else []) + (if m.alt then ["Alt"] else [])
    + (if m.shift then ["Shift"] else []) + (if m.superKey then ["Super"] else [])
  }

  /** Each name followed by a plus sign. */
  function Prefixes(names: seq<string>): string {
    if names == [] then [] else names[0] + "+" + Prefixes(names[1..])
  }

  function PrintStroke(s: KeyStroke): string { Prefixes(ModifierNames(s.modifiers)) + PrintKey(s.key) }

  datatype Flag = ControlFlag | AltFlag | ShiftFlag | SuperFlag

  /** The flag a modifier name or alias denotes, in any letter case. */
  function FlagOf(name: string): Option<Flag> {
    var lower := S.ToLower(name);
    if lower == "ctrl" || lower == "control" then Some(ControlFlag)
    else if lower == "alt" || lower == "option" then Some(AltFlag)
    else if lower == "shift" then Some(ShiftFlag)
    else if lower == "super" || lower == "cmd" || lower == "command" || lower == "meta" then Some(SuperFlag)
    else None
  }

  predicate Has(m: Modifiers, flag: Flag) {
    match flag
    case ControlFlag => m.control
    case AltFlag => m.alt
    case ShiftFlag => m.shift
    case SuperFlag => m.superKey
  }

  function With(m: Modifiers, flag: Flag): Modifiers {
    match flag
    case ControlFlag => m.(control := true)
    case AltFlag => m.(alt := true)
    case ShiftFlag => m.(shift := true)
    case SuperFlag => m.(superKey := true)
  }

  /** One more modifier, which must be known and new. */
  function AddModifier(m: Modifiers, name: string): Result<Modifiers> {
    match FlagOf(name)
    case None => Err(UnknownModifier(name))
    case Some(flag) => if Has(m, flag) then Err(DuplicateModifier(name)) else Ok(With(m, flag))
  }

  function AddModifiers(m: Modifiers, names: seq<string>): Result<Modifiers>
    decreases |names|
  {
    if names == [] then Ok(m)
    else match AddModifier(m, names[0])
      case Ok(m') => AddModifiers(m', names[1..])
      case Err(e) => Err(e)
  }

  function Trimmed(parts: seq<string>): (r: seq<string>)
    ensures |r| == |parts| && forall i | 0 <= i < |r| :: r[i] == S.Trim(parts[i])
  {
    seq(|parts|, i requires 0 <= i < |parts| => S.Trim(parts[i]))
  }

  function StrokeOf(parts: seq<string>): Result<KeyStroke>
    requires parts != []
  {
    var n := |parts| - 1;
    if parts[n] == [] then Err(EmptyStroke)
    else match AddModifiers(NO_MODIFIERS, parts[..n])
      case Err(e) => Err(e)
      case Ok(m) =>
        match ParseKey(parts[n])
        case Err(e) => Err(e)
        case Ok(key) => Ok(KeyStroke(key, m))
  }

  function ParseStroke(source: string): Result<KeyStroke> { StrokeOf(Trimmed(S.Split(source, '+'))) }

  /** The loop that sets the modifier slots. */
  method ReadModifiers(names: seq<string>) returns (r: Result<Modifiers>)
    ensures r == AddModifiers(NO_MODIFIERS, names)
  {
    var control, alt, shift, superKey := false, false, false, false;
    for i := 0 to |names|
      invariant AddModifiers(NO_MODIFIERS, names) == AddModifiers(Modifiers(control, alt, shift, superKey), names[i..])
    {
      assert names[i..][1..] == names[i + 1..];
      var lower := S.ToLower(names[i]);
      if lower == "ctrl" || lower == "control" {
        if control { return Err(DuplicateModifier(names[i])); }
        control := true;
      } else if lower == "alt" || lower == "option" {
        if alt { return Err(DuplicateModifier(names[i])); }
        alt := true;
      } else if lower == "shift" {
        if shift { return Err(DuplicateModifier(names[i])); }
        shift := true;
      } else if lower == "super" || lower == "cmd" || lower == "command" || lower == "meta" {
        if superKey { return Err(DuplicateModifier(names[i])); }
        superKey := true;
      } else {
        return Err(UnknownModifier(names[i]));
      }
    }
    r := Ok(Modifiers(control, alt, shift, superKey));
  }

  // ---- Chords ----

  function PrintChord(strokes: seq<KeyStroke>): string
    decreases |strokes|
  {
    if strokes == [] then []
    else if |strokes| == 1 then PrintStroke(strokes[0])
    else PrintStroke(strokes[0]) + ", " + PrintChord(strokes[1..])
  }

  function ParseStrokes(parts: seq<string>): Result<seq<KeyStroke>>
    decreases |parts|
  {
    if parts == [] then Ok([])
    else match ParseStroke(S.Trim(parts[0]))
      case Err(e) => Err(e)
      case Ok(stroke) =>
        match ParseStrokes(parts[1..])
        case Err(e) => Err(e)
        case Ok(rest) => Ok([stroke] + rest)
  }

  function ParseChord(source: string): Result<seq<KeyStroke>> {
    match ParseStrokes(S.Split(source, ','))
    case Err(e) => Err(e)
    case Ok(strokes) =>
      if strokes == [] then Err(EmptyChord)
      else if |strokes| > MAX_CHORD_STROKES then Err(TooManyStrokes(|strokes|))
      else Ok(strokes)
  }

  // ---- Scopes ----

  function PrintScope(scope: BindingScope): string {
    match scope
    case Global => "global"
    case Modal(name) => "modal:" + name
    case FocusTag(name) => "focus:" + name
  }

  function ParseScope(source: string): Result<BindingScope> {
    if source == "global" then Ok(Global)
    else if "modal:" <= source && |source| > 6 then
      if ValidScopeName(source[6..]) then Ok(Modal(source[6..])) else Err(InvalidScopeName)
    else if "focus:" <= source && |source| > 6 then
      if ValidScopeName(source[6..]) then Ok(FocusTag(source[6..])) else Err(InvalidScopeName)
    else Err(UnknownScope)
  }
}
