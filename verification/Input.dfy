/**
 The keyboard vocabulary: keys, strokes, chords, binding scopes, focus contexts
 and millisecond ticks.
 */
module Input {
  import opened Seqs

  const MAX_CHORD_STROKES := 8
  const U64_MAX: nat := 0xFFFF_FFFF_FFFF_FFFF

  type U64 = n: nat | n <= 0xFFFF_FFFF_FFFF_FFFF

  function SaturatingAdd(tick: U64, ms: U64): U64 {
    if tick + ms <= U64_MAX then tick + ms else U64_MAX
  }

  datatype Key =
    | Character(c: char)
    | Space | Enter | Escape | Tab | Backspace | Delete | Insert
    | Home | End | PageUp | PageDown
    | ArrowUp | ArrowDown | ArrowLeft | ArrowRight
    | Function(number: nat)
    | Minus | Equal | Comma | Period | Slash | Backslash | Semicolon | Quote
    | BracketLeft | BracketRight | Backquote

  predicate IsUpper(c: char) { 'A' <= c <= 'Z' }
  predicate IsLower(c: char) { 'a' <= c <= 'z' }
  predicate IsDigit(c: char) { '0' <= c <= '9' }
  predicate IsAlphanumeric(c: char) { IsUpper(c) || IsLower(c) || IsDigit(c) }

  predicate ValidKey(key: Key) {
    match key
    case Character(c) => IsUpper(c) || IsDigit(c)
    case Function(number) => 1 <= number <= 24
    case _ => true
  }

  datatype Modifiers = Modifiers(control: bool, alt: bool, shift: bool, superKey: bool)

  const NO_MODIFIERS := Modifiers(false, false, false, false)

  datatype KeyStroke = KeyStroke(key: Key, modifiers: Modifiers)

  predicate ValidChord(strokes: seq<KeyStroke>) {
    && 1 <= |strokes| <= MAX_CHORD_STROKES
    && forall i | 0 <= i < |strokes| :: ValidKey(strokes[i].key)
  }

  /** A chord is private to its constructor, which accepts exactly the valid sequences. */
  type Chord = s: seq<KeyStroke> | ValidChord(s) witness [KeyStroke(Space, NO_MODIFIERS)]

  datatype BindingScope = Global | Modal(name: string) | FocusTag(name: string)
  {
    predicate Valid() {
      Global? || ValidScopeName(name)
    }

    function Rank(): nat {
      match this
      case Global => 0
      case FocusTag(_) => 1
      case Modal(_) => 2
    }
  }

  predicate ScopeNameChar(c: char) {
    IsAlphanumeric(c) || c in ".-_:/"
  }

  predicate ValidScopeName(name: string) {
    1 <= |name| <= 64 && forall i | 0 <= i < |name| :: ScopeNameChar(name[i])
  }

  datatype RepeatPolicy = Ignore | Allow

  datatype RawInput = RawInput(key: Key, modifiers: Modifiers, pressed: bool, repeat: bool)
  {
    function Stroke(): KeyStroke { KeyStroke(key, modifiers) }
  }

  datatype FocusContext = FocusContext(
    focusedEditable: bool,
    modalScope: Option<string>,
    focusTags: set<string>)
  {
    predicate Valid() {
      && (modalScope.Some? ==> ValidScopeName(modalScope.value))
      && forall tag | tag in focusTags :: ValidScopeName(tag)
    }

    predicate Admits(scope: BindingScope) {
      match (modalScope, scope)
      case (Some(active), Modal(required)) => active == required
      case (Some(_), _) => false
      case (None, Global) => true
      case (None, FocusTag(required)) => required in focusTags
      case (None, Modal(_)) => false
    }
  }

  const GLOBAL_CONTEXT := FocusContext(false, None, {})

  /** The smallest context that admits `scope`. */
  function MinimalContext(scope: BindingScope, editable: bool): (ctx: FocusContext)
    ensures ctx.Admits(scope) && ctx.focusedEditable == editable
    ensures scope.Valid() ==> ctx.Valid()
    ensures forall other: BindingScope | ctx.Admits(other) :: other == scope || other.Rank() < scope.Rank()
  {
    match scope
    case Global => FocusContext(editable, None, {})
    case FocusTag(tag) => FocusContext(editable, None, {tag})
    case Modal(name) => FocusContext(editable, Some(name), {})
  }
}
