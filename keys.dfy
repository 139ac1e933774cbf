/**
 * The keys and what they show and type. A key element carries up to four data
 * attributes: `data-char` and `data-secondary` for English, `data-ar` and
 * `data-ar-secondary` for Arabic. The character a press types and the label the
 * key shows are both read from them, under the current language and shift state.
 */
module Keys {
  import opened Wrappers

  datatype Lang = En | Ar

  /** A key element: its id and its four attributes (None when the attribute is absent); `ch` is `data-char`. */
  datatype Key = Key(id: string, ch: Option<string>, secondary: Option<string>,
                     ar: Option<string>, arSecondary: Option<string>)

  /** What a key element shows: the primary glyph, and the small secondary glyph when one is drawn. */
  datatype Label = Label(primary: string, secondary: Option<string>)

  const BackspaceId: string := "backspaceKey"

  /** JavaScript truthiness of an attribute read: an absent attribute and "" are both false. */
  predicate Truthy(a: Option<string>) {
    a.Some? && a.value != ""
  }

  /** `a || b` on two attribute reads. */
  function Or(a: Option<string>, b: Option<string>): Option<string> {
    if Truthy(a) then a else b
  }

  /** A template literal `${a}`: an absent attribute renders as the text "undefined". */
  function Rendered(a: Option<string>): string {
    match a
    case Some(s) => s
    case None => "undefined"
  }

  /** The unshifted character of a key in a language. */
  function BaseAttr(lang: Lang, k: Key): Option<string> {
    match lang
    case En => k.ch
    case Ar => k.ar
  }

  /** The shifted character of a key in a language. */
  function ShiftAttr(lang: Lang, k: Key): Option<string> {
    match lang
    case En => k.secondary
    case Ar => k.arSecondary
  }

  /** The character handleKeyPress inserts for a key with a `data-char`. */
  function PressedChar(lang: Lang, shift: bool, k: Key): (r: Option<string>)
    // shifted: that language's secondary, falling back to that language's base; unshifted: the base
    ensures r == if shift && Truthy(ShiftAttr(lang, k)) then ShiftAttr(lang, k) else BaseAttr(lang, k)
    // never borrowed from the other language
    ensures lang == Ar ==> r == k.ar || r == k.arSecondary
    ensures lang == En ==> r == k.ch || r == k.secondary
    // in English a key with a `data-char` always types something
    ensures lang == En && Truthy(k.ch) ==> Truthy(r)
  {
    if lang == Ar then
      if shift then Or(k.arSecondary, k.ar) else k.ar
    else
      if shift then Or(k.secondary, k.ch) else k.ch
  }

  /** The label updateKeyLabels draws on a key. */
  function KeyLabel(lang: Lang, shift: bool, k: Key): (r: Label)
    // the large glyph is the character a press resolves to, "undefined" when there is none
    ensures r.primary == Rendered(PressedChar(lang, shift, k))
    // the small glyph is never an empty span
    ensures r.secondary.Some? ==> r.secondary.value != ""
    // unshifted, the small glyph is the shifted character, drawn only when the key has one
    ensures !shift ==> (r.secondary.Some? <==> Truthy(ShiftAttr(lang, k)))
    ensures !shift && Truthy(ShiftAttr(lang, k)) ==> r.secondary == ShiftAttr(lang, k)
    // shifted, the small glyph is the base character
    ensures shift ==> (r.secondary.Some? <==> Truthy(BaseAttr(lang, k)))
    ensures shift && Truthy(BaseAttr(lang, k)) ==> r.secondary == BaseAttr(lang, k)
  {
    var primary :=
      if lang == Ar then
        if shift then Or(k.arSecondary, k.ar) else k.ar
      else
        if shift then Or(k.secondary, k.ch) else k.ch;
    var secondary :=
      if lang == Ar then
        if shift then k.ar else Or(k.arSecondary, Some(""))
      else
        if shift then k.ch else Or(k.secondary, Some(""));
    Label(Rendered(primary), if Truthy(secondary) then secondary else None)
  }

  /** A press on `k` has a character to insert: only Arabic keys may lack one. */
  predicate Pressable(lang: Lang, shift: bool, k: Key) {
    k.id != BackspaceId && Truthy(k.ch) ==> PressedChar(lang, shift, k).Some?
  }

  /** The character a press inserts is the primary glyph the key shows. */
  lemma PressedCharIsLabel(lang: Lang, shift: bool, k: Key)
    requires PressedChar(lang, shift, k).Some?
    ensures KeyLabel(lang, shift, k).primary == PressedChar(lang, shift, k).value
  {
  }

  /** For a key with both a base and a shifted character, shift swaps the two glyphs. */
  lemma ShiftSwapsGlyphs(lang: Lang, k: Key)
    requires Truthy(BaseAttr(lang, k)) && Truthy(ShiftAttr(lang, k))
    ensures KeyLabel(lang, true, k).primary == KeyLabel(lang, false, k).secondary.value
    ensures KeyLabel(lang, false, k).primary == KeyLabel(lang, true, k).secondary.value
  {
  }

  /** A key without a shifted character shows its base character twice while shift is on. */
  lemma ShiftedLabelRepeatsBase(lang: Lang, k: Key)
    requires Truthy(BaseAttr(lang, k)) && !Truthy(ShiftAttr(lang, k))
    ensures KeyLabel(lang, true, k) == Label(BaseAttr(lang, k).value, BaseAttr(lang, k))
    ensures PressedChar(lang, true, k) == PressedChar(lang, false, k)
  {
  }

  /** What a key types in one language depends only on that language's two attributes. */
  lemma PressedCharOwnLanguageOnly(lang: Lang, shift: bool, k1: Key, k2: Key)
    requires BaseAttr(lang, k1) == BaseAttr(lang, k2) && ShiftAttr(lang, k1) == ShiftAttr(lang, k2)
    ensures PressedChar(lang, shift, k1) == PressedChar(lang, shift, k2)
    ensures KeyLabel(lang, shift, k1) == KeyLabel(lang, shift, k2)
  {
  }

  /** Arabic never falls back to the Latin character: a key without `data-ar` shows "undefined"
      unshifted, and with shift on unless it has a `data-ar-secondary` to show instead. */
  lemma ArabicWithoutCharShowsUndefined(k: Key)
    requires k.ar.None?
    ensures KeyLabel(Ar, false, k).primary == "undefined"
    ensures PressedChar(Ar, false, k).None?
    ensures !Truthy(k.arSecondary) ==> KeyLabel(Ar, true, k).primary == "undefined"
    ensures Truthy(k.arSecondary) ==> KeyLabel(Ar, true, k).primary == k.arSecondary.value
  {
  }

  /** Every key is pressable in English. */
  lemma EnglishPressable(shift: bool, k: Key)
    ensures Pressable(En, shift, k)
  {
  }
}
