# Virtual keyboard: text editing, key resolution and press/release state

A Dafny model of the keyboard object in `script.js`, an on-screen bilingual
(English/Arabic) keyboard that types into a page's text field. With the DOM taken
away, the object has four parts, and the model has one module for each (two for the
press/release state), plus a
small `Wrappers` module for `Option`:

- **TextBuffer**: the text field as a value (`Buffer`: characters plus a selection
  `[selStart, selEnd)`) and as a mutable `TextField` class. `insertText` and
  `backspace` are the only two edits. Every user action reduces to them: a typed
  character, space, enter, a generated name or address, and backspace. They are
  specified by the functions `Insert` and `DeleteBackward`. Lemmas prove that
  typing at a plain caret and then erasing the typed characters restores the field, and that a
  backspace can be undone by retyping the character it removed.
- **Keys**: what a key types and what it shows. Both are read from its four data
  attributes under the current language and shift state. An absent attribute and
  `""` are both false for JavaScript's `||`. The character a press inserts is
  always the primary glyph the key shows. Shift swaps the two glyphs. Neither
  language ever borrows a character from the other.
- **KeyboardSpec** and **VirtualKeyboard**: the handlers `handleTouchStart`,
  `handleTouchEnd`, `handleMouseDown`, `handleMouseUp` and `handleKeyPress`, and
  the shift and language switches. `KeyboardSpec` states them as functions on a
  state value. The `Keyboard` class holds the object's fields and is proved to
  follow those functions. The class keeps every key's label in step with the
  language and shift state.
- **Names**: the random name and e-mail generator. The random draws are
  parameters. The lemmas pin down the output exactly: its length, the alternation
  of consonants and vowels, the capital at the front, and the e-mail layout (one
  `@`, one of five domains, and a number that reads back as the one drawn).

The model follows the code as written, including behaviour a user might not
expect:

- **No duplicate suppression.** On a touch screen, one tap fires `touchstart`,
  `touchend`, and then a synthesized `mousedown` and `mouseup`. When both hit tests
  find the key, both presses reach `handleKeyPress` and the character is inserted
  twice (`TouchTapTypesTwice`, `TouchScreenTap`). The touch hit test accepts only
  the exact element under the finger when it is itself a `.key` (script.js:79-80),
  while the mouse one accepts the nearest `.key` ancestor (script.js:103). So a
  touch on a key's glyph `<span>` is ignored by `touchstart`, and only the mouse
  press inserts. The code has no "inserted already" flag and no debounce between
  press starts.
- **A backspace repeat can leak.** A second press on backspace before the first is
  released overwrites `backspaceInterval` without clearing the old interval. After
  the release, the first interval is still live and keeps deleting
  (`SecondBackspacePressLeaks`).
- **No hold delay.** Pressing backspace deletes once and starts the repeat at once.
- **No drift handling.** Sliding a touch off a key does not deactivate it.
- **No cross-language fallback.** Unshifted Arabic mode never falls back to the
  Latin character. A key without `data-ar` is labelled "undefined" in unshifted
  Arabic mode (and with shift on, when it has no `data-ar-secondary` either)
  (`ArabicWithoutCharShowsUndefined`).

Timers and clocks are not modelled as time. An interval is a handle in the set of
live intervals that the host keeps. `Tick`/`FireInterval` is one firing of its
callback. The touch start time and "now" are parameters.

## Model

| member | source | states |
|---|---|---|
| TextBuffer.Insert | script.js:131-138 | the selection is replaced by the text, the text before and after it is kept, and the caret lands right after the inserted text |
| TextBuffer.DeleteBackward | script.js:140-156 | a caret at 0 is a no-op; a caret at p>0 loses exactly the character before it (length drops by one, caret moves to p-1, retyping that character restores the field); a selection is deleted and the caret collapses to its start |
| TextBuffer.DeleteBackwardNoOpIff | script.js:144-154 | backspace leaves the field unchanged if and only if the caret is collapsed at position 0 |
| TextBuffer.DeleteAfterInsert | script.js:131-156 | erasing right after typing over any selection is the same as having typed one character less |
| TextBuffer.EraseTyped | script.js:131-156 | k backspaces after typing over any selection leave exactly the first |text|-k typed characters |
| TextBuffer.TypeThenEraseRestores | script.js:131-156 | typing a text at a plain caret and pressing backspace once per character restores value and caret |
| TextBuffer.HelloWorld | script.js:131-156 | "Hello" with the caret at 5, plus " World", gives "Hello World" with the caret at 11, and six backspaces give "Hello" back |
| TextBuffer.TextField.InsertText | script.js:131-138 | the field's value and selection become `Insert` of the old ones |
| TextBuffer.TextField.Backspace | script.js:140-156 | the field's value and selection become `DeleteBackward` of the old ones |
| Keys.PressedChar | script.js:123-127 | shifted: the language's secondary character, or that language's base when the secondary is absent or empty; unshifted: the base; Arabic draws only on the Arabic attributes and English only on the Latin ones; in English a key with a `data-char` always types a non-empty string |
| Keys.KeyLabel | script.js:174-184 | the primary glyph is the rendered character a press resolves to ("undefined" when there is none); the small secondary glyph is never empty; unshifted it is the key's shifted character, drawn exactly when there is one; shifted it is the base character, drawn exactly when there is one |
| Keys.PressedCharIsLabel | script.js:176-178 | the character a press inserts equals the primary glyph the key displays |
| Keys.ShiftSwapsGlyphs | script.js:176-181 | for a key with both characters, toggling shift swaps the primary and the secondary glyph |
| Keys.ShiftedLabelRepeatsBase | script.js:176-183 | a key without a shifted character types the same with or without shift, and shows its base character twice while shift is on |
| Keys.PressedCharOwnLanguageOnly | script.js:124-126 | what a key types and shows in a language depends only on that language's two attributes |
| Keys.ArabicWithoutCharShowsUndefined | script.js:176-183 | Arabic has no Latin fallback: a key without `data-ar` types nothing defined and is labelled "undefined" unshifted; shifted it shows its `data-ar-secondary` when truthy and "undefined" otherwise |
| Keys.EnglishPressable | script.js:123-127 | in English, every key that reaches the insert branch has a defined character |
| Names.Lowered | script.js:206-207 | `toLowerCase` keeps the length and lower-cases each character |
| Names.Capitalized | script.js:196 | the first character is upper-cased and the rest is kept, with the same length |
| Names.RandomName | script.js:187-197 | the returned name has one letter per draw: the first drawn consonant capitalised, then each drawn letter from the alphabet of its position |
| Names.NameText | script.js:202 | the inserted full name is the first name, a space at position |first|, then the last name |
| Names.LocalPart | script.js:206-210 | the part before the '@' has a '.' right after the first name and the length of its three parts plus one |
| Names.EmailText | script.js:205-210 | the inserted address is the local part, an '@' right after it, then the domain |
| Names.GenerateRandomName | script.js:187-197 | the loop returns exactly the drawn letters, first one capitalised, of the requested length, in the name shape |
| Names.RandomNameShape | script.js:187-196 | a generated name has the requested length, an upper-case consonant first, then lower-case letters with consonants at even and vowels at odd positions |
| Names.LoweredRandomName | script.js:206-207 | lower-casing a generated name gives back the drawn letters |
| Names.NameTextLayout | script.js:199-203 | the generated full name is 7 to 17 characters: two well-shaped names separated by the only space in it |
| Names.Decimal | script.js:210 | the numeral is a non-empty string of digits with no leading zero, at most three digits below 1000 |
| Names.DecimalRoundTrip | script.js:210 | the numeral of n reads back as n |
| Names.DomainsHaveNoAt | script.js:209 | none of the five domains contains '@' |
| Names.LocalPartLayout | script.js:206-210 | before the '@': the lower-case first name, one '.', the lower-case last name, then the digits of the number |
| Names.EmailLayout | script.js:205-211 | a generated address has exactly one '@', the local part before it, one of the five domains after it, and a number that reads back as the one drawn |
| KeyboardSpec.ClearInterval | script.js:90 | `clearInterval` stops the given handle and no other; a null handle is ignored |
| KeyboardSpec.KeyPress | script.js:119-129 | backspace deletes backward once and starts a fresh interval under a new handle, without stopping the old one; a key with a truthy `data-char` inserts its resolved character at the selection and changes nothing else; any other key changes nothing |
| KeyboardSpec.PressStart | script.js:102-109 | a press outside every key changes nothing; a press on a key makes it the active key and then types or deletes exactly as `KeyPress` says |
| KeyboardSpec.TouchStart | script.js:76-85 | records the start time; a touch outside every key changes nothing else; a touch on a key makes it the active key and then types or deletes exactly as `KeyPress` says |
| KeyboardSpec.MouseUp | script.js:111-117 | a release ends the press, clears the current repeat handle (the field keeps the stale handle) and keeps the text, the timer counter and the touch start time; with a key held exactly the current handle stops and other live intervals survive; with no key held it changes nothing |
| KeyboardSpec.TouchEnd | script.js:87-100 | a touch release ends the press, keeps the text, the timer counter and the touch start time, and with a key held stops exactly the current handle |
| KeyboardSpec.Release | script.js:22-41 | all four release listeners end the press, keep the text, language, shift, timer counter and touch start time, and with a key held stop exactly the current handle |
| KeyboardSpec.Tick | script.js:122 | a live interval deletes backward once; a cleared one does nothing |
| KeyboardSpec.TouchEndIsMouseUp | script.js:87-117 | the long-press branch of the touch release is redundant: touch and mouse releases have the same effect |
| KeyboardSpec.ReleaseClearsRepeat | script.js:87-117 | every release path with a key held clears exactly the current repeat handle and leaves the text alone |
| KeyboardSpec.PressTypesShownGlyph | script.js:123-127 | pressing a character key inserts the primary glyph that key shows |
| KeyboardSpec.BackspacePressStartsRepeat | script.js:120-122 | a backspace press deletes once and starts a fresh interval, which deletes again each time it fires |
| KeyboardSpec.HeldBackspaceStopsAtRelease | script.js:102-122 | with no interval running before, pressing backspace and releasing by any path leaves no live interval, so no firing deletes anything more |
| KeyboardSpec.SecondBackspacePressLeaks | script.js:102-122 | a second backspace press before the release overwrites the handle; after the release the first interval is still live and still deletes |
| KeyboardSpec.TouchTapTypesTwice | script.js:76-117 | from any state, touchstart, touchend, then the synthesized mousedown and mouseup on the same key insert its character twice |
| VirtualKeyboard.Keyboard.constructor | script.js:2-14 | initial state: not shifted, nothing held, no interval; the language is Arabic exactly when the browser language starts with "ar"; every label is current |
| VirtualKeyboard.Keyboard.HandleTouchStart | script.js:76-85 | state moves as `TouchStart` says; labels stay current |
| VirtualKeyboard.Keyboard.HandleTouchEnd | script.js:87-100 | state moves as `TouchEnd` says |
| VirtualKeyboard.Keyboard.HandleMouseDown | script.js:102-109 | state moves as `PressStart` says |
| VirtualKeyboard.Keyboard.HandleMouseUp | script.js:111-117 | state moves as `MouseUp` says |
| VirtualKeyboard.Keyboard.HandleRelease | script.js:22-41 | the four release listeners move the state as `Release` says |
| VirtualKeyboard.Keyboard.ClearBackspaceInterval | script.js:114 | the handle stored in `backspaceInterval` is removed from the live intervals, which is all that changes |
| VirtualKeyboard.Keyboard.HandleKeyPress | script.js:119-129 | state moves as `KeyPress` says |
| VirtualKeyboard.Keyboard.FireInterval | script.js:122 | one firing of an interval moves the state as `Tick` says |
| VirtualKeyboard.Keyboard.ToggleShift | script.js:158-162 | shift flips, nothing else in the state changes, every key's label is redrawn for the new shift state |
| VirtualKeyboard.Keyboard.ToggleLanguage | script.js:164-166 | the language flips between English and Arabic, nothing else changes, labels are redrawn |
| VirtualKeyboard.Keyboard.SetLanguage | script.js:168-172 | the language is set and every label is redrawn for it |
| VirtualKeyboard.Keyboard.UpdateKeyLabels | script.js:174-185 | every `.key[data-char]` element ends up showing `KeyLabel` of the current language and shift state |
| VirtualKeyboard.Keyboard.ClickSpace | script.js:67-69 | inserts one space at the selection, nothing else changes |
| VirtualKeyboard.Keyboard.ClickEnter | script.js:71-73 | inserts one newline at the selection, nothing else changes |
| VirtualKeyboard.Keyboard.GenerateName | script.js:199-203 | inserts `NameText` of the draws at the selection, nothing else changes |
| VirtualKeyboard.Keyboard.GenerateEmail | script.js:205-211 | inserts `EmailText` of the draws at the selection, nothing else changes |
| VirtualKeyboard.TouchScreenTap | script.js:76-117 | one tap on an "a" key of an empty field, delivered as touch and then synthesized mouse events, leaves "aa" |

## Left out

- The two hit tests differ. `handleTouchStart` takes the exact element under the touch point, and only if it has the class `key`. `handleMouseDown` takes the nearest `.key` ancestor of the target. Both are DOM work, so each handler's hit-test result is its own `Option<Key>` parameter. The model does not derive the two results from one point or one element.
- Listener registration, `classList` changes, `focus()`, the text of the language key and the dark-mode toggle are DOM work with no logic. The hit-test result is a parameter (`Option<Key>`). The four release listeners are modelled by `HandleRelease`.
- Keys.KeyLabel: the label is a value (primary text plus optional secondary glyph), not the `innerHTML` string. HTML escaping is not modelled.
- `navigator.language` is a constructor parameter.
- `Math.random` is replaced by draw parameters whose preconditions are the ranges `Math.floor(Math.random() * n)` can produce.
- `Date.now()` is a `now` parameter.
- `setInterval`/`clearInterval` are a set of live handles and a counter. The 100 ms cadence is not modelled. A firing is an explicit `FireInterval` call.
- Arabic mode on a key whose resolved Arabic character is absent: the source passes `undefined` to `insertText`. That call first writes the text "undefined" into the field at the selection (script.js:134-135) and then throws on `text.length` (script.js:136). The value assignment at script.js:134 lets the browser move the caret to the end of the new value. The key made active at script.js:81 or script.js:105 stays held until a release. `Pressable` excludes this case as a precondition.
- ClickEnter: the field is assumed to be multi-line (a `<textarea>`). In a single-line `<input>` the browser strips the line break from `value`, and the caret set one past the start would not match. The page markup is not part of this model.
- Strings are sequences of characters. JavaScript's UTF-16 code units are not modelled, and the browser is assumed to keep the selection within the value. Case mapping is modelled for ASCII letters only, which are the only letters the generator produces.
- Constructor and `TextField` state: the page's initial labels and field content are parameters.
