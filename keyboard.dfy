/**
 * The keyboard object: its fields, its event handlers and its special buttons.
 * Each handler is proved to move the object's state exactly as the matching
 * function of KeyboardSpec says, and to keep every key's label in step with the
 * current language and shift state.
 */
module VirtualKeyboard {
  import opened Wrappers
  import opened TextBuffer
  import opened Keys
  import opened Names
  import opened KeyboardSpec

  predicate StartsWith(s: string, prefix: string) {
    |prefix| <= |s| && s[..|prefix|] == prefix
  }

  class Keyboard {
    var currentLanguage: Lang
    var isShiftActive: bool
    const inputField: TextField
    var backspaceInterval: Option<TimerId>
    var activeKey: Option<Key>
    var touchStartTime: int
    /** The elements `.key[data-char]` selects, in document order, and the label each shows. */
    const keys: seq<Key>
    var labels: seq<Label>
    /** The host's running intervals, and the handle its next setInterval returns. */
    var liveIntervals: set<TimerId>
    var nextTimerId: TimerId

    ghost function State(): KbState
      reads this, inputField
    {
      KbState(currentLanguage, isShiftActive, inputField.Snapshot(), activeKey,
              backspaceInterval, liveIntervals, nextTimerId, touchStartTime)
    }

    /** Every key shows the label of the current language and shift state. */
    ghost predicate LabelsCurrent()
      reads this
    {
      && |labels| == |keys|
      && forall i :: 0 <= i < |keys| ==> labels[i] == KeyLabel(currentLanguage, isShiftActive, keys[i])
    }

    ghost predicate Valid()
      reads this, inputField
    {
      State().Valid() && inputField.Valid() && LabelsCurrent()
    }

    /** Creating the object and init(): the language follows the browser's. */
    constructor (field: TextField, keys: seq<Key>, markup: seq<Label>, browserLanguage: string)
      requires field.Valid() && |markup| == |keys|
      requires forall i :: 0 <= i < |keys| ==> keys[i].ch.Some?
      ensures Valid() && inputField == field && this.keys == keys
      ensures State() == KbState(if StartsWith(browserLanguage, "ar") then Ar else En, false,
                                 field.Snapshot(), None, None, {}, 1, 0)
    {
      currentLanguage := En;
      isShiftActive := false;
      inputField := field;
      backspaceInterval := None;
      activeKey := None;
      touchStartTime := 0;
      this.keys := keys;
      labels := markup;
      liveIntervals := {};
      nextTimerId := 1;
      new;
      SetLanguage(if StartsWith(browserLanguage, "ar") then Ar else En);
    }

    method HandleTouchStart(target: Option<Key>, now: int)
      requires Valid() && (target.Some? ==> Pressable(currentLanguage, isShiftActive, target.value))
      modifies this, inputField
      ensures Valid() && State() == TouchStart(old(State()), target, now)
    {
      touchStartTime := now;
      if target.Some? {
        activeKey := target;
        HandleKeyPress(target.value);
      }
    }

    method HandleTouchEnd(now: int)
      requires Valid()
      modifies this
      ensures Valid() && State() == TouchEnd(old(State()), now)
    {
      if activeKey.Some? {
        ClearBackspaceInterval();
        if now - touchStartTime > LongPressMs && activeKey.value.id == BackspaceId {
          ClearBackspaceInterval();
        }
        activeKey := None;
      }
    }

    method HandleMouseDown(target: Option<Key>)
      requires Valid() && (target.Some? ==> Pressable(currentLanguage, isShiftActive, target.value))
      modifies this, inputField
      ensures Valid() && State() == PressStart(old(State()), target)
    {
      if target.Some? {
        activeKey := target;
        HandleKeyPress(target.value);
      }
    }

    method HandleMouseUp()
      requires Valid()
      modifies this
      ensures Valid() && State() == MouseUp(old(State()))
    {
      if activeKey.Some? {
        ClearBackspaceInterval();
        activeKey := None;
      }
    }

    /** The listeners registered for the four release events. */
    method HandleRelease(ev: ReleaseEvent, now: int)
      requires Valid()
      modifies this
      ensures Valid() && State() == Release(old(State()), ev, now)
    {
      match ev
      case MouseUpEvent => HandleMouseUp();
      case MouseLeaveEvent => HandleMouseUp();
      case TouchEndEvent => HandleTouchEnd(now);
      case TouchCancelEvent => HandleTouchEnd(now);
    }

    /** Stops the interval whose handle is stored in `backspaceInterval`; the field itself keeps the stale handle. */
    method ClearBackspaceInterval()
      requires Valid()
      modifies this`liveIntervals
      ensures Valid() && liveIntervals == ClearInterval(old(liveIntervals), backspaceInterval)
    {
      if backspaceInterval.Some? {
        liveIntervals := liveIntervals - {backspaceInterval.value};
      }
    }

    method HandleKeyPress(k: Key)
      requires Valid() && Pressable(currentLanguage, isShiftActive, k)
      modifies this, inputField
      ensures Valid() && State() == KeyPress(old(State()), k)
    {
      if k.id == BackspaceId {
        inputField.Backspace();
        backspaceInterval := Some(nextTimerId);
        liveIntervals := liveIntervals + {nextTimerId};
        nextTimerId := nextTimerId + 1;
      } else if Truthy(k.ch) {
        var c := PressedChar(currentLanguage, isShiftActive, k);
        inputField.InsertText(c.value);
      }
    }

    /** Interval h fires its callback `() => this.backspace()`; a cleared interval no longer fires. */
    method FireInterval(h: TimerId)
      requires Valid()
      modifies inputField
      ensures Valid() && State() == Tick(old(State()), h)
    {
      if h in liveIntervals {
        inputField.Backspace();
      }
    }

    method ToggleShift()
      requires Valid()
      modifies this
      ensures Valid() && State() == old(State()).(shift := !old(isShiftActive))
    {
      isShiftActive := !isShiftActive;
      UpdateKeyLabels();
    }

    method ToggleLanguage()
      requires Valid()
      modifies this
      ensures Valid() && State() == old(State()).(lang := if old(currentLanguage) == En then Ar else En)
    {
      SetLanguage(if currentLanguage == En then Ar else En);
    }

    method SetLanguage(lang: Lang)
      requires |labels| == |keys|
      modifies this`currentLanguage, this`labels
      ensures currentLanguage == lang && LabelsCurrent()
    {
      currentLanguage := lang;
      UpdateKeyLabels();
    }

    /** Redraws every key from the current language and shift state. */
    method UpdateKeyLabels()
      requires |labels| == |keys|
      modifies this`labels
      ensures LabelsCurrent()
    {
      for i := 0 to |keys|
        invariant |labels| == |keys|
        invariant forall j :: 0 <= j < i ==> labels[j] == KeyLabel(currentLanguage, isShiftActive, keys[j])
      {
        labels := labels[i := KeyLabel(currentLanguage, isShiftActive, keys[i])];
      }
    }

    /** The space key's click listener. */
    method ClickSpace()
      requires Valid()
      modifies inputField
      ensures Valid() && State() == old(State()).(buffer := Insert(old(inputField.Snapshot()), " "))
    {
      inputField.InsertText(" ");
    }

    /** The enter key's click listener. */
    method ClickEnter()
      requires Valid()
      modifies inputField
      ensures Valid() && State() == old(State()).(buffer := Insert(old(inputField.Snapshot()), "\n"))
    {
      inputField.InsertText("\n");
    }

    /** generateName, with the letter draws of the two names given. */
    method GenerateName(first: seq<nat>, last: seq<nat>)
      requires Valid() && NameDraws(first, last)
      modifies inputField
      ensures Valid()
      ensures State() == old(State()).(buffer := Insert(old(inputField.Snapshot()), NameText(first, last)))
    {
      var firstName := GenerateRandomName(|first|, first);
      var lastName := GenerateRandomName(|last|, last);
      inputField.InsertText(firstName + " " + lastName);
    }

    /** generateEmail, with the letter draws, the number and the domain index given. */
    method GenerateEmail(first: seq<nat>, last: seq<nat>, num: nat, domain: nat)
      requires Valid() && EmailDraws(first, last, num, domain)
      modifies inputField
      ensures Valid()
      ensures State() == old(State()).(buffer := Insert(old(inputField.Snapshot()), EmailText(first, last, num, domain)))
    {
      var firstName := GenerateRandomName(|first|, first);
      firstName := Lowered(firstName);
      var lastName := GenerateRandomName(|last|, last);
      lastName := Lowered(lastName);
      inputField.InsertText(firstName + "." + lastName + Decimal(num) + "@" + Domains[domain]);
    }
  }

  /**
   * One tap on the "a" key of a touch screen, as the browser delivers it:
   * touchstart, touchend, then the synthesized mousedown and mouseup.
   * Both presses reach handleKeyPress, so the field ends up holding "aa".
   */
  method TouchScreenTap() returns (text: string)
    ensures text == "aa"
  {
    var field := new TextField("", 0, 0);
    var a := Key("keyA", Some("a"), Some("A"), None, None);
    assert "en-US"[..2] == "en";
    var kb := new Keyboard(field, [a], [Label("a", None)], "en-US");
    kb.HandleTouchStart(Some(a), 0);
    kb.HandleRelease(TouchEndEvent, 80);
    kb.HandleMouseDown(Some(a));
    kb.HandleRelease(MouseUpEvent, 80);
    text := field.value;
  }
}
