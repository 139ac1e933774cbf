/**
 * The press/release state of the keyboard as values: which key is held, the
 * backspace repeat, and the host's table of running intervals. Each function is
 * one handler of the keyboard object; the Keyboard class is proved against them.
 * Time is a parameter and an interval is a handle in a set, not a clock.
 */
module KeyboardSpec {
  import opened Wrappers
  import opened TextBuffer
  import opened Keys

  /** A handle returned by setInterval. */
  type TimerId = nat

  /** handleTouchEnd's long-press threshold, in milliseconds. */
  const LongPressMs: int := 300

  /** The four listeners that end a press. */
  datatype ReleaseEvent = MouseUpEvent | MouseLeaveEvent | TouchEndEvent | TouchCancelEvent

  /**
   * The keyboard's fields (language, shift, held key, repeat handle, touch start time),
   * the text field it edits, and the host's live intervals with the next handle it hands out.
   */
  datatype KbState = KbState(lang: Lang, shift: bool, buffer: Buffer, activeKey: Option<Key>,
                             backspaceInterval: Option<TimerId>, live: set<TimerId>,
                             nextTimer: TimerId, touchStartTime: int)
  {
    /** Handles are positive and issued in increasing order. */
    predicate Valid() {
      && buffer.Valid()
      && 0 < nextTimer
      && (forall h :: h in live ==> 0 < h < nextTimer)
      && (backspaceInterval.Some? ==> 0 < backspaceInterval.value < nextTimer)
    }
  }

  /** Stops the interval with handle `h`; a null handle is ignored. */
  function ClearInterval(live: set<TimerId>, h: Option<TimerId>): (r: set<TimerId>)
    ensures r <= live
    ensures h.Some? ==> h.value !in r && r + {h.value} >= live
    ensures h.None? ==> r == live
  {
    match h
    case Some(id) => live - {id}
    case None => live
  }

  /** handleKeyPress: backspace deletes and starts a repeat; a character key inserts its character. */
  function KeyPress(s: KbState, k: Key): (r: KbState)
    requires s.Valid() && Pressable(s.lang, s.shift, k)
    ensures r.Valid()
    // only the text field and the timers change
    ensures r.lang == s.lang && r.shift == s.shift && r.activeKey == s.activeKey
    ensures r.touchStartTime == s.touchStartTime
    // a press never stops an interval that is already running
    ensures s.live <= r.live && s.nextTimer <= r.nextTimer
    ensures k.id != BackspaceId ==> r.live == s.live && r.backspaceInterval == s.backspaceInterval
    ensures k.id != BackspaceId ==> r.nextTimer == s.nextTimer
    // backspace deletes once and starts a fresh interval under a new handle
    ensures k.id == BackspaceId ==>
              && r.buffer == DeleteBackward(s.buffer)
              && r.backspaceInterval == Some(s.nextTimer) && s.nextTimer !in s.live
              && r.live == s.live + {s.nextTimer} && r.nextTimer == s.nextTimer + 1
    // a character key inserts its character at the selection
    ensures k.id != BackspaceId && Truthy(k.ch) ==>
              r == s.(buffer := Insert(s.buffer, PressedChar(s.lang, s.shift, k).value))
    // any other key (no data-char, or an empty one) changes nothing
    ensures k.id != BackspaceId && !Truthy(k.ch) ==> r == s
  {
    if k.id == BackspaceId then
      s.(buffer := DeleteBackward(s.buffer), backspaceInterval := Some(s.nextTimer),
         live := s.live + {s.nextTimer}, nextTimer := s.nextTimer + 1)
    else if Truthy(k.ch) then
      s.(buffer := Insert(s.buffer, PressedChar(s.lang, s.shift, k).value))
    else
      s
  }

  /** handleMouseDown on the hit-tested key (None when the target is not a key). */
  function PressStart(s: KbState, target: Option<Key>): (r: KbState)
    requires s.Valid() && (target.Some? ==> Pressable(s.lang, s.shift, target.value))
    ensures r.Valid() && r.lang == s.lang && r.shift == s.shift
    // a press outside every key changes nothing
    ensures target.None? ==> r == s
    // a press on a key makes it the active key, then types or deletes as handleKeyPress does
    ensures target.Some? ==> r.activeKey == target
    ensures target.Some? ==> r == KeyPress(s, target.value).(activeKey := target)
  {
    match target
    case None => s
    case Some(k) => KeyPress(s.(activeKey := target), k)
  }

  /** handleTouchStart: records the start time, then acts as a mouse press. */
  function TouchStart(s: KbState, target: Option<Key>, now: int): (r: KbState)
    requires s.Valid() && (target.Some? ==> Pressable(s.lang, s.shift, target.value))
    ensures r.Valid() && r.lang == s.lang && r.shift == s.shift && r.touchStartTime == now
    ensures target.None? ==> r == s.(touchStartTime := now)
    ensures target.Some? ==> r.activeKey == target
    ensures target.Some? ==> r == KeyPress(s, target.value).(activeKey := target, touchStartTime := now)
  {
    PressStart(s.(touchStartTime := now), target)
  }

  /** handleMouseUp (mouseup and mouseleave). */
  function MouseUp(s: KbState): (r: KbState)
    requires s.Valid()
    ensures r.Valid() && r.activeKey.None?
    ensures r.buffer == s.buffer && r.lang == s.lang && r.shift == s.shift
    // the repeat handle is cleared, but the field keeps the stale handle
    ensures r.live <= s.live && r.backspaceInterval == s.backspaceInterval
    ensures s.activeKey.Some? && s.backspaceInterval.Some? ==> s.backspaceInterval.value !in r.live
    ensures r.nextTimer == s.nextTimer && r.touchStartTime == s.touchStartTime
    // with a key held, exactly the current repeat handle stops; other live intervals survive
    ensures s.activeKey.Some? ==> r.live == ClearInterval(s.live, s.backspaceInterval)
    // a release with no key held changes nothing
    ensures s.activeKey.None? ==> r == s
  {
    if s.activeKey.Some? then
      s.(activeKey := None, live := ClearInterval(s.live, s.backspaceInterval))
    else
      s
  }

  /** handleTouchEnd (touchend and touchcancel), with its long-press check. */
  function TouchEnd(s: KbState, now: int): (r: KbState)
    requires s.Valid()
    ensures r.Valid() && r.activeKey.None?
    ensures r.buffer == s.buffer && r.live <= s.live
    ensures r.nextTimer == s.nextTimer && r.touchStartTime == s.touchStartTime
    ensures s.activeKey.Some? ==> r.live == ClearInterval(s.live, s.backspaceInterval)
  {
    match s.activeKey
    case None => s
    case Some(k) =>
      var live := ClearInterval(s.live, s.backspaceInterval);
      var live' := if now - s.touchStartTime > LongPressMs && k.id == BackspaceId
                   then ClearInterval(live, s.backspaceInterval) else live;
      s.(activeKey := None, live := live')
  }

  /** The release listeners: mouseup and mouseleave call handleMouseUp, touchend and touchcancel handleTouchEnd. */
  function Release(s: KbState, ev: ReleaseEvent, now: int): (r: KbState)
    requires s.Valid()
    ensures r.Valid() && r.activeKey.None?
    ensures r.buffer == s.buffer && r.lang == s.lang && r.shift == s.shift
    ensures r.nextTimer == s.nextTimer && r.touchStartTime == s.touchStartTime
    ensures s.activeKey.Some? ==> r.live == ClearInterval(s.live, s.backspaceInterval)
  {
    match ev
    case MouseUpEvent => MouseUp(s)
    case MouseLeaveEvent => MouseUp(s)
    case TouchEndEvent => TouchEnd(s, now)
    case TouchCancelEvent => TouchEnd(s, now)
  }

  /** One firing of interval h: the callback `() => this.backspace()`, while h is live. */
  function Tick(s: KbState, h: TimerId): (r: KbState)
    requires s.Valid()
    ensures r.Valid()
    ensures h !in s.live ==> r == s
    ensures h in s.live ==> r == s.(buffer := DeleteBackward(s.buffer))
  {
    if h in s.live then s.(buffer := DeleteBackward(s.buffer)) else s
  }

  /** The long-press branch of handleTouchEnd clears a handle already cleared: touch and mouse releases agree. */
  lemma TouchEndIsMouseUp(s: KbState, now: int)
    requires s.Valid()
    ensures TouchEnd(s, now) == MouseUp(s)
  {
  }

  /** Every release path ends the press and stops the current repeat; none touches the text. */
  lemma ReleaseClearsRepeat(s: KbState, ev: ReleaseEvent, now: int)
    requires s.Valid() && s.activeKey.Some?
    ensures var r := Release(s, ev, now);
      && r.activeKey.None? && r.buffer == s.buffer
      && r.live == ClearInterval(s.live, s.backspaceInterval)
  {
  }

  /** A press on a character key inserts exactly the primary glyph the key shows. */
  lemma PressTypesShownGlyph(s: KbState, k: Key)
    requires s.Valid() && Pressable(s.lang, s.shift, k)
    requires k.id != BackspaceId && Truthy(k.ch)
    ensures KeyPress(s, k).buffer == Insert(s.buffer, KeyLabel(s.lang, s.shift, k).primary)
  {
  }

  /** A press on backspace deletes once and starts a new interval, which fires backspace while it lives. */
  lemma BackspacePressStartsRepeat(s: KbState, k: Key)
    requires s.Valid() && k.id == BackspaceId
    ensures var r := KeyPress(s, k);
      && r.buffer == DeleteBackward(s.buffer)
      && r.backspaceInterval == Some(s.nextTimer)
      && s.nextTimer !in s.live && r.live == s.live + {s.nextTimer}
      && Tick(r, s.nextTimer).buffer == DeleteBackward(DeleteBackward(s.buffer))
  {
  }

  /**
   * Holding backspace from a state with no interval running, then releasing by any
   * path, stops the repeat: afterwards no interval fires.
   */
  lemma HeldBackspaceStopsAtRelease(s: KbState, k: Key, ev: ReleaseEvent, now: int, h: TimerId)
    requires s.Valid() && s.live == {} && k.id == BackspaceId
    ensures var held := PressStart(s, Some(k));
      && held.live == {s.nextTimer}
      && Release(held, ev, now).live == {}
      && Tick(Release(held, ev, now), h) == Release(held, ev, now)
  {
  }

  /**
   * A second press on backspace before the first is released overwrites the handle:
   * after the release the first interval is still live and keeps deleting.
   */
  lemma SecondBackspacePressLeaks(s: KbState, k: Key, ev: ReleaseEvent, now: int)
    requires s.Valid() && s.live == {} && k.id == BackspaceId
    ensures var r := Release(PressStart(PressStart(s, Some(k)), Some(k)), ev, now);
      && r.activeKey.None?
      && r.live == {s.nextTimer}
      && Tick(r, s.nextTimer).buffer == DeleteBackward(r.buffer)
  {
  }

  /**
   * One tap on a touch screen fires touchstart, touchend, then a synthesized
   * mousedown and mouseup on the same key: the character is inserted twice.
   */
  lemma TouchTapTypesTwice(s: KbState, k: Key, t0: int, t1: int)
    requires s.Valid() && Pressable(s.lang, s.shift, k)
    requires k.id != BackspaceId && Truthy(k.ch)
    ensures var c := PressedChar(s.lang, s.shift, k).value;
      var r := MouseUp(PressStart(TouchEnd(TouchStart(s, Some(k), t0), t1), Some(k)));
      && r.activeKey.None? && r.live == ClearInterval(s.live, s.backspaceInterval)
      && r.buffer == Insert(Insert(s.buffer, c), c)
  {
  }
}
