/**
 * The text field the keyboard types into: its value and its selection range.
 * `insertText` and `backspace` are the only two ways the keyboard changes it.
 */
module TextBuffer {

  /** A snapshot of the field: its characters and the selection [selStart, selEnd). */
  datatype Buffer = Buffer(value: seq<char>, selStart: nat, selEnd: nat)
  {
    /** The browser keeps the selection inside the value. */
    predicate Valid() {
      selStart <= selEnd <= |value|
    }

    /** A plain caret: the selection is empty. */
    predicate Collapsed() {
      selStart == selEnd
    }
  }

  /** insertText: the selection is replaced by `text` and the caret lands right after it. */
  function Insert(b: Buffer, text: seq<char>): (r: Buffer)
    requires b.Valid()
    ensures r.Valid() && r.Collapsed()
    ensures r.selStart == b.selStart + |text|
    ensures |r.value| == |b.value| - (b.selEnd - b.selStart) + |text|
    // the text before the selection, the inserted text, then the text after the selection
    ensures r.value[..b.selStart] == b.value[..b.selStart]
    ensures r.value[b.selStart..r.selStart] == text
    ensures r.value[r.selStart..] == b.value[b.selEnd..]
  {
    var v := b.value[..b.selStart] + text + b.value[b.selEnd..];
    assert v[..b.selStart] == b.value[..b.selStart];
    assert v[b.selStart..b.selStart + |text|] == text;
    assert v[b.selStart + |text|..] == b.value[b.selEnd..];
    Buffer(v, b.selStart + |text|, b.selStart + |text|)
  }

  /**
   * backspace: a caret at 0 changes nothing; a caret at p > 0 removes the character
   * before it; a non-empty selection is deleted.
   */
  function DeleteBackward(b: Buffer): (r: Buffer)
    requires b.Valid()
    ensures r.Valid() && r.Collapsed()
    ensures b.Collapsed() && b.selStart == 0 ==> r == b
    // a caret at p > 0 loses exactly value[p-1]: typing that character back restores the field
    ensures b.Collapsed() && b.selStart > 0 ==>
              |r.value| == |b.value| - 1 && r.selStart == b.selStart - 1 &&
              Insert(r, [b.value[b.selStart - 1]]) == b
    // a selection is deleted as if empty text were typed over it
    ensures !b.Collapsed() ==> r == Insert(b, [])
  {
    var start, end := b.selStart, b.selEnd;
    if start == 0 && start == end then
      b
    else if start == end then
      var r := Buffer(b.value[..start - 1] + b.value[start..], start - 1, start - 1);
      assert b.value == r.value[..start - 1] + [b.value[start - 1]] + r.value[start - 1..];
      r
    else
      Buffer(b.value[..start] + b.value[end..], start, start)
  }

  /** `n` backspaces in a row. */
  function DeleteBackwardTimes(b: Buffer, n: nat): (r: Buffer)
    requires b.Valid()
    ensures r.Valid()
    decreases n
  {
    if n == 0 then b else DeleteBackwardTimes(DeleteBackward(b), n - 1)
  }

  /** Backspace changes the field unless the caret sits collapsed at position 0. */
  lemma DeleteBackwardNoOpIff(b: Buffer)
    requires b.Valid()
    ensures DeleteBackward(b) == b <==> b.Collapsed() && b.selStart == 0
  {
  }

  /** Typing over the selection and erasing the last typed character is typing one character less. */
  lemma DeleteAfterInsert(b: Buffer, text: seq<char>)
    requires b.Valid() && |text| > 0
    ensures DeleteBackward(Insert(b, text)) == Insert(b, text[..|text| - 1])
  {
    var ins := Insert(b, text);
    var v, p, e := b.value, b.selStart, b.selEnd;
    assert ins.value == v[..p] + text[..|text| - 1] + [text[|text| - 1]] + v[e..];
  }

  lemma ShorterPrefix(text: seq<char>, k: nat)
    requires 0 < k <= |text|
    ensures text[..|text| - 1][..|text| - k] == text[..|text| - k]
  {
  }

  /** Erasing k of the characters just typed over the selection leaves the rest of the typing. */
  lemma {:induction false} EraseTyped(b: Buffer, text: seq<char>, k: nat)
    requires b.Valid() && k <= |text|
    ensures DeleteBackwardTimes(Insert(b, text), k) == Insert(b, text[..|text| - k])
    decreases k
  {
    if k == 0 {
      assert text[..|text|] == text;
    } else {
      DeleteAfterInsert(b, text);
      EraseTyped(b, text[..|text| - 1], k - 1);
      ShorterPrefix(text, k);
    }
  }

  /** Typing `text` at a plain caret and pressing backspace |text| times restores the field. */
  lemma {:induction false} TypeThenEraseRestores(b: Buffer, text: seq<char>)
    requires b.Valid() && b.Collapsed()
    ensures DeleteBackwardTimes(Insert(b, text), |text|) == b
  {
    EraseTyped(b, text, |text|);
    assert b.value[..b.selStart] + [] + b.value[b.selEnd..] == b.value;
  }

  /** "Hello", caret at 5: typing " World" gives "Hello World" with the caret at 11; six backspaces undo it. */
  lemma HelloWorld()
    ensures Insert(Buffer("Hello", 5, 5), " World") == Buffer("Hello World", 11, 11)
    ensures DeleteBackwardTimes(Buffer("Hello World", 11, 11), 6) == Buffer("Hello", 5, 5)
  {
    assert "Hello"[..5] + " World" + "Hello"[5..] == "Hello World";
    TypeThenEraseRestores(Buffer("Hello", 5, 5), " World");
  }

  /** The host page's text field, whose value and selection the keyboard overwrites. */
  class TextField {
    var value: seq<char>
    var selStart: nat
    var selEnd: nat

    ghost predicate Valid()
      reads this
    {
      Snapshot().Valid()
    }

    ghost function Snapshot(): Buffer
      reads this
    {
      Buffer(value, selStart, selEnd)
    }

    constructor (value: seq<char>, selStart: nat, selEnd: nat)
      requires selStart <= selEnd <= |value|
      ensures Valid() && Snapshot() == Buffer(value, selStart, selEnd)
    {
      this.value := value;
      this.selStart := selStart;
      this.selEnd := selEnd;
    }

    method InsertText(text: seq<char>)
      requires Valid()
      modifies this
      ensures Valid() && Snapshot() == Insert(old(Snapshot()), text)
    {
      var start := selStart;
      var end := selEnd;
      value := value[..start] + text + value[end..];
      selEnd := start + |text|;
      selStart := selEnd;
    }

    method Backspace()
      requires Valid()
      modifies this
      ensures Valid() && Snapshot() == DeleteBackward(old(Snapshot()))
    {
      var start := selStart;
      var end := selEnd;
      if start == 0 && start == end {
        return;
      }
      if start == end {
        value := value[..start - 1] + value[start..];
        selEnd := start - 1;
        selStart := selEnd;
      } else {
        value := value[..start] + value[end..];
        selEnd := start;
        selStart := selEnd;
      }
    }
  }
}
