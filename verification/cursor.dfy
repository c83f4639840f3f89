/**
 * The line/column cursor: fed one character at a time, it moves to the next line on `\r`, `\n` or
 * `\r\n` (counted once), one column on whitespace and printable characters, and stays put on any
 * other control character. The .NET character classes are parameters.
 */
module Cursors {
  import opened Positions

  /** `char.IsWhiteSpace` and `char.IsControl`, which the model does not define. */
  datatype CharClasses = CharClasses(isWhiteSpace: char -> bool, isControl: char -> bool)

  datatype Cursor = Cursor(position: Position, lastChar: char)

  const NoChar: char := '\0'

  /** A fresh cursor: line 0, column 0, no previous character. */
  const Start: Cursor := Cursor(Position(0, 0), NoChar)

  /** `Push`: step the cursor over one character. */
  function Push(c: Cursor, ch: char, classes: CharClasses): (r: Cursor)
    ensures r.lastChar == ch
  {
    var position :=
      if c.lastChar == '\r' && ch == '\n' then c.position
      else if ch == '\r' || ch == '\n' then Newline(c.position)
      else if classes.isWhiteSpace(ch) || !classes.isControl(ch) then Advance(c.position, 1)
      else c.position;
    Cursor(position, ch)
  }

  /** The four cases of a step, each as the move it makes relative to the old position. */
  lemma PushCases(c: Cursor, ch: char, classes: CharClasses)
    ensures c.lastChar == '\r' && ch == '\n' ==> Push(c, ch, classes).position == c.position
    ensures !(c.lastChar == '\r' && ch == '\n') && (ch == '\r' || ch == '\n') ==>
              Push(c, ch, classes).position == Position(c.position.line + 1, 0)
    ensures ch != '\r' && ch != '\n' && (classes.isWhiteSpace(ch) || !classes.isControl(ch)) ==>
              Push(c, ch, classes).position == Position(c.position.line, c.position.column + 1)
    ensures ch != '\r' && ch != '\n' && !classes.isWhiteSpace(ch) && classes.isControl(ch) ==>
              Push(c, ch, classes).position == c.position
  {
  }

  /** `\r\n` moves to the start of the next line once, wherever the cursor was and whatever came before. */
  lemma CrLfIsOneNewline(c: Cursor, classes: CharClasses)
    ensures Push(Push(c, '\r', classes), '\n', classes).position == Position(c.position.line + 1, 0)
  {
  }

  /** Every step moves the cursor forward or leaves it in place; never back. */
  lemma PushNeverMovesBack(c: Cursor, ch: char, classes: CharClasses)
    ensures LessOrEqual(c.position, Push(c, ch, classes).position)
  {
  }

  /** Feeding a whole string, character by character. */
  function PushAll(c: Cursor, s: string, classes: CharClasses): (r: Cursor)
    ensures |s| > 0 ==> r.lastChar == s[|s| - 1]
    ensures |s| == 0 ==> r == c
    decreases |s|
  {
    if |s| == 0 then c else PushAll(Push(c, s[0], classes), s[1..], classes)
  }

  /** The line breaks of `s` after a character `prev`: each `\r`, and each `\n` not just after a `\r`. */
  function LineBreaks(prev: char, s: string): nat
    decreases |s|
  {
    if |s| == 0 then 0
    else (if s[0] == '\r' || (s[0] == '\n' && prev != '\r') then 1 else 0) + LineBreaks(s[0], s[1..])
  }

  /** The cursor's line counts the line breaks it was fed, with `\r\n` counted once. */
  lemma {:induction false} PushAllCountsLines(c: Cursor, s: string, classes: CharClasses)
    ensures PushAll(c, s, classes).position.line == c.position.line + LineBreaks(c.lastChar, s)
    decreases |s|
  {
    if |s| > 0 {
      PushAllCountsLines(Push(c, s[0], classes), s[1..], classes);
    }
  }

  /** Without line breaks, the line stays and the column counts the characters that are not control characters. */
  function Printable(s: string, classes: CharClasses): nat
  {
    if |s| == 0 then 0
    else (if classes.isWhiteSpace(s[0]) || !classes.isControl(s[0]) then 1 else 0) + Printable(s[1..], classes)
  }

  lemma {:induction false} PushAllOnOneLine(c: Cursor, s: string, classes: CharClasses)
    requires forall i :: 0 <= i < |s| ==> s[i] != '\r' && s[i] != '\n'
    ensures PushAll(c, s, classes).position == Position(c.position.line, c.position.column + Printable(s, classes))
    decreases |s|
  {
    if |s| > 0 {
      PushAllOnOneLine(Push(c, s[0], classes), s[1..], classes);
    }
  }
}
