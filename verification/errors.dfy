/**
 * The diagnostic produced when the top-level rule fails: the furthest
 * failure position `max`, and the last commit position `min`, translated to
 * line and column.
 */
module Errors {
  import opened Common

  /** A line and column; the Go zero value is line 0, column 0. */
  datatype ErrPos = ErrPos(line: int, col: int)

  datatype ParseError =
    | UnexpectedEOF(after: ErrPos)
    | UnexpectedChar(after: ErrPos, at: ErrPos, found: Byte)

  /**
   * The line and column after scanning `s` from the start of the buffer:
   * lines count from 1 and go up by one at each newline, which resets the
   * column to 0; any other byte moves the column on by one.
   */
  function PosAfter(s: Bytes): ErrPos
    decreases |s|
  {
    if s == [] then ErrPos(1, 0)
    else
      var before := PosAfter(s[..|s| - 1]);
      if s[|s| - 1] == '\n' then ErrPos(before.line + 1, 0) else ErrPos(before.line, before.col + 1)
  }

  /** How many newlines `s` holds. */
  function Newlines(s: Bytes): nat {
    multiset(s)['\n']
  }

  /** The line is one more than the number of newlines scanned. */
  lemma {:induction false} LineCountsNewlines(s: Bytes)
    ensures PosAfter(s).line == 1 + Newlines(s)
    decreases |s|
  {
    if s != [] {
      LineCountsNewlines(s[..|s| - 1]);
      assert s == s[..|s| - 1] + [s[|s| - 1]];
    }
  }

  /** The column is the number of bytes scanned since the last newline. */
  lemma {:induction false} ColumnCountsSinceNewline(s: Bytes, t: Bytes)
    requires '\n' !in t
    ensures PosAfter(s + ['\n'] + t).col == |t|
    ensures PosAfter(s + ['\n'] + t).line == PosAfter(s).line + 1
    decreases |t|
  {
    if t != [] {
      var u := s + ['\n'] + t;
      assert u[..|u| - 1] == s + ['\n'] + t[..|t| - 1];
      ColumnCountsSinceNewline(s, t[..|t| - 1]);
    } else {
      assert s + ['\n'] + t == s + ['\n'];
      assert (s + ['\n'])[..|s|] == s;
    }
  }

  /** Before the first newline the column is the number of bytes scanned. */
  lemma {:induction false} ColumnOnFirstLine(t: Bytes)
    requires '\n' !in t
    ensures PosAfter(t) == ErrPos(1, |t|)
    decreases |t|
  {
    if t != [] {
      ColumnOnFirstLine(t[..|t| - 1]);
    }
  }

  /**
   * `parseErr`: scan the buffer up to `max`, noting the position reached at
   * `min` (when `min` comes before `max`) as where the error comes after.
   * If `max` is at or past the end it is an unexpected end of input;
   * otherwise it is an unexpected `buffer[max]` at the position reached at
   * `max`.  When `min` is not before `max` the "after" position keeps its zero
   * value.
   */
  method ParseErr(buffer: Bytes, min: nat, max: nat) returns (err: ParseError)
    ensures err.UnexpectedEOF? <==> max >= |buffer|
    ensures err.UnexpectedChar? ==> err.found == buffer[max] && err.at == PosAfter(buffer[..max + 1])
    ensures min < max && min < |buffer| ==> err.after == PosAfter(buffer[..min + 1])
    ensures !(min < max && min < |buffer|) ==> err.after == ErrPos(0, 0)
  {
    var pos := ErrPos(1, 0);
    var after := ErrPos(0, 0);
    var i := 0;
    while i < |buffer|
      invariant 0 <= i <= |buffer|
      invariant pos == PosAfter(buffer[..i])
      invariant min < i && min < max ==> after == PosAfter(buffer[..min + 1])
      invariant !(min < i && min < max) ==> after == ErrPos(0, 0)
      invariant i <= max
      decreases |buffer| - i
    {
      assert buffer[..i + 1][..i] == buffer[..i];
      if buffer[i] == '\n' {
        pos := ErrPos(pos.line + 1, 0);
      } else {
        pos := ErrPos(pos.line, pos.col + 1);
      }
      if i == min {
        if min != max {
          after := pos;
        } else {
          break;
        }
      } else if i == max {
        break;
      }
      i := i + 1;
    }
    if max >= |buffer| {
      err := UnexpectedEOF(after);
    } else {
      err := UnexpectedChar(after, pos, buffer[max]);
    }
  }
}
