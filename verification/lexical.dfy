/**
 * Small byte-level grammar rules: line endings, leading spaces and
 * indentation, the opening `#` run of an ATX heading, and the alignment
 * cells of a table's separator row.  Each rule is written over the matching
 * primitives exactly as the generated code composes them, including where a
 * failed primitive records the furthest failure.
 */
module Lexical {
  import opened Common
  import opened Elements
  import opened Machine

  /** `n` copies of `c`: the literal strings "   ", "######" and so on. */
  function Repeat(c: Byte, n: nat): (s: Bytes)
    ensures |s| == n && forall k :: 0 <= k < n ==> s[k] == c
  {
    seq(n, _ => c)
  }

  /** A stretch of `n` copies of `c` at `i` makes the run there at least `n` long. */
  lemma RunAtLeast(b: Bytes, i: nat, c: Byte, n: nat)
    requires i + n <= |b| && forall k :: i <= k < i + n ==> b[k] == c
    ensures Run(b, i, c) >= n
  {
  }

  /** The buffer continues at `i` with `n` copies of `c` exactly when the run of `c` there is at least `n` long. */
  lemma OccursAtRun(b: Bytes, i: nat, c: Byte, n: nat)
    requires i <= |b|
    ensures OccursAt(b, i, Repeat(c, n)) <==> Run(b, i, c) >= n
  {
    if OccursAt(b, i, Repeat(c, n)) {
      forall k | i <= k < i + n ensures b[k] == c {
        assert b[i..i + n][k - i] == b[k];
      }
      RunAtLeast(b, i, c, n);
    }
    if Run(b, i, c) >= n {
      RunIsUniform(b, i, c);
      assert b[i..i + n] == Repeat(c, n);
    }
  }

  /**
   * The generated longest-first choice `c^n / ... / c^2 / c`: each literal is
   * tried with `matchString`, the last with `matchChar`, so a run shorter
   * than `n` records one failure at the start.
   */
  function {:induction false} LongestRun(p: Parser, c: Byte, n: nat): (r: Step)
    requires 1 <= n && p.position <= |p.buffer|
    ensures r.ok <==> Run(p.buffer, p.position, c) >= 1
    ensures r.ok ==> r.p.position == p.position + Min(n, Run(p.buffer, p.position, c))
    ensures !r.ok ==> r.p.position == p.position
    ensures r.p.max == if Run(p.buffer, p.position, c) >= n then p.max else Max(p.max, p.position)
    ensures r.p == p.(position := r.p.position, max := r.p.max)
    decreases n
  {
    if n == 1 then MatchChar(p, c)
    else
      var m := MatchString(p, Repeat(c, n));
      OccursAtRun(p.buffer, p.position, c, n);
      if m.ok then m else LongestRun(m.p, c, n - 1)
  }

  /** The `Spacechar` bytes: a tab or a space. */
  predicate IsSpacechar(c: Byte) {
    c == '\t' || c == ' '
  }

  /** The number of consecutive tabs and spaces in `s` from `i`. */
  function SpacecharRun(s: Bytes, i: nat): (n: nat)
    requires i <= |s|
    ensures i + n <= |s|
    decreases |s| - i
  {
    if i < |s| && IsSpacechar(s[i]) then 1 + SpacecharRun(s, i + 1) else 0
  }

  /** The run is exactly the tabs and spaces at `i`: all of them, and no further. */
  lemma {:induction false} SpacecharRunIsMaximal(s: Bytes, i: nat)
    requires i <= |s|
    ensures forall k :: i <= k < i + SpacecharRun(s, i) ==> IsSpacechar(s[k])
    ensures i + SpacecharRun(s, i) < |s| ==> !IsSpacechar(s[i + SpacecharRun(s, i)])
    decreases |s| - i
  {
    if i < |s| && IsSpacechar(s[i]) {
      SpacecharRunIsMaximal(s, i + 1);
    }
  }

  /** `Spacechar`: one tab or space.  Its switch fails without recording a failure. */
  function Spacechar(p: Parser): (r: Step)
    requires p.position <= |p.buffer|
    ensures r.ok <==> p.position < |p.buffer| && IsSpacechar(p.buffer[p.position])
    ensures r.ok ==> r.p == p.(position := p.position + 1)
    ensures !r.ok ==> r.p == p
  {
    if p.position == |p.buffer| then Step(false, p)
    else if p.buffer[p.position] == '\t' then Step(true, p.(position := p.position + 1))
    else if p.buffer[p.position] == ' ' then Step(true, p.(position := p.position + 1))
    else Step(false, p)
  }

  /** `Sp`: any run of tabs and spaces; it always succeeds and consumes the whole run. */
  function {:induction false} Sp(p: Parser): (r: Step)
    requires p.position <= |p.buffer|
    ensures r.ok && r.p == p.(position := p.position + SpacecharRun(p.buffer, p.position))
    decreases |p.buffer| - p.position
  {
    var s := Spacechar(p);
    if s.ok then Sp(s.p) else Step(true, p)
  }

  /**
   * `Newline`: a carriage return with an optional line feed after it, or a
   * line feed.  Anything else, or the end of the buffer, fails and leaves
   * the state as it was.
   */
  function Newline(p: Parser): (r: Step)
    requires Valid(p)
    ensures r.ok <==> At(p.buffer, p.position, '\r') || At(p.buffer, p.position, '\n')
    ensures r.ok && At(p.buffer, p.position, '\r') && At(p.buffer, p.position + 1, '\n') ==>
      r.p.position == p.position + 2
    ensures r.ok && !(At(p.buffer, p.position, '\r') && At(p.buffer, p.position + 1, '\n')) ==>
      r.p.position == p.position + 1
    ensures !r.ok ==> r.p == p
    ensures Valid(r.p) && Evolves(p, r.p)
  {
    if p.position == |p.buffer| then Step(false, p)
    else if p.buffer[p.position] == '\r' then
      Step(true, MatchChar(p.(position := p.position + 1), '\n').p)
    else if p.buffer[p.position] == '\n' then
      Step(true, p.(position := p.position + 1))
    else Step(false, p)
  }

  /**
   * `NonindentSpace`: up to three spaces, the longest available; it never
   * fails.
   */
  function NonindentSpace(p: Parser): (r: Step)
    requires Valid(p)
    ensures Valid(r.p) && Evolves(p, r.p) && Queue(r.p) == Queue(p)
    ensures r.ok
    ensures r.p.position == p.position + Min(3, Run(p.buffer, p.position, ' '))
  {
    Step(true, LongestRun(p, ' ', 3).p)
  }

  /**
   * `Indent` as generated: four spaces or one tab.  On a space the switch
   * consumes it before trying the other three, and on failure returns
   * without putting it back: the position is left one byte on.
   */
  function IndentAsWritten(p: Parser): (r: Step)
    requires Valid(p)
    ensures Valid(r.p) && Evolves(p, r.p) && Queue(r.p) == Queue(p)
    ensures r.ok <==> OccursAt(p.buffer, p.position, Repeat(' ', 4)) || At(p.buffer, p.position, '\t')
    ensures r.ok && At(p.buffer, p.position, '\t') ==> r.p.position == p.position + 1
    ensures r.ok && At(p.buffer, p.position, ' ') ==> r.p.position == p.position + 4
    ensures !r.ok && At(p.buffer, p.position, ' ') ==> r.p.position == p.position + 1
    ensures !r.ok && !At(p.buffer, p.position, ' ') ==> r.p == p
  {
    if p.position == |p.buffer| then Step(false, p)
    else if p.buffer[p.position] == ' ' then
      var m := MatchString(p.(position := p.position + 1), Repeat(' ', 3));
      assert OccursAt(p.buffer, p.position, Repeat(' ', 4)) <==> OccursAt(p.buffer, p.position + 1, Repeat(' ', 3)) by {
        OccursAtRun(p.buffer, p.position, ' ', 4);
        OccursAtRun(p.buffer, p.position + 1, ' ', 3);
      }
      if m.ok then Step(true, m.p) else Step(false, m.p)
    else if p.buffer[p.position] == '\t' then Step(true, p.(position := p.position + 1))
    else
      OccursAtRun(p.buffer, p.position, ' ', 4);
      Step(false, p)
  }

  /**
   * A line with one to three leading spaces shows it: `Indent` fails, yet the
   * position has moved past the first space, so a rule that goes on without
   * restoring it (the optional `Indent?` of `OptionallyIndentedLine`) starts
   * its next item one byte late.
   */
  lemma IndentAsWrittenLosesSpace()
    ensures var p := Initial("  x");
      !IndentAsWritten(p).ok && IndentAsWritten(p).p.position == 1
  {
  }

  /**
   * `Indent` as evidently intended: four spaces or one tab, and on failure
   * the position it started from, like the rules that save and restore it.
   */
  function Indent(p: Parser): (r: Step)
    requires Valid(p)
    ensures Valid(r.p) && Evolves(p, r.p) && Queue(r.p) == Queue(p)
    ensures r.ok <==> OccursAt(p.buffer, p.position, Repeat(' ', 4)) || At(p.buffer, p.position, '\t')
    ensures r.ok && At(p.buffer, p.position, '\t') ==> r.p.position == p.position + 1
    ensures r.ok && At(p.buffer, p.position, ' ') ==> r.p.position == p.position + 4
    ensures !r.ok ==> r.p.position == p.position
  {
    Attempt(p, IndentAsWritten(p))
  }

  /** The action `AtxStart` records. */
  const AtxStartAction := 5

  /**
   * `AtxStart`: on a `#`, consume the longest run of up to six, mark it as
   * the span `begin..end` and record the heading action for it.
   */
  function AtxStart(p: Parser): (r: Step)
    requires Valid(p)
    ensures Valid(r.p) && Evolves(p, r.p)
    ensures r.ok <==> At(p.buffer, p.position, '#')
    ensures r.ok ==> r.p.position == p.position + Min(6, Run(p.buffer, p.position, '#'))
    ensures r.ok ==> OccursAt(p.buffer, p.position, Repeat('#', r.p.position - p.position))
    ensures r.ok ==> Queue(r.p) == Queue(p) + [Thunk(AtxStartAction, p.position, r.p.position)]
    ensures !r.ok ==> r.p == p
  {
    if !PeekChar(p, '#') then Step(false, p)
    else
      var hashes := LongestRun(p.(begin := p.position), '#', 6);
      OccursAtRun(p.buffer, p.position, '#', Min(6, Run(p.buffer, p.position, '#')));
      if !hashes.ok then Step(false, hashes.p.(position := p.position))
      else
        var marked := hashes.p.(end := hashes.p.position);
        DoArgEvolves(marked, AtxStartAction, 0);
        Step(true, Do(marked, AtxStartAction))
  }

  /** The action of `AtxStart`: a heading element one level deeper per `#` after the first. */
  function AtxAction(yytext: Bytes): (e: Element)
    ensures e.key - H1 + 1 == |yytext|
    ensures 1 <= |yytext| <= 6 ==> H1 <= e.key <= H6
    ensures e.str == [] && e.link.None? && e.children.Nil?
  {
    MkElem(H1 + (|yytext| - 1))
  }

  /**
   * The span `AtxStart` records is a run of one to six `#`, so when its
   * thunk is replayed the action is given that run as its text and makes a
   * heading element from H1 to H6 whose level is the number of `#` consumed.
   */
  lemma AtxStartHeadingLevel(p: Parser, text: Bytes)
    requires Valid(p) && AtxStart(p).ok
    requires text == p.buffer[p.position..AtxStart(p).p.position]
    ensures Queue(AtxStart(p).p)[p.thunkPosition] == Thunk(AtxStartAction, p.position, p.position + |text|)
    ensures 1 <= |text| <= 6 && |text| == Min(6, Run(p.buffer, p.position, '#'))
    ensures text == Repeat('#', |text|)
    ensures AtxAction(text).key == H1 + |text| - 1 && H1 <= AtxAction(text).key <= H6
  {
  }

  /** Neither `-` nor `:` follows at `k`. */
  predicate Boundary(b: Bytes, k: int) {
    !At(b, k, '-') && !At(b, k, ':')
  }

  /** The six column alignments of a separator row, in the order the generated choice tries them. */
  datatype Align = LeftWrap | CenterWrap | RightWrap | Left | Right | Center

  /** The action each alignment rule records. */
  function AlignAction(a: Align): int {
    match a
    case LeftWrap => 133
    case Left => 134
    case CenterWrap => 135
    case Center => 136
    case RightWrap => 137
    case Right => 138
  }

  /** The one-letter string each alignment action makes: upper case for wrapped columns. */
  function AlignLetter(a: Align): Bytes {
    match a
    case LeftWrap => "L"
    case Left => "l"
    case CenterWrap => "C"
    case Center => "c"
    case RightWrap => "R"
    case Right => "r"
  }

  /** Where `':'? '-'+` ends when it matches at `i`: past an optional colon and a non-empty run of dashes. */
  function LeftPrefixEnd(b: Bytes, i: nat): (r: Option<nat>)
    requires i <= |b|
    ensures r.Some? ==> i < r.value <= |b|
  {
    var c := if At(b, i, ':') then 1 else 0;
    var d := Run(b, i + c, '-');
    if d >= 1 then Some(i + c + d) else None
  }

  /** Where `':' '-'*` ends when it matches at `i`: past a colon and any run of dashes. */
  function CenterPrefixEnd(b: Bytes, i: nat): (r: Option<nat>)
    requires i <= |b|
    ensures r.Some? ==> i < r.value <= |b|
  {
    if At(b, i, ':') then Some(i + 1 + Run(b, i + 1, '-')) else None
  }

  /** Where `'-'+` ends when it matches at `i`: past a non-empty run of dashes. */
  function RightPrefixEnd(b: Bytes, i: nat): (r: Option<nat>)
    requires i <= |b|
    ensures r.Some? ==> i < r.value <= |b|
  {
    var d := Run(b, i, '-');
    if d >= 1 then Some(i + d) else None
  }

  /**
   * How many bytes the alignment `a`'s pattern matches at `i`, if it does:
   *   LeftWrap   `:`? `-`+ `+`    Left   `:`? `-`+
   *   CenterWrap `:` `-`* `+` `:` Center `:` `-`* `:`
   *   RightWrap  `-`+ `:` `+`     Right  `-`+ `:`
   * each followed by neither `-` nor `:`.
   */
  function Shape(b: Bytes, i: nat, a: Align): (r: Option<nat>)
    requires i <= |b|
    ensures r.Some? ==> 1 <= r.value && i + r.value <= |b|
  {
    match a
    case LeftWrap =>
      var e := LeftPrefixEnd(b, i);
      if e.Some? && At(b, e.value, '+') && Boundary(b, e.value + 1) then Some(e.value + 1 - i) else None
    case Left =>
      var e := LeftPrefixEnd(b, i);
      if e.Some? && Boundary(b, e.value) then Some(e.value - i) else None
    case CenterWrap =>
      var e := CenterPrefixEnd(b, i);
      if e.Some? && At(b, e.value, '+') && At(b, e.value + 1, ':') && Boundary(b, e.value + 2) then Some(e.value + 2 - i) else None
    case Center =>
      var e := CenterPrefixEnd(b, i);
      if e.Some? && At(b, e.value, ':') && Boundary(b, e.value + 1) then Some(e.value + 1 - i) else None
    case RightWrap =>
      var e := RightPrefixEnd(b, i);
      if e.Some? && At(b, e.value, ':') && At(b, e.value + 1, '+') && Boundary(b, e.value + 2) then Some(e.value + 2 - i) else None
    case Right =>
      var e := RightPrefixEnd(b, i);
      if e.Some? && At(b, e.value, ':') && Boundary(b, e.value + 1) then Some(e.value + 1 - i) else None
  }

  /** What the alignment rules need of the state: a position inside the buffer and a usable queue. */
  predicate Ready(p: Parser) {
    p.position <= |p.buffer| && 0 < |p.thunks| && p.thunkPosition <= |p.thunks|
  }

  /**
   * The outcome `o` describes step `r` from `p`: on `Some(a)` the rule
   * consumed `a`'s pattern and recorded `a`'s action, on `None` it failed
   * and only the furthest failure may have moved on.
   */
  predicate Outcome(p: Parser, r: Step, o: Option<Align>)
    requires Ready(p)
  {
    && r.p.max >= p.max
    && (r.ok <==> o.Some?)
    && match o
       case Some(a) =>
         && Shape(p.buffer, p.position, a).Some?
         && r.p == Do(p, AlignAction(a)).(position := p.position + Shape(p.buffer, p.position, a).value, max := r.p.max)
       case None => r.p == p.(max := r.p.max)
  }

  /** The outcome of trying alignment `a` alone: it, if its pattern matches. */
  function Tried(b: Bytes, i: nat, a: Align): Option<Align>
    requires i <= |b|
  {
    if Shape(b, i, a).Some? then Some(a) else None
  }

  /**
   * Read as parser states: after an outcome the state is valid and has only
   * evolved; a success sits after the pattern with one more thunk queued, a
   * failure sits where it started with the queue as it was.
   */
  lemma OutcomeEvolves(p: Parser, r: Step, o: Option<Align>)
    requires Valid(p) && Outcome(p, r, o)
    ensures Valid(r.p) && Evolves(p, r.p) && r.p.begin == p.begin && r.p.end == p.end
    ensures o.Some? ==> r.p.position == p.position + Shape(p.buffer, p.position, o.value).value
    ensures o.Some? ==> Queue(r.p) == Queue(p) + [Thunk(AlignAction(o.value), p.begin, p.end)]
    ensures o.None? ==> r.p.position == p.position && Queue(r.p) == Queue(p)
  {
  }

  /** `c*`: consume the whole run of `c`; the final failed attempt records a failure where the run ends. */
  function {:induction false} StarChar(p: Parser, c: Byte): (r: Parser)
    requires p.position <= |p.buffer|
    ensures r.position == p.position + Run(p.buffer, p.position, c)
    ensures r == p.(position := r.position, max := Max(p.max, r.position))
    decreases |p.buffer| - p.position
  {
    var m := MatchChar(p, c);
    if m.ok then StarChar(m.p, c) else m.p
  }

  /** A failed alignment rule: back to where it started, keeping the furthest failure. */
  function Reject(start: Parser, now: Parser): (r: Step)
    ensures !r.ok && r.p == now.(position := start.position)
  {
    Step(false, now.(position := start.position))
  }

  /** The lookahead `&(!'-' !':')` every alignment rule ends with, then its action. */
  function Finish(start: Parser, now: Parser, a: Align): (r: Step)
    requires 0 < |start.thunks| && start.thunkPosition <= |start.thunks|
    requires now == start.(position := now.position, max := now.max)
    ensures r.ok <==> Boundary(now.buffer, now.position)
    ensures r.ok ==> r.p == Do(start, AlignAction(a)).(position := now.position, max := now.max)
    ensures !r.ok ==> r.p == start.(max := now.max)
  {
    DoMoves(start, AlignAction(a), now.position, now.max);
    if PeekChar(now, '-') || PeekChar(now, ':') then Reject(start, now)
    else Step(true, Do(now, AlignAction(a)))
  }

  /**
   * Step `r` from `p` matched a prefix exactly when the prefix ends at `e`:
   * it then sits at the prefix's end; otherwise it is back where it started.
   */
  predicate PrefixOutcome(p: Parser, r: Step, e: Option<nat>) {
    && r.p.max >= p.max
    && (r.ok <==> e.Some?)
    && (r.ok ==> r.p == p.(position := e.value, max := r.p.max))
    && (!r.ok ==> r.p == p.(max := r.p.max))
  }

  /** The prefix `':'? '-'+` both left alignments start with. */
  function LeftPrefix(p: Parser): (r: Step)
    requires Ready(p)
    ensures PrefixOutcome(p, r, LeftPrefixEnd(p.buffer, p.position))
  {
    var b, i := p.buffer, p.position;
    var c := if At(b, i, ':') then 1 else 0;
    var colon := MatchChar(p, ':');
    assert colon.p.position == i + c;
    var dash := MatchChar(colon.p, '-');
    if !dash.ok then Reject(p, dash.p)
    else Step(true, StarChar(dash.p, '-'))
  }

  /** The prefix `':' '-'*` both centred alignments start with. */
  function CenterPrefix(p: Parser): (r: Step)
    requires Ready(p)
    ensures PrefixOutcome(p, r, CenterPrefixEnd(p.buffer, p.position))
  {
    var colon := MatchChar(p, ':');
    if !colon.ok then Reject(p, colon.p)
    else Step(true, StarChar(colon.p, '-'))
  }

  /** The prefix `'-'+` both right alignments start with. */
  function RightPrefix(p: Parser): (r: Step)
    requires Ready(p)
    ensures PrefixOutcome(p, r, RightPrefixEnd(p.buffer, p.position))
  {
    var dash := MatchChar(p, '-');
    if !dash.ok then Reject(p, dash.p)
    else Step(true, StarChar(dash.p, '-'))
  }

  /** `LeftAlignWrap <- ':'? '-'+ '+' &(!'-' !':')`. */
  function LeftAlignWrap(p: Parser): (r: Step)
    requires Ready(p)
    ensures Outcome(p, r, Tried(p.buffer, p.position, LeftWrap))
  {
    var dashes := LeftPrefix(p);
    if !dashes.ok then dashes
    else
      var plus := MatchChar(dashes.p, '+');
      if !plus.ok then Reject(p, plus.p) else Finish(p, plus.p, LeftWrap)
  }

  /** `LeftAlign <- ':'? '-'+ &(!'-' !':')`. */
  function LeftAlign(p: Parser): (r: Step)
    requires Ready(p)
    ensures Outcome(p, r, Tried(p.buffer, p.position, Left))
  {
    var dashes := LeftPrefix(p);
    if !dashes.ok then dashes else Finish(p, dashes.p, Left)
  }

  /** `CenterAlignWrap <- ':' '-'* '+' ':' &(!'-' !':')`. */
  function CenterAlignWrap(p: Parser): (r: Step)
    requires Ready(p)
    ensures Outcome(p, r, Tried(p.buffer, p.position, CenterWrap))
  {
    var dashes := CenterPrefix(p);
    if !dashes.ok then dashes
    else
      var plus := MatchChar(dashes.p, '+');
      if !plus.ok then Reject(p, plus.p)
      else
        var close := MatchChar(plus.p, ':');
        if !close.ok then Reject(p, close.p) else Finish(p, close.p, CenterWrap)
  }

  /** `CenterAlign <- ':' '-'* ':' &(!'-' !':')`. */
  function CenterAlign(p: Parser): (r: Step)
    requires Ready(p)
    ensures Outcome(p, r, Tried(p.buffer, p.position, Center))
  {
    var dashes := CenterPrefix(p);
    if !dashes.ok then dashes
    else
      var close := MatchChar(dashes.p, ':');
      if !close.ok then Reject(p, close.p) else Finish(p, close.p, Center)
  }

  /** `RightAlignWrap <- '-'+ ':' '+' &(!'-' !':')`. */
  function RightAlignWrap(p: Parser): (r: Step)
    requires Ready(p)
    ensures Outcome(p, r, Tried(p.buffer, p.position, RightWrap))
  {
    var dashes := RightPrefix(p);
    if !dashes.ok then dashes
    else
      var colon := MatchChar(dashes.p, ':');
      if !colon.ok then Reject(p, colon.p)
      else
        var plus := MatchChar(colon.p, '+');
        if !plus.ok then Reject(p, plus.p) else Finish(p, plus.p, RightWrap)
  }

  /** `RightAlign <- '-'+ ':' &(!'-' !':')`. */
  function RightAlign(p: Parser): (r: Step)
    requires Ready(p)
    ensures Outcome(p, r, Tried(p.buffer, p.position, Right))
  {
    var dashes := RightPrefix(p);
    if !dashes.ok then dashes
    else
      var colon := MatchChar(dashes.p, ':');
      if !colon.ok then Reject(p, colon.p) else Finish(p, colon.p, Right)
  }

  /** The rule that recognises alignment `a`. */
  function AlignRule(p: Parser, a: Align): (r: Step)
    requires Ready(p)
    ensures Outcome(p, r, Tried(p.buffer, p.position, a))
  {
    match a
    case LeftWrap => LeftAlignWrap(p)
    case Left => LeftAlign(p)
    case CenterWrap => CenterAlignWrap(p)
    case Center => CenterAlign(p)
    case RightWrap => RightAlignWrap(p)
    case Right => RightAlign(p)
  }

  /** The first of `alts` whose pattern matches at `i`. */
  function FirstOf(b: Bytes, i: nat, alts: seq<Align>): (r: Option<Align>)
    requires i <= |b|
    ensures r.Some? ==> r.value in alts && Shape(b, i, r.value).Some?
    decreases |alts|
  {
    if alts == [] then None
    else if Shape(b, i, alts[0]).Some? then Some(alts[0])
    else FirstOf(b, i, alts[1..])
  }

  /**
   * The search finds the first match: nothing exactly when no alternative
   * matches, and otherwise an alternative that matches with none before it
   * matching.
   */
  lemma {:induction false} FirstOfIsFirst(b: Bytes, i: nat, alts: seq<Align>)
    requires i <= |b|
    ensures FirstOf(b, i, alts).None? <==> forall a :: a in alts ==> Shape(b, i, a).None?
    ensures FirstOf(b, i, alts).Some? ==> exists k :: (0 <= k < |alts| && alts[k] == FirstOf(b, i, alts).value &&
      forall j :: 0 <= j < k ==> Shape(b, i, alts[j]).None?)
    decreases |alts|
  {
    if alts != [] && Shape(b, i, alts[0]).None? {
      var r := FirstOf(b, i, alts[1..]);
      FirstOfIsFirst(b, i, alts[1..]);
      assert forall a :: a in alts ==> a == alts[0] || a in alts[1..];
      if r.Some? {
        var k :| 0 <= k < |alts[1..]| && alts[1..][k] == r.value &&
          forall j :: 0 <= j < k ==> Shape(b, i, alts[1..][j]).None?;
        assert alts[k + 1] == r.value;
        assert forall j :: 1 <= j < k + 1 ==> alts[j] == alts[1..][j - 1];
      }
    } else if alts != [] {
      assert alts[0] == FirstOf(b, i, alts).value;
    }
  }

  /** Searching a concatenation searches the first part, then the second. */
  lemma {:induction false} FirstOfAppend(b: Bytes, i: nat, xs: seq<Align>, ys: seq<Align>)
    requires i <= |b|
    ensures FirstOf(b, i, xs + ys) == if FirstOf(b, i, xs).Some? then FirstOf(b, i, xs) else FirstOf(b, i, ys)
    decreases |xs|
  {
    if xs != [] {
      assert (xs + ys)[0] == xs[0] && (xs + ys)[1..] == xs[1..] + ys;
      FirstOfAppend(b, i, xs[1..], ys);
    } else {
      assert xs + ys == ys;
    }
  }

  /**
   * An ordered choice over alignment rules: each alternative starts where
   * the one before it failed and was put back; the first to match wins.
   */
  function {:induction false} OrderedChoice(p: Parser, alts: seq<Align>): (r: Step)
    requires Ready(p)
    ensures Outcome(p, r, FirstOf(p.buffer, p.position, alts))
    decreases |alts|
  {
    if alts == [] then Step(false, p)
    else
      var t := AlignRule(p, alts[0]);
      if t.ok then t
      else
        var rest := OrderedChoice(t.p, alts[1..]);
        assert t.p == p.(max := t.p.max);
        rest
  }

  /** The alternatives the cell rule tries in turn before it looks at the next byte. */
  const OrderedAlternatives := [LeftWrap, CenterWrap, RightWrap, Left]

  /** The alternatives the cell rule picks between by the next byte, in the order their bytes are tested. */
  const SwitchedAlternatives := [Right, Center]

  /** Every alignment, in the order the cell rule tries them. */
  const AlignOrder := OrderedAlternatives + SwitchedAlternatives

  /** The first alignment, in the order the cell rule tries them, whose pattern matches at `i`. */
  function FirstAlign(b: Bytes, i: nat): (r: Option<Align>)
    requires i <= |b|
    ensures r.Some? ==> Shape(b, i, r.value).Some?
  {
    FirstOf(b, i, AlignOrder)
  }

  /**
   * The cell's alignment is none exactly when no alignment matches, and
   * otherwise one that matches with no alignment tried before it matching.
   */
  lemma FirstAlignIsFirst(b: Bytes, i: nat)
    requires i <= |b|
    ensures FirstAlign(b, i).None? <==> forall a: Align :: Shape(b, i, a).None?
    ensures FirstAlign(b, i).Some? ==> exists k :: (0 <= k < |AlignOrder| && AlignOrder[k] == FirstAlign(b, i).value &&
      forall j :: 0 <= j < k ==> Shape(b, i, AlignOrder[j]).None?)
  {
    FirstOfIsFirst(b, i, AlignOrder);
    EveryAlignmentTried();
  }

  /** The cell rule tries every alignment. */
  lemma EveryAlignmentTried()
    ensures forall a: Align :: a in AlignOrder
  {
    forall a: Align ensures a in AlignOrder {
      var k := match a
        case LeftWrap => 0 case CenterWrap => 1 case RightWrap => 2
        case Left => 3 case Right => 4 case Center => 5;
      assert AlignOrder[k] == a;
    }
  }

  /** The four tried in turn, then the two picked by the next byte, find the same first alignment. */
  lemma FirstAlignInTwoParts(b: Bytes, i: nat)
    requires i <= |b|
    ensures FirstAlign(b, i) ==
      if FirstOf(b, i, OrderedAlternatives).Some? then FirstOf(b, i, OrderedAlternatives) else FirstOf(b, i, SwitchedAlternatives)
  {
    FirstOfAppend(b, i, OrderedAlternatives, SwitchedAlternatives);
  }

  /** The last two alternatives, picked by the next byte: `RightAlign` on `-`, `CenterAlign` on `:`. */
  function ByNextByte(p: Parser): (r: Step)
    requires Ready(p)
    ensures Outcome(p, r, FirstOf(p.buffer, p.position, SwitchedAlternatives))
  {
    var b, i := p.buffer, p.position;
    assert FirstOf(b, i, SwitchedAlternatives) == if Shape(b, i, Right).Some? then Some(Right) else Tried(b, i, Center) by {
      assert SwitchedAlternatives[1..] == [Center];
      assert [Center][1..] == [];
    }
    if i == |b| then Step(false, p)
    else if b[i] == '-' then
      assert Shape(b, i, Center).None?;
      RightAlign(p)
    else if b[i] == ':' then
      assert Run(b, i, '-') == 0;
      CenterAlign(p)
    else
      assert Run(b, i, '-') == 0;
      Step(false, p)
  }

  /**
   * The choice inside `AlignmentCell`: the four alternatives in order, and
   * then `RightAlign` or `CenterAlign` as the next byte says.  It recognises
   * the first alignment whose pattern matches.
   */
  function AlignmentChoice(p: Parser): (r: Step)
    requires Ready(p)
    ensures Outcome(p, r, FirstAlign(p.buffer, p.position))
  {
    FirstAlignInTwoParts(p.buffer, p.position);
    var c := OrderedChoice(p, OrderedAlternatives);
    if c.ok then c
    else
      assert c.p == p.(max := c.p.max);
      ByNextByte(c.p)
  }

  /** `CellDivider <- '|'`. */
  function CellDivider(p: Parser): (r: Step)
    requires Valid(p)
    ensures r.ok <==> At(p.buffer, p.position, '|')
    ensures r.ok ==> r.p.position == p.position + 1
    ensures !r.ok ==> r.p.position == p.position
    ensures Valid(r.p) && Evolves(p, r.p)
  {
    MatchChar(p, '|')
  }

  /** Where a cell whose alignment ends at `k` ends: past trailing tabs and spaces and an optional `|`. */
  function CellEnd(b: Bytes, k: nat): (e: nat)
    requires k <= |b|
    ensures k <= e <= |b|
  {
    var s := k + SpacecharRun(b, k);
    if At(b, s, '|') then s + 1 else s
  }

  /** An optional `|` after the trailing tabs and spaces takes the position to the cell's end. */
  lemma OptionalDividerEndsCell(q: Parser, trail: Parser)
    requires q.position <= |q.buffer|
    requires trail == q.(position := q.position + SpacecharRun(q.buffer, q.position))
    ensures var close := MatchChar(trail, '|').p;
      close == q.(position := CellEnd(q.buffer, q.position), max := close.max) && close.max >= q.max
  {
  }

  /**
   * What a separator cell starting at `p`, whose alignment would start at
   * `j` and be `o`, comes to: recognised exactly when the byte at `j` is not
   * `|` and some alignment matches; it then records that alignment's action
   * with the span current on entry and ends past the trailing spaces and
   * divider.  A failure restores the position and queue length saved on
   * entry, so only the furthest failure may have moved on.
   */
  predicate CellOutcome(p: Parser, r: Step, j: nat, o: Option<Align>)
    requires Ready(p) && j <= |p.buffer|
  {
    && r.p.max >= p.max
    && (r.ok <==> !At(p.buffer, j, '|') && o.Some?)
    && match o
       case Some(a) =>
         && Shape(p.buffer, j, a).Some?
         && (r.ok ==> r.p == Do(p, AlignAction(a)).(position := CellEnd(p.buffer, j + Shape(p.buffer, j, a).value), max := r.p.max))
         && (!r.ok ==> r.p == p.(max := r.p.max))
       case None => r.p == p.(max := r.p.max)
  }

  /**
   * `AlignmentCell <- Sp !'|' (alignment choice) Sp '|'?`: after leading
   * tabs and spaces, a separator cell holds the first alignment that matches.
   */
  method AlignmentCell(p: Parser) returns (r: Step)
    requires Ready(p)
    ensures CellOutcome(p, r, p.position + SpacecharRun(p.buffer, p.position),
      FirstAlign(p.buffer, p.position + SpacecharRun(p.buffer, p.position)))
  {
    var lead := Sp(p).p;
    var o := FirstAlign(p.buffer, p.position + SpacecharRun(p.buffer, p.position));
    if PeekChar(lead, '|') {
      r := CellOnDivider(p, lead, o);
    } else {
      var chosen := AlignmentChoice(lead);
      r := CellAfterChoice(p, lead, chosen, o);
    }
  }

  /** A cell whose leading spaces run into `|` is not a separator cell, whatever alignment follows. */
  method CellOnDivider(p: Parser, lead: Parser, o: Option<Align>) returns (r: Step)
    requires Ready(p) && lead == p.(position := p.position + SpacecharRun(p.buffer, p.position))
    requires At(p.buffer, lead.position, '|')
    requires o.Some? ==> Shape(p.buffer, lead.position, o.value).Some?
    ensures CellOutcome(p, r, p.position + SpacecharRun(p.buffer, p.position), o)
  {
    r := Restored(p, Reject(p, lead));
  }

  /** The rest of a cell once the alignment choice has been tried from `lead` with outcome `o`. */
  method CellAfterChoice(p: Parser, lead: Parser, chosen: Step, o: Option<Align>) returns (r: Step)
    requires Ready(p) && lead == p.(position := p.position + SpacecharRun(p.buffer, p.position))
    requires !At(p.buffer, lead.position, '|')
    requires Outcome(lead, chosen, o)
    ensures CellOutcome(p, r, p.position + SpacecharRun(p.buffer, p.position), o)
  {
    if !chosen.ok {
      r := Restored(p, Reject(p, chosen.p));
    } else {
      r := CellTail(p, lead, chosen, o.value);
    }
  }

  /** A failed cell: the position and queue length saved on entry put back. */
  function Restored(entry: Parser, body: Step): (r: Step)
    requires entry.thunkPosition <= |entry.thunks|
    requires body.p == entry.(position := body.p.position, max := body.p.max) && body.p.max >= entry.max
    requires !body.ok
    ensures !r.ok && r.p == entry.(max := body.p.max)
  {
    Step(false, Restore(entry, body.p))
  }

  /** After alignment `a` was recognised from `lead`: `Sp '|'?`. */
  function CellTail(p: Parser, lead: Parser, chosen: Step, a: Align): (r: Step)
    requires Ready(p) && lead == p.(position := p.position + SpacecharRun(p.buffer, p.position))
    requires Outcome(lead, chosen, Some(a))
    ensures && r.ok && r.p.max >= p.max
      && r.p == Do(p, AlignAction(a)).(position := CellEnd(p.buffer, lead.position + Shape(p.buffer, lead.position, a).value), max := r.p.max)
  {
    var k := lead.position + Shape(p.buffer, lead.position, a).value;
    DoMoves(p, AlignAction(a), lead.position, p.max);
    assert chosen.p == Do(p, AlignAction(a)).(position := k, max := chosen.p.max);
    OptionalDividerEndsCell(chosen.p, Sp(chosen.p).p);
    Step(true, MatchChar(Sp(chosen.p).p, '|').p)
  }

  /**
   * A cell outcome read as parser states: the state after it is valid and
   * has only evolved; recognised, it sits at the cell's end with the chosen
   * alignment's thunk queued; not recognised, it sits where it started with
   * the queue as it was.
   */
  lemma CellOutcomeEvolves(p: Parser, r: Step, j: nat, o: Option<Align>)
    requires Valid(p) && j <= |p.buffer| && CellOutcome(p, r, j, o)
    ensures Valid(r.p) && Evolves(p, r.p)
    ensures r.ok ==> o.Some? && r.p.position == CellEnd(p.buffer, j + Shape(p.buffer, j, o.value).value)
    ensures r.ok ==> Queue(r.p) == Queue(p) + [Thunk(AlignAction(o.value), p.begin, p.end)]
    ensures !r.ok ==> r.p.position == p.position && Queue(r.p) == Queue(p)
  {
  }

  /** Whether a column's text may wrap: the alignments written with a `+`. */
  predicate Wraps(a: Align) {
    a.LeftWrap? || a.CenterWrap? || a.RightWrap?
  }

  /** The upper-case letter naming the side a column is aligned to. */
  function SideLetter(a: Align): Byte {
    if a.LeftWrap? || a.Left? then 'L' else if a.CenterWrap? || a.Center? then 'C' else 'R'
  }

  /**
   * The action each alignment records makes a one-letter STR element: the
   * letter names the side, and it is upper case exactly for a column that
   * wraps.
   */
  function AlignmentElement(a: Align): (e: Element)
    ensures e.key == STR && |e.str| == 1 && e.link.None? && e.children.Nil?
    ensures UpperByte(e.str[0]) == SideLetter(a)
    ensures IsLowerAscii(e.str[0]) <==> !Wraps(a)
  {
    MkString(AlignLetter(a))
  }

  /** Different alignments make different elements, so the element alone tells the renderer the alignment. */
  lemma AlignmentElementInjective(a: Align, a': Align)
    requires AlignmentElement(a) == AlignmentElement(a')
    ensures a == a'
  {
    assert SideLetter(a) == SideLetter(a') && Wraps(a) == Wraps(a');
  }
}
