/**
 * The backtracking machine under the generated grammar: the parser state,
 * the matching primitives, the deferred-action (thunk) queue and `commit`.
 *
 * A rule never runs its semantic action while it matches: it records a thunk
 * (action id and the text span it saw).  Thunks are replayed, in recording
 * order, only at a commit point.  Most rules save the position and queue
 * length on entry and put them back when they fail, so the thunks of an
 * abandoned alternative are dropped.  Rules that cannot record a thunk may
 * skip the save: `Spacechar`, `Sp`, `NonindentSpace` and `CellDivider` fail
 * without consuming anything, while `Indent` fails with its position moved.
 */
module Machine {
  import opened Common

  /** A recorded action: its id and the span `begin..end`, or an argument stored in `begin`. */
  datatype Thunk = Thunk(action: int, begin: int, end: int)

  /** The zero value Go fills fresh queue slots with. */
  const EmptyThunk := Thunk(0, 0, 0)

  /** The thunk queue's capacity when the parser is initialised. */
  const InitialThunkCapacity := 32

  /**
   * The parser state.  `thunks` is the queue's backing array and
   * `thunkPosition` its length in use; `max` is the furthest position at
   * which a primitive failed and `min` the position of the last commit.
   */
  datatype Parser = Parser(
    buffer: Bytes,
    position: nat,
    min: nat,
    max: nat,
    begin: nat,
    end: nat,
    thunks: seq<Thunk>,
    thunkPosition: nat)

  /** The outcome of a primitive or a rule: success, and the state after it. */
  datatype Step = Step(ok: bool, p: Parser)

  /** The queued thunks, oldest first. */
  function Queue(p: Parser): seq<Thunk>
    requires p.thunkPosition <= |p.thunks|
  {
    p.thunks[..p.thunkPosition]
  }

  /** A thunk whose span can be cut out of the buffer. */
  predicate HasSpan(t: Thunk) {
    0 <= t.begin <= t.end
  }

  /** Every span in `ts` lies inside `buffer`, so replaying them cannot index past its end. */
  predicate SpansInBuffer(buffer: Bytes, ts: seq<Thunk>) {
    forall i :: 0 <= i < |ts| && HasSpan(ts[i]) ==> ts[i].end <= |buffer|
  }

  /** The state the primitives and rules keep: positions inside the buffer and a usable queue. */
  predicate Valid(p: Parser) {
    && p.position <= |p.buffer|
    && p.end <= |p.buffer|
    && 0 < |p.thunks|
    && p.thunkPosition <= |p.thunks|
    && SpansInBuffer(p.buffer, Queue(p))
  }

  /** A freshly initialised parser over `buffer`. */
  function Initial(buffer: Bytes): (p: Parser)
    ensures Valid(p) && Queue(p) == []
    ensures p.position == 0 && p.max == 0 && p.min == 0
  {
    Parser(buffer, 0, 0, 0, 0, 0, seq(InitialThunkCapacity, _ => EmptyThunk), 0)
  }

  /** `q` keeps every thunk `p` had queued and may have queued more. */
  predicate QueueExtends(p: Parser, q: Parser) {
    && p.thunkPosition <= |p.thunks|
    && p.thunkPosition <= q.thunkPosition <= |q.thunks|
    && q.thunks[..p.thunkPosition] == p.thunks[..p.thunkPosition]
  }

  /**
   * What matching may do to the state between commits: the buffer and `min`
   * stay, the furthest failure only moves forward, and queued thunks stay.
   */
  predicate Evolves(p: Parser, q: Parser) {
    && q.buffer == p.buffer
    && q.min == p.min
    && q.max >= p.max
    && QueueExtends(p, q)
  }

  lemma EvolvesTransitive(p: Parser, q: Parser, r: Parser)
    requires Evolves(p, q) && Evolves(q, r)
    ensures Evolves(p, r)
  {
    assert r.thunks[..p.thunkPosition] == r.thunks[..q.thunkPosition][..p.thunkPosition];
    assert q.thunks[..p.thunkPosition] == q.thunks[..q.thunkPosition][..p.thunkPosition];
  }

  /** Record a failure at the current position: `max` becomes the larger of itself and `position`. */
  function Fail(p: Parser): (q: Parser)
    ensures q == p.(max := Max(p.max, p.position))
    ensures q.max >= p.position
  {
    if p.position >= p.max then p.(max := p.position) else p
  }

  /** `matchDot`: consume any one byte. */
  function MatchDot(p: Parser): (r: Step)
    ensures r.ok <==> p.position < |p.buffer|
    ensures r.ok ==> r.p == p.(position := p.position + 1)
    ensures !r.ok ==> r.p == p.(max := Max(p.max, p.position))
  {
    if p.position < |p.buffer| then Step(true, p.(position := p.position + 1))
    else Step(false, Fail(p))
  }

  /** `matchChar`: consume `c` if it is the next byte. */
  function MatchChar(p: Parser, c: Byte): (r: Step)
    ensures r.ok <==> At(p.buffer, p.position, c)
    ensures r.ok ==> r.p == p.(position := p.position + 1)
    ensures !r.ok ==> r.p == p.(max := Max(p.max, p.position))
  {
    if p.position < |p.buffer| && p.buffer[p.position] == c then Step(true, p.(position := p.position + 1))
    else Step(false, Fail(p))
  }

  /** `peekChar`: whether `c` is the next byte; it only looks. */
  function PeekChar(p: Parser, c: Byte): (r: bool)
    ensures r <==> At(p.buffer, p.position, c)
  {
    p.position < |p.buffer| && p.buffer[p.position] == c
  }

  /** Whether `s` occurs in `buffer` at `i`. */
  predicate OccursAt(buffer: Bytes, i: nat, s: Bytes) {
    i + |s| <= |buffer| && buffer[i..i + |s|] == s
  }

  /**
   * `matchString`: consume `s` if the buffer continues with it.  Go reads
   * `s[0]` before comparing, so `s` must not be empty.
   */
  function MatchString(p: Parser, s: Bytes): (r: Step)
    requires |s| > 0
    ensures r.ok <==> OccursAt(p.buffer, p.position, s)
    ensures r.ok ==> r.p == p.(position := p.position + |s|)
    ensures !r.ok ==> r.p == p.(max := Max(p.max, p.position))
  {
    var next := p.position + |s|;
    if next <= |p.buffer| && p.buffer[p.position] == s[0] && p.buffer[p.position..next] == s then
      Step(true, p.(position := next))
    else
      Step(false, Fail(p))
  }

  /** `matchClass`: consume the next byte if it belongs to the character class `inClass`. */
  function MatchClass(p: Parser, inClass: Byte -> bool): (r: Step)
    ensures r.ok <==> p.position < |p.buffer| && inClass(p.buffer[p.position])
    ensures r.ok ==> r.p == p.(position := p.position + 1)
    ensures !r.ok ==> r.p == p.(max := Max(p.max, p.position))
  {
    if p.position < |p.buffer| && inClass(p.buffer[p.position]) then Step(true, p.(position := p.position + 1))
    else Step(false, Fail(p))
  }

  /** Every primitive keeps a valid state valid and only lets the state evolve. */
  lemma PrimitivesEvolve(p: Parser, c: Byte, s: Bytes, inClass: Byte -> bool)
    requires Valid(p) && |s| > 0
    ensures Valid(MatchDot(p).p) && Evolves(p, MatchDot(p).p)
    ensures Valid(MatchChar(p, c).p) && Evolves(p, MatchChar(p, c).p)
    ensures Valid(MatchString(p, s).p) && Evolves(p, MatchString(p, s).p)
    ensures Valid(MatchClass(p, inClass).p) && Evolves(p, MatchClass(p, inClass).p)
  {
  }

  /**
   * `doarg`: append one thunk for `action`, storing `arg` in place of the
   * span's start when it is non-zero.  A full backing array is doubled first
   * and its contents copied, so every earlier thunk survives the growth.
   */
  function DoArg(p: Parser, action: int, arg: int): (q: Parser)
    requires 0 < |p.thunks| && p.thunkPosition <= |p.thunks|
    ensures q.thunkPosition == p.thunkPosition + 1 <= |q.thunks|
    ensures Queue(q) == Queue(p) + [Thunk(action, if arg != 0 then arg else p.begin, p.end)]
    ensures p.thunkPosition == |p.thunks| ==> |q.thunks| == 2 * |p.thunks|
    ensures p.thunkPosition < |p.thunks| ==> |q.thunks| == |p.thunks|
    ensures q == p.(thunks := q.thunks, thunkPosition := q.thunkPosition)
  {
    var backing := if p.thunkPosition == |p.thunks| then p.thunks + seq(|p.thunks|, _ => EmptyThunk) else p.thunks;
    var t := Thunk(action, if arg != 0 then arg else p.begin, p.end);
    var q := p.(thunks := backing[p.thunkPosition := t], thunkPosition := p.thunkPosition + 1);
    assert Queue(q) == backing[..p.thunkPosition] + [t];
    q
  }

  /** `do`: append a thunk that records the current span. */
  function Do(p: Parser, action: int): (q: Parser)
    requires 0 < |p.thunks| && p.thunkPosition <= |p.thunks|
    ensures q.thunkPosition <= |q.thunks|
    ensures Queue(q) == Queue(p) + [Thunk(action, p.begin, p.end)]
    ensures q == p.(thunks := q.thunks, thunkPosition := q.thunkPosition)
  {
    DoArg(p, action, 0)
  }

  /** Recording a thunk looks only at the queue and the span, so it commutes with moving the position and the furthest failure. */
  lemma DoMoves(p: Parser, action: int, position: nat, max: nat)
    requires 0 < |p.thunks| && p.thunkPosition <= |p.thunks|
    ensures Do(p.(position := position, max := max), action) == Do(p, action).(position := position, max := max)
  {
  }

  /** Recording a thunk keeps a valid state valid and keeps the queued thunks. */
  lemma DoArgEvolves(p: Parser, action: int, arg: int)
    requires Valid(p)
    ensures Valid(DoArg(p, action, arg)) && Evolves(p, DoArg(p, action, arg))
  {
  }

  /** One executed action: its id, the text it was given and its numeric argument. */
  datatype Call = Call(action: int, text: Bytes, arg: int)

  /**
   * `calls` is what replaying `ts` executes: one call per thunk, in order,
   * each given its action id, its stored start as argument, and the text of
   * its span.  A thunk without a span is given the text of the call before
   * it (`carried` for the first), since the text variable outlives the loop
   * iteration.
   */
  ghost predicate Replays(calls: seq<Call>, buffer: Bytes, ts: seq<Thunk>, carried: Bytes)
    requires SpansInBuffer(buffer, ts)
  {
    && |calls| == |ts|
    && (forall i :: 0 <= i < |ts| ==> calls[i].action == ts[i].action && calls[i].arg == ts[i].begin)
    && (forall i :: 0 <= i < |ts| && HasSpan(ts[i]) ==> calls[i].text == buffer[ts[i].begin..ts[i].end])
    && (forall i :: 0 <= i < |ts| && !HasSpan(ts[i]) ==> calls[i].text == if i == 0 then carried else calls[i - 1].text)
  }

  /** The replay loop of `commit`, from the front of `ts`. */
  function {:induction false} Replay(buffer: Bytes, ts: seq<Thunk>, carried: Bytes): (calls: seq<Call>)
    requires SpansInBuffer(buffer, ts)
    ensures Replays(calls, buffer, ts, carried)
    decreases |ts|
  {
    if ts == [] then []
    else
      var t := ts[0];
      var text := if 0 <= t.begin && t.begin <= t.end then buffer[t.begin..t.end] else carried;
      var rest := Replay(buffer, ts[1..], text);
      var calls := [Call(t.action, text, t.begin)] + rest;
      assert forall i :: 1 <= i < |ts| ==> calls[i] == rest[i - 1] && ts[i] == ts[1..][i - 1];
      calls
  }

  /** The result of `commit`: whether it committed, the state after it and the actions it ran. */
  datatype Committed = Committed(ok: bool, p: Parser, calls: seq<Call>)

  /**
   * `commit(mark)`: only at the outermost level (`mark == 0`) does it run
   * every queued thunk in recording order, empty the queue and move `min` to
   * the current position; otherwise it does nothing and reports failure.
   */
  function Commit(p: Parser, mark: int): (r: Committed)
    requires p.thunkPosition <= |p.thunks| && SpansInBuffer(p.buffer, Queue(p))
    ensures mark != 0 ==> !r.ok && r.p == p && r.calls == []
    ensures mark == 0 ==> r.ok && Replays(r.calls, p.buffer, Queue(p), [])
    ensures mark == 0 ==> r.p == p.(min := p.position, thunkPosition := 0) && Queue(r.p) == []
  {
    if mark == 0 then Committed(true, p.(min := p.position, thunkPosition := 0), Replay(p.buffer, Queue(p), []))
    else Committed(false, p, [])
  }

  /**
   * What a failing rule does before returning: put back the position and
   * queue length it saved on entry.  The thunks its attempt recorded fall off
   * the end of the queue; the furthest failure it reached is kept.
   */
  function Restore(entry: Parser, after: Parser): (r: Parser)
    requires QueueExtends(entry, after)
    ensures r.thunkPosition <= |r.thunks|
    ensures r.position == entry.position && Queue(r) == Queue(entry)
    ensures r.max == after.max && r.buffer == after.buffer
  {
    after.(position := entry.position, thunkPosition := entry.thunkPosition)
  }

  /** A rule body wrapped in the save-on-entry, restore-on-failure pattern. */
  function Attempt(entry: Parser, body: Step): (r: Step)
    requires Evolves(entry, body.p)
    ensures r.ok == body.ok && Evolves(entry, r.p)
    ensures !r.ok ==> r.p.position == entry.position && Queue(r.p) == Queue(entry)
    ensures r.ok ==> r == body
    ensures Valid(entry) && Valid(body.p) ==> Valid(r.p)
  {
    if body.ok then body else Step(false, Restore(entry, body.p))
  }

  /**
   * Thunks recorded by an abandoned alternative never run: after a failed
   * attempt is undone, a commit runs exactly the actions it would have run
   * had the attempt never been made.
   */
  lemma AbandonedThunksNeverRun(entry: Parser, after: Parser)
    requires Valid(entry) && Evolves(entry, after)
    ensures Commit(Restore(entry, after), 0).calls == Commit(entry, 0).calls
  {
  }

  /** Restoring after a failed attempt leaves a valid state. */
  lemma RestoreValid(entry: Parser, after: Parser)
    requires Valid(entry) && Valid(after) && Evolves(entry, after)
    ensures Valid(Restore(entry, after)) && Evolves(entry, Restore(entry, after))
  {
  }

  /** The result of `ResetBuffer`: the unread rest of the old buffer and the reset state. */
  datatype Reset = Reset(unread: Bytes, p: Parser)

  /**
   * `ResetBuffer`: switch to buffer `s`, returning what was left unread of
   * the old one.  Position, queue length, `min`, `max` and `end` go back to
   * zero; `begin` and the backing array are left as they were.
   */
  function ResetBuffer(p: Parser, s: Bytes): (r: Reset)
    ensures p.position < |p.buffer| ==> r.unread == p.buffer[p.position..]
    ensures p.position >= |p.buffer| ==> r.unread == []
    ensures r.p.buffer == s && r.p.position == 0 && r.p.min == 0 && r.p.max == 0 && r.p.end == 0
    ensures r.p.thunkPosition == 0 && r.p.begin == p.begin && r.p.thunks == p.thunks
    ensures 0 < |p.thunks| ==> Valid(r.p)
  {
    var unread := if p.position < |p.buffer| then p.buffer[p.position..] else [];
    Reset(unread, p.(buffer := s, thunkPosition := 0, position := 0, min := 0, max := 0, end := 0))
  }
}
