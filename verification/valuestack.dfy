/**
 * The value stack: the slots through which rules hand in-progress elements
 * to one another.  Entering a rule reserves slots (`yyPush`), actions bind
 * slots relative to the top (`yySet`, and reads such as `yyval[yyp-1]`), and
 * leaving releases them (`yyPop`).  A nil Go pointer is `None`.
 */
module ValueStack {
  import opened Common
  import opened Elements

  /** The action ids of the three stack operations, numbered after the grammar's 141 actions. */
  const YyPush := 141
  const YyPop := 142
  const YySet := 143

  /** The slots Go allocates up front, and how many more each growth adds. */
  const InitialSlots := 256
  const Growth := 256

  /** `slots` is `yyval`, `top` is `yyp`. */
  datatype Stack = Stack(slots: seq<Option<Element>>, top: int)

  function Empty(): (s: Stack)
    ensures s.top == 0 && |s.slots| == InitialSlots
    ensures forall i :: 0 <= i < |s.slots| ==> s.slots[i].None?
  {
    Stack(seq(InitialSlots, _ => None), 0)
  }

  /**
   * `yyPush`: reserve `count` slots.  When the top reaches the end of the
   * slots they are copied into a larger array, 256 slots longer, with the new
   * slots nil.
   */
  function Push(s: Stack, count: int): (r: Stack)
    ensures r.top == s.top + count
    ensures |r.slots| >= |s.slots| && r.slots[..|s.slots|] == s.slots
    ensures forall i :: |s.slots| <= i < |r.slots| ==> r.slots[i].None?
    ensures r.top >= |s.slots| ==> |r.slots| == |s.slots| + Growth
    ensures r.top < |s.slots| ==> r.slots == s.slots
  {
    var top := s.top + count;
    if top >= |s.slots| then Stack(s.slots + seq(Growth, _ => None), top) else s.(top := top)
  }

  /** `yyPop`: release `count` slots; their contents stay in the array. */
  function Pop(s: Stack, count: int): (r: Stack)
    ensures r.top == s.top - count && r.slots == s.slots
  {
    s.(top := s.top - count)
  }

  /** `yySet`: bind the slot `offset` away from the top to `yy`.  Go indexes the array, so it must be in range. */
  function Set(s: Stack, offset: int, yy: Option<Element>): (r: Stack)
    requires 0 <= s.top + offset < |s.slots|
    ensures r.top == s.top && |r.slots| == |s.slots|
    ensures r.slots[s.top + offset] == yy
    ensures forall i :: 0 <= i < |s.slots| && i != s.top + offset ==> r.slots[i] == s.slots[i]
  {
    s.(slots := s.slots[s.top + offset := yy])
  }

  /** An action's read of the slot `offset` away from the top: binding what it read changes nothing. */
  function Get(s: Stack, offset: int): (yy: Option<Element>)
    requires 0 <= s.top + offset < |s.slots|
    ensures Set(s, offset, yy) == s
  {
    s.slots[s.top + offset]
  }

  /** A read after a bind sees the bound value at the bound slot and the old value everywhere else. */
  lemma GetAfterSet(s: Stack, a: int, b: int, yy: Option<Element>)
    requires 0 <= s.top + a < |s.slots| && 0 <= s.top + b < |s.slots|
    ensures Get(Set(s, a, yy), b) == if a == b then yy else Get(s, b)
  {
  }

  /** The top stays inside the slots. */
  predicate InRange(s: Stack) {
    0 <= s.top < |s.slots|
  }

  /**
   * Overflow grows the array rather than failing: pushing at most one growth
   * step's worth of slots from a top inside the array leaves the top inside
   * the array, and every binding made before the push is still readable.
   */
  lemma PushNeverOverflows(s: Stack, count: int)
    requires InRange(s) && 0 <= count <= Growth
    ensures InRange(Push(s, count))
    ensures forall i :: 0 <= i < |s.slots| ==> Push(s, count).slots[i] == s.slots[i]
  {
  }

  /**
   * A rule's frame discipline: reserve `count` slots, bind the slot `offset`
   * below the new top, read it back, release the slots.  The read returns the
   * bound value, and afterwards the top is where it was.
   */
  lemma FrameRoundTrip(s: Stack, count: int, offset: int, yy: Option<Element>)
    requires InRange(s) && 0 < count <= Growth && -count <= offset < 0
    ensures var framed := Set(Push(s, count), offset, yy);
      Get(framed, offset) == yy && Pop(framed, count).top == s.top
  {
  }

  /** A bind never disturbs any slot but its own, so two different slots hold what was bound last. */
  lemma SetsCommute(s: Stack, a: int, b: int, x: Option<Element>, y: Option<Element>)
    requires 0 <= s.top + a < |s.slots| && 0 <= s.top + b < |s.slots| && a != b
    ensures Set(Set(s, a, x), b, y) == Set(Set(s, b, y), a, x)
  {
  }
}
