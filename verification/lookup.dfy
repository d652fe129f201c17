/**
 * Reference and footnote lookup.
 *
 * A link label is compared with a reference's label by structural equality
 * over the parsed inline lists, ignoring case in text payloads; footnotes are
 * looked up by exact label text.  Both lookups return the first match in
 * list order.
 */
module Lookup {
  import opened Common
  import opened Elements

  /** Keys that match on the key alone. */
  predicate KeyOnly(k: int) {
    k == SPACE || k == LINEBREAK || k == ELLIPSIS || k == EMDASH || k == ENDASH || k == APOSTROPHE
  }

  /** Keys whose text payload is compared, ignoring case. */
  predicate TextKey(k: int) {
    k == CODE || k == STR || k == HTML
  }

  /** Keys whose children are compared recursively. */
  predicate NestedKey(k: int) {
    k == EMPH || k == STRONG || k == LIST || k == SINGLEQUOTED || k == DOUBLEQUOTED
  }

  /** Keys that never match: no links or images inside link labels. */
  predicate LinkKey(k: int) {
    k == LINK || k == IMAGE
  }

  /** Keys the comparison knows; any other key aborts the program. */
  predicate HandledKey(k: int) {
    KeyOnly(k) || TextKey(k) || NestedKey(k) || LinkKey(k)
  }

  /** Every key the comparison can reach in `l`, through nested children, is a handled key. */
  predicate Known(l: List)
    decreases l
  {
    match l
    case Nil => true
    case Cons(h, t) => HandledKey(h.key) && (NestedKey(h.key) ==> Known(h.children)) && Known(t)
  }

  /** `match_inlines`: structural, case-insensitive equality of two inline lists. */
  function {:induction false} MatchInlines(l1: List, l2: List): (r: bool)
    requires Known(l1)
    ensures r ==> Length(l1) == Length(l2)
    decreases l1
  {
    match l1
    case Nil => l2.Nil?
    case Cons(a, t1) =>
      match l2
      case Nil => false
      case Cons(b, t2) =>
        if a.key != b.key then false
        else if KeyOnly(a.key) then MatchInlines(t1, t2)
        else if TextKey(a.key) then Upper(a.str) == Upper(b.str) && MatchInlines(t1, t2)
        else if NestedKey(a.key) then MatchInlines(a.children, b.children) && MatchInlines(t1, t2)
        else false
  }

  /** When two elements in the same position of two lists correspond. */
  predicate ElementsMatch(a: Element, b: Element) {
    && a.key == b.key
    && !LinkKey(a.key)
    && (TextKey(a.key) ==> Upper(a.str) == Upper(b.str))
    && (NestedKey(a.key) ==> Known(a.children) && MatchInlines(a.children, b.children))
  }

  /** Same length, and the elements correspond position by position. */
  predicate Pairwise(l1: List, l2: List) {
    Length(l1) == Length(l2) &&
    forall i :: 0 <= i < Length(l1) ==> ElementsMatch(ToSeq(l1)[i], ToSeq(l2)[i])
  }

  /**
   * The lists match exactly when they have the same length and their
   * elements correspond position by position: equal keys, text payloads
   * equal up to case, nested children matching, and no link or image.
   */
  lemma {:induction false} MatchInlinesPairwise(l1: List, l2: List)
    requires Known(l1)
    ensures MatchInlines(l1, l2) <==> Pairwise(l1, l2)
    decreases l1
  {
    match l1
    case Nil =>
    case Cons(a, t1) =>
      match l2
      case Nil =>
      case Cons(b, t2) =>
        MatchInlinesPairwise(t1, t2);
        assert Length(l1) == Length(t1) + 1 && Length(l2) == Length(t2) + 1;
        assert ToSeq(l1)[0] == a && ToSeq(l2)[0] == b;
        assert forall i :: 1 <= i < Length(l1) ==> ToSeq(l1)[i] == ToSeq(t1)[i - 1];
        assert forall i :: 1 <= i < Length(l2) ==> ToSeq(l2)[i] == ToSeq(t2)[i - 1];
        if Pairwise(l1, l2) {
          assert ElementsMatch(a, b);
          forall i | 0 <= i < Length(t1)
            ensures ElementsMatch(ToSeq(t1)[i], ToSeq(t2)[i])
          {
            assert ElementsMatch(ToSeq(l1)[i + 1], ToSeq(l2)[i + 1]);
          }
          assert Pairwise(t1, t2);
        }
        if MatchInlines(l1, l2) {
          assert MatchInlines(t1, t2);
          assert ElementsMatch(a, b);
          forall i | 0 <= i < Length(l1)
            ensures ElementsMatch(ToSeq(l1)[i], ToSeq(l2)[i])
          {
            if i > 0 {
              assert ElementsMatch(ToSeq(t1)[i - 1], ToSeq(t2)[i - 1]);
            }
          }
        }
  }

  /** The relation is symmetric. */
  lemma {:induction false} MatchInlinesSymmetric(l1: List, l2: List)
    requires Known(l1) && Known(l2)
    ensures MatchInlines(l1, l2) == MatchInlines(l2, l1)
    decreases l1
  {
    match l1
    case Nil =>
    case Cons(a, t1) =>
      match l2
      case Nil =>
      case Cons(b, t2) =>
        MatchInlinesSymmetric(t1, t2);
        if a.key == b.key && NestedKey(a.key) {
          MatchInlinesSymmetric(a.children, b.children);
        }
  }

  /** No link or image anywhere the comparison looks. */
  predicate LinkFree(l: List)
    decreases l
  {
    match l
    case Nil => true
    case Cons(h, t) => !LinkKey(h.key) && (NestedKey(h.key) ==> LinkFree(h.children)) && LinkFree(t)
  }

  /** A list with no link or image matches itself. */
  lemma {:induction false} MatchInlinesReflexive(l: List)
    requires Known(l) && LinkFree(l)
    ensures MatchInlines(l, l)
    decreases l
  {
    match l
    case Nil =>
    case Cons(h, t) =>
      MatchInlinesReflexive(t);
      if NestedKey(h.key) {
        MatchInlinesReflexive(h.children);
      }
  }

  /** Matching is transitive, so on link-free lists it is an equivalence. */
  lemma {:induction false} MatchInlinesTransitive(l1: List, l2: List, l3: List)
    requires Known(l1) && Known(l2)
    requires MatchInlines(l1, l2) && MatchInlines(l2, l3)
    ensures MatchInlines(l1, l3)
    decreases l1
  {
    match l1
    case Nil =>
    case Cons(a, t1) =>
      var b := l2.head;
      var c := l3.head;
      MatchInlinesTransitive(t1, l2.next, l3.next);
      if NestedKey(a.key) {
        MatchInlinesTransitive(a.children, b.children, c.children);
      }
  }

  /** A reference declaration: an element carrying a link record. */
  predicate IsReference(e: Element) {
    e.link.Some?
  }

  predicate AllReferences(refs: List) {
    forall i :: 0 <= i < Length(refs) ==> IsReference(ToSeq(refs)[i])
  }

  /** Whether the label of reference `e` matches `lbl`. */
  predicate LabelMatches(lbl: List, e: Element)
    requires Known(lbl)
  {
    e.link.Some? && MatchInlines(lbl, e.link.value.labelList)
  }

  /**
   * `findReference`: the link record of the first reference, in list order,
   * whose label matches `lbl`; none when no reference matches.  Go reads
   * the link record of every reference it passes, so each must have one.
   */
  function {:induction false} FindReference(refs: List, lbl: List): (r: Option<Link>)
    requires Known(lbl) && AllReferences(refs)
    ensures r.None? <==> forall i :: 0 <= i < Length(refs) ==> !LabelMatches(lbl, ToSeq(refs)[i])
    ensures r.Some? ==> exists i :: (0 <= i < Length(refs) && ToSeq(refs)[i].link == r &&
      LabelMatches(lbl, ToSeq(refs)[i]) &&
      forall j :: 0 <= j < i ==> !LabelMatches(lbl, ToSeq(refs)[j]))
    decreases refs
  {
    match refs
    case Nil => None
    case Cons(h, t) =>
      assert ToSeq(refs)[0] == h;
      assert forall i :: 1 <= i < Length(refs) ==> ToSeq(refs)[i] == ToSeq(t)[i - 1];
      assert AllReferences(t) by {
        forall i | 0 <= i < Length(t) ensures IsReference(ToSeq(t)[i]) {
          assert ToSeq(t)[i] == ToSeq(refs)[i + 1];
        }
      }
      if MatchInlines(lbl, h.link.value.labelList) then h.link
      else
        var r := FindReference(t, lbl);
        assert r.None? ==> forall i :: 0 <= i < Length(refs) ==> !LabelMatches(lbl, ToSeq(refs)[i]) by {
          if r.None? {
            forall i | 0 <= i < Length(refs) ensures !LabelMatches(lbl, ToSeq(refs)[i]) {
              if i > 0 { assert ToSeq(refs)[i] == ToSeq(t)[i - 1]; }
            }
          }
        }
        assert r.Some? ==> exists i :: (0 <= i < Length(refs) && ToSeq(refs)[i].link == r &&
          LabelMatches(lbl, ToSeq(refs)[i]) &&
          forall j :: 0 <= j < i ==> !LabelMatches(lbl, ToSeq(refs)[j])) by {
          if r.Some? {
            var k :| 0 <= k < Length(t) && ToSeq(t)[k].link == r && LabelMatches(lbl, ToSeq(t)[k]) &&
              forall j :: 0 <= j < k ==> !LabelMatches(lbl, ToSeq(t)[j]);
            assert ToSeq(refs)[k + 1] == ToSeq(t)[k];
            forall j | 0 <= j < k + 1 ensures !LabelMatches(lbl, ToSeq(refs)[j]) {
              if j > 0 { assert ToSeq(refs)[j] == ToSeq(t)[j - 1]; }
            }
          }
        }
        r
  }

  /**
   * `find_note`: the first note, in list order, whose text is byte-for-byte
   * equal to `label`; none when no note has that text.
   */
  function {:induction false} FindNote(notes: List, lbl: Bytes): (r: Option<Element>)
    ensures r.None? <==> forall i :: 0 <= i < Length(notes) ==> ToSeq(notes)[i].str != lbl
    ensures r.Some? ==> exists i :: (0 <= i < Length(notes) && ToSeq(notes)[i] == r.value &&
      r.value.str == lbl &&
      forall j :: 0 <= j < i ==> ToSeq(notes)[j].str != lbl)
    decreases notes
  {
    match notes
    case Nil => None
    case Cons(h, t) =>
      assert ToSeq(notes)[0] == h;
      assert forall i :: 1 <= i < Length(notes) ==> ToSeq(notes)[i] == ToSeq(t)[i - 1];
      if lbl == h.str then Some(h)
      else
        var r := FindNote(t, lbl);
        assert r.Some? ==> exists i :: (0 <= i < Length(notes) && ToSeq(notes)[i] == r.value &&
          r.value.str == lbl &&
          forall j :: 0 <= j < i ==> ToSeq(notes)[j].str != lbl) by {
          if r.Some? {
            var k :| 0 <= k < Length(t) && ToSeq(t)[k] == r.value && r.value.str == lbl &&
              forall j :: 0 <= j < k ==> ToSeq(t)[j].str != lbl;
            assert ToSeq(notes)[k + 1] == ToSeq(t)[k];
          }
        }
        r
  }
}
