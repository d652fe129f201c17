/**
 * AST elements and the list-builder protocol.
 *
 * An element's `next` pointer is modelled by the `List` datatype: a list is
 * either nil or a cell holding an element and the rest of the list.  Actions
 * build every child list by consing onto an accumulator and then reversing it
 * once, so document order rests on `Cons`, `Reverse` and `MkList`.
 */
module Elements {
  import opened Common

  /** Element keys, numbered as the Go `iota` block numbers them. */
  const LIST: int := 0
  const RAW: int := 1
  const SPACE: int := 2
  const LINEBREAK: int := 3
  const ELLIPSIS: int := 4
  const EMDASH: int := 5
  const ENDASH: int := 6
  const APOSTROPHE: int := 7
  const SINGLEQUOTED: int := 8
  const DOUBLEQUOTED: int := 9
  const STR: int := 10
  const LINK: int := 11
  const IMAGE: int := 12
  const CODE: int := 13
  const HTML: int := 14
  const EMPH: int := 15
  const STRONG: int := 16
  const PLAIN: int := 17
  const PARA: int := 18
  const LISTITEM: int := 19
  const BULLETLIST: int := 20
  const ORDEREDLIST: int := 21
  const H1: int := 22
  const H6: int := 27
  const NOTE: int := 33

  datatype Element = Element(key: int, str: Bytes, link: Option<Link>, children: List)

  /** Label, URL and title of a link, an image or a reference declaration. */
  datatype Link = Link(labelList: List, url: Bytes, title: Bytes)

  datatype List = Nil | Cons(head: Element, next: List)

  /** The elements of a list, first to last. */
  function ToSeq(l: List): (s: seq<Element>)
    ensures l.Nil? <==> s == []
  {
    match l
    case Nil => []
    case Cons(h, t) => [h] + ToSeq(t)
  }

  function Length(l: List): nat {
    |ToSeq(l)|
  }

  /** The elements of `s` in opposite order, defined index by index. */
  ghost function Reversed<T>(s: seq<T>): seq<T> {
    seq(|s|, i requires 0 <= i < |s| => s[|s| - 1 - i])
  }

  /** Two lists with the same elements in the same order are the same list. */
  lemma {:induction false} ToSeqInjective(a: List, b: List)
    requires ToSeq(a) == ToSeq(b)
    ensures a == b
  {
    match a
    case Nil =>
    case Cons(h, t) =>
      assert ToSeq(b) != [];
      assert ToSeq(b)[0] == h && ToSeq(t) == ToSeq(a)[1..] == ToSeq(b)[1..] == ToSeq(b.next);
      ToSeqInjective(t, b.next);
  }

  lemma ReversedCons<T>(h: T, s: seq<T>)
    ensures Reversed([h] + s) == Reversed(s) + [h]
  {
  }

  lemma ReversedReversed<T>(s: seq<T>)
    ensures Reversed(Reversed(s)) == s
  {
  }

  /** The generic constructor: a fresh element of the given key with everything else empty. */
  function MkElem(key: int): (e: Element)
    ensures e.key == key && e.str == [] && e.link.None? && e.children.Nil?
  {
    Element(key, [], None, Nil)
  }

  /** A fresh STR element carrying `s`. */
  function MkString(s: Bytes): (e: Element)
    ensures e.key == STR && e.str == s && e.link.None? && e.children.Nil?
  {
    Element(STR, s, None, Nil)
  }

  /** `cons`: the new element becomes the head, the old list follows it unchanged. */
  function ConsElem(e: Element, l: List): (r: List)
    ensures ToSeq(r) == [e] + ToSeq(l)
    ensures Length(r) == Length(l) + 1
  {
    Cons(e, l)
  }

  /** One pass of the `reverse` loop: the rest of `list` is consed, in turn, onto `acc`. */
  function {:induction false} ReverseOnto(list: List, acc: List): (r: List)
    ensures ToSeq(r) == Reversed(ToSeq(list)) + ToSeq(acc)
    decreases list
  {
    match list
    case Nil => acc
    case Cons(h, t) =>
      ReversedCons(h, ToSeq(t));
      ReverseOnto(t, ConsElem(h, acc))
  }

  /** `reverse`: the same elements in opposite order. */
  function Reverse(list: List): (r: List)
    ensures Length(r) == Length(list)
    ensures forall i :: 0 <= i < Length(list) ==> ToSeq(r)[i] == ToSeq(list)[Length(list) - 1 - i]
  {
    ReverseOnto(list, Nil)
  }

  /** Reversing twice gives back the list that was reversed. */
  lemma ReverseInvolutive(list: List)
    ensures Reverse(Reverse(list)) == list
  {
    assert ToSeq(Reverse(list)) == Reversed(ToSeq(list));
    assert ToSeq(Reverse(Reverse(list))) == Reversed(Reversed(ToSeq(list)));
    ReversedReversed(ToSeq(list));
    ToSeqInjective(Reverse(Reverse(list)), list);
  }

  /**
   * `append_list`: `elem` becomes the last element, with no successor, and the
   * earlier elements stay where they were.  Go dereferences the list, so it
   * must not be nil.
   */
  function {:induction false} AppendList(elem: Element, list: List): (r: List)
    requires list.Cons?
    ensures ToSeq(r) == ToSeq(list) + [elem]
    ensures Length(r) == Length(list) + 1
    decreases list
  {
    if list.next.Nil? then Cons(list.head, Cons(elem, Nil))
    else Cons(list.head, AppendList(elem, list.next))
  }

  /** `mkList`: an element of key `key` whose children are the accumulator reversed. */
  function MkList(key: int, lst: List): (el: Element)
    ensures el.key == key && el.str == [] && el.link.None?
    ensures ToSeq(el.children) == Reversed(ToSeq(lst))
  {
    Element(key, [], None, Reverse(lst))
  }

  /** The accumulator an action builds by consing `es[0]`, then `es[1]`, ... onto `acc`. */
  function ConsAll(acc: List, es: seq<Element>): List
    decreases |es|
  {
    if es == [] then acc else ConsAll(ConsElem(es[0], acc), es[1..])
  }

  lemma {:induction false} ConsAllReversed(acc: List, es: seq<Element>)
    ensures ToSeq(ConsAll(acc, es)) == Reversed(es) + ToSeq(acc)
    decreases |es|
  {
    if es != [] {
      ConsAllReversed(ConsElem(es[0], acc), es[1..]);
      assert es == [es[0]] + es[1..];
      ReversedCons(es[0], es[1..]);
    }
  }

  /**
   * The cons-then-reverse protocol yields document order: children made by
   * consing `es` in the order they were parsed and then calling `mkList` are
   * exactly `es`, first parsed first.
   */
  lemma ConsThenMkListKeepsOrder(key: int, es: seq<Element>)
    ensures ToSeq(MkList(key, ConsAll(Nil, es)).children) == es
  {
    ConsAllReversed(Nil, es);
    ReversedReversed(es);
  }

  /** The `str` fields of `es` concatenated, first element first. */
  function Strs(es: seq<Element>): Bytes
  {
    if es == [] then [] else es[0].str + Strs(es[1..])
  }

  /**
   * `mkStringFromList`: an STR element whose text is the `str` fields of the
   * accumulator's elements in original (pre-cons) order, followed by one
   * newline exactly when `extraNewline` is set.
   */
  method MkStringFromList(list: List, extraNewline: bool) returns (result: Element)
    ensures result.key == STR && result.link.None? && result.children.Nil?
    ensures extraNewline ==> result.str == Strs(Reversed(ToSeq(list))) + ['\n']
    ensures !extraNewline ==> result.str == Strs(Reversed(ToSeq(list)))
  {
    var s: Bytes := [];
    var cur := Reverse(list);
    ghost var all := ToSeq(cur);
    assert all == Reversed(ToSeq(list));
    while cur.Cons?
      invariant s + Strs(ToSeq(cur)) == Strs(all)
      decreases cur
    {
      assert ToSeq(cur) == [cur.head] + ToSeq(cur.next);
      s := s + cur.head.str;
      cur := cur.next;
    }
    if extraNewline {
      s := s + ['\n'];
    }
    result := MkString(s);
  }

  /** The string an action makes from strings consed in parse order is their concatenation in parse order. */
  lemma ConsedStringsInParseOrder(es: seq<Element>)
    ensures Strs(Reversed(ToSeq(ConsAll(Nil, es)))) == Strs(es)
  {
    ConsAllReversed(Nil, es);
    assert ToSeq(ConsAll(Nil, es)) == Reversed(es);
    ReversedReversed(es);
  }
}
