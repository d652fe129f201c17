# Markdown parser core, modelled in Dafny

This project models the machinery underneath the peg-markdown parser in
`parser.leg.go`. That parser is generated by leg from a PEG grammar: each grammar rule becomes a
closure that moves a byte `position` through the input, backtracks on failure, and records
its semantic actions as deferred *thunks*. The thunks are replayed only when the parse
commits. The model covers:

- **List building** (module `Elements`): AST elements and the `next`-linked child lists;
  `cons`, `reverse`, `append_list`, `mkElem`, `mkString`, `mkList` and
  `mkStringFromList`; and the cons-then-reverse protocol that every action uses to keep
  children in document order.
- **Reference and footnote lookup** (module `Lookup`): `match_inlines`, the
  case-insensitive structural equality of inline lists, and the first-match searches
  `findReference` and `find_note`.
- **The backtracking machine** (module `Machine`): the parser state; the primitives
  `matchDot`, `matchChar`, `peekChar`, `matchString` and `matchClass`, which track the
  furthest failure `Max`; the thunk queue (`doarg`, `do`) and `commit`; the
  save-on-entry, restore-on-failure pattern that most rules follow (`Indent` is the
  exception that matters: it fails with its position moved); and `ResetBuffer`.
- **The value stack** (module `ValueStack`): `yyPush`, `yyPop` and `yySet` over the
  `yyval` slots.
- **Error positions** (module `Errors`): `parseErr`, which turns `Min` and `Max` into
  lines and columns and picks between an end-of-file error and an unexpected-character
  error.
- **Small lexical rules** (module `Lexical`): `Spacechar`, `Sp`, `Newline`,
  `NonindentSpace`, `Indent`, `AtxStart` and its heading action, `CellDivider`, the six
  table-alignment rules and `AlignmentCell`.

The Go code mutates closure variables. The model threads an immutable `Parser` record
through pure functions instead. A rule returns a `Step(ok, p)`: whether it matched, and
the state after it. Strings are byte sequences, and a nil pointer is `None`. Each rule is
modelled on the generated code, not on the grammar comment above it, including where a
failing primitive moves `Max`.

## Model

| member | source | states |
|---|---|---|
| Common.Upper | parser.leg.go:13698-13700 | Upper-casing keeps the length and maps each byte on its own: lower-case ASCII letters go to upper case, every other byte stays. |
| Elements.MkElem | parser.leg.go:13633-13643 | A fresh element has the requested key, an empty string, no link and no children. |
| Elements.MkString | parser.leg.go:13647-13652 | The result is an STR element that carries exactly the given text and nothing else. |
| Elements.ConsElem | parser.leg.go:13597-13600 | The new element becomes the head and the old list follows it unchanged, so the length grows by one. |
| Elements.ReverseOnto | parser.leg.go:13604-13611 | One pass of the reverse loop: the remaining list, reversed, is placed in front of the accumulator. |
| Elements.Reverse | parser.leg.go:13604-13611 | The result has the same length, and position i holds the element at position length-1-i of the input. |
| Elements.ReverseInvolutive | parser.leg.go:13604-13611 | Reversing twice gives back the original list. |
| Elements.AppendList | parser.leg.go:13614-13623 | On a non-empty list, the new element becomes the last one (with nothing after it) and all earlier elements keep their places. |
| Elements.MkList | parser.leg.go:13674-13678 | The element has the given key, and its children are the accumulator in reverse order. |
| Elements.ConsAllReversed | parser.leg.go:13597-13600 | Consing elements one by one onto an accumulator leaves them in front of it in reverse order. |
| Elements.ConsThenMkListKeepsOrder | parser.leg.go:13674-13678 | Children consed in parse order and then wrapped by mkList come out in parse order, first parsed first. |
| Elements.MkStringFromList | parser.leg.go:13656-13668 | The result is an STR element whose text is the str fields of the accumulator's elements concatenated in their original, pre-cons order, followed by one newline exactly when extra_newline is set. |
| Elements.ConsedStringsInParseOrder | parser.leg.go:13656-13668 | Strings consed in parse order are concatenated by mkStringFromList in parse order. |
| Lookup.MatchInlines | parser.leg.go:13690-13715 | Two lists that match have the same length. |
| Lookup.MatchInlinesPairwise | parser.leg.go:13690-13715 | Lists match if and only if they have the same length and correspond element by element: equal keys; text payloads of STR, CODE and HTML equal up to case; EMPH, STRONG, LIST and quoted children matching recursively; key-only kinds matching on the key; and no LINK or IMAGE anywhere. |
| Lookup.MatchInlinesSymmetric | parser.leg.go:13690-13715 | Swapping the two lists does not change the answer. |
| Lookup.MatchInlinesReflexive | parser.leg.go:13690-13715 | A list without links or images matches itself. |
| Lookup.MatchInlinesTransitive | parser.leg.go:13690-13715 | If a matches b and b matches c, then a matches c. |
| Lookup.FindReference | parser.leg.go:13720-13729 | No result if and only if no reference's label matches. Otherwise the result is the link record of a matching reference, and no earlier reference in list order matches. |
| Lookup.FindNote | parser.leg.go:13733-13740 | No result if and only if no note has the label's text. Otherwise the result is a note with exactly that text, and no earlier note has it. |
| ValueStack.Empty | parser.leg.go:456 | The stack starts with 256 nil slots and its top at 0. |
| ValueStack.Push | parser.leg.go:1429-1437 | The top moves up by count. When the new top is still inside the array, the slots are exactly as they were. When it reaches the end, the array grows by 256 nil slots and the existing slots keep their contents. |
| ValueStack.Pop | parser.leg.go:1438-1441 | The top moves down by count, and the slots are left as they were. |
| ValueStack.Set | parser.leg.go:1442-1445 | The slot at the given offset from the top holds the new value, and every other slot is unchanged. |
| ValueStack.Get | parser.leg.go:460 | An action's read of `yyval[yyp+k]` returns what the slot holds, so binding the value read back into the slot leaves the stack unchanged. |
| ValueStack.GetAfterSet | parser.leg.go:1442-1445 | A read after a bind returns the bound value at the bound slot and the previous value at every other slot. |
| ValueStack.PushNeverOverflows | parser.leg.go:1429-1437 | From a top inside the array, pushing up to 256 slots keeps the top inside the array and preserves every earlier binding. |
| ValueStack.FrameRoundTrip | parser.leg.go:1429-1445 | Pushing a frame, binding a slot in it and reading it back returns the bound value, and popping the frame restores the top. |
| ValueStack.SetsCommute | parser.leg.go:1442-1445 | Binding two different slots gives the same stack in either order. |
| Errors.LineCountsNewlines | parser.leg.go:427-433 | The line after scanning a prefix is one more than the number of newlines in it. |
| Errors.ColumnCountsSinceNewline | parser.leg.go:427-433 | After a newline, the column counts the bytes scanned since that newline, and the line is one more than before it. |
| Errors.ColumnOnFirstLine | parser.leg.go:427-433 | Before any newline, the position is line 1 with the column equal to the number of bytes scanned. |
| Errors.ParseErr | parser.leg.go:424-450 | The error is end-of-file if and only if Max is at or past the end. Otherwise it reports the byte at Max and the line/column reached after it. The "after" position is the one reached at Min when Min comes before Max (and lies inside the buffer); otherwise it is the zero position. |
| Machine.Initial | parser.leg.go:1457-1458 | A fresh parser is valid, with an empty queue and position, Max and Min all at 0. |
| Machine.MatchDot | parser.leg.go:1509-1517 | Succeeds if and only if a byte remains, and then advances by one. On failure only Max changes, to the larger of Max and position. |
| Machine.MatchChar | parser.leg.go:1519-1527 | Succeeds if and only if the next byte is c, and then advances by one. On failure only Max changes, to the larger of Max and position. |
| Machine.PeekChar | parser.leg.go:1529-1531 | True if and only if the next byte is c. It does not touch the state. |
| Machine.MatchString | parser.leg.go:1533-1543 | Succeeds if and only if the buffer continues with s, and then advances by the length of s. On failure only Max changes, to the larger of Max and position. |
| Machine.MatchClass | parser.leg.go:1555-1564 | Succeeds if and only if the next byte is in the class, and then advances by one. On failure only Max changes, to the larger of Max and position. |
| Machine.PrimitivesEvolve | parser.leg.go:1509-1564 | Every primitive keeps a valid state valid, never moves Max backwards, and keeps the queued thunks. |
| Machine.DoArg | parser.leg.go:1459-1474 | Exactly one thunk is appended, holding the action, the argument (or the current begin when the argument is 0) and the current end. A full backing array is doubled. All earlier thunks survive, and nothing else changes. |
| Machine.Do | parser.leg.go:1475-1477 | Exactly one thunk is appended, recording the current span, and nothing else changes. |
| Machine.DoArgEvolves | parser.leg.go:1459-1474 | Recording a thunk keeps a valid state valid and keeps every thunk already queued. |
| Machine.Replay | parser.leg.go:1494-1502 | The replay runs one action per queued thunk, in recording order. Each action gets its thunk's stored begin as argument, and the text of the thunk's span, or the previous text when the span is invalid. |
| Machine.Commit | parser.leg.go:1492-1508 | A non-zero mark does nothing and reports failure. Mark 0 runs every queued thunk in order, empties the queue and moves Min to the position. |
| Machine.Restore | parser.leg.go:1601-1603 | A failing rule puts back its entry position and queue length, and keeps the furthest failure. |
| Machine.Attempt | parser.leg.go:1601-1603 | A rule body under save and restore: success passes through unchanged; failure returns to the entry position and queue. Either way the state has only evolved, and validity is kept. |
| Machine.AbandonedThunksNeverRun | parser.leg.go:1601-1603 | After a failed attempt is undone, a commit runs exactly the actions it would have run if the attempt had never been made. |
| Machine.RestoreValid | parser.leg.go:1601-1603 | Undoing a failed attempt leaves a valid state that has only evolved from the entry state. |
| Machine.ResetBuffer | parser.leg.go:1479-1490 | The result returns the unread rest of the old buffer (empty when the position is at or past the end). It switches to the new buffer, and position, queue length, Min, Max and end return to 0. |
| Lexical.OccursAtRun | parser.leg.go:1533-1543 | Matching a literal of n copies of c succeeds exactly when the run of c at the position is at least n long. |
| Lexical.LongestRun | parser.leg.go:11746-11765 | The longest-first choice of c-runs succeeds if and only if c comes next, and then consumes the run capped at n. Max moves only when the run is shorter than n. |
| Lexical.SpacecharRunIsMaximal | parser.leg.go:11110-11118 | The run counted at a position is all tabs and spaces, and the byte after it is neither. |
| Lexical.Spacechar | parser.leg.go:11044-11063 | Succeeds if and only if a tab or space comes next, and then consumes it. On failure the state is untouched, Max included. |
| Lexical.Sp | parser.leg.go:11110-11118 | Always succeeds and consumes exactly the run of tabs and spaces. |
| Lexical.Newline | parser.leg.go:11086-11109 | Succeeds if and only if a carriage return or line feed comes next. It consumes two bytes for CR LF and one otherwise. On failure the state is unchanged. |
| Lexical.NonindentSpace | parser.leg.go:11746-11765 | Always succeeds, consumes the leading spaces capped at three, and leaves the queue alone. |
| Lexical.IndentAsWritten | parser.leg.go:11766-11789 | The generated code succeeds if and only if four spaces or a tab come next. On a leading space that is not followed by three more, it fails one byte further on. |
| Lexical.IndentAsWrittenLosesSpace | parser.leg.go:11804-11818 | On the line "  x" the generated Indent fails with the position moved to 1. |
| Lexical.Indent | parser.leg.go:11766-11789 | Succeeds if and only if four spaces or a tab come next, and consumes them. On failure the position is back where it started. |
| Lexical.AtxStart | parser.leg.go:1786-1828 | Succeeds if and only if a '#' comes next. It then consumes the run of '#' capped at six (every consumed byte a '#') and queues one AtxStart thunk whose span is exactly the consumed run. On failure the state is unchanged. |
| Lexical.AtxStartHeadingLevel | parser.leg.go:487-490 | The queued thunk's span is exactly the consumed text, one to six '#' bytes, so on replay the action makes a heading element H1..H6 whose level is the number of '#'. |
| Lexical.AtxAction | parser.leg.go:489 | The heading element's level is the length of the matched text: H1 for one '#', one deeper for each further '#', and within H1..H6 for one to six. It carries no text, link or children. |
| Lexical.LeftPrefix | parser.leg.go:13370-13379 | An optional colon and one or more dashes match exactly where that prefix occurs, and the rule then sits at its end. Otherwise only Max may move. |
| Lexical.CenterPrefix | parser.leg.go:13423-13430 | A colon and any dashes match exactly where that prefix occurs, and the rule then sits at its end. Otherwise only Max may move. |
| Lexical.RightPrefix | parser.leg.go:13510-13517 | One or more dashes match exactly where they occur, and the rule then sits at their end. Otherwise only Max may move. |
| Lexical.StarChar | parser.leg.go:13374-13378 | A starred character consumes its whole run and records a failure where the run ends. |
| Lexical.Finish | parser.leg.go:13383-13390 | The closing lookahead succeeds if and only if neither '-' nor ':' follows, and then queues the alignment's action. On failure the rule is back at its entry state with only Max moved. |
| Lexical.LeftAlignWrap | parser.leg.go:13367-13394 | Matches if and only if the `:? -+ +` pattern with a boundary occurs, and then consumes it and queues action 133. Otherwise it leaves the position and queue as they were. |
| Lexical.LeftAlign | parser.leg.go:13395-13419 | Matches if and only if the `:? -+` pattern with a boundary occurs, and then consumes it and queues action 134. Otherwise it leaves the position and queue as they were. |
| Lexical.CenterAlignWrap | parser.leg.go:13420-13449 | Matches if and only if the `: -* + :` pattern with a boundary occurs, and then consumes it and queues action 135. Otherwise it leaves the position and queue as they were. |
| Lexical.CenterAlign | parser.leg.go:13450-13476 | Matches if and only if the `: -* :` pattern with a boundary occurs, and then consumes it and queues action 136. Otherwise it leaves the position and queue as they were. |
| Lexical.RightAlignWrap | parser.leg.go:13477-13506 | Matches if and only if the `-+ : +` pattern with a boundary occurs, and then consumes it and queues action 137. Otherwise it leaves the position and queue as they were. |
| Lexical.RightAlign | parser.leg.go:13507-13533 | Matches if and only if the `-+ :` pattern with a boundary occurs, and then consumes it and queues action 138. Otherwise it leaves the position and queue as they were. |
| Lexical.OutcomeEvolves | parser.leg.go:13367-13533 | After an alignment rule the state is valid and has only evolved. A match sits after the pattern with the rule's thunk queued; a failure sits where it started with the queue as it was. |
| Lexical.FirstOfIsFirst | parser.leg.go:13318-13337 | Searching alternatives in order finds nothing exactly when none of them matches; otherwise it finds one that matches, with no earlier alternative matching. |
| Lexical.OrderedChoice | parser.leg.go:13318-13337 | Trying alignment rules in order, each from where the last one was put back, recognises the first alternative that matches. |
| Lexical.FirstAlignIsFirst | parser.leg.go:13309-13356 | The cell's alignment is none exactly when none of the six alignments matches; otherwise it is one that matches, with no alignment earlier in the generated order matching. |
| Lexical.FirstOfAppend | parser.leg.go:13318-13356 | Trying one list of alternatives and then, if none matched, a second list finds the same first alternative as trying the two lists joined. |
| Lexical.FirstAlignInTwoParts | parser.leg.go:13318-13356 | The four ordered alternatives followed by the next-byte switch find the same first alignment as trying all six in order. |
| Lexical.ByNextByte | parser.leg.go:13337-13356 | The switch tries RightAlign on '-' and CenterAlign on ':', and recognises whichever of the two matches first. |
| Lexical.AlignmentChoice | parser.leg.go:13318-13356 | The full choice recognises the first alignment, in the generated order, whose pattern matches. |
| Lexical.CellDivider | parser.leg.go:13534-13542 | Succeeds if and only if a '\|' comes next, and then consumes it. On failure the position is unchanged. |
| Lexical.OptionalDividerEndsCell | parser.leg.go:13357-13361 | After the trailing tabs and spaces, the optional '\|' takes the position to the cell's end. |
| Lexical.CellTail | parser.leg.go:13357-13362 | After a recognised alignment the cell always succeeds. It ends past the trailing spaces and the optional divider, with the alignment's thunk queued. |
| Lexical.Restored | parser.leg.go:13363-13365 | A failed cell returns to its entry state, keeping only the furthest failure. |
| Lexical.CellOnDivider | parser.leg.go:13315-13317 | When the leading spaces run into '\|', the cell fails and puts back its entry state. |
| Lexical.CellAfterChoice | parser.leg.go:13318-13365 | Once the choice has run, the cell succeeds exactly when some alignment was recognised, and it ends at the cell's end. |
| Lexical.AlignmentCell | parser.leg.go:13309-13366 | A separator cell is recognised if and only if, after its leading tabs and spaces, no '\|' comes next and some alignment matches. It then queues the first matching alignment's action with the entry span and ends past the trailing spaces and optional divider. Otherwise it is back at its entry position and queue. |
| Lexical.CellOutcomeEvolves | parser.leg.go:13309-13366 | After a cell the state is valid and has only evolved. A recognised cell sits at the cell's end with one thunk queued; an unrecognised one sits where it started with the queue unchanged. |
| Lexical.AlignmentElement | parser.leg.go:1377-1400 | Each alignment's action makes a one-letter STR element. Upper-cased, the letter is L, C or R for the side, and it is lower case exactly for a column that does not wrap. |
| Lexical.AlignmentElementInjective | parser.leg.go:1377-1400 | Different alignments make different elements, so the element tells the alignment apart. |

## Left out

- The per-tag HTML block rules and the `HtmlBlockType` alternation (parser.leg.go:2905-7813) are not modelled. They are some thirty near-identical rule triples built from the same primitives.
- The rest of the grammar is not modelled: block and inline rules, the long code and backtick rules, and the rules that call the modelled ones (`AtxHeading`, `OptionallyIndentedLine`, `SeparatorLine`, the table rules). They are large and add no new mechanism.
- Machine.MatchClass: takes the character class as a predicate on bytes. The bit tables (parser.leg.go:1545-1554) and the 256-way `Alphanumeric` switch are not modelled.
- `peekClass` (parser.leg.go:1565-1571) is not modelled. It is the looking-only form of `matchClass`, and no modelled rule uses it.
- Common.Upper: folds ASCII letters only. Go's `strings.ToUpper` also folds non-ASCII letters, so `match_inlines` on such text is outside the model.
- Lookup.MatchInlines: requires every key the comparison can reach in the first list to be a known kind, in place of the `log.Fatalf` abort. Go aborts only when it actually reaches an unknown key with equal keys on both sides, so the requirement is somewhat stronger than the code's.
- Lookup.FindReference: inherits the same requirement on the label it looks up, since it compares that label with `match_inlines`. A label holding an unknown key, which Go might still answer when no reference reaches that key, is outside the model.
- Errors.ParseErr: scans bytes. Go ranges over the buffer as UTF-8 runes, so on non-ASCII input its columns count runes and a `Min` or `Max` inside a multi-byte rune is never met. The two agree on ASCII input.
- Elements.MkElem: returns a fresh value. The element arena (`heap.row`, `nextRow`) is not modelled.
- Elements.AppendList: returns the extended list. Go's `append_list` returns nothing: it sets `new.next` and the last cell's `next` in place, so the caller's list, and every other list sharing those cells, changes. That aliasing is not modelled.
- Elements.Reverse: computes a new list. Go's `reverse` relinks the cells in place and destroys its input, so aliasing between the old and new list is not modelled.
- Machine.Commit: returns the sequence of action calls it makes (id, text, argument). The action closures themselves are not modelled, apart from the three value-stack actions, the `AtxStart` action and the alignment actions.
- Thunk action ids are Go `uint16` and positions are Go `int`. The model uses unbounded integers; every id in use is below 144, and buffers are taken to fit in memory.
- The `Parse` wrapper, `Init` and its `rules` array wiring, `print_tree`, `keynames` and the `fmt.Sprintf` error formatting (parser.leg.go:392-422, 13744-13805) are not modelled. They are control wiring, debugging output and string formatting.
- `OptionallyIndentedLine` is not modelled. The space it drops through `Indent` is exhibited on `Indent` alone, in the finding below.

## Findings

| source | as written | input that shows it | evidently intended | confidence | as-written member | corrected member |
|---|---|---|---|---|---|---|
| parser.leg.go:11766-11789 | On a leading space, `Indent` advances past it before trying the three further spaces. When they are missing it returns false without putting the position back. | The line "  x": `Indent` fails with the position at 1, so `OptionallyIndentedLine` (`Indent? Line`, parser.leg.go:11804-11818) starts `Line` one byte late. | A failing `Indent` leaves the position where it started, like the rules that save and restore it. | not executed | Lexical.IndentAsWrittenLosesSpace | Lexical.Indent |
