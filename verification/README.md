# Molten, verified

Dafny models of the algorithmic parts of the Molten tracing extension for PHP, with proofs about them:

- the JSON engine: parser, both printers, in-place minifier, linked-list editing and deep copy;
- the smooth weighted round-robin balancer;
- the span-context machine: the array stack, the dotted ids, and the hooks that push and pop around nested
  PHP calls, including calls that bail out;
- the per-minute sampler, for one worker and for several interleaving ones;
- the bounded text rendering of a call and its arguments.

Code that changes state in place is modelled by classes, arrays and loops whose contracts equate the new state
with a function of the old one; the theorems are then lemmas about those functions. The JSON text is a sequence
of characters, one per byte, read past its end as the terminator. Errors are values: a parse is `Parsed`,
`Rejected` at a position, or `Undefined` where the C code reads past the terminator or leaves the integers.
Clocks, random draws, the sampled header, what counts as a matched call and what a recorder does with its ids
are parameters.

Files, each one module: `Prelude`, `CText`, `Decimal`, `Bits`, `Utf8`, `Utf8Forms` (shared definitions, C strings,
decimal text, `pow2gt`, UTF-8); `LoadBalance`; `JsonTree`, `JsonString`, `Lexemes`, `StringLaws`, `JsonParse`,
`Scanning`, `Grammar`, `RoundTrip`, `PrintedForm`, `Accepted`, `JsonPrint`, `JsonBuffer`, `Minify`, `Stripping`,
`JsonItem`, `JsonList`, `JsonCopy`, `JsonMeaning`, `JsonBuild` (common/molten_cJSON.c); `MoStack`, `Span`,
`SpanRuns`, `CallTree`, `IssuedIds`, `RecordedIds`, `RecordedPaths`, `WideCalls`; `Sampler`, `SharedSampler`,
`SampledMinute`, `SamplerSchedules`; `ArgText`. `dafny verify dfyconfig.toml` checks all of them.

## What the proofs found

- `print_object` in its buffered, formatted branch counts the closing tabs in the variable that holds the start of
  the object, so the index it returns for a non-empty object is the nesting depth
  (common/molten_cJSON.c:603-607). The text written is right, and so is the index returned at the top level;
  `JsonBuffer.MisplacedObject` is an object that starts at 8 and is reported at 1.
- `build_span_id_level` reserves five digits for a child number. From 100000 on `sprintf` writes past the buffer and the
  id that is kept is cut (`Span.IdFits`, `Span.BuildSpanIdLevel`); two contexts carry one id exactly when the numbers
  on the way to them agree in their first five digits (`Span.PathIdSame`). Child 100000 repeats the id of child 10000
  (`SpanRuns.SiblingsRepeat`), so without ids from a request header the ids of a run are all different exactly when no
  push meets an empty stack or a context that has numbered 99999 children (`SpanRuns.UniqueNumbers`, and
  `IssuedIds.IssuedIdsUnique` for call trees); `SpanRuns.UniqueIds` is the condition with such ids.
- `molten_curl_exec` pushes before its parameters are parsed and pops only after a successful parse and a normal
  return, so a failed parse or a bailout leaves a context behind. The stack is restored exactly when no sampled curl
  call does that (`CallTree.StackRestored`), and every span is recorded under its own id and parent exactly when, in
  addition, no context numbers more than 99999 children (`CallTree.RecordsAreNumbered`). Two spans are recorded under
  one id whenever a matched frame finds a context on top that a curl call around a leak has recorded already, as in
  `WideCalls.LeakRepeatsId`, and, while child numbers keep to five digits, only then (`RecordedIds.RecordedIdsUnique`).
  For every tree the repeated ids are those of recorded places whose numbers agree in their first five digits
  (`RecordedPaths.RepeatsExactly`).
- In the minute in which the shared memory was set up the quota of the sampler is one less than configured
  (`Sampler.MinuteTotal`). Several workers can exceed it: between two resets by P - 1 and no more
  (`SharedSampler.BoundedOversampling`, `SamplerSchedules.OversamplingReached`). One minute can see several resets, at
  most (P * P + 3 * P - 2) / 2, a number that is reached (`SampledMinute.MinuteResets`); in the schedule that reaches it
  P * (P + 1) / 2 times the limit is sampled (`SamplerSchedules.MinuteExceeded`), which is a lower bound for the worst
  case, and `SampledMinute.MinuteBound` is an upper one.
- `cJSON_Minify` ends a block comment at its first slash when the comment text starts with one, as in `/*/`
  (`Stripping.CommentEndsRight`). A string literal that ends with the text is accepted by the parser, and the
  minifier runs past its terminator; on all other accepted texts it keeps the value (`Stripping.MinifyKeepsValue`).
- Beyond RFC 8259, the parser takes control characters as blanks, numbers with a leading zero or only a sign, raw
  control characters and any escaped character in strings, and reads malformed or unpaired Unicode escapes as nothing;
  nothing else is accepted, fractions and exponents apart, except a literal that ends with the text
  (`Accepted.AcceptedText`, `Lexemes.LitReads`).
- `convert_args_to_string` counts the length of each argument but copies it only up to a NUL, and its arithmetic turns
  negative for names longer than 58 characters, behind which the first argument is not cut and can overrun the buffer
  (`ArgText.RenderedFits`); its result is the truncated call text exactly when neither happens in
  the part that is kept (`ArgText.ClosedForm`).

## Model

| member | source | states |
|---|---|---|
| LoadBalance.InitServers | common/load_balance.c:18-29 | a new table holds the given weights and the first 32 characters of each name with zero credits, behind them one zeroed spare entry |
| LoadBalance.InitDefaultServers | common/load_balance.c:37-48 | the same with every weight 50 |
| LoadBalance.FirstMaxWins | common/load_balance.c:62-69 | the chosen index holds a maximum of the raised credits, strictly above every earlier entry |
| LoadBalance.GetNextServerIndex | common/load_balance.c:56-73 | the index returned holds the largest credit plus weight, the first one if there are several; the loop leaves exactly the raised credits, the chosen one less the total; weights, names and entries past size stay |
| LoadBalance.Conservation | common/load_balance.c:62-71 | after any k calls the credit of server i is k * weight[i] - total * (times i was selected) |
| LoadBalance.SelectedIsOwedMost | common/load_balance.c:62-71 | from zero credits, every call of a run returns the first server that is owed most: its share of the calls so far less total times what it was given |
| LoadBalance.OnlySelection | common/load_balance.c:56-73 | a sequence of choices follows this rule if and only if it is the sequence of returned indices |
| LoadBalance.CreditsSumToZero | common/load_balance.c:62-71 | the credits cancel out after every call |
| LoadBalance.CreditBounds | common/load_balance.c:62-71 | every credit stays above -total and at most (size-1)*(total-1) |
| LoadBalance.PrefixFairness | common/load_balance.c:56-73 | in every prefix a server is less than one selection ahead of its proportional share and at most size-1 behind; weight 0 is never selected |
| LoadBalance.NoOverflow | common/load_balance.c:63-71 | when size * total fits an int, so does every credit stored on the way |
| LoadBalance.BackToZero | common/load_balance.c:56-73 | after total calls all credits are zero again |
| LoadBalance.Periodic | common/load_balance.c:56-73 | credits and selections have period total |
| LoadBalance.ExactShares | common/load_balance.c:56-73 | every window of total consecutive calls, wherever it starts, selects server i exactly weight[i] times |
| LoadBalance.DefaultIsRoundRobin | common/load_balance.c:37-73 | with equal default weights call k returns k mod size |
| Bits.Pow2GtLeast | common/molten_cJSON.c:117-117 | for 1 to 2^30 the shift cascade yields the least power of two that is not below its argument |
| Utf8.EncodeDecodes | common/molten_cJSON.c:231-238 | the UTF-8 form of a code point (section 3 of RFC 3629) decodes back to it |
| Utf8Forms.EncodeWellFormed | common/molten_cJSON.c:231-238 | for every code point but the surrogates the bytes are one of the well-formed sequences of section 4 of RFC 3629 |
| Utf8Forms.OnlyEncoding | common/molten_cJSON.c:231-238 | every well-formed sequence is the encoding of the scalar value it decodes to, so a code point has no other, longer one |
| Utf8.BytesAreEncode | common/molten_cJSON.c:231-238 | the shifting and masking switch produces these bytes |
| Utf8.PutUtf8 | common/molten_cJSON.c:231-239 | writing backwards from the end stores exactly those bytes behind what was written before |
| Utf8.Hex4OfHexText | common/molten_cJSON.c:177-188 | four hex digits in either case read back as the unit they were written from |
| Utf8.PairOfHalves | common/molten_cJSON.c:224-228 | the two surrogates of a supplementary code point combine to it |
| JsonString.EscapeFits | common/molten_cJSON.c:197-239 | an escape sequence never yields more bytes than the counting pass reserved for it |
| JsonString.ParseString | common/molten_cJSON.c:192-249 | the counting and copying loops compute the specified string and stay inside the allocated buffer |
| JsonString.CopyEscape | common/molten_cJSON.c:207-243 | one escape appends exactly its bytes and moves the read position as specified |
| JsonString.StringSize | common/molten_cJSON.c:256-278 | the counted length is the length of the escaped text, and without the flag the text needs no escape |
| JsonString.WriteString | common/molten_cJSON.c:257-306 | exactly len+3 bytes are written, the quoted text and its terminator, in both branches |
| StringLaws.StringRoundTrip | common/molten_cJSON.c:192-307 | parse_string undoes print_string_ptr on every NUL-free string and stops behind the closing quote |
| StringLaws.QuoteIsLiteral | common/molten_cJSON.c:252-307 | a printed string is a literal of RFC 8259, without raw control characters, and stands for the string |
| StringLaws.EscapeForms | common/molten_cJSON.c:282-302 | only the quote, the backslash and control characters are escaped, each in the form listed |
| StringLaws.ShortForms | common/molten_cJSON.c:207-216 | what each letter of a short escape stands for, by number |
| StringLaws.AcceptedLiteral | common/molten_cJSON.c:192-249 | every closed literal that is read consists of plain bytes, short escapes, \u units and pairs, and units that are malformed, zero or unpaired, which stand for nothing, and is read as what these stand for |
| StringLaws.ParsedStringNulFree | common/molten_cJSON.c:203-244 | whatever literal is accepted, the parsed string holds no NUL |
| JsonParse.Skip | common/molten_cJSON.c:320-320 | stops at the first character above 32 or the terminator |
| Scanning.SkippedIs | common/molten_cJSON.c:320-320 | all that is skipped lies between 1 and 32, what follows does not |
| JsonParse.ParseNumber | common/molten_cJSON.c:96-115 | the digit loop computes the specified integer and end |
| JsonBuild.ParseValue | common/molten_cJSON.c:357-369 | the dispatch on the first characters follows the specified grammar, errors included; the item filled has the type code and fields of its value and is the root of new items laid out as the value |
| JsonBuild.TreeMeans | common/molten_cJSON.c:357-369 | the items a value is stored in read back as it, by the type codes and fields of common/molten_cJSON.h |
| Scanning.NoValueHere | common/molten_cJSON.c:357-369 | where no value can start the error is at that position |
| Scanning.NoSeparatorHere | common/molten_cJSON.c:406-431 | behind an item the error is at the first character that is no blank, comma or bracket, and an item's error is passed on |
| Scanning.NoMemberHere | common/molten_cJSON.c:514-547 | the same for a member's name, colon, value and separator |
| Scanning.MoreLeft | common/molten_cJSON.c:323-337 | with the end required the error is at the first character that is left |
| JsonBuild.ParseArray | common/molten_cJSON.c:406-431 | the loop links new items at the end, next and prev, and leaves the recursively specified array below the item, or stops at the position of the first error |
| JsonBuild.ParseObject | common/molten_cJSON.c:514-547 | the same for members, whose names move from valuestring to string |
| JsonBuild.ParseWithOpts | common/molten_cJSON.c:323-337 | leading blanks are skipped and, if required, only blanks may follow; the result is a tree of new items, each in one place |
| JsonBuild.BuiltIsChain | common/molten_cJSON.c:406-547 | the children of a parsed array or object form the doubly linked chain that editing takes, and the whole unfolds to the tree that copying takes |
| RoundTrip.LayoutText | common/molten_cJSON.c:372-403 | the printed text of a tree, at any depth and in either format, is the text of a derivation in the grammar |
| RoundTrip.LayoutDenotes | common/molten_cJSON.c:372-403 | that derivation is one of RFC 8259, in its numbers, literals and blanks, and denotes the tree |
| RoundTrip.ValueReads | common/molten_cJSON.c:357-402 | wherever a printed value occurs, at any depth, in either format and followed by no character that would extend a number, it parses back and ends there |
| RoundTrip.ParsePrint | common/molten_cJSON.c:323-402 | parsing the printed text of any tree gives the tree back and stops exactly at the end of the text |
| PrintedForm.Plain | common/molten_cJSON.c:434-658 | the unformatted text of arrays and objects, character by character |
| PrintedForm.Formatted | common/molten_cJSON.c:434-658 | the formatted text: spaces between items, a line and a tab for each level before members, a tab behind the colon |
| PrintedForm.Words | common/molten_cJSON.c:372-403 | the three words |
| RoundTrip.PrintInjective | common/molten_cJSON.c:342-343 | different trees print differently, in both formats |
| RoundTrip.ParsedIsValid | common/molten_cJSON.c:357-369 | whatever is accepted is a tree the printers handle |
| RoundTrip.Reprint | common/molten_cJSON.c:323-402 | for any accepted input, print followed by parse is the identity on the result |
| Scanning.NumeralReads | common/molten_cJSON.c:96-115 | a sign, a zero and a decimal without leading zero, any of them missing, read as that integer wherever they stand and no digit, point or exponent follows |
| Scanning.NumeralIs | common/molten_cJSON.c:96-115 | such a text is left undefined exactly before a fraction or an exponent and beyond 32 bits |
| Scanning.AcceptedNumeral | common/molten_cJSON.c:96-115 | every integer that is read is written in this form |
| Lexemes.LitReads | common/molten_cJSON.c:192-249 | a literal of plain bytes, short escapes, \u units, surrogate pairs in any hex case and void units reads as the concatenated UTF-8 encodings of what they stand for, and ends at its own quote, wherever it stands |
| Grammar.SourceReads | common/molten_cJSON.c:357-547 | a value written in any way RFC 8259 allows (blanks between tokens, escapes in any form, signs; numbers that are 32-bit integers) parses to what it denotes, wherever it stands |
| Grammar.TextReads | common/molten_cJSON.c:323-337 | a whole conforming text parses to the value it denotes, to its very end if required |
| Accepted.AcceptedValue | common/molten_cJSON.c:357-547 | every value the parser accepts, unless its literal is unclosed, is a value of the grammar, with the listed liberties in blanks, literals and numbers, and was read as what it denotes |
| Accepted.AcceptedText | common/molten_cJSON.c:323-337 | every text accepted to its end, except an unclosed literal, is a text of the grammar |
| JsonPrint.PrintStringPtr | common/molten_cJSON.c:252-307 | the unbuffered string allocation is filled to the last byte |
| JsonPrint.JoinedIsText | common/molten_cJSON.c:498-508 | what the composing loop of an array concatenates is the recursive text of its items |
| JsonPrint.JoinedPairsIsText | common/molten_cJSON.c:636-658 | the same for the members of an object |
| JsonPrint.PrintArray | common/molten_cJSON.c:434-511 | the text fits the length added up before, with n+3 bytes to spare for n entries, one more when formatted |
| JsonPrint.PrintObject | common/molten_cJSON.c:550-658 | the text fits the length added up before, with exactly 5 bytes to spare for a non-empty object |
| JsonPrint.PrintValue | common/molten_cJSON.c:372-403 | each value's allocation holds its text and terminator with exactly the stated slack |
| JsonPrint.SlackIs | common/molten_cJSON.c:434-658 | the unused bytes of each kind of allocation, in numbers |
| JsonPrint.Print | common/molten_cJSON.c:342-343 | both entry points leave the text of the tree as a C string |
| JsonBuffer.PrintBuffer.Ensure | common/molten_cJSON.c:121-136 | afterwards the request fits, written bytes are kept, and the buffer grows only when it must, to the least power of two that suffices |
| JsonBuffer.PrintBuffer.Update | common/molten_cJSON.c:138-144 | offset moves to the end of the text rendered there, wherever inside it it stood |
| JsonBuffer.PrintBuffer.PrintStringPtr | common/molten_cJSON.c:252-307 | the string's request covers its bytes |
| JsonBuffer.PrintBuffer.PrintArray | common/molten_cJSON.c:453-468 | the buffered array is the text of the simple printer behind what was there before |
| JsonBuffer.PrintBuffer.PrintObject | common/molten_cJSON.c:570-607 | the same for objects; the index returned is what the counter of the closing tabs leaves, or the start |
| JsonBuffer.PrintBuffer.PrintValue | common/molten_cJSON.c:372-388 | the same for every value; each request covers what is then written; the index returned is the start if and only if the value is no non-empty formatted object or its depth equals its start |
| JsonBuffer.WriteTabs | common/molten_cJSON.c:604-604 | the loop writes its tabs and leaves the counter at their number |
| JsonBuffer.PrintBuffer.FinishBrace | common/molten_cJSON.c:603-606 | the closing tabs and brace complete the object's text; the counter they share with the start ends at the depth |
| JsonBuffer.MisplacedObject | common/molten_cJSON.c:570-607 | an object that stands at 8 in the text of its parent is returned with index 1 |
| JsonBuffer.PrintBuffered | common/molten_cJSON.c:345-353 | for every tree, format and first size of at least 1 the result is the simple printer's text, from index 0 |
| Minify.MinifyInPlace | common/molten_cJSON.c:735-750 | the in-place loop leaves the specified output as a C string, the write index never passing the read index |
| Minify.CopyLiteral | common/molten_cJSON.c:746-746 | a string literal is copied byte for byte, escapes included |
| Minify.LineEndIs | common/molten_cJSON.c:744-744 | a line comment ends at the first line end or with the text |
| Stripping.MinifyPrinted | common/molten_cJSON.c:735-750 | minifying the formatted text of any tree gives exactly its unformatted text, which is a fixed point |
| Stripping.CommentEndsRight | common/molten_cJSON.c:745-745 | the comment scan ends where the comment ends, if and only if its text does not start with a slash |
| Stripping.LiteralScan | common/molten_cJSON.c:746-746 | the minifier leaves a literal where the parser's copying pass stops, for every literal the parser reads |
| Stripping.SourceStripped | common/molten_cJSON.c:735-750 | with any blanks and comments between its tokens, a value keeps its tokens and of the gaps only blanks other than space, tab and line ends |
| Stripping.NothingBetween | common/molten_cJSON.c:740-745 | where only those four and comments stood, nothing is left between the tokens |
| Stripping.StripsToCompact | common/molten_cJSON.c:735-750 | for every text of the grammar with comments, what is left parses to the value the text denotes |
| Stripping.MinifyKeepsValue | common/molten_cJSON.c:323-750 | for every text the parser accepts to its end, minifying stays inside the text if and only if it is no unclosed literal, and then the result parses to the same value |
| JsonList.GetArraySize | common/molten_cJSON.c:661-661 | the walk counts the sequence of children |
| JsonList.PositionIs | common/molten_cJSON.c:677-688 | a negative position is the first, one past the end the end |
| JsonList.AddItemToArray | common/molten_cJSON.c:671-671 | the chain becomes the sequence with the item appended, links consistent both ways |
| JsonList.InsertItemInArray | common/molten_cJSON.c:684-685 | the chain becomes the sequence with the item inserted; past the end it is appended |
| JsonList.DetachItemFromArray | common/molten_cJSON.c:677-678 | the chain becomes the sequence without that item, which is returned unlinked; past the end nothing changes |
| JsonList.ReplaceItemInArray | common/molten_cJSON.c:686-688 | the chain becomes the sequence with that item exchanged and the old one unlinked; past the end nothing changes |
| JsonList.DetachAndInsert | common/molten_cJSON.c:677-685 | detaching an item and inserting it at the same position restores the list |
| JsonList.InsertedLinked | common/molten_cJSON.c:684-685 | the four pointer writes of an insertion are the links of the longer sequence |
| JsonList.RemovedLinked | common/molten_cJSON.c:678-678 | the pointer writes of a removal are the links of the shorter sequence |
| JsonList.ReplacedLinked | common/molten_cJSON.c:687-688 | the pointer writes of a replacement are the links of the updated sequence |
| JsonCopy.Duplicate | common/molten_cJSON.c:708-733 | the copy consists of new nodes only, each in one place, with consistent sibling links, and holds the tree the original unfolds to, reference marks cleared; without recurse only the root's data; the original is untouched |
| JsonCopy.Attach | common/molten_cJSON.c:728-729 | hanging a finished copy behind its siblings extends the tree by that child |
| JsonCopy.CopyUnfolds | common/molten_cJSON.c:708-733 | read as an original, a copy unfolds to exactly the tree it holds |
| JsonCopy.CopySize | common/molten_cJSON.c:708-733 | a copy has one node per tree node, even when the original shares children through references |
| JsonMeaning.OwnedIsCopy | common/molten_cJSON.c:708-733 | the copied tree agrees with the original in every field of every node but the reference marks, which are gone |
| JsonMeaning.CopyMeans | common/molten_cJSON.c:708-733 | a copy stands for the same value |
| MoStack.Stack.PushElement | common/molten_stack.c:30-38 | the element is added on top of the abstract stack; the capacity grows by 64 exactly when it is full |
| MoStack.Stack.PopElement | common/molten_stack.c:69-79 | the top is copied out and destroyed; an empty stack is left alone |
| MoStack.Stack.DelTop | common/molten_stack.c:63-67 | the top element goes to the destructor |
| MoStack.Stack.SecElement | common/molten_stack.c:54-61 | the second element of the abstract stack, if there is one |
| MoStack.Stack.Destroy | common/molten_stack.c:91-104 | every live element goes to the destructor once, in order, and the stack is empty |
| MoStack.PushThenPop | common/molten_stack.c:30-79 | what is pushed last is popped first |
| MoStack.RunConserves | common/molten_stack.c:30-104 | over any run of pushes and pops the pushed elements are the live ones plus the destroyed ones, as multisets |
| MoStack.DestroyedExactlyOnce | common/molten_stack.c:30-104 | after any run and a final destroy every pushed element was destroyed exactly once |
| Span.BuildSpanIdLevel | molten_util.c:108-121 | the text left is the parent's id, a dot and the number, cut to 6 characters behind the parent's id, or "1" without a parent; the writing stays inside the buffer if and only if the number is below 100000 |
| Span.IdFits | molten_util.c:111-117 | the reserved room suffices exactly for numbers below 100000 |
| Span.ChildIdInjective | molten_util.c:108-121 | the uncut dotted text determines both the parent's id and the number |
| Span.StoredIdSame | molten_util.c:112-117 | the stored text determines the parent's id and the first five digits of the number, and nothing more |
| Span.PathIdSame | molten_util.c:108-121 | two contexts under one root carry the same id if and only if they lie equally deep and the numbers on the way agree in their first five digits |
| Span.PushSpanContext | molten_span.c:54-75 | one context more, with the stored id of the top's next child and first child number 1; the old top has numbered one more, nothing else changes |
| Span.PushSpanContextWithId | molten_span.c:79-94 | the same with the id handed in |
| Span.PopSpanContext | molten_span.c:98-101 | the top context goes; nothing happens on an empty stack |
| Span.RetrieveParentSpanId | molten_span.c:126-143 | the id of the second context, if there is one |
| SpanRuns.RunInv | molten_span.c:54-101 | over any run whose steps fit, ids on the stack differ, come from the root or were issued, and every issued number lies behind the next one its parent will give |
| SpanRuns.IssuedInOrder | molten_span.c:54-101 | in any such run a child's parent is known and numbers under one parent increase |
| SpanRuns.RunComplete | molten_span.c:54-101 | as long as pushes fit, each context on the stack has issued every number from 1 up to its count |
| SpanRuns.UniqueIds | molten_span.c:54-101 | over any pushes, with or without an id handed in, and pops, all ids, the root's included, are distinct if and only if every id handed in is new, no top numbers an id that came from outside, and beyond five digits no earlier child shares them |
| SpanRuns.UniqueNumbers | molten_span.c:54-101 | without ids handed in, from the root "1" or above a root with an id of its own, they are distinct if and only if no push meets an empty stack or a context with 99999 children |
| SpanRuns.GivenChildren | molten_span.c:54-94 | contexts pushed directly above an id handed in are numbered under it from 1 on |
| SpanRuns.ChildrenOfAt | molten_span.c:54-94 | the k-th of them is stored under that id and k |
| SpanRuns.SiblingsRepeat | molten_span.c:54-101 | k children of the root "1" repeat an id if and only if k is at least 100000 |
| CallTree.Molten.ExecuteCore | molten.c:964-1128 | one hooked call changes stack, records and bailout flag as the tree semantics says and restores the level, also when the call bails out |
| CallTree.Molten.CurlExec | molten.c:289-389 | the same for curl_exec, whose pop is skipped on a failed parse or a bailout |
| CallTree.Height | molten.c:289-389 | the stack ends higher by exactly the number of leaking curl calls |
| CallTree.Restores | molten.c:964-1128 | without leaks a call only raises the top's count, by the number of contexts directly under it |
| CallTree.StackRestored | molten.c:289-1128 | for every call tree the stack is restored up to that count if and only if no sampled curl call in it failed to parse or bailed out |
| CallTree.StoredIsNumbered | molten.c:289-1112 | stored ids are the full ones throughout a call if and only if no context numbers more than 99999 children |
| CallTree.RecordsAreNumbered | molten.c:289-1112 | every span is recorded under its own id with its nearest enclosing context as parent, children before parents, if and only if no sampled curl call failed to parse or bailed out and no context numbers more than 99999 children |
| CallTree.RecordedOrLeaked | molten.c:289-1112 | every context pushed is recorded and popped, or left behind by a curl call |
| IssuedIds.ExecKeepsInv | molten.c:289-1128 | while child numbers keep to five digits, the ids issued during a call tree, leaks included, are all distinct |
| IssuedIds.RoomWithoutLeaks | molten.c:289-1128 | without leaks they do so if and only if no context of the tree numbers more than 99999 children |
| IssuedIds.IssuedIdsUnique | molten.c:289-1128 | above a context without children, a call tree issues an id twice if and only if a push meets a context with 99999 children |
| RecordedIds.CallTracked | molten.c:289-1128 | while child numbers keep to five digits, exactly the marked ones of the contexts a call leaves behind were recorded |
| RecordedIds.RecordedIdsUnique | molten.c:289-1128 | two spans of a call tree are recorded under one id if a matched frame finds an already recorded context on top and, while child numbers keep to five digits, only if one does |
| RecordedPaths.WalkFollows | molten.c:289-1128 | the recorded ids of a call tree are the ids of the places, as lists of child numbers, that following the tree yields |
| RecordedPaths.RepeatsExactly | molten.c:289-1128 | for every call tree two spans are recorded under one id if and only if two of the recorded places lie equally deep and agree in the first five digits of each number |
| WideCalls.UniqueWithoutLeaks | molten.c:289-1128 | without leaks and above a context without children, all recorded ids are different if and only if no context numbers more than 99999 children |
| WideCalls.RowRepeats | molten.c:964-1112 | a matched function that makes k matched calls records an id twice if and only if k is at least 100000 |
| WideCalls.LeakRepeatsId | molten.c:289-389 | a failed parse inside a successful curl call inside a matched frame records the curl call's id twice and the frame's not at all |
| WideCalls.LeakAlone | molten.c:289-389 | a failed parse directly in a matched frame repeats no id |
| WideCalls.FrameAlone | molten.c:964-1128 | a matched frame records and pops its context even when it bails out |
| WideCalls.CurlAlone | molten.c:289-389 | a sampled curl call records and pops its context only after a successful parse and a normal return |
| WideCalls.NothingPushed | molten.c:289-1128 | a call that is not matched, or not sampled, leaves no trace |
| RecordedIds.ResidueLeaks | molten.c:289-389 | a call leaves as many contexts as curl calls in it leak, so without a leak no matched frame finds a recorded one on top |
| Sampler.Control.Sampling | molten_ctrl.c:177-224 | a request with a header is sampled if and only if the header starts with "1", one in rate mode if the draw hits, neither touching the counter; else the counter goes up in its minute or restarts, and the request is sampled while it is below the limit |
| Sampler.Control.Record | molten_ctrl.c:158-173 | every request is counted, sampled ones also as captured |
| Sampler.Control.ServeAll | molten_ctrl.c:158-224 | the same over any list of requests, each decided, and the counters left, as the run of the specification says |
| Sampler.CaptureCounts | molten_ctrl.c:158-224 | over any run the captured count grows by the number of sampled requests and never faster than the total |
| Sampler.Undecided | molten_ctrl.c:177-224 | in every run headers and draws decide alone and leave the counter where it was |
| Sampler.MinuteQuota | molten_ctrl.c:207-221 | a header-less request is sampled iff fewer than the quota came before it in its minute, so the sampled ones are the first |
| Sampler.MinuteTotal | molten_ctrl.c:24-221 | n header-less requests of a new minute sample min(n, max(L, 0)); in the constructor's minute min(n, max(L-1, 0)) |
| SharedSampler.StepInv | molten_ctrl.c:207-221 | every atomic step of any worker keeps the balance between counter, due decisions and sampled requests |
| SharedSampler.RunBound | molten_ctrl.c:207-221 | a run with r resets samples at most the decisions already due, limit - 1, and limit + P - 1 for each reset; none when the limit is not positive |
| SharedSampler.BoundedOversampling | molten_ctrl.c:207-221 | between two resets P workers sample at most limit + P - 1 requests, none when the limit is not positive |
| SharedSampler.BoundedBeforeReset | molten_ctrl.c:24-221 | before the first reset at most limit - 1 |
| SampledMinute.LoadStep | molten_ctrl.c:207-215 | while the clock shows one minute, each reset uses up one of the finitely many still possible |
| SampledMinute.MinuteResets | molten_ctrl.c:207-215 | with a clock that never goes back, P workers reset at most (P*P + 3*P - 2)/2 times while it shows one minute |
| SampledMinute.MinuteBound | molten_ctrl.c:207-221 | with a clock that never goes back, at most (P*P + 3*P - 2)/2 * (limit + P - 1) + P - 1 requests that start in one minute are sampled, which is limit for one worker |
| SampledMinute.FirstMinuteBound | molten_ctrl.c:24-221 | in the minute of the constructor at most limit - 1 + P - 1 |
| SampledMinute.AloneIsSequential | molten_ctrl.c:207-221 | a request that nothing interleaves with counts and decides as the sampler of one worker does, among any other workers |
| SamplerSchedules.OversamplingReached | molten_ctrl.c:207-221 | for every P and limit of at least 1 a schedule from idle workers attains limit + P - 1 between two resets |
| SamplerSchedules.MinuteExceeded | molten_ctrl.c:207-221 | for every P and limit of at least 1 a schedule from idle workers has (P*P + 3*P - 2)/2 resets in one minute and samples P*(P+1)/2 * limit requests that all start in it |
| ArgText.Strncat | molten_intercept.c:100-101 | the capped text is appended over the terminator |
| ArgText.ConvertArgsToString | molten_intercept.c:85-129 | for every call whose rendering and terminator fit 64 bytes, the loop leaves the specified rendering in the buffer |
| ArgText.RenderedFits | molten_intercept.c:85-129 | the rendering holds no NUL; it fits if and only if the name has at most 58 characters or it and the first argument, uncut, do; in the first case it has at most 62 characters |
| ArgText.ClosedForm | molten_intercept.c:100-126 | the rendering is the whole call text, or its first 59 characters and an ellipsis, if and only if the name has at most 58 characters and the kept ones hold no NUL |
| ArgText.OneArgument | molten_intercept.c:85-129 | a call with one argument is the name, a space, the argument and a comma, cut to 59 characters and an ellipsis |
| ArgText.TwoArguments | molten_intercept.c:85-129 | two arguments are separated, and closed, by a comma |

## Left out

- JsonParse.ParseNumber: does not model fractions, exponents and integers outside 32 bits; the specification answers `Undefined`, RFC 8259 allows them and the C code reads them as doubles.
- JsonString.ParseString: does not model literals whose \u escapes or trailing backslash run into a quote or the end of the text, where the C code's two passes disagree or read past the terminator.
- JsonBuild.ParseValue: does not model values whose specification is `Undefined` for one of these two reasons.
- JsonBuild.ParseArray: the same for its items.
- JsonBuild.ParseObject: the same for its members.
- JsonBuild.ParseWithOpts: the same for whole texts.
- Minify.MinifyInPlace: does not model unclosed comments and literals, where the C code runs past the terminator.
- JsonBuffer.PrintBuffer.Ensure: does not model requests above 2^30, where pow2gt overflows.
- JsonBuffer.PrintBuffer.PrintStringPtr: the same limit.
- JsonBuffer.PrintBuffer.PrintArray: the same limit.
- JsonBuffer.PrintBuffer.PrintObject: the same limit.
- JsonBuffer.PrintBuffer.PrintValue: the same limit.
- JsonBuffer.PrintBuffered: the same limit.
- JsonList.AddItemToArray: takes an unlinked item, because the C code keeps whatever next link the item brings along.
- JsonList.InsertItemInArray: the same, where the item is appended.
- ArgText.ConvertArgsToString: does not model what an overrun of the 64 bytes does.
- JsonList.ReplaceItemInArray: does not model that the replaced item is freed afterwards.
- JsonCopy.Duplicate: takes an existing item; for a null pointer the C code returns null at once.
- LoadBalance.GetNextServerIndex: takes a table with at least one server; on an empty one the C code writes before the array.
- Span.BuildSpanIdLevel: does not model what the overrun from 100000 on does to the memory behind the buffer.
- RecordedIds.RecordedIdsUnique: is exact while child numbers keep to five digits; where they do not, RecordedPaths.RepeatsExactly is.
- Span.PushSpanContextWithId: does not model who frees an id that came from a header.
- SampledMinute.MinuteBound: the bound is attained for one worker; for more workers the number of resets in it is exact, but no schedule is given that samples limit + P - 1 after each.
- Failing allocations, freeing of memory, the choice of allocator and the depth of the C stack.
- Who owns the entry blocks of the unbuffered printers between collecting and composing: the entries are strings.
- Looking up, replacing and detaching object members by name, constructors for arrays of numbers, and making references.
- The random-id mode of the span stack, which only pushes given strings.
- Wrap-around of the 64-bit request counters and of span counts.
- Rendering one argument (molten_util.c, `repr_zval`), a case distinction with a cut at 32 characters: arguments arrive as texts.
- Matching of intercepted functions, recorders, capture hooks and span layouts: easy claims about field-by-field construction.
- PHP engine values, shared-memory attachment, locks, clocks, random draws, sockets, log sinks and HTTP reporting.
