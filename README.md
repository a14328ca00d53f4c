# CodeProject.Syntax.LALR in Dafny

This project models the core of CodeProject.Syntax.LALR, a C# LALR(1)
parser generator and driver. It covers these parts:

- **The grammar.** A grammar is a list of symbol names and a list of
  precedence groups of productions. `Grammars` models it.
- **Table construction.** The constructor of `Parser` builds the parse
  table in a fixed order. `Parsers.Parser` models each phase as a method
  over the parser's own fields.
  - It numbers the productions. Each production's precedence is minus the
    index of its group.
  - It splits the symbols into terminals and nonterminals.
  - It builds the LR(0) automaton by closure and goto. Every goto also
    records the highest precedence of the items that move.
  - It computes FIRST sets, with -1 standing for the empty string.
  - It reduces states to LALR kernels.
  - It seeds spontaneous lookaheads and propagation edges.
  - It propagates lookaheads to a fixpoint.
  - It resolves every table cell. Precedence comes first, then the group's
    derivation (shift for right-most, reduce for left-most). A conflict
    the derivation does not settle becomes an `ErrorSR` or `ErrorRR`
    cell, and the build goes on.
- **The driver.** `ParseInput` runs the shift-reduce loop over an
  `LATokenIterator`. It builds `Token` nodes and can trim unit reductions.
- **The lexical grammar's nodes and iterators.** These are `Item`, the
  lexical `Token` and the `AsyncLATokenIterator`.
- **The regular-expression DSL.** This covers `Multiplicity`, `CharRx`,
  `CharRangeRx`, `CharSequenceRx`, `CharClassRx` and `GroupRx`, which
  render a pattern string.

## How the model is written

- **Errors.** Each exception is a `Failure` value of a `Result`. For
  example, the exception `GenerateParseTable` throws when several
  candidates tie at a precedence that names no precedence group is
  `Failure(IndexOutOfRangeException)`. `PopulateProductions` gives group
  k the precedence -k, so such a tie does not arise from the precedences
  it assigns; the contracts do not prove this.
- **Lists and hash sets.** Lists are sequences. Hash sets are finite
  sets. Every loop over a hash set is proved correct for any visiting
  order.
- **Strings.** A string is a sequence of UTF-16 code units.
  `ConvertToUtf32`, decimal numbers and hexadecimal numbers are written
  out in `Utf16`.
- **Nodes.** `Item` and both `Token` classes are Dafny classes. This
  keeps the in-place updates of `State` and of the `IsError` memo
  visible.

### Proved properties

- **Construction.**
  - The LR(0) and LR(1) closures are closed.
  - Every goto target is closed, contains the advanced kernel, and adds only dot-at-start items.
  - The FIRST sets are closed under every production.
  - Propagation reaches its fixpoint.
  - Every cell of the table is the unique resolution of exactly the
    shift and reduce candidates of its state and token.
- **The driver.** An accepted parse returns a tree rooted at symbol 0.
  The leaves of that tree are the tokens consumed, in order. A rejection
  names the offending lookahead.
- **The DSL.** Patterns read back to what they denote, and the
  multiplicity syntax is injective.

### The nullable rule in FIRST sets

`ComputeFirstSets` marks a symbol as nullable only when it has a
production with an empty right-hand side
(`CodeProject.Syntax.LALR/Parser.cs:302-317`). The passes never add -1
later. The model keeps this behaviour: its invariant `Parsers.FirstInvOf`
says -1 is in a FIRST set exactly when the symbol has an empty production.

## Model

| member | source | states |
|---|---|---|
| Utf16.ConvertToUtf32 | CodeProject.Syntax.LALR/LexicalGrammar/CharSequenceRx.cs:30-35 | decoding at an index yields a Unicode scalar; a pair is consumed exactly when a high surrogate is followed by a low one; it fails exactly on a lone low surrogate or an unpaired high one |
| Utf16.DecodeEncode | CodeProject.Syntax.LALR/LexicalGrammar/CharSequenceRx.cs:22-37 | decoding the UTF-16 encoding of any list of scalars gives the list back |
| Utf16.DecimalRoundTrip | CodeProject.Syntax.LALR/LexicalGrammar/Multiplicity.cs:60-93 | the decimal text of any integer parses back to that integer |
| Utf16.DecimalInjective | CodeProject.Syntax.LALR/LexicalGrammar/Multiplicity.cs:60-93 | two integers with the same decimal text are equal |
| Utf16.Hex8RoundTrip | CodeProject.Syntax.LALR/LexicalGrammar/CharRx.cs:45-53 | the eight hex digits `CharRx` writes after `\U` are hex digits and parse back to the code point |
| RxMultiplicity.Make | CodeProject.Syntax.LALR/LexicalGrammar/Multiplicity.cs:20-33 | construction succeeds iff `from >= 0` and `to` is -1 or at least `from`, keeping both bounds; otherwise ArgumentException |
| RxMultiplicity.Exactly | CodeProject.Syntax.LALR/LexicalGrammar/Multiplicity.cs:15-19 | `Multiplicity(times)` is `Multiplicity(times, times)` and succeeds iff `times >= 0` |
| RxMultiplicity.ConstantsAreConstructed | CodeProject.Syntax.LALR/LexicalGrammar/Multiplicity.cs:7-10 | the four named constants are what the checked constructor makes of (0,-1), (0,1), (1,-1) and 1 |
| RxMultiplicity.Equals | CodeProject.Syntax.LALR/LexicalGrammar/Multiplicity.cs:35-48 | equality is equality of both bounds, and equal values hash alike |
| RxMultiplicity.NotEquals | CodeProject.Syntax.LALR/LexicalGrammar/Multiplicity.cs:50-58 | `!=` is the negation of equality |
| RxMultiplicity.PatternInjective | CodeProject.Syntax.LALR/LexicalGrammar/Multiplicity.cs:60-93 | two valid multiplicities with the same quantifier text are equal, so the text determines the bounds |
| RxMultiplicity.Pattern | CodeProject.Syntax.LALR/LexicalGrammar/Multiplicity.cs:60-93 | the quantifier text is empty exactly for once-only; an unbraced quantifier is the single symbol `*`, `+` or `?` (PatternInjective and BracedShape state the rest) |
| RxMultiplicity.BracedShape | CodeProject.Syntax.LALR/LexicalGrammar/Multiplicity.cs:60-93 | a braced quantifier is `{n}`, `{n,}` or `{n,m}` according to the bounds |
| RxMultiplicity.RefusedExamples | CodeProject.Syntax.LALR.Tests/MultiplicityTests.cs:11-14 | the bounds (-1,-1), (-1,0), (-1,-2) and (3,-2) of the multiplicity test table are refused |
| RxMultiplicity.SymbolExamples | CodeProject.Syntax.LALR.Tests/MultiplicityTests.cs:15-18 | (0,-1), (0,1), (1,-1) and (1,1) render as `*`, `?`, `+` and nothing |
| RxMultiplicity.BracedExamples | CodeProject.Syntax.LALR.Tests/MultiplicityTests.cs:19-22 | (1,2), (2,4) and (3,3) render as `{1,2}`, `{2,4}` and `{3}` |
| RxMultiplicity.OpenBracedExample | CodeProject.Syntax.LALR.Tests/MultiplicityTests.cs:20 | (2,-1) renders as `{2,}` |
| RxChar.Equals | CodeProject.Syntax.LALR/LexicalGrammar/CharRx.cs:25-38 | equality is equality of code points, and equal values hash alike |
| RxChar.Escape | CodeProject.Syntax.LALR/LexicalGrammar/CharRx.cs:45-53 | a metacharacter is written as a backslash and its escape letter; any other code unit as itself |
| RxChar.Pattern | CodeProject.Syntax.LALR/LexicalGrammar/CharRx.cs:45-53 | a character renders in one to ten code units: `\U` and eight hex digits above U+FFFF, its escape otherwise (UnescapePattern reads it back) |
| RxChar.UnescapePattern | CodeProject.Syntax.LALR/LexicalGrammar/CharRx.cs:45-53 | reading a pattern back, whatever follows it, gives the denoted character and consumes exactly the pattern |
| RxChar.EscapeExamples | CodeProject.Syntax.LALR.Tests/CharRxTests.cs:8-29 | `a`, `-`, `}` and `]` are written as they are; `\`, `.` and `\|` are escaped |
| RxChar.SupplementaryExample | CodeProject.Syntax.LALR/LexicalGrammar/CharRx.cs:49-50 | a code point above U+FFFF is written `\U` plus eight hex digits |
| RxCharRange.Make | CodeProject.Syntax.LALR/LexicalGrammar/CharRangeRx.cs:10-19 | a range is built iff `from <= to` (by code point); otherwise ArgumentException |
| RxCharRange.Equals | CodeProject.Syntax.LALR/LexicalGrammar/CharRangeRx.cs:21-34 | equality is equality of both ends, and equal ranges hash alike |
| RxCharRange.NotEquals | CodeProject.Syntax.LALR/LexicalGrammar/CharRangeRx.cs:36-44 | `!=` is the negation of equality |
| RxCharRange.Pattern | CodeProject.Syntax.LALR/LexicalGrammar/CharRangeRx.cs:46-49 | a range outside a class always fails with InvalidOperationException |
| RxCharRange.PatternInsideClass | CodeProject.Syntax.LALR/LexicalGrammar/CharRangeRx.cs:51-54 | the in-class text starts with the lower end's pattern and is exactly that pattern iff both ends coincide (ReadPatternInsideClass reads it back) |
| RxCharRange.ReadPatternInsideClass | CodeProject.Syntax.LALR/LexicalGrammar/CharRangeRx.cs:51-54 | the in-class text reads back to the denoted low and high characters, a one-character range to a single character |
| RxCharRange.PatternInsideClassExamples | CodeProject.Syntax.LALR.Tests/CharRangeRxTests.cs:8-14 | `a-b`, the one-character `a`, and refusal of `b`..`a` |
| RxCharSequence.FromCodePoints | CodeProject.Syntax.LALR/LexicalGrammar/CharSequenceRx.cs:11-15 | the sequence holds one character per code point, in order; null gives the empty sequence |
| RxCharSequence.FromChars | CodeProject.Syntax.LALR/LexicalGrammar/CharSequenceRx.cs:17-20 | the sequence holds the given characters, or none for null |
| RxCharSequence.Plus | CodeProject.Syntax.LALR/LexicalGrammar/CharRx.cs:20-23 | `a + b` is the two-character sequence `a`, `b` |
| RxCharSequence.Equals | CodeProject.Syntax.LALR/LexicalGrammar/CharSequenceRx.cs:39-42 | sequences are equal iff they have the same characters in order |
| RxCharSequence.FromString | CodeProject.Syntax.LALR/LexicalGrammar/CharSequenceRx.cs:22-37 | the decoding loop yields exactly the scalar decoding of the string, failing where `ConvertToUtf32` throws |
| RxCharSequence.OfEncodedString | CodeProject.Syntax.LALR/LexicalGrammar/CharSequenceRx.cs:22-37 | constructing from the UTF-16 text of any list of scalars succeeds and yields those scalars |
| RxCharSequence.ReadPattern | CodeProject.Syntax.LALR/LexicalGrammar/CharSequenceRx.cs:63-66 | the concatenated pattern reads back to the denoted characters, one per element |
| RxCharSequence.Pattern | CodeProject.Syntax.LALR/LexicalGrammar/CharSequenceRx.cs:63-66 | the elements' patterns in order, each between one and ten code units long (ReadPattern reads them back) |
| RxCharSequence.PatternExamples | CodeProject.Syntax.LALR.Tests/CharSequenceRxTests.cs:8-22 | `.` followed by `[` renders `\.\[`; the null sequence renders empty |
| RxCharClass.FromCodePoints | CodeProject.Syntax.LALR/LexicalGrammar/CharClassRx.cs:9-13 | a null array throws ArgumentNullException; otherwise one character element per code point |
| RxCharClass.BodyIsFlattenedSequence | CodeProject.Syntax.LALR/LexicalGrammar/CharClassRx.cs:20-32 | the body is the sequence pattern of the characters of the class with nested classes flattened, or InvalidOperationException when a range occurs |
| RxCharClass.PatternWithoutBrackets | CodeProject.Syntax.LALR/LexicalGrammar/CharClassRx.cs:20-32 | the body: a nested class gives its own body and every other element its `Pattern`, in order; BodyIsFlattenedSequence states what it equals |
| RxCharClass.Pattern | CodeProject.Syntax.LALR/LexicalGrammar/CharClassRx.cs:34-37 | `[`, the sequence pattern of the flattened characters, `]`; InvalidOperationException exactly when a range occurs anywhere inside |
| RxCharClass.SinglePattern | CodeProject.Syntax.LALR/LexicalGrammar/ISingleCharRx.cs:3-11 | a single-character element renders exactly when no range occurs in it, and otherwise fails with InvalidOperationException |
| RxCharClass.ReadPattern | CodeProject.Syntax.LALR/LexicalGrammar/CharClassRx.cs:34-37 | a range-free class renders `[` body `]`, which reads back to its flattened characters |
| RxCharClass.RangeRefused | CodeProject.Syntax.LALR/LexicalGrammar/CharClassRx.cs:26-29 | a class holding a range fails with InvalidOperationException, since a range is asked for its plain pattern |
| RxCharClass.PatternExampleAbc | CodeProject.Syntax.LALR.Tests/CharClassRxTests.cs:50 | the class of `a`, `b`, `c` renders `[abc]` |
| RxCharClass.PatternExampleNested | CodeProject.Syntax.LALR.Tests/CharClassRxTests.cs:58 | a nested class contributes its body without brackets |
| RxGroup.Make | CodeProject.Syntax.LALR/LexicalGrammar/GroupRx.cs:14-27 | null items throw ArgumentNullException, no items ArgumentException; otherwise the group keeps the items and the multiplicity |
| RxGroup.Pattern | CodeProject.Syntax.LALR/LexicalGrammar/GroupRx.cs:29-37 | the corrected rendering: one item followed by the quantifier, several items in parentheses followed by it; PatternExtendsAsWritten states its relation to the code |
| RxGroup.PatternAsWritten | CodeProject.Syntax.LALR/LexicalGrammar/GroupRx.cs:29-37 | the rendering as the code computes it, nested groups included; AsWrittenMultiItemFails and NestedGroupWitness state where it throws |
| RxGroup.RxPattern | CodeProject.Syntax.LALR/LexicalGrammar/ISingleCharRx.cs:3-6 | the `Pattern` of any expression, a nested group rendered as corrected |
| RxGroup.ItemsPattern | CodeProject.Syntax.LALR/LexicalGrammar/GroupRx.cs:35 | the items' patterns concatenated in order; the first failing item decides the exception |
| RxGroup.RxPatternAsWritten | CodeProject.Syntax.LALR/LexicalGrammar/ISingleCharRx.cs:3-6 | the `Pattern` of any expression, a nested group rendered as the code does |
| RxGroup.ItemsPatternAsWritten | CodeProject.Syntax.LALR/LexicalGrammar/GroupRx.cs:35 | the items' patterns as the code computes them, concatenated in order |
| RxGroup.AsWrittenMultiItemFails | CodeProject.Syntax.LALR/LexicalGrammar/GroupRx.cs:29-37 | as written, a group of two or more items never renders; FormatException when the items do |
| RxGroup.FormatExceptionWitness | CodeProject.Syntax.LALR/LexicalGrammar/GroupRx.cs:35 | the group of `\` and `s` with `+` fails as written and renders `(\\s)+` when corrected |
| RxGroup.NestedGroupWitness | CodeProject.Syntax.LALR/LexicalGrammar/GroupRx.cs:33-35 | a one-item group whose item is the `\`, `s`, `+` group fails as written with FormatException, because rendering the inner group throws; corrected it renders `(\\s)+` |
| RxGroup.PatternExtendsAsWritten | CodeProject.Syntax.LALR/LexicalGrammar/GroupRx.cs:29-37 | the corrected pattern agrees wherever the original renders, fails exactly when an item fails, and parenthesises several items before the quantifier |
| RxGroup.GroupAgrees | CodeProject.Syntax.LALR/LexicalGrammar/GroupRx.cs:29-37 | at every nesting depth, wherever the code renders a group the corrected rendering gives the same text |
| RxGroup.Times | CodeProject.Syntax.LALR/LexicalGrammar/CharSequenceRx.cs:44-47 | `seq * m` is the successfully constructed one-item group with multiplicity `m` |
| RxGroup.TimesCount | CodeProject.Syntax.LALR/LexicalGrammar/CharSequenceRx.cs:48-51 | `seq * n` succeeds iff `n >= 0` (ArgumentException otherwise) and is `seq * {n}` |
| RxGroup.TimesPattern | CodeProject.Syntax.LALR/LexicalGrammar/GroupRx.cs:33-34 | a one-item group renders the item followed by the quantifier, and the original agrees |
| Contents.SplitJoin | CodeProject.Syntax.LALR/Token.cs:44-61 | joining space-free texts with spaces and splitting at spaces gives the texts back |
| Contents.ListRoundTrip | CodeProject.Syntax.LALR/Token.cs:44-61 | a list's content string is bracketed and its inside splits back to the element texts |
| Contents.PairExample | CodeProject.Syntax.LALR/LexicalGrammar/Item.cs:117-134 | `[a b]` for a two-string list; an empty list renders `[]` (EmptyListExample) |
| Contents.NullElementExample | CodeProject.Syntax.LALR/LexicalGrammar/Item.cs:130-133 | a null element contributes the empty text |
| Items.DetermineContentType | CodeProject.Syntax.LALR/LexicalGrammar/Item.cs:53-68 | the content type is Reduction, Nested or Scalar exactly for a reduction, an item or anything else |
| Items.Item.constructor | CodeProject.Syntax.LALR/LexicalGrammar/Item.cs:44-51 | corrected constructor: the node keeps id and content with no memo, and starts in state -1 iff it is a reduction one of whose children the corrected getter finds in error, otherwise in state `id` |
| Items.NewItemAsWritten | CodeProject.Syntax.LALR/LexicalGrammar/Item.cs:44-51 | the constructor as written: a reduction asks its children with the getter as written; a child's exception leaves the constructor and no node is made; otherwise the node starts in state -1 iff a child answered `true`, else in state `id` |
| Items.ConstructorThrowsWitness | CodeProject.Syntax.LALR/LexicalGrammar/Item.cs:50 | a reduction over an item with id 5 nesting an item created with id -1: the constructor as written throws InvalidOperationException |
| Items.CorrectedConstructorWitness | CodeProject.Syntax.LALR/LexicalGrammar/Item.cs:44-51 | on the same children the corrected constructor starts the node in state -1 |
| Items.Item.SetState | CodeProject.Syntax.LALR/LexicalGrammar/Item.cs:32-40 | setting the state stores it and clears the memo |
| Items.Item.IsError | CodeProject.Syntax.LALR/LexicalGrammar/Item.cs:70-100 | corrected getter: returns the memo, the negative state, or whether a child is in error; memoises `false`, sets state -1 on `true`; every answer below is unchanged, and for a consistent tree the answer is the error flag |
| Items.Item.IsErrorAsWritten | CodeProject.Syntax.LALR/LexicalGrammar/Item.cs:70-100 | the getter as written, including the InvalidOperationException after setting state -1, and the memo and state it leaves |
| Items.AnyErrorAsWritten | CodeProject.Syntax.LALR/LexicalGrammar/Item.cs:50 | `Any(p => p.IsError)` with the getter as written: the scan stops at the first item answering `true` or throwing, with that outcome; while all answer `false` every outcome below is unchanged |
| Items.AnyOutcomeIsListOutcome | CodeProject.Syntax.LALR/LexicalGrammar/Item.cs:90-92 | the getter's scan over a node's children is the list scan the constructor performs |
| Items.Item.ToString | CodeProject.Syntax.LALR/LexicalGrammar/Item.cs:117-139 | a null content renders empty and a string content as itself |
| Items.Item.Equals | CodeProject.Syntax.LALR/LexicalGrammar/Item.cs:102-115 | items are equal iff their ids are, and equal items hash alike |
| Items.AnyError | CodeProject.Syntax.LALR/LexicalGrammar/Item.cs:50 | `Any(p => p.IsError)` with the corrected getter: answers whether some item's memo answers `true` and changes no item's answer |
| Items.NewEOF | CodeProject.Syntax.LALR/LexicalGrammar/Item.cs:16 | the end-of-input item has id -1, content `$`, state -1 |
| Items.MaskedErrorWitness | CodeProject.Syntax.LALR/LexicalGrammar/Item.cs:94-98 | for a tree with an error below, the getter as written first throws and then answers `false` |
| Items.CorrectedErrorWitness | CodeProject.Syntax.LALR/LexicalGrammar/Item.cs:70-100 | on the same tree the corrected getter answers `true` |
| Tokens.Token.constructor | CodeProject.Syntax.LALR/Token.cs:22-27 | a token keeps its id and content and starts in state -1 |
| Tokens.Token.ToString | CodeProject.Syntax.LALR/Token.cs:44-70 | null renders empty, a string as itself, a child list as the bracketed space-joined texts of the children |
| Tokens.Token.Equals | CodeProject.Syntax.LALR/Token.cs:29-42 | tokens are equal iff their ids are, and equal tokens hash alike |
| Tokens.TextsOfOthers | CodeProject.Syntax.LALR/Token.cs:57-60 | the texts of a child list are the children's own texts |
| Tokens.FrontierAppend | CodeProject.Syntax.LALR/Parser.cs:674-699 | the leaves of a concatenation of stacks are the concatenation of their leaves |
| Tokens.LeavesOfNode | CodeProject.Syntax.LALR/Parser.cs:684-694 | a reduction node's leaves are the leaves of the children it took from the stack |
| Tokens.NewEOF | CodeProject.Syntax.LALR/Token.cs:9 | the end-of-input token has id -1, content `$`, state -1 and renders `$` |
| LexicalTokens.TokenCategory.ToString | CodeProject.Syntax.LALR/LexicalGrammar/Token.cs:41-44 | the text is the decimal id, `: ` and the name, and its leading number parses back to the id |
| LexicalTokens.CategoryEquals | CodeProject.Syntax.LALR/LexicalGrammar/Token.cs:31-49 | categories are equal iff their ids are, and equal ones hash alike |
| LexicalTokens.DetermineContentType | CodeProject.Syntax.LALR/LexicalGrammar/Token.cs:81-96 | Empty exactly for null, Nested for a token, Reduction for a reduction, Leaf for anything else |
| LexicalTokens.Token.constructor | CodeProject.Syntax.LALR/LexicalGrammar/Token.cs:72-79 | corrected constructor: the token keeps id and content and starts in state -1 iff it is a reduction with an item the corrected item getter finds in error, otherwise in state `id` |
| LexicalTokens.NewTokenAsWritten | CodeProject.Syntax.LALR/LexicalGrammar/Token.cs:72-79 | the constructor as written: a reduction asks its items with the item getter as written; an item's exception leaves the constructor and no token is made; otherwise state -1 iff an item answered `true`, else `id` |
| LexicalTokens.ConstructorThrowsWitness | CodeProject.Syntax.LALR/LexicalGrammar/Token.cs:78 | a reduction over an item with id 5 nesting an item created with id -1: the token constructor as written throws InvalidOperationException |
| LexicalTokens.Token.IsError | CodeProject.Syntax.LALR/LexicalGrammar/Token.cs:98-124 | corrected getter: `true` for a negative state, else what the nested token or the corrected item getters say; a non-negative state becomes -1 exactly on `true`, and the answer stays the same for later reads |
| LexicalTokens.Token.IsErrorAsWritten | CodeProject.Syntax.LALR/LexicalGrammar/Token.cs:98-124 | the getter as written: `true` for a negative state, else the nested token's outcome or the first item outcome other than `false` under the item getter as written, an InvalidOperationException included; state -1 exactly on `true`, the state kept when an item throws |
| LexicalTokens.GetterThrowsWitness | CodeProject.Syntax.LALR/LexicalGrammar/Token.cs:115 | a token in state 8 over an item with id 5 whose nested item was later set to state -1: the getter as written throws |
| LexicalTokens.CorrectedGetterWitness | CodeProject.Syntax.LALR/LexicalGrammar/Token.cs:98-124 | on the same token the corrected getter answers `true` |
| LexicalTokens.Token.Equals | CodeProject.Syntax.LALR/LexicalGrammar/Token.cs:126-139 | tokens are equal iff their ids are, and equal ones hash alike |
| LexicalTokens.NewEOF | CodeProject.Syntax.LALR/LexicalGrammar/Token.cs:54 | the end-of-input token has id -1, content `$`, state -1 and is a leaf |
| Sources.Source.constructor | CodeProject.Syntax.LALR/LexicalGrammar/AsyncEnumerableWrapper.cs:11-14 | a fresh enumerator is before the first item and not disposed |
| Sources.Source.MoveNext | CodeProject.Syntax.LALR/LexicalGrammar/AsyncEnumerableWrapper.cs:26-29 | moving succeeds iff an item remains, and the position advances up to one past the end |
| Sources.Source.Current | CodeProject.Syntax.LALR/LexicalGrammar/AsyncEnumerableWrapper.cs:21-24 | there is a current item exactly while on an item, and it is that item |
| Sources.Source.Reset | CodeProject.Syntax.LALR/LexicalGrammar/AsyncEnumerableWrapper.cs:31-36 | a resettable source rewinds; the wrapper refuses with its exception and stays where it was |
| Sources.Source.Dispose | CodeProject.Syntax.LALR/LexicalGrammar/AsyncEnumerableWrapper.cs:16-19 | the source is disposed |
| LookaheadIterators.LATokenIterator.constructor | CodeProject.Syntax.LALR/LATokenIterator.cs:10-13 | the iterator wraps the source with no lookahead held |
| LookaheadIterators.LATokenIterator.LookAhead | CodeProject.Syntax.LALR/LATokenIterator.cs:17-20 | returns the next token, or EOF past the end; a held lookahead is returned again without touching the source |
| LookaheadIterators.LATokenIterator.MoveNext | CodeProject.Syntax.LALR/LATokenIterator.cs:22-30 | consuming a held lookahead succeeds without moving the source; otherwise it moves the source and succeeds iff a token remained |
| LookaheadIterators.LATokenIterator.Current | CodeProject.Syntax.LALR/LATokenIterator.cs:38 | the current token is the source's current one |
| LookaheadIterators.LATokenIterator.Reset | CodeProject.Syntax.LALR/LATokenIterator.cs:32-36 | the lookahead is dropped and the source rewound, or its refusal returned |
| LookaheadIterators.LATokenIterator.Dispose | CodeProject.Syntax.LALR/LATokenIterator.cs:45-49 | the lookahead is dropped and the source disposed |
| AsyncLookaheadIterators.AsyncLATokenIterator.constructor | CodeProject.Syntax.LALR/LexicalGrammar/AsyncLATokenIterator.cs:10-13 | the iterator wraps the source with no lookahead held |
| AsyncLookaheadIterators.AsyncLATokenIterator.LookAheadAsync | CodeProject.Syntax.LALR/LexicalGrammar/AsyncLATokenIterator.cs:15-18 | returns the next item, or the EOF item past the end; a held lookahead is returned again |
| AsyncLookaheadIterators.AsyncLATokenIterator.CurrentAsync | CodeProject.Syntax.LALR/LexicalGrammar/AsyncLATokenIterator.cs:20-23 | the current item is the source's current one |
| AsyncLookaheadIterators.AsyncLATokenIterator.MoveNextAsync | CodeProject.Syntax.LALR/LexicalGrammar/AsyncLATokenIterator.cs:25-33 | consuming a held lookahead succeeds without moving the source; otherwise the source moves |
| AsyncLookaheadIterators.AsyncLATokenIterator.Reset | CodeProject.Syntax.LALR/LexicalGrammar/AsyncLATokenIterator.cs:35-39 | the lookahead is dropped and the source rewound, or its refusal returned |
| AsyncLookaheadIterators.AsyncLATokenIterator.SupportsResetting | CodeProject.Syntax.LALR/LexicalGrammar/AsyncLATokenIterator.cs:41-44 | the iterator resets iff its source does |
| AsyncLookaheadIterators.AsyncLATokenIterator.Dispose | CodeProject.Syntax.LALR/LexicalGrammar/AsyncLATokenIterator.cs:46-50 | the lookahead is dropped and the source disposed |
| AsyncLookaheadIterators.Iterate | CodeProject.Syntax.LALR.Tests/AsyncLATokenIteratorTests.cs:10-28 | walking a list, every move succeeds, the current item is the list's, and the lookahead is the next item or EOF |
| AsyncLookaheadIterators.DrainAndReset | CodeProject.Syntax.LALR.Tests/AsyncLATokenIteratorTests.cs:30-51 | after draining and resetting, a move succeeds iff the list is non-empty; a non-resettable source throws InvalidOperationException |
| Grammars.Production.Rewrite | CodeProject.Syntax.LALR/Grammar.cs:50-53 | with a rewriter the result is the rewriter's value on the left symbol and the children; without one, null |
| Grammars.Plain | CodeProject.Syntax.LALR/Grammar.cs:37-41 | a production built from a left side and a right side keeps both and has no rewriter |
| Grammars.SymbolEquals | CodeProject.Syntax.LALR/LexicalGrammar/SymbolName.cs:21-39 | symbol names are equal iff their ids are, and equal ones hash alike |
| Grammars.AsSymbolNames | CodeProject.Syntax.LALR/Grammar.cs:120-123 | the i-th name becomes the symbol with id `i` |
| Grammars.FromNames | CodeProject.Syntax.LALR/Grammar.cs:108-118 | a grammar built from names numbers them in order and keeps the groups |
| Grammars.ProductionTable | CodeProject.Syntax.LALR/Parser.cs:629-642 | the production list, the precedences and the derivations have one entry per production, and production `j` of group `k` sits at the group's offset plus `j` with precedence `-k` and the group's derivation |
| Grammars.GroupOfEntry | CodeProject.Syntax.LALR/Parser.cs:601 | every production's precedence names its group, whose derivation is the one recorded |
| LRItems.LR0Equals | CodeProject.Syntax.LALR/LRItems.cs:33-41 | LR(0) items are equal iff production and position are, and equal ones hash alike |
| LRItems.LR1Equals | CodeProject.Syntax.LALR/LRItems.cs:78-86 | LR(1) items are equal iff item id and lookahead are, and equal ones hash alike |
| LRItems.PropogationEquals | CodeProject.Syntax.LALR/LRItems.cs:109-128 | propagation edges are equal iff target item and target state are, and equal ones hash alike |
| ParseTables.Equals | CodeProject.Syntax.LALR/ParseTable.cs:45-53 | actions are equal iff type and parameter are, and equal ones hash alike |
| ParseTables.ParseTable.constructor | CodeProject.Syntax.LALR/ParseTable.cs:68-76 | a new table has no action array yet |
| ParserSpecs.ItemCount | CodeProject.Syntax.LALR/Parser.cs:90-103 | a duplicate-free list of valid LR(0) items is no longer than the set of all items of the grammar, which bounds the closure loop |
| ParserSpecs.StateCount | CodeProject.Syntax.LALR/Parser.cs:260-292 | a duplicate-free list of states over such items has at most as many entries as item sets exist, which bounds the automaton loop |
| ParserSpecs.FirstOfMembers | CodeProject.Syntax.LALR/Parser.cs:353-379 | `First` holds exactly the non-empty FIRST symbols of each token reached over a nullable prefix, plus the given terminal iff the whole string is nullable |
| ParserSpecs.KernelClosure | CodeProject.Syntax.LALR/Parser.cs:235-255 | the closure of the advanced kernel is the goto on the token, it is non-empty iff some item moves, and its precedence is the highest of the moving items |
| ParserSpecs.MovesIff | CodeProject.Syntax.LALR/Parser.cs:240-250 | some item of a state moves on a token iff the set of advanced items is non-empty |
| ParserSpecs.ResolvedUnique | CodeProject.Syntax.LALR/Parser.cs:555-621 | the precedence and derivation rules determine at most one action for a candidate set |
| ParserSpecs.ErrorExactlyWithoutCandidates | CodeProject.Syntax.LALR/Parser.cs:618-621 | a resolved cell is Error iff the state has no shift or reduce candidate for the token |
| LalrSpecs.CandidatesAdd | CodeProject.Syntax.LALR/Parser.cs:533-553 | adding an LR(1) item adds a reduce candidate exactly when its dot is at the end and its lookahead is the token |
| LalrSpecs.TableCellUnique | CodeProject.Syntax.LALR/Parser.cs:524-624 | a cell of the table is determined by the automaton, the lookaheads and the groups |
| LalrSpecs.TableCellCandidate | CodeProject.Syntax.LALR/Parser.cs:533-553 | a Shift cell goes to the goto state on the token; a Reduce cell reduces a complete item of the state whose lookahead is the token |
| LalrSpecs.TableErrorIff | CodeProject.Syntax.LALR/Parser.cs:524-624 | a cell is Error iff the state has no goto on the token and no complete item with that lookahead |
| LalrSpecs.UnclosedAtFixpoint | CodeProject.Syntax.LALR/Parser.cs:437-474 | for a concrete grammar, two LALR sets and an edge written out from a hand trace of the loop are at the propagation fixpoint the loop stops at, yet not closed; the configuration is not derived by running the methods |
| Parsers.Parser.constructor | CodeProject.Syntax.LALR/Parser.cs:718-736 | all tables start empty, every FIRST set empty, one per symbol, and the parse table has no action array |
| Parsers.Parser.PopulateProductions | CodeProject.Syntax.LALR/Parser.cs:629-642 | the productions, precedences and derivations are the group-by-group listing of the grammar |
| Parsers.Parser.InitSymbols | CodeProject.Syntax.LALR/Parser.cs:479-494 | a symbol is a terminal iff no production has it on the left; terminals and nonterminals partition the symbols |
| Parsers.Parser.GetLR0ItemID | CodeProject.Syntax.LALR/Parser.cs:90-103 | returns the first index of the item, appending it only if absent |
| Parsers.Parser.GetLR1ItemID | CodeProject.Syntax.LALR/Parser.cs:109-122 | returns the first index of the LR(1) item, appending it only if absent |
| Parsers.Parser.GetLR0StateID | CodeProject.Syntax.LALR/Parser.cs:128-142 | returns the index of the state, appending it (and saying so) only if absent |
| Parsers.Parser.LR0Closure | CodeProject.Syntax.LALR/Parser.cs:147-177 | the result contains the items, is closed under adding `B -> .γ` for every `B` after a dot, and adds only dot-at-start items |
| Parsers.Parser.First | CodeProject.Syntax.LALR/Parser.cs:353-379 | the result is the FIRST set of the string followed by the terminal, and holds only -1 and symbols |
| Parsers.Parser.LR1Closure | CodeProject.Syntax.LALR/Parser.cs:182-230 | the result contains the items and is closed under adding `B -> .γ, b` for every `b` in FIRST of what follows `B` and the lookahead |
| Parsers.Parser.GotoLR0 | CodeProject.Syntax.LALR/Parser.cs:235-255 | returns the goto state of the state on the token (interning it) with the highest precedence of the moving items, or -1 iff nothing moves |
| Parsers.Parser.GenerateLR0Items | CodeProject.Syntax.LALR/Parser.cs:260-292 | ArgumentOutOfRangeException exactly when there are no productions but some symbol, whose goto reads the missing production; with neither, the single state of the start item with an empty row; otherwise state 0 is the closure of the start item and every row of the goto table is the goto of its state |
| Parsers.Parser.AddFirst | CodeProject.Syntax.LALR/Parser.cs:319-347 | one step adds FIRST(token) without -1 to FIRST(left), reporting whether the token is nullable and whether anything was added |
| Parsers.Parser.PassProduction | CodeProject.Syntax.LALR/Parser.cs:319-347 | one production's pass keeps the invariant, only grows sets, reports growth, and leaves the production satisfied |
| Parsers.Parser.FirstPass | CodeProject.Syntax.LALR/Parser.cs:319-347 | a pass over all productions only grows sets; if nothing changed, the sets are closed under every production |
| Parsers.Parser.SeedFirstSets | CodeProject.Syntax.LALR/Parser.cs:302-311 | each terminal's FIRST set is itself, each nonterminal's empty |
| Parsers.Parser.SeedEmpty | CodeProject.Syntax.LALR/Parser.cs:312-317 | -1 is added exactly for the symbols with an empty production |
| Parsers.Parser.ComputeFirstSets | CodeProject.Syntax.LALR/Parser.cs:298-348 | the result holds each terminal's own set, -1 exactly for symbols with an empty production, and is closed under every production |
| Parsers.Parser.ConvertLR0ItemsToKernels | CodeProject.Syntax.LALR/Parser.cs:500-519 | each kernel is the state's items with the dot not at the start, plus the start production's items |
| Parsers.Parser.AddPropogation | CodeProject.Syntax.LALR/Parser.cs:69-85 | the edge is added to the source item's list in the source state, growing the table as needed |
| Parsers.Parser.SeedItem | CodeProject.Syntax.LALR/Parser.cs:401-428 | one closure item either seeds its goto kernel item with its own lookahead or records a propagation edge for `#`; a missing goto is ArgumentOutOfRangeException |
| Parsers.Parser.SeedState | CodeProject.Syntax.LALR/Parser.cs:391-431 | a state's kernel is closed with lookahead `#` and every item of that closure is seeded |
| Parsers.Parser.InitLALRTables | CodeProject.Syntax.LALR/Parser.cs:384-432 | every LALR state holds its spontaneous lookaheads and every propagation edge is recorded, or a missing goto is reported |
| Parsers.Parser.PropagateState | CodeProject.Syntax.LALR/Parser.cs:443-465 | every lookahead of the state is carried along its edges; the state itself changing is InvalidOperationException, a missing target ArgumentOutOfRangeException |
| Parsers.Parser.LookaheadPass | CodeProject.Syntax.LALR/Parser.cs:442-471 | a pass only grows the sets; if nothing changed, every edge is propagated |
| Parsers.Parser.CalculateLookAheads | CodeProject.Syntax.LALR/Parser.cs:437-474 | as written: on success every propagation edge is satisfied, but the sets need not be closed |
| Parsers.Parser.ClosingPass | CodeProject.Syntax.LALR/Parser.cs:437-474 | a corrected pass that closes every state; if nothing changed, every edge is propagated and every state closed |
| Parsers.Parser.CalculateClosedLookAheads | CodeProject.Syntax.LALR/Parser.cs:437-474 | corrected: on success every edge is propagated and every LALR set is closed |
| Parsers.Parser.CellCandidates | CodeProject.Syntax.LALR/Parser.cs:533-553 | the candidate list is duplicate-free and is exactly the shift on the goto and the reduce of every complete item with that lookahead |
| Parsers.Parser.ChooseAction | CodeProject.Syntax.LALR/Parser.cs:555-621 | the chosen action is the resolution of the candidates; failure is IndexOutOfRangeException exactly when several candidates tie at a greatest precedence that names no precedence group |
| ParserSpecs.TopUnique | CodeProject.Syntax.LALR/Parser.cs:555-579 | the candidates have a single greatest precedence |
| Parsers.Parser.ResolveCell | CodeProject.Syntax.LALR/Parser.cs:531-622 | the cell is the resolution of the state's candidates for the token, with the goto's precedence for the shift |
| Parsers.Parser.FillTableRow | CodeProject.Syntax.LALR/Parser.cs:529-623 | every cell of the row is resolved, no other row changes, or a token is reported whose candidates tie at a precedence that names no precedence group |
| Parsers.Parser.GenerateParseTable | CodeProject.Syntax.LALR/Parser.cs:524-624 | the table has a row per state and a column per symbol plus end of input, each cell resolved, or IndexOutOfRangeException for a cell whose candidates tie at a precedence that names no precedence group |
| Parsers.Parser.NewNode | CodeProject.Syntax.LALR/Parser.cs:676-694 | the new node is the production's left symbol over the popped tokens, or the single child's content when trimmed, with those tokens' leaves |
| Parsers.Parser.PushReduction | CodeProject.Syntax.LALR/Parser.cs:676-694 | replacing the popped tokens by the node keeps the leaves of the stack |
| Parsers.Parser.ReduceBy | CodeProject.Syntax.LALR/Parser.cs:674-699 | an unknown production is ArgumentOutOfRangeException and a short stack InvalidOperationException; otherwise it reduces, takes the goto, accepts iff the left symbol is 0 and the stack is then that node, and keeps the leaves |
| Parsers.Parser.ShiftLookahead | CodeProject.Syntax.LALR/Parser.cs:667-672 | the lookahead is pushed with the target state and consumed, keeping the stack's leaves equal to the tokens read |
| Parsers.Parser.Step | CodeProject.Syntax.LALR/Parser.cs:661-709 | one step shifts, reduces, rejects on Error, or throws on a conflict cell or a missing column, exactly as the cell says |
| Parsers.Parser.Run | CodeProject.Syntax.LALR/Parser.cs:659-711 | an accepted root is symbol 0 whose leaves are the tokens consumed; a rejection names the current lookahead |
| Parsers.Parser.ParseInput | CodeProject.Syntax.LALR/Parser.cs:651-713 | the input is disposed; an accepted tree's leaves are the consumed prefix of the input, a rejection names the token at the stop point or EOF |
| Parsers.TopActions | CodeProject.Syntax.LALR/Parser.cs:555-579 | the maximum precedence among the candidates and exactly the candidates that have it |
| Parsers.SplitByType | CodeProject.Syntax.LALR/Parser.cs:585-599 | the reduce actions are exactly the important reductions; a shift is found iff one is present |
| Parsers.PrecedencesBounded | CodeProject.Syntax.LALR/Parser.cs:631-641 | with at most 2^31 groups every precedence is a 32-bit value at most 0 |
| Parsers.BuildAsWritten | CodeProject.Syntax.LALR/Parser.cs:718-746 | the constructor as written, with `CalculateLookAheads`: with no productions ArgumentOutOfRangeException; otherwise the lookahead sets are propagated (possibly unclosed) and every table cell is the resolution of its candidates, or a construction error is returned |
| Parsers.Parser.BuildLookaheadsAsWritten | CodeProject.Syntax.LALR/Parser.cs:743-744 | the lookahead phases as the constructor runs them: seeded, then propagated to the fixpoint of `CalculateLookAheads` |
| Parsers.Build | CodeProject.Syntax.LALR/Parser.cs:718-746 | the corrected constructor, with `CalculateClosedLookAheads` in place of `CalculateLookAheads`: with no productions ArgumentOutOfRangeException; otherwise the lookahead sets are propagated and closed and every table cell is the resolution of its candidates, or a construction error is returned |

## Left out

- Debug output: the `Debug` calls and the box-drawing dump of the tables are not modelled. They do not affect the tables.
- The lexer (`AsyncRegexLexer`, `Tokeniser`) and the character iterator are not part of this model.
- Parsers.Parser.Run: a `fuel` bound stands in for the unbounded `while (true)` of `ParseInput`. When the fuel runs out, Run returns `Success(Continue)`, an outcome the source never returns, and ParseInput passes it on to its caller.
- Parsers.Parser.ParseInput: the contract is stated only for tables that never shift at end of input. `BuildTable` proves every table it builds is such a table.
- Hash-set enumeration order is not modelled. Every loop over a set is proved for any order, so the model does not fix which of several conflicting candidates is seen first. The resolution it proves does not depend on that order.
- Parsers.Build: its contracts do not prove that the construction failures cannot happen. These are a missing goto, a self-propagation and a tie at a precedence that names no precedence group (which the precedences `PopulateProductions` assigns do not produce). Each is modelled as the error value the source throws.
- Parsers.Build: it requires at most 2^31 precedence groups, so that precedences fit the source's `int`. It also requires every production to name existing symbols, because the source indexes arrays by symbol.
- Parsers.BuildAsWritten: its contracts do not prove that the construction failures cannot happen either. These are a missing goto, a self-propagation and a tie at a precedence that names no precedence group, each modelled as the error value the source throws.
- Parsers.BuildAsWritten: like Parsers.Build, it requires at most 2^31 precedence groups and every production to name existing symbols. The source constructor accepts productions naming symbols that do not exist and then fails when it indexes by symbol; that failure is not modelled.
- Parsers.Build: runs `CalculateClosedLookAheads` where the source runs `CalculateLookAheads` (Parser.cs:744), so it states closed lookahead sets the source does not reach; Parsers.BuildAsWritten is the constructor as written and states only propagated sets (see Findings).
- Parsers.Parser.LR0Closure: the contract does not state that the closure is the smallest closed set. It states only that the added items have the dot at the start.
- Parsers.Parser.LR1Closure: the contract states closure and growth, not minimality.
- Async awaits are taken as plain calls, and no concurrency is modelled.
- Items.Item.IsError: does not state that a tree whose memos are consistent stays consistent after the call, because that two-state invariant makes the proof too costly. The contract states that every answer below is unchanged.
- Items.Item.constructor: does not state that the memo answers of the children are kept, for the same reason.
- Items.Item.constructor: asks the children with the corrected getter, so it never throws where the source can; Items.NewItemAsWritten is the constructor as written, with the exception (see Findings).
- Items.AnyError: scans with the corrected getter; Items.AnyErrorAsWritten is the scan as written, which can end in the getter's exception.
- LexicalTokens.Token.constructor: asks the items with the corrected item getter; LexicalTokens.NewTokenAsWritten is the constructor as written, with the exception.
- LexicalTokens.Token.IsError: asks the items with the corrected item getter; LexicalTokens.Token.IsErrorAsWritten is the getter as written, with the exception.
- The `params ISingleCharRx[]` constructor of `CharClassRx` is modelled over a non-null sequence of non-null elements. A null array or a null element, on which `PatternWithoutBrackets` throws ArgumentNullException from `Select` or a NullReferenceException, is not modelled; only the `int[]` constructor's null case is (RxCharClass.FromCodePoints).
- RxCharRange.Make: compares code points, because `CharRx` defines no ordering of its own in the source.
- Grammars.FromNames: the source's `Tokens.Length` is the number of symbol names, so the model counts symbol names.
- `ToString` under the `TRACE` symbol is not modelled. It appends debugging text.
- The regex tests that exercise members the code does not have are not modelled: negated classes, `CharClassRx * Multiplicity`, `CharRx * int`, and ranges rendered inside a class. The model follows the code, where a range inside a class fails with InvalidOperationException.
- RxGroup.TimesPattern: follows the code, which renders a one-item group as the item's pattern followed by the quantifier. The tests expect `(ab)*` for the sequence `ab` with `*`, while the code gives `ab*`.
- ParseTables.Code: only bounds the numeric code of an action type. The numbering matters only to the hash.
- Lists and arrays are sequences. Reference identity of the token and item objects is kept only where the source updates them in place.

## Findings

| source | as written | input that shows it | evidently intended | confidence | as-written member | corrected member |
|---|---|---|---|---|---|---|
| CodeProject.Syntax.LALR/Parser.cs:437-474 | after carrying a state's lookaheads along its edges, the loop re-closes that source state when some target grew, not the targets that grew; a target whose own edges then carry nothing new is never closed | grammar Z → S; S → a T \| c T \| c x e; T → x B; B → ε (symbols numbered Z, S, c, a, x, e, T, B): the state after `a x` keeps T → x · B with end-of-input lookahead but never gains B → · with it, so `a x` is rejected | every LALR set closed at the fixpoint, so that `a x` is accepted | not executed | Parsers.Parser.CalculateLookAheads, Parsers.BuildAsWritten, LalrSpecs.UnclosedAtFixpoint | Parsers.Parser.CalculateClosedLookAheads, Parsers.Build |
| CodeProject.Syntax.LALR/LexicalGrammar/Item.cs:94-98 | when a child is in error, the getter assigns `State = -1`, whose setter clears `_inError`, then reads `_inError.Value` and throws | an item with id 6 nesting an item with id 5 that nests an item created with id -1: the first read throws, the second answers `false`; the same exception leaves the item and token constructors (Item.cs:50, LexicalGrammar/Token.cs:78) and the token getter (LexicalGrammar/Token.cs:115) when a reduction is built over the item with id 5 | answer `true` and mark the item with state -1 | not executed | Items.Item.IsErrorAsWritten, Items.MaskedErrorWitness, Items.NewItemAsWritten, Items.ConstructorThrowsWitness, LexicalTokens.NewTokenAsWritten, LexicalTokens.ConstructorThrowsWitness, LexicalTokens.Token.IsErrorAsWritten, LexicalTokens.GetterThrowsWitness | Items.Item.IsError, Items.CorrectedErrorWitness, Items.Item.constructor, Items.CorrectedConstructorWitness, LexicalTokens.Token.constructor, LexicalTokens.Token.IsError, LexicalTokens.CorrectedGetterWitness |
| CodeProject.Syntax.LALR/LexicalGrammar/GroupRx.cs:35 | the format string `({0}){1}` is given one argument (the items' text concatenated with the quantifier), so `string.Format` throws FormatException for any group of two or more items, and so for any group nesting one | the group of `\` and `s` with multiplicity `+`, and a one-item group around it | `(\\s)+`: the items in parentheses followed by the quantifier | not executed | RxGroup.PatternAsWritten, RxGroup.FormatExceptionWitness, RxGroup.NestedGroupWitness | RxGroup.Pattern, RxGroup.PatternExtendsAsWritten, RxGroup.GroupAgrees |
