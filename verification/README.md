# Stalwart Mail Server: a verified model of its core logic

Dafny models of seven parts of the server and its command-line tool, with proofs about all inputs, all runs or all
reachable states. `dafny verify dfyconfig.toml` checks the project.

- **Configuration expressions** (`Expression*`, `StatefulParser`). Tokens go through an operator-precedence parser with
  a mutable operator stack, argument counters and jumps patched after the fact; the postfix code is evaluated on a
  stack. The reference is a recursive compiler and a recursive meaning of expression trees.
- **IMAP request receiver** (`ImapReceiver`, `StatefulReceiver`, `ReceiverRoundTrip`, `ReceiverRefusals`, `Decimal`). A
  byte-at-a-time state machine that is fed arbitrary chunks and reports requests, literal prompts and errors.
- **Text codecs** (`Glob`, `Utf7`, `Utf7Laws`, `SequenceSet`). Glob patterns, modified UTF-7 mailbox names, sequence sets.
- **Mailbox import** (`MailboxTree`, `MailboxCreation`). Naming existing mailboxes by path, and creating missing ones.
- **Backup and restore** (`BackupFormat`, `BackupRestore`, `BackupRuns`, `BackupRoundTrip`, `BackupStraying`,
  `BackupLaws`). Dumps with delta-encoded context, replayed in batches.
- **Limiters and the lookup cache** (`RateLimiter`, `ConcurrencyLimiter`, `LookupCache`), as runs of steps.
- **Snowflake ids** (`Snowflake`).

Code that works by updating state is modelled by classes and loops, each proved equal to a function; the theorems are
about the functions. Clocks, the directory backend, evictions, the bitmap codec, character case folding, trimming,
UTF-8 validation and command names are parameters, so the theorems hold for all of them. The definitions that a
program and its reference share (precedence levels, truth values, the alphabet of UTF-7, byte codes, limits) are pinned
by theorems that spell them out (`ExpressionLaws`, `Utf7Laws`, `BackupLaws`, `ReceiverRefusals`).

Where the code differs from what one would expect, the model follows the code and a lemma states exactly when:

- an array literal is refused when one of its items begins with a unary operator or a parenthesis
  (`ExpressionCompiler.CompilesExactly`);
- a minus right after a bracket or another unary operator is read as a subtraction, and the text of a tree is compiled
  to the tree's code exactly when the tree is accepted and has no such minus (`ExpressionText.TextMeansTree`). The
  subtraction takes its left operand from outside: `f(a, [-x])` calls f on `a - x` and an empty array
  (`ExpressionBrackets.NestedMinusChangesArgument`), and `!-x` is `1 - x` (`ExpressionBrackets.MinusAfterUnary`);
- `&&` and `||` keep the operand that decides (`ExpressionBlocks.ValuesAgreeExactly`, and a value it changes in
  `ExpressionBlocks.DecidingValueIsKept`);
- modified UTF-7 narrows code points above U+FFFF to 16 bits (`Utf7.RoundTripExactly`);
- a restore can store a value under the document of an earlier bit (`BackupRuns.RestoresExactly`), though no dump that
  is written makes it (`BackupRoundTrip.BackupThenRestore`);
- in a sequence set, a `$` next to a `*` stays in force for a later number (`SequenceSet.ReadAloneExactly`), and a
  trailing comma is ignored (`SequenceSet.TrailingComma`);
- a Maildir folder listed after one that already gave its name takes the slot of another: every folder is kept under
  its own name exactly when no folder is so listed (`MailboxCreation.CollectNames`);
- the table of mailboxes misses some exactly when one has no path or two share one (`MailboxTree.BuildMailboxTree`);
- a rate of zero requests still grants one call per period (`RateLimiter.TwiceBoundsExactly`);
- the concurrency limiter can overshoot its maximum (`ConcurrencyLimiter.WithinMaximumExactly`).

## Model

| member | source | states |
|---|---|---|
| `ExpressionCompiler.CompilesExactly` | crates/common/src/expr/parser.rs:46-287 | every expression tree, printed with only the parentheses precedence requires, compiles to the reference postfix code of the tree if it is accepted (declared argument counts, array items that start with neither a unary operator nor a parenthesis) and is refused otherwise |
| `ExpressionCompiler.ParseExpr` | crates/common/src/expr/parser.rs:49-222 | the same from any parser state an expression may start in, by induction on the tree: the pending operators, argument counters and output before it are untouched but for the argument it counts as |
| `ExpressionCompiler.UnaryItemRejected` | crates/common/src/expr/parser.rs:65-128 | the reason for the array condition: `[!x]` is refused for every variable x |
| `ExpressionLaws.ChainsGroupByLevel` | crates/common/src/expr/parser.rs:130-152 | every chain of operands and operators, however long, compiles to the code of the tree that applies the last of its loosest operators last, and so on on both sides, for seven levels written out |
| `ExpressionLaws.OperatorLevels` | crates/common/src/expr/parser.rs:275-286 | of any two operators in `a op b op c` the right one is applied first exactly when its level comes later in Or, And, Xor, equality, order, sum, product; the code is written out, jumps included |
| `ExpressionLaws.EveryOperatorHasALevel` | crates/common/src/expr/parser.rs:275-286 | no operator is missing from those levels |
| `ExpressionLaws.WrongArity` | crates/common/src/expr/parser.rs:91-109 | a call with another number of arguments than declared is refused from any state, with the name, the declared number and the number given |
| `ExpressionLaws.MissingOperand` | crates/common/src/expr/parser.rs:91-128 | `x[]` is refused for its index, and a match of no or several texts for its number |
| `ExpressionLaws.Unbalanced` | crates/common/src/expr/parser.rs:69-90 | around every accepted tree: a parenthesis closed by a bracket, one never closed, and one never opened are refused, each with its error |
| `ExpressionText.TextMeansTree` | crates/common/src/expr/tokenizer.rs:162-207 | for every tree: the tokens its text is read as, where a minus is a negation at the start and after an opening parenthesis, a comma or a binary operator and a subtraction elsewhere, compile to the reference code of the tree if and only if the tree is accepted and each of its negations stands at such a place |
| `ExpressionText.HeardExactly` | crates/common/src/expr/tokenizer.rs:162-207 | a printed stream is read as written exactly when its negations stand at such places; otherwise the reading has fewer negations |
| `ExpressionText.OperatorsAreConserved` | crates/common/src/expr/parser.rs:46-241 | for every accepted token stream and every operator: the code has as many items of the operator as the stream has tokens of it |
| `ExpressionBrackets.ParseLacking` | crates/common/src/expr/parser.rs:49-222 | wherever an expression may start, one whose first operand is missing (`-x`, `!-x`, `-x == y` with the minus a subtraction) is read to its operators and other operands in order, leaves the argument count where it was instead of one higher, and is refused exactly when an operand is |
| `ExpressionBrackets.LessAfterTight` | crates/common/src/expr/parser.rs:130-171 | after pending operators that bind as tightly as a subtraction, as in `a * !-x`, the minus emits the unary operators and then those, before its operand is read |
| `ExpressionBrackets.LackingFirst` | crates/common/src/expr/parser.rs:69-201 | a list that begins with one emits its code before the call, counts the later items alone, and is accepted exactly when these are as many as the call expects |
| `ExpressionBrackets.LeadingMinusParses` | crates/common/src/expr/parser.rs:130-201 | from every state in which a literal may begin: an array literal that begins with a minus, also `[-x == y, z]`, is read as one expression, accepted exactly when its operands and later items are; its code is that of the first item with its subtraction, then the later items and an array of as many |
| `ExpressionBrackets.LeadingMinusIndex` | crates/common/src/expr/parser.rs:185-201 | in the brackets of an index it is refused, unless exactly one item follows |
| `ExpressionBrackets.LackingReaches` | crates/common/src/expr/eval.rs:113-223 | on every machine such code replaces the value on top of the stack, which it did not push, by its operators applied to that value |
| `ExpressionBrackets.LeadingMinusTakes` | crates/common/src/expr/eval.rs:113-223 | on every machine such a literal leaves two values: the one it found on top less the operand of its minus (with the further operators of the first item applied), and the array of its later items |
| `ExpressionBrackets.LeadingMinusIsLost` | crates/common/src/expr/eval.rs:113-223 | as the whole expression it evaluates to the array of its later items: `[-x]` is empty |
| `ExpressionBrackets.NestedMinusParses` | crates/common/src/expr/parser.rs:69-201 | a call `f(a, [-x, ...])` of two arguments, anywhere in an expression, is accepted exactly when a and the literal are |
| `ExpressionBrackets.NestedMinusTakes` | crates/common/src/expr/eval.rs:113-223 | on every machine it pushes the call of f on the value of a less that of x, and the array of the later items |
| `ExpressionBrackets.NestedMinusChangesArgument` | crates/common/src/expr/tokenizer.rs:162-207 | the text of `f(a, [-x])` evaluates to the call of f on `a - x` and the empty array |
| `ExpressionBrackets.LackingAlone` | crates/common/src/expr/parser.rs:130-171 | an expression that lacks its first operand, as the whole expression: refused exactly when an operand is, and evaluated with the empty string as that operand |
| `ExpressionBrackets.MinusAfterUnary` | crates/common/src/expr/tokenizer.rs:162-207 | the text `!-x` evaluates to `1 - x` |
| `ExpressionCompiler.GroupParsed` | crates/common/src/expr/parser.rs:69-128 | closing a call, a match or an array literal succeeds exactly when the counted arguments equal the expected ones, and emits the call after its arguments |
| `ExpressionCompiler.RightParsed` | crates/common/src/expr/parser.rs:130-171 | a binary operator takes its right operand at a higher precedence and emits jump, operand, operator in that order |
| `ExpressionTrees.CompileLength` | crates/common/src/expr/parser.rs:153-171 | reference code has at most twice as many items as there are tokens, less one |
| `ExpressionTrees.PlainIsFirstToken` | crates/common/src/expr/parser.rs:243-254 | whether a tree counts as an argument of the enclosing array is decided by the first token printed |
| `ExpressionJumps.JumpsOfAcceptedStreams` | crates/common/src/expr/parser.rs:69-241 | for every token stream, well formed or not: the parser never panics, and if it accepts, every jump lands just after its own And/Or inside the output, jump intervals are nested or disjoint, and no jump is left open |
| `ExpressionJumps.StepInv` | crates/common/src/expr/parser.rs:49-222 | every token keeps the parser invariant: open jumps belong to pending operators in increasing positions, closed ones are laminar, and there is one argument counter per pending call |
| `ExpressionJumps.EmitJump` | crates/common/src/expr/parser.rs:262-273 | patching always finds the jump of the operator being emitted and keeps all other jumps |
| `ExpressionJumps.CloseCallInv` | crates/common/src/expr/parser.rs:91-128 | popping the argument counter when a call is closed never fails |
| `StatefulParser.Parser.Parse` | crates/common/src/expr/parser.rs:46-241 | the mutable parser, over any tokens, returns what the parser function returns |
| `StatefulParser.Parser.Consume` | crates/common/src/expr/parser.rs:49-222 | one token takes the object through one step of the parser function, error cases included |
| `StatefulParser.Parser.UpdateJmpPos` | crates/common/src/expr/parser.rs:262-273 | only the item at the recorded position changes; no other field does |
| `StatefulParser.Parser.DrainOperators` | crates/common/src/expr/parser.rs:132-152 | the popping loop equals the recursive drain, and keeps the parser invariant |
| `StatefulParser.Parser.CloseGroup` | crates/common/src/expr/parser.rs:69-128 | popping to the matching opener and completing the call, or the mismatch error |
| `StatefulParser.Parser.CompleteCall` | crates/common/src/expr/parser.rs:91-128 | the argument-count checks of functions, arrays and `matches`, and the item each emits |
| `StatefulParser.Parser.PushOperator` | crates/common/src/expr/parser.rs:130-171 | a binary operator uncounts its left operand, drains, and records its jump |
| `StatefulParser.Parser.CountArgument` | crates/common/src/expr/parser.rs:243-254 | counts one more argument of the innermost open call, and one more item of the array literal just below the top of the operator stack |
| `StatefulParser.Parser.UncountArgument` | crates/common/src/expr/parser.rs:256-260 | takes one argument back from the innermost open call and leaves the rest |
| `ExpressionEval.SemanticPreservation` | crates/common/src/expr/eval.rs:113-223 | compiling the printed tree and evaluating the code yields one value, the meaning of the tree, with captures threaded left to right |
| `ExpressionLaws.ShortCircuits` | crates/common/src/expr/eval.rs:183-189 | `&&` and `&#124;&#124;` between any trees on any machine: the left value and its captures if it decides, and otherwise 0 or 1 by the truth of the right, with truth written out by kind of value |
| `ExpressionLaws.LogicalOperators` | crates/common/src/expr/eval.rs:141-165 | what not, and, or and xor leave for any values on any stack, as 0 or 1 |
| `ExpressionLaws.ArithmeticOperators` | crates/common/src/expr/eval.rs:141-165 | the other operators take the operands in the order they were pushed |
| `ExpressionLaws.LeavesAndMatches` | crates/common/src/expr/eval.rs:124-140 | constants, captures by number (the empty string if missing), and a match, which leaves 0 or 1 and replaces the captures |
| `ExpressionLaws.IndexByKind` | crates/common/src/expr/eval.rs:190-198 | an index into any value: the item of an array counted from the left, any other value as its own first item, the empty string past the end |
| `ExpressionLaws.IndexPicks` | crates/common/src/expr/eval.rs:190-206 | `[items][i]` pushes the value of the item at that place under the captures left by those before it, or the empty string |
| `ExpressionLaws.CallTakes` | crates/common/src/expr/eval.rs:166-182 | a call is made on the values of its arguments, each at its own place and under the captures of those before it |
| `ExpressionEval.ExecCompile` | crates/common/src/expr/eval.rs:113-223 | from any stack and captures, reference code pushes one value: the meaning of its tree |
| `ExpressionEval.ExecList` | crates/common/src/expr/eval.rs:166-206 | argument code pushes the values in source order |
| `ExpressionEval.ExecJump` | crates/common/src/expr/eval.rs:183-189 | a jump over code of the length it names behaves as skipping that code, or as not being there |
| `ExpressionEval.Eval` | crates/common/src/expr/eval.rs:113-223 | the evaluation loop over any item sequence returns the value and captures of the recursive machine |
| `ExpressionEval.EvalItem` | crates/common/src/expr/eval.rs:124-219 | one item acts on the stack as the machine says, empty stacks included |
| `ExpressionEval.PopArguments` | crates/common/src/expr/eval.rs:166-206 | arguments come off the stack in source order and leave the rest |
| `ExpressionBlocks.EvalBlock` | crates/common/src/expr/eval.rs:84-110 | the first condition that is true decides the result; the default otherwise |
| `ExpressionLaws.FirstTrueDecides` | crates/common/src/expr/eval.rs:84-110 | the first condition with a true value chooses its branch, the default when none has; conditions and branch see the captures of the conditions before |
| `ExpressionBlocks.BlockPreservation` | crates/common/src/expr/eval.rs:84-110 | a block of compiled conditions and results means the same block of trees |
| `ExpressionBlocks.ShortCircuitRefinesEager` | crates/common/src/expr/eval.rs:147-189 | for trees free of regular expressions, the result has the truth value of evaluating every operand and applying the operators |
| `ExpressionBlocks.KeepsCaptures` | crates/common/src/expr/eval.rs:113-223 | a tree free of regular expressions leaves the captures alone |
| `ExpressionBlocks.ValuesAgreeExactly` | crates/common/src/expr/eval.rs:147-189 | for the same trees the value itself is that of eager evaluation if and only if the tree is not an `&&` or `&#124;&#124;` whose left operand decides it and is other than the integer 0 or 1 the operator would give |
| `ExpressionBlocks.DecidingValueIsKept` | crates/common/src/expr/eval.rs:183-189 | a tree whose value is not that of eager evaluation |
| `StatefulReceiver.Connection.DriveChunks` | crates/imap-proto/src/receiver.rs:157-402 | however a byte stream is cut into chunks, a driver that calls the mutable parser on each chunk until it needs more data sees the events of the whole stream and ends in its state |
| `ImapReceiver.StepKeeps` | crates/imap-proto/src/receiver.rs:157-397 | every byte keeps the receiver invariant: argument bytes within the size counter within the maximum, digits only in a literal size, buffered plus remaining literal bytes admitted; a completed request or an error leaves the start state, and a literal once admitted is not refused |
| `ImapReceiver.LiteralHistory` | crates/imap-proto/src/receiver.rs:323-397 | in every state reached from a fresh receiver, literal data ends a stream that ends in an open brace, digits, plus signs if any, a closing brace, no line break but one, and the buffer; buffered plus remaining bytes are the number those digits write |
| `ImapReceiver.SplitIndependence` | crates/imap-proto/src/receiver.rs:157-397 | the law of the receiver function behind that: feeding chunks in turn is feeding the stream |
| `ImapReceiver.FeedConcat` | crates/imap-proto/src/receiver.rs:157-397 | feeding two streams in turn is feeding their concatenation |
| `ImapReceiver.PushArgumentKeeps` | crates/imap-proto/src/receiver.rs:128-143 | an argument is refused exactly when it is not empty and would pass the maximum size |
| `ReceiverRoundTrip.RoundTrip` | crates/imap-proto/src/receiver.rs:157-397 | any list of requests as clients write them (tags where expected, `UID`, names in any case, any white space, punctuation with or without spaces, atoms, quoted strings, and literals announced or not and binary or not) yields in order the prompt for each announced literal with its length and then the request, and leaves the receiver fresh |
| `ReceiverRoundTrip.RequestRoundTrip` | crates/imap-proto/src/receiver.rs:157-397 | the same for one request |
| `ReceiverRoundTrip.PieceRun` | crates/imap-proto/src/receiver.rs:232-397 | any piece of a line, from any place it may follow: its token, its size and its prompt are added, the atom before it first |
| `ReceiverRoundTrip.PiecesRun` | crates/imap-proto/src/receiver.rs:232-397 | the same for any line of pieces that may follow each other |
| `ReceiverRoundTrip.QuotedToken` | crates/imap-proto/src/receiver.rs:290-322 | a quoted string of up to 1024 bytes with its escapes is read back |
| `ReceiverRoundTrip.LiteralToken` | crates/imap-proto/src/receiver.rs:323-397 | a literal of any bytes is asked for after its header exactly when it is announced, with its length, and is read back; an empty one is Nil |
| `ReceiverRoundTrip.StrayEscape` | crates/imap-proto/src/receiver.rs:304-322 | in a quoted string a backslash before any other byte stays |
| `ReceiverRoundTrip.BlanksInTag` | crates/imap-proto/src/receiver.rs:167-192 | tabs and carriage returns inside a tag are dropped from it |
| `ReceiverRefusals.TagRefused` | crates/imap-proto/src/receiver.rs:167-192 | a tag of more than 128 bytes, one that is not UTF-8, and one before a line feed are refused, each with its error, and the receiver is as new |
| `ReceiverRefusals.CommandRefused` | crates/imap-proto/src/receiver.rs:193-231 | a command name of more than 15 characters, an unknown one, and one with a character that is neither a letter, a digit nor white space |
| `ReceiverRefusals.QuotedRefused` | crates/imap-proto/src/receiver.rs:304-322 | a quoted string of more than 1024 bytes |
| `ReceiverRefusals.UnclosedRefused` | crates/imap-proto/src/receiver.rs:308-310 | a quoted string with a line feed |
| `ReceiverRefusals.LiteralRefused` | crates/imap-proto/src/receiver.rs:325-345 | a literal whose size is 2^32 or more, or passes what the maximum leaves |
| `ReceiverRefusals.HeaderRefused` | crates/imap-proto/src/receiver.rs:323-369 | a literal with no size, with a digit after its plus sign, or with any other character |
| `ReceiverRefusals.BreakRefused` | crates/imap-proto/src/receiver.rs:370-385 | a literal header followed by anything but a line break |
| `ReceiverRefusals.SizeRefused` | crates/imap-proto/src/receiver.rs:128-155 | an atom that passes the maximum is refused when it ends, and punctuation with no room left at once |
| `StatefulReceiver.Connection.Drive` | crates/imap-proto/src/receiver.rs:157-402 | the same for one chunk |
| `StatefulReceiver.Connection.Parse` | crates/imap-proto/src/receiver.rs:157-402 | one call stops at the first event, having consumed exactly the bytes up to it, or consumes everything |
| `StatefulReceiver.Connection.Consume` | crates/imap-proto/src/receiver.rs:160-397 | one byte takes the object through one step of the receiver function |
| `StatefulReceiver.Connection.Reset` | crates/imap-proto/src/receiver.rs:112-126 | an error clears buffer, request and counter |
| `StatefulReceiver.Connection.PushArgument` | crates/imap-proto/src/receiver.rs:128-143 | adds the buffered argument, nothing when it is empty outside quotes, or the size error |
| `StatefulReceiver.Connection.PushToken` | crates/imap-proto/src/receiver.rs:145-155 | adds the token, or the size error |
| `Decimal.ParsePrinted` | crates/imap-proto/src/receiver.rs:325-332 | reading a printed number returns it if it fits in 32 bits and fails otherwise |
| `Decimal.AnotherDigit` | crates/imap-proto/src/receiver.rs:325-332 | digits are read in base ten, most significant first |
| `Glob.CompileAndMatch` | crates/utils/src/glob.rs:38-126 | compiling a pattern and matching a value returns true exactly when the raw pattern (`*`, `?`, backslash escapes, folded literals) matches it |
| `Glob.MatchesByPieces` | crates/utils/src/glob.rs:82-126 | a pattern matches a value exactly when the value falls into consecutive parts that fit its pieces: any part for `*`, one character for `?`, the folded character for a plain or escaped one |
| `Glob.EveryPattern` | crates/utils/src/glob.rs:38-79 | every pattern is made of such pieces, but for a backslash at its end |
| `Glob.TrailingBackslash` | crates/utils/src/glob.rs:38-79 | that backslash changes nothing |
| `Glob.IsMatch` | crates/utils/src/glob.rs:82-126 | the loop that backtracks to the last star only decides the declarative match, and terminates |
| `Glob.EarlierStarIsCovered` | crates/utils/src/glob.rs:110-122 | why one backtrack point is enough: a match through an earlier star is also one through the last star |
| `Glob.CompilePreserves` | crates/utils/src/glob.rs:38-79 | collapsing runs of stars and resolving escapes keeps the meaning of the pattern |
| `Glob.Compile` | crates/utils/src/glob.rs:38-79 | the compiling loop, escape state included, equals the recursive compilation |
| `Utf7.RoundTripExactly` | crates/imap-proto/src/utf7.rs:40-139 | decoding the encoding of a text returns it if and only if all its code points are at most U+FFFF |
| `Utf7Laws.EncodesAs` | crates/imap-proto/src/utf7.rs:91-139 | every text is written as its printable characters, `&-` for `&`, and each maximal run of others between `&` and `-` as its UTF-16 bits in groups of six, padded with zeros, in the alphabet written out |
| `Utf7Laws.DecodesAs` | crates/imap-proto/src/utf7.rs:40-89 | every byte string is decoded, or refused, run by run: a run is its letters' bits in groups of sixteen, anything but a letter in it is refused, a lone `&` at the end stays |
| `Utf7Laws.PlainName` | crates/imap-proto/src/utf7.rs:91-139 | a name of printable ASCII without `&` is its own encoding |
| `Utf7Laws.DirectName` | crates/imap-proto/src/utf7.rs:91-139 | a printable first character is written on its own, whatever follows |
| `Utf7Laws.RankIs` | crates/imap-proto/src/utf7.rs:29-36 | the decoder's table holds the place of each letter of the alphabet and nothing else |
| `Utf7Laws.ReadsUtf16` | crates/imap-proto/src/utf7.rs:88-88 | code units are accepted as a text exactly when they are its UTF-16 form |
| `Utf7.SupplementaryIsNarrowed` | crates/imap-proto/src/utf7.rs:91-139 | a character the round trip loses, and what it becomes |
| `Utf7.DecodePlain` | crates/imap-proto/src/utf7.rs:40-139 | the decoder recovers the code units of every encoded text |
| `Utf7.UnshiftDecodes` | crates/imap-proto/src/utf7.rs:101-108 | padding completes the pending code unit and never adds one |
| `Utf7.UnitDecodes` | crates/imap-proto/src/utf7.rs:121-127 | the sextets of a code unit, at each alignment, give back the unit owed and the unit itself |
| `Utf7.RankMap` | crates/imap-proto/src/utf7.rs:29-38 | the two tables are inverse |
| `Utf7.ShiftUnit` | crates/imap-proto/src/utf7.rs:121-127 | the 32-bit accumulator of the encoder agrees with the pending bits, though it discards high bits and is never cleared |
| `Utf7.ShiftSextet` | crates/imap-proto/src/utf7.rs:62-68 | the same for the accumulator of the decoder |
| `Utf7.EncodeText` | crates/imap-proto/src/utf7.rs:91-139 | the encoding loop equals the recursive encoding, which `Utf7Laws.EncodesAs` describes |
| `Utf7.DecodeUnits` | crates/imap-proto/src/utf7.rs:40-89 | the decoding loop yields the code units of the recursive decoding, or fails when it does |
| `MailboxTree.BuildMailboxTree` | crates/cli/src/modules/import.rs:969-1011 | terminates for all mailboxes with distinct ids, parent cycles included; its keys are exactly the root-to-node name paths, each mapped to a mailbox with that path; it has as many entries as there are mailboxes (the debug assertion) if and only if every mailbox has a path and no two share one |
| `MailboxTree.OrphanIsUnnamed` | crates/cli/src/modules/import.rs:1008-1008 | in any list, a mailbox under a parent that is not listed has no path |
| `MailboxTree.AllVisited` | crates/cli/src/modules/import.rs:982-1007 | when the walk ends, every mailbox whose parent chain reaches the root was visited, under its path |
| `MailboxTree.PathUnique` | crates/cli/src/modules/import.rs:969-1011 | a mailbox has at most one path, so cycles have none |
| `MailboxCreation.CollectNames` | crates/cli/src/modules/import.rs:113-136 | the collected names are exactly the folders and their ancestors (parts between dots, trimmed), without repetition but for the empty name, every parent at an earlier index; every folder is kept under its own name if and only if none comes after one that already gave its name |
| `MailboxCreation.AddFolder` | crates/cli/src/modules/import.rs:117-128 | one folder adds exactly its missing ancestors and itself, in order, behind the names already there |
| `MailboxCreation.ParentAfterChild` | crates/cli/src/modules/import.rs:113-136 | an input that fails this: `A.B` followed by `A` |
| `MailboxCreation.CreateMissing` | crates/cli/src/modules/import.rs:222-254 | every name ends with an identifier that denotes it: an existing mailbox, or one created under the right parent by an earlier request; each request is for one name, and neither the failed lookup of a parent nor an unresolved parent occurs |
| `MailboxCreation.LookUpExisting` | crates/cli/src/modules/import.rs:207-220 | names found on the server keep their ids, the empty name is the inbox |
| `SequenceSet.ParseSequenceSet` | crates/imap-proto/src/parser/mod.rs:223-400 | the one-pass scanner accepts exactly the grammar, for every byte string, and returns what the grammar says |
| `SequenceSet.ItemTexts` | crates/imap-proto/src/parser/mod.rs:239-390 | an item alone is accepted exactly when it is a number below 2^32, `*`, `*$`, digits if any and `$`, or two ends around a colon of which the second, if `*`, may be followed by `$` |
| `SequenceSet.StrayByte` | crates/imap-proto/src/parser/mod.rs:299-318 | a byte that is no digit, `*`, `:`, `$` or comma refuses the set, wherever it stands |
| `SequenceSet.ReadAloneExactly` | crates/imap-proto/src/parser/mod.rs:321-390 | the items of an accepted set are read as each would be alone if and only if no number without its own `$` follows an item ending in `*$` before an item that uses the flag up |
| `SequenceSet.DollarCarriesOver` | crates/imap-proto/src/parser/mod.rs:352-390 | `*$` followed by any number reads as the open range and the saved search |
| `SequenceSet.TrailingComma` | crates/imap-proto/src/parser/mod.rs:236-238 | one comma after the last item changes nothing |
| `SequenceSet.SetRoundTrip` | crates/imap-proto/src/parser/mod.rs:223-400 | any non-empty list of numbers, ranges with either end open, lone `*` and `$`, written with commas, is read back in order, unwrapped when there is one |
| `SequenceSet.Rejected` | crates/imap-proto/src/parser/mod.rs:235-319 | a byte is refused only when no item begins that way |
| `SequenceSet.CloseItem` | crates/imap-proto/src/parser/mod.rs:321-390 | what is pushed at a comma or at the end is the item the grammar reads, and the scanner starts afresh |
| `SequenceSet.TakeColon` | crates/imap-proto/src/parser/mod.rs:239-266 | a colon is taken exactly after a first number or `*`, and the number is the text since the token began |
| `SequenceSet.TakeOther` | crates/imap-proto/src/parser/mod.rs:267-318 | digits, `*` and `$` are taken exactly where an item can continue with them |
| `BackupRoundTrip.BackupThenRestore` | crates/common/src/manager/backup.rs:156-220 | for all records of any families, in one section or several, and all flush limits: dumping with delta-encoded context, writing, reading and replaying in batches does to the store what each record means under its own account, collection and document, once and in order, and gives the blob store the blobs |
| `BackupLaws.RestoreGivesBack` | crates/common/src/manager/restore.rs:79-398 | the same with everything spelled out: a restored dump leaves the value, counter, bits or log entry of each record by family, and puts exactly the blobs outside a document into the blob store, each once and in order |
| `BackupRoundTrip.EachRecordOnce` | crates/common/src/manager/restore.rs:107-302 | for every family but bitmaps and logs: one value stored or one counter increased per record, under its own document or at its shared key; a blob leaves its link or its mark and an index entry has no value |
| `BackupRuns.RestoresExactly` | crates/common/src/manager/restore.rs:79-398 | for every file that is replayed to the end, of any version: under all limits the store is left as the operations mean if and only if no pair kept under a document follows a bit of a bitmap before the dump names the document again (a bit of document 2^32-1 aside, where that is also the document) |
| `BackupStraying.StrayingFile` | crates/common/src/manager/restore.rs:344-362 | a file that fails this with the limits of the server: the property of document 7 is stored under document 9 |
| `BackupRuns.RestoreMeans` | crates/common/src/manager/restore.rs:79-398 | for any one set of limits the condition is enough, and the blob store is given the blobs in order |
| `BackupRuns.RunMeans` | crates/common/src/manager/restore.rs:93-398 | the same from any state of a replay |
| `BackupRuns.RestoreCompletes` | crates/common/src/manager/restore.rs:374-472 | a replay reaches the end of the file exactly when the file parses and names a family before any pair |
| `BackupLaws.PairByVersion` | crates/common/src/manager/restore.rs:107-373 | for every file version: what a pair leaves in the store, what is skipped, and which messages are queued for indexing under which number |
| `BackupLaws.LimitsHold` | crates/common/src/manager/restore.rs:379-390 | with the limits of the server, after every operation that looks at them less than 1000 operations and 5000000 bytes are pending, and a batch is sent between operations exactly when one of the two is reached |
| `BackupLaws.PairsAreCounted` | crates/common/src/manager/restore.rs:107-107 | a pair counts for its key, its value and eight bytes, the bytes of a blob outside a document aside |
| `BackupLaws.HeaderDecides` | crates/common/src/manager/restore.rs:407-429 | another marker or a later version is refused with nothing sent |
| `BackupLaws.UnknownOperation` | crates/common/src/manager/restore.rs:431-472 | an operation with an unknown code or family, or cut short in its fixed part, ends the reading |
| `BackupRestore.StepAdds` | crates/common/src/manager/restore.rs:93-391 | every operation adds exactly its own effects at the document the batch stands at, whether or not a batch is sent, and leaves the batch at that document, at the last bit, or at none |
| `BackupRestore.BitsAdd` | crates/common/src/manager/restore.rs:344-362 | the documents of a bitmap are each set once under the right account and collection, though a full batch in between restores no document |
| `BackupRestore.FlushKeeps` | crates/common/src/manager/restore.rs:379-390 | sending a batch loses nothing and re-establishes the whole context |
| `BackupRoundTrip.WholeDumpTold` | crates/common/src/manager/backup.rs:156-220 | context operations that are left out change nothing, and a dump whose bitmaps, if any, come last does not stray |
| `BackupRoundTrip.Restore` | crates/common/src/manager/restore.rs:79-398 | the restore loop equals the replay of the file, early exits included |
| `BackupRoundTrip.ReplayPair` | crates/common/src/manager/restore.rs:107-373 | one branch per family: the value set, the counter added, the bits, the log entry, or the failure without a family; skipped or requeued by file version |
| `BackupRoundTrip.ReplayBlob` | crates/common/src/manager/restore.rs:159-182 | a blob under a document leaves its link, after an indexing entry for a version 1 message; any other leaves its mark |
| `BackupRoundTrip.ReplayBits` | crates/common/src/manager/restore.rs:344-362 | the loop over the documents of a bitmap |
| `BackupRoundTrip.Backup` | crates/common/src/manager/backup.rs:156-220 | the dump loop sends context only when it differs from the last sent |
| `BackupFormat.FileRoundTrip` | crates/common/src/manager/restore.rs:407-472 | reading a written file returns its operations, for keys and values shorter than 2^32 bytes |
| `BackupFormat.ReadWritten` | crates/common/src/manager/restore.rs:431-472 | reading one written operation returns it and the rest of the bytes |
| `BackupFormat.WriteFile` | crates/common/src/manager/backup.rs:1075-1119 | the writer emits the header and the operations in order |
| `BackupLaws.FileLayout` | crates/common/src/manager/backup.rs:1075-1119 | the bytes of a file: marker, version, and each operation with its code, big-endian numbers and lengths |
| `LookupCache.CachedAnswerIsLatest` | crates/directory/src/core/dispatch.rs:55-103 | in every run with a non-decreasing clock and any evictions, an answer given without asking the backend is the latest the backend gave for that name, stored no longer ago than its time to live |
| `LookupCache.AskedExactly` | crates/directory/src/core/cache.rs:107-129 | in every run that does not evict a name, the backend is asked for it if and only if it has given no answer yet or its latest one is older than the time to live of such an answer |
| `LookupCache.AtMostOneUnexpired` | crates/directory/src/core/cache.rs:107-137 | in every run at most one of the positive and negative entries of a name is unexpired |
| `LookupCache.SteadyBackend` | crates/directory/src/core/dispatch.rs:55-103 | if the backend always says the same of a name, so does every lookup |
| `LookupCache.StepKeeps` | crates/directory/src/core/dispatch.rs:55-103 | one lookup, failed backend calls included, keeps every unexpired entry equal to the latest answer |
| `LookupCache.CachedLookups.Get` | crates/directory/src/core/cache.rs:107-129 | fetches as the cache function does, leaving an expired negative entry in place |
| `LookupCache.CachedLookups.InsertPositive` | crates/directory/src/core/cache.rs:131-133 | stores the expiry and evicts |
| `LookupCache.CachedLookups.InsertNegative` | crates/directory/src/core/cache.rs:135-137 | stores the expiry and evicts |
| `LookupCache.CachedLookups.Resolve` | crates/directory/src/core/dispatch.rs:80-103 | a recipient or domain lookup through the cache |
| `RateLimiter.WindowBound` | crates/common/src/listener/limiter.rs:57-80 | from any state under any non-decreasing clock, a half-open interval of one period sees at most twice the allowed requests (at most one grant when none are allowed) |
| `RateLimiter.BoundIsReached` | crates/common/src/listener/limiter.rs:57-80 | a new limiter reaches that bound |
| `RateLimiter.RestIsGranted` | crates/common/src/listener/limiter.rs:65-72 | what is left of the requests is granted at any times |
| `RateLimiter.RefillIsGranted` | crates/common/src/listener/limiter.rs:65-80 | once the refill is due, however late, as many calls as a refill hands out are granted, whatever was used before |
| `RateLimiter.NoneIsGranted` | crates/common/src/listener/limiter.rs:65-80 | with the requests used up and the refill not due, every call is refused |
| `RateLimiter.TwiceBoundsExactly` | crates/common/src/listener/limiter.rs:65-80 | twice the allowed requests is a bound if and only if at least one is allowed or the period is no whole second |
| `RateLimiter.Limiter.IsAllowed` | crates/common/src/listener/limiter.rs:65-80 | the counters and the answer change as the bucket function says |
| `RateLimiter.Limiter.IsAllowedSoft` | crates/common/src/listener/limiter.rs:82-85 | the soft check foretells the answer and changes nothing |
| `ConcurrencyLimiter.CounterBound` | crates/common/src/listener/limiter.rs:97-116 | over every interleaving of loads, adds, declines and drops, the counter is the number of live guards and exceeds the maximum by at most the number of other callers; never with one caller |
| `ConcurrencyLimiter.StepKeeps` | crates/common/src/listener/limiter.rs:51-55 | every step keeps counter plus admitted callers below the bound, and no drop wraps the counter |
| `ConcurrencyLimiter.BoundIsReached` | crates/common/src/listener/limiter.rs:106-116 | some interleaving reaches the bound, for every number of callers and every positive maximum |
| `ConcurrencyLimiter.WithinMaximumExactly` | crates/common/src/listener/limiter.rs:97-116 | the counter never passes the maximum if and only if there is at most one caller or the maximum is 0 |
| `ConcurrencyLimiter.Limiter.IsAllowed` | crates/common/src/listener/limiter.rs:106-116 | an uninterrupted check is the load followed by the add or the decline |
| `ConcurrencyLimiter.Limiter.Release` | crates/common/src/listener/limiter.rs:51-55 | dropping a guard is the drop step |
| `Snowflake.DistinctExactly` | crates/utils/src/snowflake.rs:64-72 | the ids of a run under a non-decreasing clock are distinct if and only if no millisecond sees more than 4096 calls |
| `Snowflake.NodesNeverCollide` | crates/utils/src/snowflake.rs:64-72 | generators whose node ids differ modulo 512 never produce the same id, whatever their clocks show |
| `Snowflake.FieldsRecovered` | crates/utils/src/snowflake.rs:64-72 | while the milliseconds fit in 43 bits, milliseconds, node and sequence can be read back |
| `Snowflake.FieldsAreDisjoint` | crates/utils/src/snowflake.rs:68-70 | the sum that stands for an id in the other theorems is the masked and shifted fields joined bit by bit |
| `Snowflake.PastSeparates` | crates/utils/src/snowflake.rs:55-61 | a past id is above an id exactly when that id was made before its millisecond |
| `Snowflake.PastId` | crates/utils/src/snowflake.rs:55-61 | there is none before the epoch or when the period is longer than the time since it; otherwise it is above the ids made before that many milliseconds ago and no others |
| `Snowflake.Generator.Generate` | crates/utils/src/snowflake.rs:64-72 | an id from the clock, the node and the next sequence number; before the epoch neither an id nor a used-up number |
| `Snowflake.Generator.GenerateAll` | crates/utils/src/snowflake.rs:64-72 | the ids of a run of calls |

## Left out

- The expression tokenizer but for its reading of a minus, the regular expression engine, floating point rounding and NaN, and the asynchronous
  functions: tokens are the input, floats are reals, and matching, arithmetic, ordering and function bodies are
  arbitrary functions of the environment.
- The texts of error messages.
- ExpressionCompiler.CompilesExactly: printed trees have fewer than 2^31 tokens, since the argument counters are 32-bit;
  trees are printed to tokens, and ExpressionText.TextMeansTree says when their text is read as those tokens.
- ExpressionText.TextMeansTree: fewer than 2^31 tokens; only the minus is read anew, so that a negative constant is a
  token and not a text.
- ExpressionBrackets.ParseLacking: fewer than 2^31 tokens; the expression does not follow an operator that binds as
  tightly as a subtraction, for which there is ExpressionBrackets.LessAfterTight without further operators.
- ExpressionLaws.ChainsGroupByLevel: fewer than 2^31 tokens; an operand that is itself a chain is in parentheses.
- ExpressionJumps.JumpsOfAcceptedStreams: streams have fewer than 2^31 tokens, since jump distances are 32-bit.
- StatefulParser.Parser.Parse: streams have fewer than 2^31 tokens; the flag for a preceding variable or call is a field
  of the parser object here and a local variable there.
- The connection loop around the receiver, which drops the rest of a chunk after an error; the driver modelled here
  keeps parsing it.
- ReceiverRoundTrip.RoundTrip: literal headers end in CRLF, sizes are written without leading zeros, and tags have no
  tabs or carriage returns inside, for which there is ReceiverRoundTrip.BlanksInTag.
- Unicode case mapping in glob patterns, which is a parameter, and the recorded match position, which is not used.
- The decoder's choice between raw and encoded mailbox names by protocol version.
- Message import, and the walk over a map of children
  that names the existing mailboxes inside the import command; the table it builds is a parameter here.
- MailboxTree.BuildMailboxTree: ids are distinct, as on a server.
- BackupRoundTrip.BackupThenRestore: bitmaps are the last section of a file, as in every dump the server writes.
- The decoding of dumped keys and numbers, and the panics on malformed ones.
- The store backends beyond how a batch sets its context and which keys carry it; a bit of document 2^32-1 makes one of
  them choose a free document.
- RateLimiter.Limiter.IsAllowed: calls are sequential and the 64-bit counter does not wrap.
- ConcurrencyLimiter.CounterBound: steps are atomic and totally ordered; weaker memory orderings are not modelled.
- LookupCache.CachedAnswerIsLatest: lookups are sequential.
- LookupCache.AskedExactly: names that are evicted are asked for again sooner.
- Snowflake.DistinctExactly: the milliseconds since the epoch fit in 43 bits.
- JMAP, SMTP, Sieve, full-text search, directory backends and the remaining IMAP parsers: each would add many members
  and no harder property.
