# llama.cpp: verified models of its text, tensor and file algorithms

This project models self-contained algorithms of llama.cpp in Dafny and proves what they promise, for all inputs.
`dafny verify dfyconfig.toml` checks everything. Each module is one file of the same name.

| part | modules | main results |
|---|---|---|
| Tool calls as they stream in | `JsonText`, `JsonReading`, `Quotes`, `QuotePieces`, `QuoteScan`, `QuoteStreaming`, `PythonValues`, `ToolCalls`, `ToolMapper`, `CallText`, `CallChunks`, `ToolGrowth`, `ToolStream` | rewriting Python to JSON keeps meaning and nesting, and leaves JSON alone; a complete call is the JSON object of its arguments, and exactly when; which cuts keep printed text a prefix; exactly when the diffs of a growing reply rebuild it |
| MiniMax-M3 printer and message diffs | `Messages`, `MiniMax`, `MiniMaxTrees`, `MessageDiffs`, `MiniMaxStream` | complete trees print the JSON text of their value, open ones all of it but what closes it, growing trees growing text; diffs rebuild a message exactly when it grew; both together: no diff of a growing stream ever fails |
| Marker-aligned diff | `DiffSplit`, `DiffMarkers` | the split rebuilds both inputs, and exactly when; which cuts fall inside markers, and exactly when |
| Low-rank tensor pairs | `Tensors`, `Lora`, `LoraReshape`, `LoraOps`, `LoraSlices`, `LoraIndices`, `LoraEllipsis`, `LoraStacks`, `LoraJoins`, `LoraRuns`, `LoraMeanings` | every run of operations commutes with multiplying the factors out, unless it reshapes, indexes or joins in ways that are characterised exactly; what each operation means, element by element |
| String algorithms | `Glob`, `GlobSpelling`, `Lcs`, `Escapes`, `Splitting`, `Wrapping`, `Csv` | glob search against a declarative meaning, and patterns read back from their spelling; longest common substring; in-place unescaping; split, join and replace; greedy wrapping is optimal; rows are read back |
| Line editor | `Utf8`, `LineEditor` | the byte buffer with two cursors refines an editor over code points, for every session |
| Codecs | `Octets`, `Base64`, `Legacy`, `LegacyReader`, `LegacyFiles`, `LegacyTables` | round trips in both directions; decoding in place; which files are those of legacy models, and on which reading never ends |

Loops and objects of the source are methods and classes here, each proved against a function that says what it
computes; the theorems are lemmas about those functions. Code made of expressions (`convert_lora_to_gguf.py`, the
MiniMax-M3 printer, `string_diff`) is functions. `Wrappers` holds the optional values and the results they share.

## How the source is read

- Texts are sequences of characters where the code only compares and copies them, and sequences of bytes where it
  works on bytes (line editor, escapes, base64, legacy files).
- `dump()` of a JSON string is escaping character by character (section 7 of RFC 8259). The syntax tree is a datatype,
  and `sanitized_text` is one of its fields.
- Tensors hold exact reals.
- What the terminal reports as the width of a character, what the locale calls white space, whether plain characters
  are signed, and the wildcard limit are parameters.
- The tensors of a legacy file are read at whole-number offsets. A negative one counts from the end of the file, as it
  does in a Python slice, and the next one is the 64-bit sum of the offset and the computed length.

## What turned out

- The split of `calculate_diff_split` does not always rebuild its inputs. `DiffSplit.LosesText` is the exact condition,
  `DiffSplit.RepeatedMarkerLost` a short input.
- The same function is meant to keep markers whole, but a text that ends like another one may end inside a marker of it:
  `<x>bc` against `y>bc` is cut between `<x` and `>bc` (`DiffMarkers.OverrunCutsMarker`). `DiffMarkers.CutsExactly` says
  where cuts fall: the first one never inside a marker, the second one under `DiffMarkers.Overruns` and only then; with an
  opening character that nothing closes at the end of the longer text, both can happen.
- A string argument whose later chunk is empty gets a stray quote (`CallChunks.CompleteCallExactly`,
  `CallChunks.StrayQuote`).
- While a tagged call streams in, its shown arguments are taken back at exactly two kinds of cut: a value in Python's
  spelling cut inside a word that only starts like a literal or between a backslash and a single quote, and an empty
  chunk of an open string that gets a text later (`ToolGrowth.TakesBack`, `ToolStream.WordUndone`).
- `common_chat_peg_mapper::from_ast` flushes pending calls that have a name, and closing a call publishes one; no
  reachable state has such a call, because naming a call publishes it at once (`ToolCalls.Step`, `ToolCalls.FlushIdle`).
- `trim` removes at most one leading white-space character; its name promises more. The model follows the code.
- Indexing a pair of more than two axes with a tuple, where the source asks whether this is correct, is carried out on
  slices exactly under `LoraIndices.KeepsAll`, and is then correct. With an ellipsis it is correct exactly under
  `LoraEllipsis.SlicesAlike`, because an ellipsis is made as many whole slices as the tuple has other entries, not as
  many as the tensor needs. Numbers for both of the last two axes are sometimes carried out, and never correctly
  (`LoraEllipsis.CollapseHappens`, `LoraEllipsis.CollapsedFails`).
- Joining pairs of more than two axes to factors that fit is correct exactly under `LoraJoins.Aligned`; `LoraJoins.JoinedWrong` is a joining
  that is carried out with the wrong entries of A. A pair of rank zero takes any number of rows when it is reshaped
  (`LoraReshape.Resizes`).
- The byte length of a legacy tensor wraps in 64 bits, and for absurd dimensions it comes out wrong or negative
  (`Legacy.LengthExact`, `Legacy.LengthCanBeNegative`). Reading then goes back, and on some files it never ends
  (`Legacy.StuckFile`); `Legacy.ForwardFile` is the check that rules this out.
- `parse_csv_row` also takes quotes inside an unquoted field; `Csv.BareExactly` says which fields may stand bare.
- A value above 0x10FFFF from the keyboard stores a width but no byte, and on an empty line makes the first assertion of
  the next round fail (`LineEditor.Editor.InsertChar`).
- `string_split` with an empty delimiter never moves on (`Splitting.EmptyDelimiterStalls`).

## Model

| member | source | states |
|---|---|---|
| `JsonText.EscapeInnerConcat` | llama.cpp/common/chat-peg-parser.cpp:71-77 | the inner text of an escaped string is a concatenation over its parts, so a string may be escaped chunk by chunk |
| `JsonText.BraceDepth` | llama.cpp/common/chat-peg-parser.cpp:42-68 | the returned count is the depth at which the scan of the text ends (three flags, folded over the characters) |
| `JsonText.ScanConcat` | llama.cpp/common/chat-peg-parser.cpp:42-68 | scanning two texts in a row is scanning their concatenation |
| `JsonText.ScanShift` | llama.cpp/common/chat-peg-parser.cpp:42-68 | starting the scan deeper shifts the result by exactly that much and changes no flag |
| `JsonText.DumpBalanced` | llama.cpp/common/chat-peg-parser.cpp:70-77 | an escaped string with its quotes leaves the brace scan where it started, whatever it holds |
| `JsonReading.DumpReadsBack` | llama.cpp/common/chat-peg-parser.cpp:70-77 | any text, printed as a JSON string, is read back by a reader of section 7 of RFC 8259, which stops behind the closing quote |
| `JsonReading.EscapedReadsBack` | llama.cpp/common/chat-peg-parser.cpp:70-77 | the same for the inner text, in front of anything |
| `JsonReading.PlainDepth` | llama.cpp/common/chat-peg-parser.cpp:42-68 | outside strings the depth rises by one for each `{` and falls by one for each `}` |
| `JsonReading.DepthAroundString` | llama.cpp/common/chat-peg-parser.cpp:42-68 | the braces inside a printed string count for nothing |
| `Quotes.NormalizeQuotesToJson` | llama.cpp/common/chat-peg-parser.cpp:84-186 | the character loop with its look-behind and look-ahead computes the token-by-token rewriting `Rewrite` |
| `Quotes.MatchLiteral` | llama.cpp/common/chat-peg-parser.cpp:159-176 | a word matches exactly if it is a prefix of True, False or None, and becomes the equally long prefix of the JSON literal |
| `QuotePieces.PiecesRewritten` | llama.cpp/common/chat-peg-parser.cpp:84-186 | any list of pieces (bare words, other characters, strings in either quote with their escapes, a string cut off): each becomes what the characters say, a pair of backslash and letter included |
| `QuotePieces.EveryText` | llama.cpp/common/chat-peg-parser.cpp:84-186 | every text is such a list of pieces |
| `QuotePieces.JsonStays` | llama.cpp/common/chat-peg-parser.cpp:84-186 | JSON text is left as it is: double-quoted strings with any escapes, and words that start neither like True, False nor None |
| `QuoteScan.SameNesting` | llama.cpp/common/chat-peg-parser.cpp:42-68 | for every text: brace scan of the rewritten text = quote-aware reading of the original (depth, inside a string, after a backslash) |
| `QuoteScan.ScanFollowsReader` | llama.cpp/common/chat-peg-parser.cpp:84-186 | the same from any state of the reader, for any rest of the text |
| `QuoteStreaming.PrintedTextStays` | llama.cpp/common/chat-peg-parser.cpp:157-179 | for every text and cut: the rewriting of the front is a prefix of the rewriting of the whole if and only if the cut is none of the two bad ones |
| `QuoteStreaming.CutsThatHurt` | llama.cpp/common/chat-peg-parser.cpp:100-106 | witnesses of both bad cuts: between a backslash and a single quote, and inside a word that only starts like a literal |
| `PythonValues.PythonBecomesJson` | llama.cpp/common/chat-peg-parser.cpp:79-186 | for every nested value, rewriting its Python rendering gives its JSON rendering |
| `PythonValues.BecomesValue` | llama.cpp/common/chat-peg-parser.cpp:84-186 | the same inside any text that does not continue a bare word, ending outside strings |
| `PythonValues.BecomesText` | llama.cpp/common/chat-peg-parser.cpp:100-156 | a printed string, in either quote, becomes the JSON string of the same characters |
| `PythonValues.RenderedBalanced` | llama.cpp/common/chat-peg-parser.cpp:42-68 | the JSON rendering of any value closes its strings and balances its braces |
| `ToolCalls.TrimTrailingSpace` | llama.cpp/common/chat-peg-parser.cpp:12-22 | the result is a prefix of the text, does not end in white space, and all that was cut off is white space |
| `ToolCalls.TrimSpelled` | llama.cpp/common/chat-peg-parser.cpp:12-38 | around a text that neither starts nor ends in white space, all white space behind it and one character before it are trimmed |
| `ToolCalls.IdSpelled` | llama.cpp/common/chat-peg-parser.cpp:350-357 | an identifier loses the white space behind it and one pair of quotes, and nothing else |
| `ToolCalls.Step` | llama.cpp/common/chat-peg-parser.cpp:315-457 | one node of any tag keeps the mapper sound: the pointer leads to the pending call or to the last result, and a pending call never has a name |
| `ToolCalls.RunConcat` | llama.cpp/common/chat-peg-parser.cpp:284-286 | a run over two lists of nodes is one run after the other |
| `ToolCalls.TextsCollected` | llama.cpp/common/chat-peg-parser.cpp:320-328 | content and reasoning are the texts of the nodes with those tags, in order |
| `ToolCalls.TextsConcat` | llama.cpp/common/chat-peg-parser.cpp:320-328 | the tagged texts of two lists of nodes follow each other |
| `ToolCalls.TextsOfOne` | llama.cpp/common/chat-peg-parser.cpp:320-328 | and a node alone has its text if it has the tag, else none |
| `ToolCalls.PushChildren` | llama.cpp/common/peg-parser.cpp:190-203 | pushing the children of a node in reverse keeps "what is still to be visited", parents first, and its size |
| `ToolMapper.Mapper.constructor` | llama.cpp/common/chat-peg-parser.cpp:315-348 | a new mapper is in the empty state |
| `ToolMapper.Mapper.ReadTarget` | llama.cpp/common/chat-peg-parser.cpp:276-278 | reads the arguments of the named call, else the buffer |
| `ToolMapper.Mapper.WriteTarget` | llama.cpp/common/chat-peg-parser.cpp:276-278 | writes there and nowhere else |
| `ToolMapper.Mapper.OnName` | llama.cpp/common/chat-peg-parser.cpp:358-373 | the whole new state when a name is read: buffered arguments move into the call, which is published |
| `ToolMapper.Mapper.OnArgName` | llama.cpp/common/chat-peg-parser.cpp:388-401 | the whole new state: comma, key and colon appended to an object that is opened if need be |
| `ToolMapper.Mapper.OnValue` | llama.cpp/common/chat-peg-parser.cpp:403-424 | the whole new state for string chunks and for values |
| `ToolMapper.Mapper.OnClose` | llama.cpp/common/chat-peg-parser.cpp:433-456 | the whole new state: quote and braces closed, the call kept or dropped |
| `ToolMapper.Mapper.CloseBraces` | llama.cpp/common/chat-peg-parser.cpp:444-447 | appends as many closing braces as are open |
| `ToolMapper.Mapper.Map` | llama.cpp/common/chat-peg-parser.cpp:315-457 | one node changes all the fields as `Step` says |
| `ToolMapper.Mapper.Visit` | llama.cpp/common/peg-parser.cpp:190-203 | visiting a tree with a stack runs over its nodes, each parent before its children, and terminates |
| `ToolMapper.Mapper.Flush` | llama.cpp/common/chat-peg-parser.cpp:287-298 | what the flush does in any state |
| `ToolCalls.FlushIdle` | llama.cpp/common/chat-peg-parser.cpp:287-298 | in every sound state, and so in every reachable one, the flush changes nothing |
| `ToolMapper.Mapper.FromAst` | llama.cpp/common/chat-peg-parser.cpp:284-313 | a whole parse result: the fields are those of the run over all nodes; content is the texts of its nodes, and so is reasoning, unless all its characters are blanks, line ends or tabs |
| `ToolStream.TextsReported` | llama.cpp/common/chat-peg-parser.cpp:300-328 | for every parse result: the reported reasoning is the texts of its nodes, or nothing if every character of them is a blank, a tab or a line end; content is always the texts of its nodes |
| `CallText.CompleteCall` | llama.cpp/common/chat-peg-parser.cpp:315-457 | every complete call, from every state: exactly the JSON object of its arguments, with its name and id, wherever the name comes, with or without a node around all arguments, and balanced |
| `CallText.CallRun` | llama.cpp/common/chat-peg-parser.cpp:315-457 | any call whose values follow a name: closed, it is its draft with open strings and braces closed; a call that was never named leaves nothing |
| `CallText.ReadyCall` | llama.cpp/common/chat-peg-parser.cpp:375-382 | a complete call whose arguments come as one JSON object: that object without trailing white space, with the braces that it lacks |
| `CallText.InsideRun` | llama.cpp/common/chat-peg-parser.cpp:315-431 | between opening and closing, buffer or published arguments hold the draft assembled from the argument events alone, whatever other nodes come |
| `CallText.ArgsAssemble` | llama.cpp/common/chat-peg-parser.cpp:388-431 | the draft of any list of arguments is their JSON members in order |
| `CallText.MembersBalanced` | llama.cpp/common/chat-peg-parser.cpp:442-447 | those members close their strings and balance their braces |
| `CallChunks.CompleteCallExactly` | llama.cpp/common/chat-peg-parser.cpp:403-424 | a complete call comes out as that object if and only if no string has an empty chunk after its first |
| `CallChunks.ArgsCount` | llama.cpp/common/chat-peg-parser.cpp:407-410 | every empty later chunk leaves exactly one quote too many |
| `CallChunks.StrayQuote` | llama.cpp/common/chat-peg-parser.cpp:407-410 | witness, from every state: the text "a" in the chunks "a" and "" comes out with a quote too many |
| `QuoteStreaming.PrintedTextIsNoLonger` | llama.cpp/common/chat-peg-parser.cpp:84-186 | whatever the cut, the rewriting of the front is no longer than that of the whole |
| `ToolGrowth.StepGrows` | llama.cpp/common/chat-peg-parser.cpp:315-457 | one node keeps or extends everything shown if and only if it renames nothing, takes back no id and replaces no arguments |
| `ToolGrowth.CutExactly` | llama.cpp/common/chat-peg-parser.cpp:315-457 | more text in the last node, and any well-formed nodes behind it: everything shown is kept or extended if and only if nothing is taken back at the cut (`TakesBack`) |
| `ToolGrowth.StaysTakenBack` | llama.cpp/common/chat-peg-parser.cpp:315-457 | arguments that were taken back are not repaired by anything appended later |
| `ToolStream.ForestHeard` | llama.cpp/common/peg-parser.cpp:190-203 | when a parse result grows on its right edge, so does the list of nodes the mapper reacts to |
| `ToolStream.HeardRun` | llama.cpp/common/chat-peg-parser.cpp:315-457 | all other nodes may be left out |
| `ToolStream.ParseGrowsExactly` | llama.cpp/common/chat-peg-parser.cpp:284-313 | for every two parse results of which one grows into the other: the diffs exist and rebuild the message if and only if nothing is taken back |
| `ToolStream.StreamRebuilt` | llama.cpp/common/chat-peg-parser.cpp:284-313 | for every run of growing parse results in which nothing is taken back: no diff fails, and applying all of them gives the final message |
| `ToolStream.WordUndone` | llama.cpp/common/chat-peg-parser.cpp:157-179 | witness: the value Tx, cut after the T, is taken back |
| `DiffSplit.SegmentizeMarkers` | llama.cpp/common/chat-auto-parser-helpers.cpp:266-296 | the loop with its border and marker flag computes the segments `Segments` |
| `DiffSplit.SegmentsGlue` | llama.cpp/common/chat-auto-parser-helpers.cpp:266-296 | the segments of every text concatenate to the text, and none is empty |
| `DiffSplit.AlignEnds` | llama.cpp/common/chat-auto-parser-helpers.cpp:99-136 | the loop computes the alignment `Aligned`, and has gathered as prefix and as suffix the same text of both inputs |
| `DiffSplit.GatheredKept` | llama.cpp/common/chat-auto-parser-helpers.cpp:111-136 | prefix, remaining segments and suffix together are the text of each input |
| `DiffSplit.AlignGathers` | llama.cpp/common/chat-auto-parser-helpers.cpp:111-136 | for every two lists of segments, what the alignment takes off either end is the same text on both sides |
| `DiffSplit.MatchLast` | llama.cpp/common/chat-auto-parser-helpers.cpp:138-162 | the extra comparison after the loop changes iterators, flags and gathered text as `LastMatch` says |
| `DiffSplit.LastMatchKeeps` | llama.cpp/common/chat-auto-parser-helpers.cpp:138-162 | that comparison keeps both texts unless a segment is matched twice; then one side comes out too long |
| `DiffSplit.TrimRemainders` | llama.cpp/common/chat-auto-parser-helpers.cpp:166-180 | moves common text out of the remainders as `Trimmed` says |
| `DiffSplit.TrimmedKeeps` | llama.cpp/common/chat-auto-parser-helpers.cpp:166-180 | trimming leaves what prefix, side and suffix spell unchanged, and does nothing if a side is empty |
| `DiffSplit.TrimmedEndsDiffer` | llama.cpp/common/chat-auto-parser-helpers.cpp:172-180 | what trimming leaves of two texts has no first and no last character in common |
| `DiffSplit.SuffixGoesFirst` | llama.cpp/common/chat-auto-parser-helpers.cpp:172-175 | the suffix takes every common suffix of the remainders, before the prefix takes anything |
| `DiffSplit.CommonPrefixLen` | llama.cpp/common/chat-auto-parser-helpers.cpp:66-73 | the longest common prefix |
| `DiffSplit.CommonSuffixLen` | llama.cpp/common/chat-auto-parser-helpers.cpp:75-82 | the longest common suffix |
| `DiffSplit.Correct` | llama.cpp/common/chat-auto-parser-helpers.cpp:182-201 | the two final corrections, as `Corrected` says |
| `DiffSplit.CorrectedKeeps` | llama.cpp/common/chat-auto-parser-helpers.cpp:182-201 | both corrections keep a split that rebuilds its inputs, and the second restores one when left is a prefix of right |
| `DiffSplit.CalculateDiffSplit` | llama.cpp/common/chat-auto-parser-helpers.cpp:84-204 | the whole computation is `SplitOf` |
| `DiffSplit.SplitRebuilds` | llama.cpp/common/chat-auto-parser-helpers.cpp:84-204 | for every pair of texts: prefix+left+suffix and prefix+right+suffix rebuild them if and only if `LosesText` does not hold |
| `DiffSplit.IdenticalTexts` | llama.cpp/common/chat-auto-parser-helpers.cpp:182-187 | splitting any text against itself gives it as the prefix and leaves nothing |
| `DiffSplit.DoneAgainst` | llama.cpp/common/chat-auto-parser-helpers.cpp:119-132 | when a side is done in the loop, its last segment equals the one just behind the end of the other side |
| `DiffSplit.DistinctSegmentsKept` | llama.cpp/common/chat-auto-parser-helpers.cpp:84-204 | no text is lost when neither input repeats a segment |
| `DiffSplit.RepeatedMarkerLost` | llama.cpp/common/chat-auto-parser-helpers.cpp:158-162 | witness: the split of `<a><b>` against `<a><b><b>` does not rebuild them |
| `DiffMarkers.InsideIs` | llama.cpp/common/chat-auto-parser-helpers.cpp:266-296 | markers, told by the characters alone (from `<` to the first `>` or from `[` to the first `]`), are the marker segments: a cut is inside one if and only if it is inside the other |
| `DiffMarkers.CutsExactly` | llama.cpp/common/chat-auto-parser-helpers.cpp:84-204 | unless a correction replaced the split: the first cut is never inside a marker of either text, the second only if the common suffix overruns (`Overruns`); and it then is, unless the longer text there opens what nothing closes (`LongerOpens`) |
| `DiffMarkers.SplitIsTight` | llama.cpp/common/chat-auto-parser-helpers.cpp:166-180 | what is left of both texts starts with the same character only where a marker may begin, and ends with the same one only where a marker may end |
| `DiffMarkers.AlignGoesOn` | llama.cpp/common/chat-auto-parser-helpers.cpp:111-136 | the loop stops only when a side has one segment to go or neither the first nor the last segments are the same |
| `DiffMarkers.RestsDiffer` | llama.cpp/common/chat-auto-parser-helpers.cpp:111-162 | segments that are left of both sides start and end with different ones, unless they are one text each |
| `DiffMarkers.OverrunCutsMarker` | llama.cpp/common/chat-auto-parser-helpers.cpp:166-180 | witness: `<x>bc` against `y>bc` is cut inside the marker |
| `DiffMarkers.OverrunOfWholeMarker` | llama.cpp/common/chat-auto-parser-helpers.cpp:166-180 | witness: with an unclosed bracket, `<x>bc` against `[<x>bc` overruns the whole marker and cuts none |
| `DiffMarkers.OverrunUnclosed` | llama.cpp/common/chat-auto-parser-helpers.cpp:166-180 | witness: with an unclosed bracket, `<x>bc` against `[x>bc` is cut inside the marker |
| `DiffMarkers.MarkersStayWhole` | llama.cpp/common/chat-auto-parser-helpers.cpp:166-175 | `<a>` against `<b>` is left as it is |
| `Lora.ProductAt` | llama.cpp/convert_lora_to_gguf.py:41-57 | the tensor a pair stands for: each element is the dot product of a row of B and a column of A |
| `Lora.NarrowProduct` | llama.cpp/convert_lora_to_gguf.py:193-209 | part of any axis of the pair is that part of the product |
| `Lora.PermuteProduct` | llama.cpp/convert_lora_to_gguf.py:171-177 | permuting with the last axis in place permutes the product, when the leading axes of A have length one |
| `Lora.TransposeProduct` | llama.cpp/convert_lora_to_gguf.py:178-179 | transposing and swapping the factors of a matrix transposes the product |
| `LoraReshape.ReshapeProduct` | llama.cpp/convert_lora_to_gguf.py:139-163 | reshaping both factors reshapes the product, unless the rank is zero and the number of elements changes (`Resizes`) |
| `LoraReshape.ReshapeSound` | llama.cpp/convert_lora_to_gguf.py:155-163 | the reshaped factors fit together and have the requested shape |
| `LoraReshape.ExpandProduct` | llama.cpp/convert_lora_to_gguf.py:214-219 | repeating B along axes of length one repeats the product |
| `LoraReshape.TimesProduct` | llama.cpp/convert_lora_to_gguf.py:214-219 | scaling B by a row or scalar factor, with either repeated where need be, scales the product |
| `LoraOps.JoinProduct` | llama.cpp/convert_lora_to_gguf.py:256-260 | joining the rows of B, with one A, joins the rows of the products |
| `LoraOps.JoinAllProduct` | llama.cpp/convert_lora_to_gguf.py:246-260 | the same for any number of matrices |
| `LoraOps.SplitProduct` | llama.cpp/convert_lora_to_gguf.py:193-209 | splitting any axis of the pair splits the product |
| `LoraOps.SplitThenJoin` | llama.cpp/convert_lora_to_gguf.py:193-260 | splitting the rows of a matrix and joining the parts gives the pair back |
| `LoraSlices.SliceRowsProduct` | llama.cpp/convert_lora_to_gguf.py:75-76 | slicing a matrix, with any step, slices the rows of its product |
| `LoraSlices.SliceLeadingProduct` | llama.cpp/convert_lora_to_gguf.py:72-74 | slicing the first of more than two axes, with any step, is that slice of the product if and only if it does not miss a repeated A |
| `LoraIndices.SlicesProduct` | llama.cpp/convert_lora_to_gguf.py:95-112 | a slice for each axis is carried out if and only if every slice of a leading axis that A does not repeat keeps that axis whole; then it is those slices of the product |
| `LoraIndices.IndexBothProduct` | llama.cpp/convert_lora_to_gguf.py:98-112 | a tuple that ends in two slices, with numbers and slices before, does to the product what it does to the pair |
| `LoraIndices.ShapesFound` | llama.cpp/convert_lora_to_gguf.py:98-112 | the indexed factors have the shapes of a pair whose product has the shape of the indexed product |
| `LoraEllipsis.IndexExactly` | llama.cpp/convert_lora_to_gguf.py:77-112 | any tuple that a pair carries out: it does to all pairs of these shapes what it does to their products if and only if what the code makes of it takes each element from where the tuple means |
| `LoraEllipsis.EllipsisExactly` | llama.cpp/convert_lora_to_gguf.py:81-96 | slices with one ellipsis among them, any number of axes: the same if and only if on every axis the slice that falls there and the slice that is meant take the same entries, or the outcome is empty or the rank zero, and equally many |
| `LoraEllipsis.IndexProduct` | llama.cpp/convert_lora_to_gguf.py:77-112 | tuples that always commute: no ellipsis, or one at the end, in front of whole slices, or where the number of axes is twice that of the other entries, and no numbers for both of the last two axes |
| `LoraEllipsis.EllipsisMisses` | llama.cpp/convert_lora_to_gguf.py:81-96 | with three axes and a slice behind an ellipsis: if and only if the slice is whole on the second axis and on the third |
| `LoraEllipsis.CollapsedFails` | llama.cpp/convert_lora_to_gguf.py:98-112 | numbers for both of the last two axes: whenever this is carried out, the outcome has an axis too many |
| `LoraEllipsis.CollapseHappens` | llama.cpp/convert_lora_to_gguf.py:98-112 | with three axes, numbers for the last two are carried out if and only if the first axis of A is as long as the rank; the outcome then never is the indexed product |
| `LoraEllipsis.EntryProduct` | llama.cpp/convert_lora_to_gguf.py:67-71 | a number alone takes that entry of the product, along the first of more than two axes |
| `LoraStacks.StackProduct` | llama.cpp/convert_lora_to_gguf.py:237-245 | stacking both factors stacks the products |
| `LoraStacks.JoinBatchesProduct` | llama.cpp/convert_lora_to_gguf.py:246-255 | joining both factors along the first of more than two axes joins the products, when A is not repeated along it |
| `LoraStacks.JoinedFit` | llama.cpp/convert_lora_to_gguf.py:251-255 | the joined factors fit together if and only if the first axes of A add up to one or to those of B; where none is empty, if and only if no A was repeated |
| `LoraStacks.JoinedByChance` | llama.cpp/convert_lora_to_gguf.py:251-255 | the factors of two pairs fit although their entries do not stay aligned if and only if both A have one entry and the two B none and two |
| `LoraJoins.JoinAllFits` | llama.cpp/convert_lora_to_gguf.py:246-255 | the same for any number of pairs |
| `LoraJoins.JoinAllBatchesProduct` | llama.cpp/convert_lora_to_gguf.py:246-255 | any number of pairs, where no A is repeated or the first axes of A add up to one: the products are joined |
| `LoraJoins.JoinExactly` | llama.cpp/convert_lora_to_gguf.py:246-255 | joined factors that fit stand for the joined products, for all pairs of these shapes, if and only if no A is repeated or the first axes of A add up to one, or there is nothing to tell apart |
| `LoraJoins.JoinedWrong` | llama.cpp/convert_lora_to_gguf.py:246-255 | witness: a pair without entries whose A holds x, joined with two entries of y; the first comes out as x |
| `LoraRuns.OpCommutes` | llama.cpp/convert_lora_to_gguf.py:59-262 | each operation that the pair carries out is the same operation on the product, unless it is one of three that mislead (`Misleads`) |
| `LoraRuns.RunCommutes` | llama.cpp/convert_lora_to_gguf.py:59-262 | so is every run of operations of which none misleads |
| `LoraMeanings.PartOfEvery` | llama.cpp/convert_lora_to_gguf.py:193-209 | splitting into parts of n: part k exists if and only if k*n entries are fewer than there are (or both are none), has n entries or what is left, and starts with entry k*n |
| `LoraMeanings.PartOfSizes` | llama.cpp/convert_lora_to_gguf.py:193-209 | splitting by sizes: they make up the axis, and each part starts behind those before it |
| `LoraMeanings.RowsMean` | llama.cpp/convert_lora_to_gguf.py:72-76 | a slice takes, in order, the entries not before its lower bound, before its upper one, and on its steps, where bounds below zero count from the end |
| `LoraMeanings.SliceMeans` | llama.cpp/convert_lora_to_gguf.py:72-76 | slicing takes those entries of the first axis, or is refused for a step that is not positive |
| `LoraMeanings.IndexMeans` | llama.cpp/convert_lora_to_gguf.py:95-112 | a tuple of slices and numbers, element by element: numbers pin their axis and drop it, slices take their entries, other axes stay |
| `LoraMeanings.PermuteMeans` | llama.cpp/convert_lora_to_gguf.py:168-182 | axis i of the outcome is the axis that entry i names, each must be named once, and element by element |
| `LoraMeanings.ReshapeMeans` | llama.cpp/convert_lora_to_gguf.py:139-163 | the stored elements stay as they are; -1 stands for the length that makes their number right |
| `LoraMeanings.StoredInOrder` | llama.cpp/convert_lora_to_gguf.py:139-163 | the stored order is that of reading rows one after the other |
| `LoraMeanings.JoinedAt` | llama.cpp/convert_lora_to_gguf.py:246-260 | every element of the joined tensors, by the tensor that it comes from |
| `LoraMeanings.StackMeans` | llama.cpp/convert_lora_to_gguf.py:237-245 | entry k of the new axis is the k-th tensor; shapes must agree |
| `LoraMeanings.ScaleMeans` | llama.cpp/convert_lora_to_gguf.py:211-219 | each element times the factor in line with it, axes lined up from the last |
| `LoraMeanings.ScalesExactly` | llama.cpp/convert_lora_to_gguf.py:211-219 | a factor is taken if and only if each of its axes is the tensor's or one of the two has length one |
| `LoraMeanings.PartAccepted` | llama.cpp/convert_lora_to_gguf.py:193-209 | the pair is split whenever its product is |
| `LoraMeanings.SliceAccepted` | llama.cpp/convert_lora_to_gguf.py:72-76 | the first axis is sliced whenever that of the product is, unless a repeated A loses its one entry |
| `LoraMeanings.PermuteAccepted` | llama.cpp/convert_lora_to_gguf.py:168-182 | a permutation of the product is refused for the pair unless the last axis stays and A has no leading axes, or a matrix is transposed |
| `LoraMeanings.ReshapeAccepted` | llama.cpp/convert_lora_to_gguf.py:139-163 | with nothing empty, reshaping is refused besides unless the last axis stays and A has no leading axes |
| `LoraMeanings.ScaleAccepted` | llama.cpp/convert_lora_to_gguf.py:211-219 | a factor of the product is refused for the pair unless it is the same for a whole row |
| `Glob.GlobMatch` | llama.cpp/common/common.cpp:763-816 | the search says yes if and only if the pattern has fewer wildcards than the limit and the text can be cut into pieces that fit the tokens |
| `Glob.GlobMatchFrom` | llama.cpp/common/common.cpp:763-812 | the same from any place in the pattern and in the text at any depth; the search terminates |
| `Glob.GlobMatchStar` | llama.cpp/common/common.cpp:768-781 | a wildcard tries every place where it may stop, one level deeper |
| `Glob.GlobClassMatch` | llama.cpp/common/common.cpp:721-759 | a character is in a class by its ranges and single characters, with the leading `!`, `]` and `-` cases, whether characters are signed or not |
| `Glob.FindClassEnd` | llama.cpp/common/common.cpp:787-796 | where the class closes, or the end of the pattern |
| `Glob.MatchesUncons` | llama.cpp/common/common.cpp:763-812 | a text that matches starts with a piece that fits the first token, and the rest matches the other tokens |
| `GlobSpelling.ReadBack` | llama.cpp/common/common.cpp:721-812 | any list of tokens spelled as a pattern, with the side conditions of `Spellable`, is read back from it |
| `GlobSpelling.RangeMatches` | llama.cpp/common/common.cpp:721-759 | `[a-b]` matches exactly the single characters in the range, `[!a-b]` exactly those outside, for all a and b |
| `GlobSpelling.OddClasses` | llama.cpp/common/common.cpp:721-737 | `[]]` matches the bracket, `[!-]` all characters but the dash, and `[!]` every character |
| `GlobSpelling.WildcardsMatch` | llama.cpp/common/common.cpp:763-786 | `**` matches every text, `*` the texts without a slash, `?` every single character but a slash |
| `GlobSpelling.BracketAlone` | llama.cpp/common/common.cpp:787-805 | a bracket that nothing closes stands for itself |
| `Utf8.StepsOverPoint` | llama.cpp/common/console.cpp:433-449 | inside the encoding of any text, the two position functions step over exactly one code point |
| `Utf8.DecodePoint` | llama.cpp/common/console.cpp:366-410 | decoding at a code point of an encoded text gives that code point and its length |
| `Utf8.PointOfBytes` | llama.cpp/common/console.cpp:412-430 | the bits that the bytes of a code point carry make up its number, and it takes no more bytes than it needs |
| `Utf8.NextUtf8CharPos` | llama.cpp/common/console.cpp:442-449 | the loop past continuing bytes |
| `Utf8.PrevUtf8CharPos` | llama.cpp/common/console.cpp:433-440 | the loop back over continuing bytes |
| `Utf8.EncodeConcat` | llama.cpp/common/console.cpp:412-430 | the encoding of a text is a concatenation over its parts |
| `Utf8.HeadsOfEncoding` | llama.cpp/common/console.cpp:442-449 | the number of code points of an encoded text is the number of its bytes that continue nothing |
| `LineEditor.Editor.CursorsAgree` | llama.cpp/common/console.cpp:769-770 | in every state that shows a document the two assertions hold |
| `LineEditor.Editor.Left` | llama.cpp/common/console.cpp:836-844 | does what the plain editor does |
| `LineEditor.Editor.Right` | llama.cpp/common/console.cpp:845-853 | does what the plain editor does |
| `LineEditor.Editor.MoveToLineStart` | llama.cpp/common/console.cpp:530-538 | does what the plain editor does |
| `LineEditor.Editor.MoveToLineEnd` | llama.cpp/common/console.cpp:540-548 | does what the plain editor does |
| `LineEditor.Editor.DeleteAtCursor` | llama.cpp/common/console.cpp:457-483 | removes the code point at the cursor, its bytes and its width, and nothing else |
| `LineEditor.Editor.Backspace` | llama.cpp/common/console.cpp:930-958 | removes the code point before the cursor |
| `LineEditor.Editor.InsertChar` | llama.cpp/common/console.cpp:959-997 | inserts the code point; the buffer still shows a document if and only if the value is at most 0x10FFFF; beyond, the first assertion fails next if and only if both cursors were equal |
| `LineEditor.Editor.MoveWordLeft` | llama.cpp/common/console.cpp:582-618 | does what the plain editor does |
| `LineEditor.Editor.MoveWordRight` | llama.cpp/common/console.cpp:620-665 | does what the plain editor does |
| `LineEditor.Editor.SetLineContents` | llama.cpp/common/console.cpp:498-528 | for any bytes the two assertions hold afterwards; for an encoded text the buffer shows it with the cursor at the given byte |
| `LineEditor.Editor.Press` | llama.cpp/common/console.cpp:836-997 | each key does to the buffer what the plain editor does to the code points |
| `LineEditor.Editor.ReadLine` | llama.cpp/common/console.cpp:760-1003 | for every sequence of keys: the assertions hold before each, and the line is what the plain editor makes of them |
| `LineEditor.WordLeftStops` | llama.cpp/common/console.cpp:582-618 | the cursor goes to the last word start before it, or to the start of the line |
| `LineEditor.WordRightStops` | llama.cpp/common/console.cpp:620-665 | past white space at the cursor, the cursor goes to the next word start behind the word, or to the end |
| `LineEditor.KeysAtCursor` | llama.cpp/common/console.cpp:836-997 | inserting, deleting, and moving by one, between what stands before and behind the cursor |
| `LineEditor.KeysAtEnds` | llama.cpp/common/console.cpp:836-997 | what the keys do at the ends of the line |
| `MiniMax.CollectGrows` | llama.cpp/common/chat-peg-parser.cpp:1103-1115 | when a tree grows on its right edge, so does the list of collected entries |
| `MiniMax.FindGrows` | llama.cpp/common/peg-parser.cpp:139-153 | a complete node that was found at most three levels down is found again in the grown tree |
| `MiniMax.ValueGrows` | llama.cpp/common/chat-peg-parser.cpp:1117-1128 | the value of an entry stays, and grows with it |
| `MiniMax.ContainerGrows` | llama.cpp/common/chat-peg-parser.cpp:1142-1180 | the text of a growing object or array is only extended, entries that were still empty included |
| `MiniMax.ValueTextGrows` | llama.cpp/common/chat-peg-parser.cpp:1182-1203 | the same for any value |
| `MiniMax.ArgumentsOnlyExtended` | llama.cpp/common/chat-peg-parser.cpp:1132-1203 | for any nesting: the JSON text of a tree is a prefix of that of every tree it grows into |
| `MiniMaxTrees.PrintsValue` | llama.cpp/common/chat-peg-parser.cpp:1182-1203 | the printed text of the complete tree of any nested value is its JSON text |
| `MiniMaxTrees.PrintsCall` | llama.cpp/common/chat-peg-parser.cpp:1142-1180 | the arguments reported for a complete call are the JSON object of its arguments |
| `MiniMaxTrees.PrintsOpen` | llama.cpp/common/chat-peg-parser.cpp:1142-1203 | the text printed for any nested value of which the last text and all around it is still open lacks nothing but what closes it |
| `MiniMaxTrees.PrintsOpenCall` | llama.cpp/common/chat-peg-parser.cpp:1132-1203 | so does the text reported for the arguments of an open call |
| `MiniMaxTrees.NameDepth` | llama.cpp/common/peg-parser.cpp:139-153 | a name is found at most three levels down |
| `MiniMaxTrees.TextSpelled` | llama.cpp/common/chat-peg-parser.cpp:1142-1203 | the JSON text of an object with an array and an empty object in it, spelled |
| `MiniMaxStream.VisitAllGrows` | llama.cpp/common/chat-peg-parser.cpp:1205-1239 | messages of growing parse results grow, where reasoning and content show the sanitized text |
| `MiniMaxStream.StreamNeverFails` | llama.cpp/common/chat-peg-parser.cpp:1205-1239 | for every run of growing parse results: no diff fails, and applying all of them gives the final message |
| `MessageDiffs.ComputeDiffs` | llama.cpp/common/chat.cpp:243-309 | the vector built step by step is `Diffs`, errors included |
| `MessageDiffs.AppendNewCalls` | llama.cpp/common/chat.cpp:302-306 | the loop over calls that were not known before |
| `MessageDiffs.DiffsRebuild` | llama.cpp/common/chat.cpp:243-309 | one step: the diffs exist and take the old message to the new one if and only if the message grew |
| `MessageDiffs.StreamRebuilds` | llama.cpp/common/chat.cpp:243-309 | for every run of growing messages, applying all diffs in order gives the final message |
| `MessageDiffs.LastCallApplied` | llama.cpp/common/chat.cpp:276-301 | the diff of the last known call applied to it |
| `MessageDiffs.NewCallsApplied` | llama.cpp/common/chat.cpp:302-306 | the diffs of new calls append exactly those calls |
| `MessageDiffs.TextsApplied` | llama.cpp/common/chat.cpp:253-260 | the diffs of reasoning and content applied: right if and only if each text was extended or stayed |
| `MessageDiffs.ApplyConcat` | llama.cpp/tests/test-chat.cpp:1195-1220 | a client may apply diffs in batches |
| `MessageDiffs.OnlyNewCall` | llama.cpp/common/chat.cpp:243-309 | a message that is the same has no diffs; one call more is sent whole and alone |
| `MessageDiffs.OnlyNewText` | llama.cpp/common/chat.cpp:253-260 | text added to content or reasoning is sent alone |
| `MessageDiffs.OnlyNewArguments` | llama.cpp/common/chat.cpp:276-301 | arguments added to the last call are sent without its name and id |
| `MessageDiffs.NewNameOrId` | llama.cpp/common/chat.cpp:276-301 | a new name or id of the last call is sent with both, and with the added arguments |
| `MessageDiffs.RefusedExactly` | llama.cpp/common/chat.cpp:243-301 | diffs are refused if and only if a text diverges, a call is missing, or the last known call diverges |
| `Legacy.LengthExact` | llama.cpp/convert_llama_ggml_to_gguf.py:126-127 | the byte length computed in 64-bit arithmetic is the true one if and only if elements times block bytes is below 2^63 |
| `Legacy.LengthCanBeNegative` | llama.cpp/convert_llama_ggml_to_gguf.py:126-127 | witness: dimensions whose computed length is negative |
| `Legacy.AdvancesExactly` | llama.cpp/convert_llama_ggml_to_gguf.py:110-131 | reading goes on at least 12 bytes later if and only if the computed length takes back no more than dimensions, name and gap take up, and the sum fits in 64 bits |
| `Legacy.ForeverIs` | llama.cpp/convert_llama_ggml_to_gguf.py:188-193 | for every file: the loop never ends if and only if it comes back to an offset |
| `Legacy.StuckTensor` | llama.cpp/convert_llama_ggml_to_gguf.py:110-131 | wherever an unnamed tensor of three given dimensions, whose computed length is -24, stands in an unpadded file, the loop reads it for ever |
| `Legacy.StuckFile` | llama.cpp/convert_llama_ggml_to_gguf.py:180-200 | witness: a file of 56 bytes on which reading never ends |
| `Legacy.ForwardFileStops` | llama.cpp/convert_llama_ggml_to_gguf.py:180-200 | reading ends on every file in which no computed length is negative and no offset reaches 2^63 (`ForwardFile`) |
| `Legacy.PlacedExactly` | llama.cpp/convert_llama_ggml_to_gguf.py:188-193 | for every file that is read: the tensor data lie in order, 12 bytes apart and behind each other, if and only if the file is such |
| `Legacy.DataRanges` | llama.cpp/convert_llama_ggml_to_gguf.py:180-200 | for every such file that is read: data ranges in order, disjoint, all but the last inside the file, aligned in GGJT |
| `LegacyReader.Hyperparameters.Load` | llama.cpp/convert_llama_ggml_to_gguf.py:59-73 | fields, returned length and errors |
| `LegacyReader.Vocab.Load` | llama.cpp/convert_llama_ggml_to_gguf.py:84-98 | the items at the offset are appended, or the first error is returned |
| `LegacyReader.TensorReader.Load` | llama.cpp/convert_llama_ggml_to_gguf.py:110-131 | fields, returned distance in 64-bit arithmetic, and errors, from any offset |
| `LegacyReader.IndexesMore` | llama.cpp/convert_llama_ggml_to_gguf.py:192-193 | the name index keeps leading to the last tensor of each name |
| `LegacyReader.GGMLModel.ValidateHeader` | llama.cpp/convert_llama_ggml_to_gguf.py:145-166 | format, version, returned length and errors |
| `LegacyReader.GGMLModel.ValidateConversion` | llama.cpp/convert_llama_ggml_to_gguf.py:168-178 | exactly the eligible combinations of format, version and file type |
| `LegacyReader.GGMLModel.LoadFront` | llama.cpp/convert_llama_ggml_to_gguf.py:181-187 | header, numbers and vocabulary, or the first error, and whether the combination may be converted |
| `LegacyReader.GGMLModel.LoadTensors` | llama.cpp/convert_llama_ggml_to_gguf.py:188-193 | the loop reads all tensors or returns the first error, whenever it ends at all, which `Legacy.ForeverIs` says exactly |
| `LegacyReader.GGMLModel.SetFeedForward` | llama.cpp/convert_llama_ggml_to_gguf.py:53-57 | the second dimension of the last tensor of that name, or the error |
| `LegacyReader.GGMLModel.Load` | llama.cpp/convert_llama_ggml_to_gguf.py:180-200 | whenever reading ends: the whole new state and the returned offset, or the error, are those of `Read` |
| `LegacyFiles.ModelReadBack` | llama.cpp/convert_llama_ggml_to_gguf.py:180-200 | reading the file of any well-formed model gives back that model and stops at the end of the file, whatever the padding holds |
| `LegacyFiles.FileWasWritten` | llama.cpp/convert_llama_ggml_to_gguf.py:180-200 | every file that is read to its end, and in which no computed length is negative and no offset reaches 2^63, is the file of the well-formed model read from it |
| `LegacyFiles.WrittenExactly` | llama.cpp/convert_llama_ggml_to_gguf.py:180-200 | a file below 2^63 bytes is that of some well-formed model if and only if it is read to its end and is such |
| `LegacyFiles.TensorReadBack` | llama.cpp/convert_llama_ggml_to_gguf.py:110-131 | one tensor, with its data |
| `LegacyFiles.ItemsReadBack` | llama.cpp/convert_llama_ggml_to_gguf.py:84-98 | the vocabulary |
| `LegacyFiles.HeaderReadBack` | llama.cpp/convert_llama_ggml_to_gguf.py:145-166 | the header of each format |
| `LegacyTables.FileLayout` | llama.cpp/convert_llama_ggml_to_gguf.py:59-200 | a file of the latest version with one item and one tensor, part by part, magic and numbers in their order; the data start at a multiple of 32 |
| `LegacyTables.HyperLayout` | llama.cpp/convert_llama_ggml_to_gguf.py:59-68 | the seven numbers in their order |
| `LegacyTables.MagicsSpelled` | llama.cpp/convert_llama_ggml_to_gguf.py:145-166 | the magic numbers as letters |
| `LegacyTables.EligibleTypes` | llama.cpp/convert_llama_ggml_to_gguf.py:168-178 | the file types that may be converted, listed for each version |
| `LegacyTables.FeedForwardIs` | llama.cpp/convert_llama_ggml_to_gguf.py:53-57 | the last tensor named layers.0.feed_forward.w1.weight gives its second dimension |
| `LegacyTables.NoFeedForwardTensor` | llama.cpp/convert_llama_ggml_to_gguf.py:53-57 | without one the file is refused |
| `LegacyTables.TypesKnown` | llama.cpp/gguf-py/gguf/constants.py:6942-6979 | the block sizes of all element types, by name, as sums of their parts |
| `LegacyTables.NoOtherTypes` | llama.cpp/gguf-py/gguf/constants.py:6942-6979 | no other element type is known |
| `Octets.LowByteFirst` | llama.cpp/convert_llama_ggml_to_gguf.py:59-68 | numbers are stored with their lowest byte first |
| `Base64.Encode` | llama.cpp/common/base64.hpp:80-144 | the loop writes the bits of the bytes in sixes, then the padding |
| `Base64.CharValue` | llama.cpp/common/base64.hpp:344-389 | the value of a character, and the alphabet that is fixed by the first special one |
| `Base64.Decode` | llama.cpp/common/base64.hpp:200-245 | the loop over bits yields the joined bytes of the part before the padding, or refuses, in every mode |
| `Base64.DecodeInPlace` | llama.cpp/common/base64.hpp:287-307 | decoding into the text itself gives the result of decoding into a fresh buffer and changes nothing behind it |
| `Base64.RoundTrip` | llama.cpp/common/base64.hpp:80-245 | decoding the text of any bytes gives them back, with the alphabet named or detected, moderate or loose |
| `Base64.ReencodesExactly` | llama.cpp/common/base64.hpp:80-245 | encoding what was decoded gives the text back if and only if the text is canonical |
| `Base64.AutoIsEither` | llama.cpp/common/base64.hpp:363-385 | automatic mode is the standard result if there is one, else the URL-safe one |
| `Base64.LooseTakesMore` | llama.cpp/common/base64.hpp:235-244 | loose decoding is moderate decoding of the part before the padding |
| `Base64.EncodedSize` | llama.cpp/common/base64.hpp:338-341 | the encoded length is `required_encode_size` |
| `Base64.DecodedSize` | llama.cpp/common/base64.hpp:325-328 | the decoded length is at most `max_decode_size` |
| `Base64.GroupsAgree` | llama.cpp/common/base64.hpp:80-144 | three bytes and the four values they become are the same number |
| `Base64.AlphabetsSpelled` | llama.cpp/common/base64.hpp:344-389 | both alphabets, spelled |
| `Base64.Examples` | llama.cpp/common/base64.hpp:80-144 | examples of section 10 of RFC 4648 |
| `Wrapping.BreakIntoLines` | llama.cpp/common/arg.cpp:133-158 | each line of the text is kept if it fits and wrapped otherwise, in order |
| `Wrapping.WrapWords` | llama.cpp/common/arg.cpp:140-152 | the words in order, on lines that fit or are one over-long word, none with room for the next word |
| `Wrapping.FewestLines` | llama.cpp/common/arg.cpp:140-152 | no other such arrangement of the words has fewer lines |
| `Wrapping.StaysAhead` | llama.cpp/common/arg.cpp:140-152 | a greedy arrangement of the last words of a text has no more lines than any arrangement of the text |
| `Wrapping.WordsKept` | llama.cpp/common/arg.cpp:138-153 | the words of the lines are, in order, the words of the line that was broken |
| `Wrapping.AllWordsKept` | llama.cpp/common/arg.cpp:133-158 | the same for a whole text |
| `Wrapping.WordsReadBack` | llama.cpp/common/arg.cpp:138-141 | words spread over a line with any white space between, before and behind them are its words |
| `Wrapping.LinesReadBack` | llama.cpp/common/arg.cpp:133-136 | lines joined by newlines are the lines of the text; a newline at its end adds none |
| `Lcs.StringLcs` | llama.cpp/common/common.cpp:491-510 | the result occurs in both strings, at its first possible place in the first, and nothing longer occurs in both |
| `Lcs.SuffixIsLongest` | llama.cpp/common/common.cpp:498-508 | table entry (i, j): two prefixes agree on their last n characters if and only if n is at most the entry |
| `Lcs.FillEntry` | llama.cpp/common/common.cpp:500-501 | one entry of the table from the one diagonally before it |
| `Lcs.BestMore` | llama.cpp/common/common.cpp:502-505 | the best length so far after one more entry |
| `Escapes.ProcessEscapes` | llama.cpp/common/common.cpp:638-673 | in place: the front of the array is the unescaped text, and what stands behind it is unchanged |
| `Escapes.TakeEscape` | llama.cpp/common/common.cpp:643-667 | one escape: writing stays behind reading, and what is still to be read is unchanged |
| `Escapes.PairAsNumber` | llama.cpp/common/common.cpp:651-660 | `strtol` takes both characters if and only if they are two hexadecimal digits, or white space or a sign and one digit; the value |
| `Escapes.Unescape` | llama.cpp/common/common.cpp:638-673 | the result is never longer than the text |
| `Escapes.SpelledText` | llama.cpp/common/common.cpp:643-667 | unescaping any spelling of a text gives the text |
| `Escapes.HexSpelling` | llama.cpp/common/common.cpp:651-660 | every byte has a spelling in two hexadecimal digits |
| `Escapes.PlainText` | llama.cpp/common/common.cpp:668-670 | a text without backslashes is left as it is |
| `Escapes.LetterStandsFor` | llama.cpp/common/common.cpp:643-650 | the six escapes of one letter, with the characters they stand for |
| `Escapes.OthersStay` | llama.cpp/common/common.cpp:663-670 | before any other letter the backslash stays, and at the end too |
| `Escapes.DigitsSpelled` | llama.cpp/common/common.cpp:651-660 | the hexadecimal digits in either case, in the order of their values |
| `Splitting.StringSplit` | llama.cpp/common/common.cpp:561-575 | the loop computes the parts `Split`, and terminates for a delimiter that is not empty |
| `Splitting.StringJoin` | llama.cpp/common/common.cpp:550-559 | the loop joins the parts |
| `Splitting.StringReplaceAll` | llama.cpp/common/common.cpp:528-543 | replacing is splitting at the search text and joining with the replacement; an empty search text changes nothing |
| `Splitting.JoinSplit` | llama.cpp/common/common.cpp:550-575 | joining the parts of a text gives back the text |
| `Splitting.PartsAreClean` | llama.cpp/common/common.cpp:561-575 | no part contains the delimiter |
| `Splitting.SplitJoin` | llama.cpp/common/common.cpp:550-575 | splitting joined parts gives the parts back if and only if no part lets the delimiter be found too early |
| `Splitting.CleanIsNotEnough` | llama.cpp/common/common.cpp:550-575 | witness: parts without the delimiter that are not given back |
| `Splitting.ReplaceAndBack` | llama.cpp/common/common.cpp:528-543 | replacing and replacing back restores the text whenever the pieces are separable |
| `Splitting.EmptyDelimiterStalls` | llama.cpp/common/common.cpp:563-570 | with an empty delimiter the search finds the place it starts from |
| `Csv.ParseCsvRow` | llama.cpp/common/arg.cpp:1300-1342 | the character loop computes `Fields` |
| `Csv.RowReadBack` | llama.cpp/common/arg.cpp:1296-1342 | any list of fields, each quoted with its quotes doubled or bare where it may be, is read back exactly |
| `Csv.RowSpelled` | llama.cpp/common/arg.cpp:1308-1336 | a row with a quoted comma, a quoted quote, an empty field and a quote inside a bare field, spelled |
| `Csv.BareExactly` | llama.cpp/common/arg.cpp:1308-1336 | a text alone on a row is read as itself if and only if it has no comma and does not start with a quote |

## Left out

- CallChunks.CompleteCallExactly: a string argument has at least one chunk and a value argument is one that Python and JSON print alike (numbers, literals, strings without control characters, and their nesting); names are not blank. Arguments that come as one JSON object are `CallText.ReadyCall`.
- DiffMarkers.CutsExactly: when the longer text opens what nothing closes, whether an overrun ends inside a marker depends on where that marker begins in the shorter one, and nothing simpler than the property itself says it; `DiffMarkers.OverrunOfWholeMarker` and `DiffMarkers.OverrunUnclosed` show both. A split that a final correction replaced is the left text and what follows it, wherever that is.
- PythonValues.PythonBecomesJson: strings without control characters, because Python and JSON escape those differently; the text that the rewriter copies there is still covered by `QuoteScan.SameNesting` and `QuoteStreaming.PrintedTextStays`.
- JsonText.EscapeInnerConcat: does not model that the JSON library refuses bytes that are no UTF-8.
- LegacyReader.GGMLModel.Load: the list of tensors holds their fields, not the reader objects, which nothing changes after they are appended; on an error the contract says which error, not which fields were set before it.
- LegacyReader.Vocab.Load: a score is kept as its 32-bit pattern.
- LoraRuns.OpCommutes: a pair whose factors no longer fit each other counts as no result, where the source returns the pair and fails or repeats B when it is multiplied out. For an operation that misleads it promises nothing; `LoraReshape.ReshapeProduct`, `LoraEllipsis.IndexExactly` and `LoraJoins.JoinExactly` say exactly when each of the three does.
- LoraRuns.RunCommutes: index tensors, factors with more axes than the tensor and conversions of the element type are not modelled.
- LegacyReader.GGMLModel.LoadTensors: requires that the loop ends, because on the other files the source does not return; `Legacy.ForeverIs` says which those are.
- ToolStream.ParseGrowsExactly: replies that are well-formed (`ToolGrowth.Keeps`: no blank name, no call renamed, no id taken back, no shown arguments replaced), and nodes with nothing to hear below a node that is heard; that the parsers produce growing trees is taken as given.
- LineEditor.Editor.ReadLine: keys are events; reading them from escape sequences, history and completion callbacks, and everything that is drawn are not modelled. A replaced line is the encoding of a text; `LineEditor.Editor.SetLineContents` covers any bytes, for the assertions only.
- LoraMeanings.ReshapeAccepted: with a rank of zero or an empty last axis there are no elements to count, and nothing is said about which shapes are refused.
- LoraMeanings.ReshapeMeans: more than one -1 is covered one way only, because the source then fills in the same length everywhere.
- Base64.DecodeInPlace: on refusal the contents of the array are not stated, as the source leaves them half written.
- Wrapping.BreakIntoLines: lines and words of a text are functions (`Lines`, `Words`) instead of an input stream.
- Splitting.StringSplit: a delimiter that is not empty, because the source does not terminate on an empty one.
- Splitting.StringReplaceAll: returns the new text instead of overwriting its argument.
- Sizes near the range of `size_t`: lengths are unbounded in the size functions and in positions.
- The parsers that produce syntax trees, grammars, templates and their analysis: the trees are taken as given.
- Writing GGUF files, adding vocabularies and names, and the option tables: long but shallow.
- Model loading, threads, downloads, caches, environment variables and drawing: input and output.
- Floating-point code: embedding normalisation, sampling, learning rates.
