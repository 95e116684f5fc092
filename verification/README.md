# Models of the chat, conversion and console code

These Dafny modules model the parts of the repository where text, bytes and ownership are handled
step by step, and prove what those parts promise. Code that changes state is a class or a method
with loops, proved against a function; the laws are then proved about the function.

**Streaming tool calls** (`chat-peg-parser.cpp`, `chat.cpp`, `chat.h`). `QuoteNormalizer` is the
lexer that turns Python literals into JSON, `QuoteLaws` what it keeps; `PythonStrings` and
`PythonLiterals` are the literals of the grammar and the JSON they become; `Json`, `JsonLaws` and
`JsonTracking` are a reader and writer after RFC 8259 and their fit with the lexer. `PegMapper` is
the event function, `ToolArguments` the object it builds, `PythonCalls` calls over the Python grammar,
`ToolMessages` and `MessageMapper` the whole message and the mapper object that returns it,
`GemmaPrinter` the printer of partial trees.
`MessageDiff` is the delta step with the identifiers, and `ChatStreaming` joins them. The normalizer
is not monotone on every growing text: `QuoteLaws.StreamingLaw` names the two ways a prefix can end
that break it, and only those. `ChatStreaming.StreamingLaw` carries this to the client: over growing
event lists the deltas rebuild the last message unless the last event of a snapshot grows in one of
exactly three ways (those two in a raw value, and a changed argument name), and exactly then the
code raises "Invalid diff"; `ChatStreaming.WordSplitFails`, `ChatStreaming.EscapeSplitFails` and
`ChatStreaming.NameChangeFails` give inputs. The finished arguments are a JSON object exactly if
every argument has a value that JSON can read: an argument left empty, or a Python string with a raw
line break, makes them no JSON, and the check of required arguments then rejects the call
(`PythonCalls.EmptyValueFails`, `PythonCalls.RawBreakFails`).

**Request caches** (`chat.cpp`). `TemplateCache` has rendering and parser generation as functions.
Contrary to the comment at chat.cpp:2390-2395, a cached generation prompt is not verified on the path
for pure content; `TemplateCache.TrustLaw` says for which templates every prompt of every run can be
relied on all the same, and `TemplateCache.StalePureContent` gives a run where one cannot.

**Marker-aware difference** (`chat-auto-parser-helpers.cpp`). `MarkerSegments` and `MarkerDiff`. The
tests after the segment loop may match a segment that the loop has consumed; `MarkerDiff.SplitLaw` is
the exact condition under which the four parts still rebuild both texts, and `MarkerDiff.RepairLaw`
shows that skipping a consumed side makes them do so always.

**Line editor** (`console.cpp`). `Utf8`, `EditorModel` (code points, no bytes), `LineEditor` (bytes,
widths, positions, screen column) and `ReadLine` (history, completion, one whole call). The flag for a
trailing mark is not updated after a completion, which `ReadLine.FlagDecides` and
`ReadLine.StaleFlagCutsAByte` pin down.

**GGUF rewriting** (`sanitize-gguf-v3.py`). `GgufValues` reads and writes nested values at one shared
offset, `GgufRewrite` edits a file, and `GgufFormat` has the format's numbers and a file byte by byte.
Strings are byte strings; replacing what is not UTF-8 is a function `fix` of which only
`fix(fix(s)) == fix(s)` is used.

**Deferred low-rank tensors** (`convert_lora_to_gguf.py`). `Tensors` is the tensor library's indexing
over the reals, `LoraTensor`, `LoraIndexing`, `LoraEllipsis`, `LoraReshaping` and `LoraRuns` compare
each operation on the factors with the same operation on the product, for any number of axes. The tuple
index marked "TODO: make sure this is correct" at line 99 is right exactly under `LoraIndexing.TupleOk`;
the expansion of an ellipsis before it is right exactly under `LoraEllipsis.EllipsisOk`. `LoraDefined`
says exactly when each operation succeeds, and `LoraFailures` has factors on which a slice, a tuple, an
ellipsis and a join succeed and give something else.

**Codecs and owners** (`base64.hpp`, `common.cpp`, `common.h`). `Base64`, `Escapes`, `Glob`,
`Checkpoints`, with `Text`, `ChatTypes`, `Wrappers` and `Arithmetic` shared.

Check everything with `dafny verify dfyconfig.toml`.

## Model

| member | source | states |
|---|---|---|
| `QuoteNormalizer.NormalizeQuotesToJson` | rocmfpx/common/chat-peg-parser.cpp:84-186 | the loop over flags and an output buffer computes the per-character emission of the quote lexer: literals outside strings are respelled, single quotes become double ones, escapes inside single quotes are kept, dropped or doubled as the loop does |
| `QuoteNormalizer.BareRun` | rocmfpx/common/chat-peg-parser.cpp:155-180 | a run of word characters outside strings is emitted whole by the loop, as a respelled literal or as it is |
| `QuoteLaws.JsonBraceDepth` | rocmfpx/common/chat-peg-parser.cpp:42-68 | the depth counter returns the depth the string-aware scanner reaches |
| `QuoteLaws.OutputSimulatesInput` | rocmfpx/common/chat-peg-parser.cpp:42-68 | on every input, the counter run over the output ends in-string exactly where the input lexer is inside single or double quotes, with the same pending escape and the brace depth of the input counted outside both kinds of quotes |
| `QuoteLaws.Simulates` | rocmfpx/common/chat-peg-parser.cpp:84-186 | the same at every position of the input, not only at the end |
| `QuoteLaws.FixedPoints` | rocmfpx/common/chat-peg-parser.cpp:84-186 | an input is left unchanged if and only if it has no Python literal and no single-quoted string outside double quotes |
| `QuoteLaws.OutputSettled` | rocmfpx/common/chat-peg-parser.cpp:84-186 | every output is such a text |
| `QuoteLaws.Idempotent` | rocmfpx/common/chat-peg-parser.cpp:84-186 | normalizing twice is normalizing once |
| `QuoteLaws.StreamingLaw` | rocmfpx/common/chat-peg-parser.cpp:159-161 | for every prefix p of s the output for p is a prefix of the output for s, if and only if p does not stop between a backslash and the single quote it escapes, nor inside a word that reads as a literal so far and is none in s; otherwise the two outputs differ at a position both have |
| `Json.EscapeMonotone` | rocmfpx/common/chat-peg-parser.cpp:71-77 | escaping a longer text extends the escaped shorter text |
| `JsonLaws.StringRoundTrip` | rocmfpx/common/chat-peg-parser.cpp:71-77 | an escaped and quoted text reads back as the text, whatever follows (section 7 of RFC 8259) |
| `JsonTracking.JsonIsNeutral` | rocmfpx/common/chat-peg-parser.cpp:84-186 | every JSON text is a fixed point of the normalizer and leaves the depth counter balanced and outside strings |
| `JsonTracking.PlainIsFixed` | rocmfpx/common/chat-peg-parser.cpp:84-186 | a text without bare quotes and capital literal letters outside strings is a fixed point |
| `PythonStrings.Tokens` | rocmfpx/common/chat-peg-parser.cpp:84-186 | texts that meet outside strings and words are rewritten one after the other, and their open braces add up |
| `PythonStrings.StringToken` | rocmfpx/common/peg-parser.cpp:1269-1283 | every string of the grammar, in either kind of quotes, is rewritten to the same pieces in double quotes |
| `PythonStrings.BodyReads` | rocmfpx/common/peg-parser.cpp:692-765 | a string in double quotes is read as its characters if it holds no raw control character and no surrogate without its partner, and not at all otherwise |
| `PythonLiterals.PythonBecomesJson` | rocmfpx/common/chat-peg-parser.cpp:79-83 | every Python literal of the grammar, nested to any depth and with space behind it, is rewritten to its JSON spelling; that denotes the same structure with the same strings if strings and space hold nothing JSON refuses, and is no JSON at all otherwise |
| `PythonLiterals.LiteralReads` | rocmfpx/common/peg-parser.cpp:1370-1436 | JSON's spelling of a literal is read in front of anything that does not lengthen a number as the meaning of the literal, if and only if it is clean |
| `PythonLiterals.PythonIsBalanced` | rocmfpx/common/chat-peg-parser.cpp:42-68 | what a literal is rewritten to closes its strings and braces, clean or not |
| `MessageMapper.Mapper.SetTarget` | rocmfpx/common/chat-peg-parser.cpp:239-241 | the accessor of the argument text writes the arguments of the current call once it has a name and the buffer before, and nothing else |
| `MessageMapper.Mapper.MapName` | rocmfpx/common/chat-peg-parser.cpp:322-337 | naming a call moves it to the result with the buffered arguments |
| `MessageMapper.Mapper.MapClose` | rocmfpx/common/chat-peg-parser.cpp:410-432 | closing a call closes an open string and appends one brace per open depth, and discards a call that was never named |
| `MessageMapper.Mapper.MapTool` | rocmfpx/common/chat-peg-parser.cpp:305-432 | one event of a call changes the fields as the event function says |
| `MessageMapper.Mapper.Map` | rocmfpx/common/chat-peg-parser.cpp:278-432 | one event of any kind changes the fields as the event function says and keeps them consistent |
| `MessageMapper.Mapper.FromAst` | rocmfpx/common/chat-peg-parser.cpp:247-276 | the message returned for the visited nodes holds all content that was said, all reasoning that was said unless it is only blanks, newlines, returns and tabs, and, where the nodes are complete parts, exactly their calls in order |
| `MessageMapper.FinishedTexts` | rocmfpx/common/chat-peg-parser.cpp:247-291 | for any visitable nodes the finished message has exactly the content said, and the reasoning said or nothing if that is only space |
| `MessageMapper.FinishedMessage` | rocmfpx/common/chat-peg-parser.cpp:247-432 | for any sequence of complete calls, content and reasoning, the finished message in full |
| `MessageMapper.IdentifierTexts` | rocmfpx/common/chat-peg-parser.cpp:314-320 | an identifier loses the space behind it and one pair of quotes around it, and nothing else |
| `MessageMapper.NameTexts` | rocmfpx/common/chat-peg-parser.cpp:352-360 | an argument name loses all space behind it, but of the space in front one character only |
| `MessageMapper.NamelessLeavesNothing` | rocmfpx/common/chat-peg-parser.cpp:278-432 | as long as no name comes, no event adds a call to the message |
| `MessageMapper.PiecesJoin` | rocmfpx/common/chat-peg-parser.cpp:382-398 | a string value that comes in several pieces is the string of the joined text, and an empty piece writes a quote |
| `MessageMapper.CloseEndsString` | rocmfpx/common/chat-peg-parser.cpp:416-420 | closing a call with a string still open is closing the string first |
| `MessageMapper.CloseSettles` | rocmfpx/common/chat-peg-parser.cpp:410-432 | a call that was never named is gone when it is closed, one with a blank name gets the arguments kept for it, and nothing is open any more |
| `MessageMapper.NamedAgain` | rocmfpx/common/chat-peg-parser.cpp:322-337 | a name, even a second one, leaves arguments that are there alone and uses up those kept for it |
| `PegMapper.StepKeepsValid` | rocmfpx/common/chat-peg-parser.cpp:278-432 | no event leaves a non-empty name on a pending call, or the pointer at a call that is not there |
| `ToolArguments.RunFollows` | rocmfpx/common/chat-peg-parser.cpp:305-432 | at every event of a well-bracketed call, named before, amid or after its arguments, the argument text is exactly the one rendered from the arguments seen so far |
| `ToolArguments.TaggedCallText` | rocmfpx/common/chat-peg-parser.cpp:305-432 | after the call is closed the arguments are the opening brace, the members in order and the missing closing braces, wherever the name came; no string is open |
| `ToolArguments.WholeCallText` | rocmfpx/common/chat-peg-parser.cpp:339-348 | a call whose arguments came as one text ends with that text, the last one counting, and the missing closing braces, wherever the name came |
| `ToolArguments.TaggedCallIsObject` | rocmfpx/common/chat-peg-parser.cpp:305-432 | when each value text is JSON, or closed but such that no value is read in front of a comma or brace, the finished arguments denote the object whose members are the (name, value) events in order if every argument has a value, and are no JSON if one has none; the depth counter ends at 0 outside strings in both cases |
| `ToolArguments.EmptyValueLaw` | rocmfpx/common/chat-peg-parser.cpp:352-408 | when each value text is JSON or blank, a missing value included, the arguments denote an object if and only if none is blank |
| `PythonCalls.PythonCallLaw` | rocmfpx/common/chat-peg-parser.cpp:352-432 | for any tagged call whose raw values are literals of the Python grammar, with strings and missing values in any order: the arguments are the object of the (name, value) events if and only if every argument has a value and every literal is clean, and are no JSON otherwise; the check accepts if and only if nothing is required, or they are and every required name occurred |
| `PythonCalls.EmptyValueFails` | rocmfpx/common/chat-peg-parser.cpp:481 | an argument with an empty or blank value node leaves arguments such as {"x":}, which are no JSON, and the check rejects the call although its required name occurred |
| `ToolArguments.RawMembers` | rocmfpx/common/chat-peg-parser.cpp:481 | a raw text that holds a value, a comma and another member is read as that further member, although no event named it |
| `PythonCalls.RawBreakFails` | rocmfpx/common/peg-parser.cpp:727-765 | a Python string with a raw line break, which the grammar takes, is rewritten to text that is no JSON |
| `ToolArguments.WholeCallIsText` | rocmfpx/common/chat-peg-parser.cpp:339-348 | if the one text is JSON, the finished arguments are that very text, and the depth counter ends at 0 outside strings |
| `ToolMessages.RunSays` | rocmfpx/common/chat-peg-parser.cpp:278-291 | over any run of events no content and no reasoning is lost, reordered or invented, inside a call or outside |
| `ToolMessages.CallAppends` | rocmfpx/common/chat-peg-parser.cpp:305-432 | from any mapper state a complete call, in either mode, appends exactly one call, with the name and the last id it was given and its own arguments, and leaves every earlier call as it was |
| `ToolMessages.WholeMessage` | rocmfpx/common/chat-peg-parser.cpp:278-432 | for any sequence of complete calls, content and reasoning the message holds one call for each of them, in order, and all of the text in order |
| `ToolArguments.ObjectReads` | rocmfpx/common/chat-peg-parser.cpp:352-408 | the rendered members read back as those members |
| `ToolArguments.ClosingBalances` | rocmfpx/common/chat-peg-parser.cpp:421-424 | appending braces balances a text if and only if it has no open string and no brace too many |
| `ToolArguments.CheckRequired` | rocmfpx/common/chat.cpp:2684-2706 | the check accepts if and only if every call with a known name has every required member |
| `ToolArguments.RequiredAccepted` | rocmfpx/common/chat.cpp:2684-2706 | for a finished tagged call with such value texts the check accepts if and only if nothing is required of it, or every argument has a value and every required name occurred, in any order and however often |
| `ToolArguments.WholeRequiredAccepted` | rocmfpx/common/chat.cpp:2684-2706 | for a call whose arguments came as one JSON object the check accepts if and only if that object has every required member |
| `MessageDiff.ComputeCallDiff` | rocmfpx/common/chat.cpp:189-213 | the delta of one call, or the error |
| `MessageDiff.ComputeDiffs` | rocmfpx/common/chat.cpp:156-222 | the list of deltas, or the first error raised |
| `MessageDiff.DiffsExist` | rocmfpx/common/chat.cpp:57-70 | no error is raised if and only if texts and arguments are comparable by prefix, no call is lost and a name that was there grows, stays or becomes empty |
| `MessageDiff.DeltasAre` | rocmfpx/common/chat.cpp:156-222 | the deltas in full: one with what each changed text gained, one for the last old call with identifier and name together if either changed, and one for each new call with its index |
| `MessageDiff.NothingToSay` | rocmfpx/common/chat.cpp:156-222 | a message that did not change gives no delta |
| `MessageDiff.StepIsFaithful` | rocmfpx/common/chat.cpp:156-222 | applying the deltas to the old message gives the new one if and only if the new message extends the old one |
| `MessageDiff.RunIsFaithful` | rocmfpx/common/chat.cpp:156-222 | over any run of messages that each extend the last, no error is raised and the deltas rebuild the final message |
| `MessageDiff.IdCache.SetToolCallIds` | rocmfpx/common/chat.h:106-118 | the cache grows by one id for each new call, every call gets the cached id, and nothing else changes |
| `MessageDiff.IdsStayFixed` | rocmfpx/common/chat.h:106-118 | over any run of messages an id once in the cache is the id of that call in every later message |
| `MessageDiff.IdsNotBlank` | rocmfpx/common/chat.h:106-118 | a cache without blank ids stays without them |
| `MessageDiff.StampedRun` | rocmfpx/common/chat.h:106-118 | stamping a run of extending messages gives a run of extending messages |
| `ChatStreaming.StepContinues` | rocmfpx/common/chat-peg-parser.cpp:361-368 | any event that the call protocol allows leaves every text, and the arguments of the open call, as a prefix of the new ones |
| `ChatStreaming.GrownStepLaw` | rocmfpx/common/chat-peg-parser.cpp:361-368 | the same event with a longer text continues the message of the shorter one, unless the call is in the result and a raw value was cut inside an escaped quote or a word that is no literal, or the argument name changed; then the arguments contradict those sent |
| `ChatStreaming.GrowthLaw` | rocmfpx/common/chat-peg-parser.cpp:278-432 | a longer list of events, the last of which may also have grown, continues the message of the shorter list, unless that last event breaks it in one of these ways; then the arguments contradict those sent |
| `ChatStreaming.SnapshotLaw` | rocmfpx/common/chat.cpp:156-222 | between the finished snapshots of a list and a grown one the diff is an error if and only if the last event broke what was sent, and otherwise the later snapshot extends the earlier |
| `ChatStreaming.StreamingLaw` | rocmfpx/common/chat.cpp:156-222 | for any growing event lists the deltas between snapshots leave the client with the last snapshot if no last event ever broke what was sent, and end in an error if one did |
| `ChatStreaming.ClientEndsWith` | rocmfpx/common/chat.cpp:156-222 | the client then holds everything the last parse said, as content and as reasoning, and the calls of its events |
| `ChatStreaming.WordSplitFails` | rocmfpx/common/chat-peg-parser.cpp:155-180 | a raw value read as T and then as Tx: the delta is an error |
| `ChatStreaming.EscapeSplitFails` | rocmfpx/common/chat-peg-parser.cpp:98-130 | a raw value read up to the backslash of an escaped quote and then past it: the delta is an error |
| `ChatStreaming.NameChangeFails` | rocmfpx/common/chat-peg-parser.cpp:352-380 | an argument name sent as a and then as ab: the delta is an error |
| `ChatStreaming.StampedStreamingLaw` | rocmfpx/common/chat.h:106-118 | the same law for the snapshots with their identifiers set before the diff, whatever identifiers the snapshots themselves say |
| `GemmaPrinter.PrintChildren` | rocmfpx/common/chat-peg-parser.cpp:966-979 | children are printed in order, with commas between them where the rule asks for them |
| `GemmaPrinter.PrintMonotone` | rocmfpx/common/chat-peg-parser.cpp:941-1034 | when a tree grows only along its rightmost unfinished spine, the old output is a prefix of the new one |
| `GemmaPrinter.PartialPrints` | rocmfpx/common/chat-peg-parser.cpp:941-1034 | a partial tree prints all that the tree closed where it stands would print, except for the quotes, brackets, braces and colons its unfinished nodes owe |
| `GemmaPrinter.PartialTreeIsJson` | rocmfpx/common/chat-peg-parser.cpp:941-1034 | with what it owes added, the text of a partial tree is JSON for the tree closed where it stands |
| `GemmaPrinter.FinishedTreeIsJson` | rocmfpx/common/chat-peg-parser.cpp:941-1034 | a finished tree prints JSON text that denotes the structure of the tree |
| `GemmaPrinter.StringNeedsContent` | rocmfpx/common/chat-peg-parser.cpp:955-964 | a finished string node prints JSON if and only if it has a content child |
| `GemmaPrinter.MissingContentMisprints` | rocmfpx/common/chat-peg-parser.cpp:955-964 | two strings without content children print as one string holding a comma |
| `MarkerSegments.SegmentizeMarkers` | rocmfpx/common/chat-auto-parser-helpers.cpp:269-299 | the segments of a text, by the first opener and its closer |
| `MarkerSegments.Lossless` | rocmfpx/common/chat-auto-parser-helpers.cpp:269-299 | the segments joined are the text |
| `MarkerSegments.SegmentsWellCut` | rocmfpx/common/chat-auto-parser-helpers.cpp:269-299 | markers are closed, texts hold no opener, and only the last segment may be unclosed |
| `MarkerSegments.OnlyCut` | rocmfpx/common/chat-auto-parser-helpers.cpp:269-299 | a well-cut list is the segmentation of its join, so segmenting again gives the same list |
| `MarkerSegments.ExampleCuts` | rocmfpx/common/chat-auto-parser-helpers.cpp:269-299 | a text with both kinds of markers, text around them and an opener that is never closed, cut by hand |
| `MarkerDiff.CommonPrefixLen` | rocmfpx/common/chat-auto-parser-helpers.cpp:69-76 | the greatest common prefix length |
| `MarkerDiff.CommonSuffixLen` | rocmfpx/common/chat-auto-parser-helpers.cpp:78-85 | the greatest common suffix length |
| `MarkerDiff.MatchEnds` | rocmfpx/common/chat-auto-parser-helpers.cpp:102-139 | the two-ended loop stops in the window that matching from both ends reaches |
| `MarkerDiff.MatchRest` | rocmfpx/common/chat-auto-parser-helpers.cpp:141-165 | the tests after the loop, which do not look at the flag of the side they test |
| `MarkerDiff.CalculateDiffSplit` | rocmfpx/common/chat-auto-parser-helpers.cpp:87-207 | the four parts as the iterator loop computes them; for texts without markers they rebuild both texts, and what is left on two non-empty sides differs in the first and in the last character |
| `MarkerDiff.SplitLaw` | rocmfpx/common/chat-auto-parser-helpers.cpp:87-207 | the parts rebuild both texts if and only if no segment consumed by the loop is matched again after it, except where the final prefix repair hides it |
| `MarkerDiff.RepairLaw` | rocmfpx/common/chat-auto-parser-helpers.cpp:141-165 | with tests after the loop that skip a consumed side the parts rebuild both texts for every pair, and nothing changes where no segment was matched twice |
| `MarkerDiff.RepeatedMarkerIsLost` | rocmfpx/common/chat-auto-parser-helpers.cpp:114-165 | for <a><b> against <a><b><b> the difference is lost |
| `MarkerDiff.EqualTexts` | rocmfpx/common/chat-auto-parser-helpers.cpp:87-207 | equal texts give the text as prefix and three empty parts |
| `MarkerDiff.SharedIsTaken` | rocmfpx/common/chat-auto-parser-helpers.cpp:167-205 | if both differences are there, they have different first characters wherever the first segments left over are text on both sides, and different last ones wherever the last segments are |
| `MarkerDiff.MarkersStay` | rocmfpx/common/chat-auto-parser-helpers.cpp:167-182 | where the segments left over at a border are not both text, nothing is cut off there |
| `MarkerDiff.LoopIsDone` | rocmfpx/common/chat-auto-parser-helpers.cpp:102-139 | the loop leaves no pair of equal segments at the front or at the back of a window with more than one segment on each side |
| `MarkerDiff.MatchedIsDone` | rocmfpx/common/chat-auto-parser-helpers.cpp:141-165 | after the tests behind the loop, a last segment that is not consumed equals neither end of the other side |
| `MarkerDiff.PlainTexts` | rocmfpx/common/chat-auto-parser-helpers.cpp:167-205 | for texts without markers: both are rebuilt, the differences share neither end, and a text that begins the other is the prefix |
| `Utf8.DecodeUtf8` | rocmfpx/common/console.cpp:365-409 | the decoder with its error branches computes the decoding function |
| `Utf8.DecodeEncode` | rocmfpx/common/console.cpp:411-430 | decoding inverts encoding for every code point up to 0x10FFFF, whatever follows (section 3 of RFC 3629) |
| `Utf8.KnownCharacters` | rocmfpx/common/console.cpp:411-432 | characters of section 7 of RFC 3629, the ends of every range, and nothing beyond the last code point |
| `Utf8.BrokenCharacters` | rocmfpx/common/console.cpp:365-409 | a byte that starts no complete character counts as one replacement character, and any other takes the bytes its first one asks for |
| `Utf8.LooseCharacters` | rocmfpx/common/console.cpp:365-409 | spellings that are longer than needed, surrogates and values out of range are decoded all the same |
| `Utf8.DecodeAllEncodeAll` | rocmfpx/common/console.cpp:365-430 | a text of code points is recovered from its bytes |
| `Utf8.PrevPos` | rocmfpx/common/console.cpp:432-439 | the position before which only continuation bytes are skipped |
| `Utf8.NextPos` | rocmfpx/common/console.cpp:441-448 | the position up to which only continuation bytes are skipped |
| `Utf8.PrevBoundary` | rocmfpx/common/console.cpp:432-439 | stepping back from a character boundary reaches the previous boundary |
| `Utf8.NextBoundary` | rocmfpx/common/console.cpp:441-448 | stepping forward from a character boundary reaches the next boundary |
| `EditorModel.MovingKeepsText` | rocmfpx/common/console.cpp:529-664 | no sequence of cursor keys changes the text |
| `EditorModel.KeyPositions` | rocmfpx/common/console.cpp:529-547 | where each key that is not about words puts the cursor, and what text it leaves |
| `EditorModel.WordPositions` | rocmfpx/common/console.cpp:581-664 | to the right the cursor passes blanks, a word and the blanks behind it, to the left blanks and a word, each as far as they go |
| `EditorModel.TypedThenErased` | rocmfpx/common/console.cpp:929-996 | typing any text puts it in front of the cursor, and erasing as many characters restores text and cursor |
| `EditorModel.UpsThenDowns` | rocmfpx/common/console.cpp:714-747 | as many downs as ups give back the line being edited and end the viewing |
| `EditorModel.UpsShow` | rocmfpx/common/console.cpp:714-726 | the n-th up shows the n-th line from the end and keeps the line being edited |
| `EditorModel.HistoryOfLines` | rocmfpx/common/console.cpp:703-713 | after any lines the history holds those that are not blank, in order and once for every stretch of equal ones |
| `LineEditor.Line.MoveLeft` | rocmfpx/common/console.cpp:835-843 | bytes, widths, both positions and the screen column follow the code-point editor |
| `LineEditor.Line.MoveRight` | rocmfpx/common/console.cpp:844-852 | as for moving left |
| `LineEditor.Line.MoveToLineStart` | rocmfpx/common/console.cpp:529-537 | as for moving left; the column is 0 |
| `LineEditor.Line.MoveToLineEnd` | rocmfpx/common/console.cpp:539-547 | as for moving left |
| `LineEditor.Line.MoveWordLeft` | rocmfpx/common/console.cpp:581-617 | from the cursor back over blanks and then over a word, each as far as they go, on all fields |
| `LineEditor.Line.MoveWordRight` | rocmfpx/common/console.cpp:619-664 | from the cursor over blanks, over a word and over the blanks behind it, each as far as they go, on all fields |
| `LineEditor.Line.RedrawTail` | rocmfpx/common/console.cpp:468-475 | what is reprinted is the rest of the line, and takes the columns of its widths |
| `LineEditor.Line.DeleteAtCursor` | rocmfpx/common/console.cpp:456-482 | the code-point deletion on all fields; the screen cursor stays where it is |
| `LineEditor.Line.Backspace` | rocmfpx/common/console.cpp:929-957 | the code-point erasure on all fields |
| `LineEditor.Line.Insert` | rocmfpx/common/console.cpp:958-996 | the fields stay in step if and only if the value is a code point; otherwise the list of widths is one too long |
| `LineEditor.Line.SetLineContents` | rocmfpx/common/console.cpp:494-527 | the fields are in step with any new line if and only if it is valid text, with the cursor at its end or at the given byte |
| `ReadLine.History.Add` | rocmfpx/common/console.cpp:703-713 | the history function for a finished line |
| `ReadLine.History.Prev` | rocmfpx/common/console.cpp:714-726 | the history function for the up key |
| `ReadLine.History.Next` | rocmfpx/common/console.cpp:727-739 | the history function for the down key |
| `ReadLine.TakeKey` | rocmfpx/common/console.cpp:797-1001 | one turn of the key loop is one step of the code-point session, including completion, history and the mark flag |
| `ReadLine.FinishLine` | rocmfpx/common/console.cpp:1004-1040 | the line handed back, whether more is read, and the new history |
| `ReadLine.ReadLine` | rocmfpx/common/console.cpp:753-1044 | a whole call refines the code-point session, given text from completion and history and code points from the keyboard |
| `ReadLine.EditsAreKeys` | rocmfpx/common/console.cpp:821-996 | a run of editing keys is the same run in the code-point editor |
| `ReadLine.EditedLine` | rocmfpx/common/console.cpp:1004-1040 | editing keys and enter give the text they leave with a newline; with a backslash at the end that is taken off and the choice to read more turned round, with a slash no newline and nothing more is read; the history takes the line without the newline, and at the end of the stream nothing |
| `ReadLine.TabKey` | rocmfpx/common/console.cpp:797-819 | without an offer the tab key types a tab; an only offer that is the line already changes nothing; otherwise the line is the first offer, with the cursor at the byte it names or at the end |
| `ReadLine.StepFlag` | rocmfpx/common/console.cpp:797-819 | only an accepted completion can leave the mark flag behind, exactly when it makes the mark come or go |
| `ReadLine.FlagDecides` | rocmfpx/common/console.cpp:1004-1030 | the line handed back is the one meant if and only if the mark flag fits the line |
| `ReadLine.ReadingMeans` | rocmfpx/common/console.cpp:753-1044 | the call returns the line that was typed if and only if completions since the last other key did not make a mark come or go, and none emptied a marked line before another key; then the history holds only valid text |
| `ReadLine.StaleFlagCutsAByte` | rocmfpx/common/console.cpp:797-819 | a backslash completed to another text: enter cuts the last byte off it and stores broken text |
| `ReadLine.NextKeyRecovers` | rocmfpx/common/console.cpp:797-819 | after that completion any typed character that is no mark brings the right line back, and enter at once does not |
| `GgufValues.ReadUndoesWrite` | scripts/sanitize-gguf-v3.py:31-40 | a written value, nested to any depth, is read back from where it stands |
| `GgufValues.WriteUndoesRead` | scripts/sanitize-gguf-v3.py:67-76 | a value read inside the file is written as the bytes it was read from |
| `GgufValues.FromLeLe` | scripts/sanitize-gguf-v3.py:21-23 | packed integers unpack to themselves |
| `GgufValues.DecodedTwice` | scripts/sanitize-gguf-v3.py:28 | decoding repaired strings again changes nothing |
| `GgufValues.Reader.Rstr` | scripts/sanitize-gguf-v3.py:25-29 | the string reader moves the shared offset past the length, even over the end of the file |
| `GgufValues.Reader.Rt` | scripts/sanitize-gguf-v3.py:31-40 | the recursive reader with the shared offset computes the reading function |
| `GgufValues.Wt` | scripts/sanitize-gguf-v3.py:67-76 | the recursive writer appends the value, and fails exactly where it cannot be packed |
| `GgufFormat.ScalarWidths` | scripts/sanitize-gguf-v3.py:15-16 | each of the eleven scalar types takes its one, two, four or eight bytes, and no tag above 12 is read |
| `GgufFormat.ScalarsTyped` | scripts/sanitize-gguf-v3.py:15-16 | exactly a scalar of that many bytes can be written with its tag |
| `GgufFormat.StringTaken` | scripts/sanitize-gguf-v3.py:25-29 | a string is eight bytes of length and that many bytes of text, cut off at the end of the file |
| `GgufFormat.NegativeAlignment` | scripts/sanitize-gguf-v3.py:57 | with a negative alignment nothing is padded and the data start lies before the end of the tensor infos |
| `GgufFormat.AlignmentOfLast` | scripts/sanitize-gguf-v3.py:53-56 | an entry behind others sets the alignment if and only if it has the key and type UINT32, INT32 or UINT64; the second with its sign |
| `GgufFormat.AlignmentKeySpelled` | scripts/sanitize-gguf-v3.py:55 | the key of that entry, in bytes |
| `GgufFormat.EditMeaning` | scripts/sanitize-gguf-v3.py:87-96 | editing keeps the entries that are not removed, in order, with the same keys and types, and with the same values except for strings that are given a new one |
| `GgufFormat.ExampleHeader` | scripts/sanitize-gguf-v3.py:18-58 | a file written out byte by byte, with one entry of each of the thirteen types and one tensor: its header, entries and data start |
| `GgufFormat.ExampleParsed` | scripts/sanitize-gguf-v3.py:18-58 | what the parser returns for that file |
| `GgufRewrite.ParseFile` | scripts/sanitize-gguf-v3.py:18-58 | version, counts, entries, raw tensor infos, alignment and data start of a file |
| `GgufRewrite.FindAlignment` | scripts/sanitize-gguf-v3.py:53-56 | the last alignment entry of an integer type wins; 32 without one |
| `GgufRewrite.EditEntries` | scripts/sanitize-gguf-v3.py:87-96 | entries are dropped or, for strings, given their new value, in order |
| `GgufRewrite.CopyData` | scripts/sanitize-gguf-v3.py:109-114 | the chunked copy appends the input from the data start on; it ends because the start is inside the file |
| `GgufRewrite.Sanitize` | scripts/sanitize-gguf-v3.py:79-115 | the script computes the rewriting function, including failure and the copy loop that never ends |
| `GgufRewrite.ReadKvsUndoesWrite` | scripts/sanitize-gguf-v3.py:42-46 | a written list of entries is read back |
| `GgufRewrite.WriteUndoesReadKvs` | scripts/sanitize-gguf-v3.py:97-100 | a list of entries that was read is written as its own bytes |
| `GgufRewrite.TensorsMoved` | scripts/sanitize-gguf-v3.py:48-51 | copied tensor infos are skipped by the same number of bytes at their new place |
| `GgufRewrite.PaddedIsAligned` | scripts/sanitize-gguf-v3.py:57 | padding reaches the next multiple of the alignment and no further |
| `GgufRewrite.AlignUpNonNegative` | scripts/sanitize-gguf-v3.py:57 | the data start is never negative, not even for a negative alignment |
| `GgufRewrite.RewrittenParses` | scripts/sanitize-gguf-v3.py:79-115 | the new file parses to the same version and tensor count, the edited entries, the same tensor-info bytes, zero padding, and byte-identical data from the recomputed start |
| `GgufRewrite.EditedAlignment` | scripts/sanitize-gguf-v3.py:53-56 | editing drops the alignment or leaves it alone |
| `GgufRewrite.DataIsFound` | scripts/sanitize-gguf-v3.py:53-58 | a reader of the new file finds the tensor data if and only if the alignment entry is kept or dropping it does not move the start |
| `GgufRewrite.DroppedAlignmentLosesData` | scripts/sanitize-gguf-v3.py:88-107 | dropping an alignment of 64 leaves the data where a reader does not look |
| `GgufRewrite.RewriteTwice` | scripts/sanitize-gguf-v3.py:79-115 | rewriting twice is rewriting once if and only if the alignment entry is kept, or the default asks for no more padding than there is, or the tensor data starts with the zeros it asks for more |
| `GgufRewrite.NothingEdited` | scripts/sanitize-gguf-v3.py:79-115 | a canonical file with nothing to edit is reproduced byte for byte |
| `Tensors.FullLengthIsFull` | rocmfpx/convert_lora_to_gguf.py:98-113 | a slice that keeps the length of an axis of two or more is the whole axis |
| `LoraTensor.GatherCommutes` | rocmfpx/convert_lora_to_gguf.py:59-115 | indexing rows from B, columns from A and leading axes in both is indexing the product, if the leading axes of A follow those of B |
| `LoraTensor.SameFactors` | rocmfpx/convert_lora_to_gguf.py:46-57 | the product depends only on the entries of the factors |
| `LoraTensor.FirstAxisCommutes` | rocmfpx/convert_lora_to_gguf.py:68-77 | an index on the first axis of both factors is right if and only if A is not broadcast there, or its one entry survives, or nothing is left |
| `LoraIndexing.IntCommutes` | rocmfpx/convert_lora_to_gguf.py:68-72 | an integer index that succeeds is the index of the product |
| `LoraIndexing.SliceCommutes` | rocmfpx/convert_lora_to_gguf.py:73-77 | a slice that succeeds is the slice of the product if and only if the first axis is fit for it |
| `LoraIndexing.TupleCommutes` | rocmfpx/convert_lora_to_gguf.py:78-113 | a tuple index that succeeds is the index of the product if and only if rows and columns are slices and slices of leading axes keep them whole unless A is broadcast |
| `LoraEllipsis.EllipsisLaw` | rocmfpx/convert_lora_to_gguf.py:80-97 | an ellipsis in front of other indices, where the indexing succeeds, gives the index of the product for all factors of the given shapes if and only if the tuple used is fit, the meant one is in range and leaves the same shape, and both pick the same positions on every axis, unless no entry could tell |
| `LoraEllipsis.EllipsisMeans` | rocmfpx/convert_lora_to_gguf.py:80-113 | for given factors: right if and only if the tuple used is fit and the meant one picks equal entries of the product |
| `LoraEllipsis.TupleIxCommutes` | rocmfpx/convert_lora_to_gguf.py:78-113 | any tuple with at most one ellipsis, of any length, that succeeds and meets its condition is the index of the product |
| `LoraFailures.BroadcastSliceFails` | rocmfpx/convert_lora_to_gguf.py:73-75 | t[1:3] with A broadcast succeeds and leaves A without entries |
| `LoraFailures.LeadingSliceFails` | rocmfpx/convert_lora_to_gguf.py:99-113 | t[0:1, :, :] succeeds and keeps both halves of A |
| `LoraFailures.EllipsisSliceFails` | rocmfpx/convert_lora_to_gguf.py:80-97 | t[..., 0:1] on four axes succeeds and slices the second |
| `LoraFailures.BroadcastCatFails` | rocmfpx/convert_lora_to_gguf.py:234-243 | joining two tensors with A broadcast succeeds and leaves factors that do not fit |
| `LoraIndexing.ChunkCommutes` | rocmfpx/convert_lora_to_gguf.py:196-207 | a chunk of the factors is the chunk of the product, on every axis |
| `LoraIndexing.SplitCommutes` | rocmfpx/convert_lora_to_gguf.py:191-207 | splitting succeeds exactly when the product can be split, and the chunks are those of the product and cover it |
| `LoraReshaping.ReshapeCommutes` | rocmfpx/convert_lora_to_gguf.py:137-161 | a reshape that succeeds, with open lengths filled in, is the reshape of the product to as many elements |
| `LoraReshaping.ReshapeDefined` | rocmfpx/convert_lora_to_gguf.py:137-161 | the code reshapes whenever A has leading axes of length one and the row length stays |
| `LoraReshaping.PermuteCommutes` | rocmfpx/convert_lora_to_gguf.py:169-180 | a permutation that succeeds is that of the product |
| `LoraReshaping.TransposeCommutes` | rocmfpx/convert_lora_to_gguf.py:182-186 | a transposition that succeeds exchanges two axes of the product |
| `LoraReshaping.StackCommutes` | rocmfpx/convert_lora_to_gguf.py:225-233 | stacking the factors stacks the products |
| `LoraReshaping.CatRowsCommutes` | rocmfpx/convert_lora_to_gguf.py:244-248 | joining matrices that share A joins the products |
| `LoraReshaping.CatCommutes` | rocmfpx/convert_lora_to_gguf.py:234-243 | joining two or more tensors with leading axes is right if and only if A is broadcast in none of them |
| `LoraDefined.PermuteDefined` | rocmfpx/convert_lora_to_gguf.py:169-180 | permuting succeeds if and only if every axis is named once and either the last one stays and all leading lengths of A are one, or two axes are swapped |
| `LoraDefined.TransposeDefined` | rocmfpx/convert_lora_to_gguf.py:182-186 | transposing succeeds if and only if both axes exist and, unless both or neither is the last one, there are only two; else all leading lengths of A are one |
| `LoraDefined.IntDefined` | rocmfpx/convert_lora_to_gguf.py:68-72 | an integer index succeeds if and only if there are more than two axes and it is in range for both factors |
| `LoraDefined.SliceDefined` | rocmfpx/convert_lora_to_gguf.py:73-77 | a slice succeeds if and only if its step is positive |
| `LoraDefined.PaddedDefined` | rocmfpx/convert_lora_to_gguf.py:99-113 | a full tuple succeeds if and only if each index is in range and rows and columns are slices, or both are integers and the last slice in front of them runs over an axis of A as long as the rank |
| `LoraDefined.StackDefined` | rocmfpx/convert_lora_to_gguf.py:225-233 | stacking succeeds if and only if there is a tensor and all have the same shapes |
| `LoraDefined.CatDefined` | rocmfpx/convert_lora_to_gguf.py:234-248 | joining succeeds if and only if there is a tensor, the shapes agree behind the first axis, and matrices share A |
| `LoraDefined.SlicePicks` | rocmfpx/convert_lora_to_gguf.py:73-77 | a slice picks exactly the positions from its start below its end, a multiple of the step away |
| `LoraDefined.SliceBounds` | rocmfpx/convert_lora_to_gguf.py:73-77 | what missing, negative and too large ends of a slice mean |
| `LoraDefined.ChunksEven` | rocmfpx/convert_lora_to_gguf.py:191-207 | all chunks but the last have the length asked for, and the last has what is left |
| `LoraDefined.OpenLength` | rocmfpx/convert_lora_to_gguf.py:137-161 | an open length is what the others leave, if they divide the number of elements |
| `LoraRuns.RunCommutes` | rocmfpx/convert_lora_to_gguf.py:41-248 | any chain of indexing, reshaping, permuting, transposing, splitting, stacking and joining on the factors, where each step meets its condition, ends with factors of what the chain makes of the product |
| `LoraRuns.StepSame` | rocmfpx/convert_lora_to_gguf.py:59-248 | operations on tensors that agree give tensors that agree |
| `Base64.Encode` | rocmfpx/common/base64.hpp:80-144 | the loop writes the symbols of the six-bit groups and the padding |
| `Base64.EncodedSize` | rocmfpx/common/base64.hpp:338-341 | the encoded length is the required size |
| `Base64.DecodedSize` | rocmfpx/common/base64.hpp:324-327 | the decoded length is at most the maximum size |
| `Base64.SizesInFull` | rocmfpx/common/base64.hpp:324-341 | both sizes, for whole groups and for any rest |
| `Base64.RoundTrip` | rocmfpx/common/base64.hpp:80-244 | decoding inverts encoding for every byte string and alphabet, given or detected, with any number of padding characters (sections 4 and 5 of RFC 4648) |
| `Base64.AlphabetTables` | rocmfpx/common/base64.hpp:80-144 | every value has the character of the two tables of RFC 4648 |
| `Base64.TestVectors` | rocmfpx/common/base64.hpp:80-144 | the encodings of f, fo, foo and foobar are those of section 10 of RFC 4648 |
| `Base64.AlphabetsDiffer` | rocmfpx/common/base64.hpp:80-144 | two bytes whose encodings differ between the alphabets |
| `Base64.AutoDetects` | rocmfpx/common/base64.hpp:366-386 | detecting the alphabet is decoding with that of the first special character |
| `Base64.Accepts` | rocmfpx/common/base64.hpp:200-244 | a text is accepted if and only if one alphabet covers it up to the first padding character and, unless loose, only padding follows |
| `Base64.SymbolsKnown` | rocmfpx/common/base64.hpp:344-388 | an alphabet knows exactly the 64 characters it writes, and detection those of both |
| `Base64.OctetsSnoc` | rocmfpx/common/base64.hpp:218-230 | after k symbols floor(3k/4) bytes are complete and 6k mod 8 bits wait; the next symbol completes the byte the shifts compute |
| `Base64.SymbolDecoded` | rocmfpx/common/base64.hpp:211-232 | one turn of the decoder, in terms of the symbols read so far |
| `Base64.Decode` | rocmfpx/common/base64.hpp:200-244 | decoding to a fresh buffer computes the reference decoding and rejects what it rejects |
| `Base64.DecodeInPlace` | rocmfpx/common/base64.hpp:294-313 | decoding over the input gives the same bytes and rejections; the write position stays behind the read position |
| `Escapes.ProcessEscapes` | rocmfpx/common/common.cpp:613-648 | the loop in one buffer gives the left-to-right replacement of the original text; nothing is overwritten before it is read |
| `Escapes.DoublingProtects` | rocmfpx/common/common.cpp:613-648 | doubling every backslash protects any text |
| `Escapes.UnchangedExactly` | rocmfpx/common/common.cpp:613-648 | a text is unchanged, and keeps its length, if and only if it holds no escape that is replaced |
| `Escapes.Appended` | rocmfpx/common/common.cpp:613-648 | texts are replaced one after the other unless the first one ends inside an escape |
| `Escapes.LetterEscapes` | rocmfpx/common/common.cpp:613-648 | the six escapes of one letter give newline, return, tab, both quotes and the backslash, and the text behind them follows |
| `Escapes.HexEscapes` | rocmfpx/common/common.cpp:613-648 | two hexadecimal digits give their byte; a blank or sign in front of one digit is read as the number parser reads it |
| `Escapes.UnreadableHex` | rocmfpx/common/common.cpp:625-640 | an x without two characters that can be read as a number stays as it is, and what is behind it is read on its own |
| `Escapes.OtherTexts` | rocmfpx/common/common.cpp:613-648 | any other character, after a backslash or not, stays |
| `Glob.ClassMatch` | rocmfpx/common/common.cpp:696-734 | a character is in a bracket class if and only if the class read as elements says so |
| `Glob.FindClassEnd` | rocmfpx/common/common.cpp:757-766 | the end of a class, or of the pattern |
| `Glob.GlobMatch` | rocmfpx/common/common.cpp:737-781 | the recursive matcher ends and accepts if and only if the text can be cut into one piece for each token of the pattern |
| `Glob.Glob` | rocmfpx/common/common.cpp:783-785 | the same for any two strings, up to their first zero byte |
| `Glob.SlashesMatch` | rocmfpx/common/common.cpp:736-781 | without ** and classes a pattern matches only names with as many slashes as it spells out |
| `Glob.StarStep` | rocmfpx/common/common.cpp:741-753 | a star token stands for nothing or for one character more |
| `Glob.EmptyPattern` | rocmfpx/common/common.cpp:738-740 | the empty pattern stands for the empty text only |
| `Glob.AnyPathPattern` | rocmfpx/common/common.cpp:741-746 | two stars in front of a pattern stand for any text in front of one that it stands for |
| `Glob.AnyNamePattern` | rocmfpx/common/common.cpp:747-753 | one star, with no star behind it, stands for any text without a slash |
| `Glob.AnyCharPattern` | rocmfpx/common/common.cpp:754-756 | a question mark stands for one character that is no slash |
| `Glob.PlainPattern` | rocmfpx/common/common.cpp:770-780 | any other character, or an opening bracket that is never closed, stands for itself |
| `Glob.ClassPattern` | rocmfpx/common/common.cpp:696-734 | plain characters in brackets stand for one of them, and behind a bang for one character that is none of them |
| `Glob.LeadPattern` | rocmfpx/common/common.cpp:704-710 | a bracket or dash in front of the others in a class stands for itself; behind a bang only the dash does, and a class of nothing but a bang stands for any character |
| `Glob.RangePattern` | rocmfpx/common/common.cpp:718-727 | a range in brackets stands for one character between its ends, compared as signed bytes |
| `Glob.UpToZero` | rocmfpx/common/common.cpp:783-785 | a pattern or text without a zero byte counts whole, and one with a zero up to it |
| `Checkpoints.Checkpoint.Copy` | rocmfpx/common/common.cpp:2089-2099 | a copy has the same meaning on handles that were not live before |
| `Checkpoints.Checkpoint.Move` | rocmfpx/common/common.cpp:2123-2135 | a move takes handles and meaning and leaves none |
| `Checkpoints.Checkpoint.CopyAssign` | rocmfpx/common/common.cpp:2101-2121 | the old handles are freed, the new ones are clones; assigning to itself changes nothing |
| `Checkpoints.Checkpoint.MoveAssign` | rocmfpx/common/common.cpp:2137-2161 | the old handles are freed and those of the other taken; assigning to itself changes nothing |
| `Checkpoints.Checkpoint.Clear` | rocmfpx/common/common.cpp:2175-2190 | the handles are freed and the fields reset, but for nothing else |
| `Checkpoints.Checkpoint.UpdateTgt` | rocmfpx/common/common.cpp:2201-2226 | the state is captured, on the device with one handle and on the host with none |
| `Checkpoints.Checkpoint.UpdateDft` | rocmfpx/common/common.cpp:2228-2253 | as for the target |
| `Checkpoints.HoldersChange` | rocmfpx/common/common.cpp:2084-2190 | replacing what one checkpoint holds keeps the live handles the disjoint union of those held |
| `Checkpoints.HolderGone` | rocmfpx/common/common.cpp:2084-2087 | destroying any one checkpoint, wherever it stands, keeps the live handles the disjoint union of those held |
| `Checkpoints.Program.PerformAll` | rocmfpx/common/common.cpp:2084-2309 | any program, destroying in any order, keeps the live handles exactly the disjoint union of those held, and computes what it computes on plain values |
| `Checkpoints.Program.NothingLeaks` | rocmfpx/common/common.cpp:2084-2087 | when all checkpoints are gone no handle is live |
| `Checkpoints.UntouchedKeeps` | rocmfpx/common/common.h:1162-1225 | over any program a checkpoint that is not named keeps its value, whichever others are destroyed, so a copy does not change with its original |
| `Checkpoints.SavedAndRestored` | rocmfpx/common/common.cpp:2089-2121 | copying a checkpoint away, clearing it and assigning it back leaves all as before |
| `Checkpoints.MovedThereAndBack` | rocmfpx/common/common.cpp:2123-2161 | so does moving it away and back |
| `Checkpoints.CapturedWhole` | rocmfpx/common/common.cpp:2201-2253 | a new checkpoint holds exactly the positions set and the two states captured, on the host or on the device |
| `Checkpoints.AnyChange` | rocmfpx/common/common.cpp:2123-2309 | what moving, clearing, dropping and capturing nothing leave of any checkpoint |
| `TemplateCache.RequestCache.GenLookup` | rocmfpx/common/chat.cpp:2273-2285 | a lookup finds the kept prompt and counts one hit or one miss |
| `TemplateCache.RequestCache.GenStore` | rocmfpx/common/chat.cpp:2287-2300 | a store replaces in place or appends and drops the oldest of nine |
| `TemplateCache.RequestCache.ParserStore` | rocmfpx/common/chat.cpp:2334-2352 | as for prompts, with prompt and generation prompt cleared |
| `TemplateCache.RequestCache.Analysis` | rocmfpx/common/chat.cpp:2253-2263 | the analysis of a template is that of its source, however often it is asked for |
| `TemplateCache.RequestCache.Apply` | rocmfpx/common/chat.cpp:2354-2530 | a request on the cache object computes the request function and the new caches and counters |
| `TemplateCache.PutKeepsTidy` | rocmfpx/common/chat.cpp:2287-2300 | keys stay distinct and at most eight, the stored value is found, nothing else is added |
| `TemplateCache.NewKeysStay` | rocmfpx/common/chat.cpp:2287-2300 | stores under keys that are all new leave the last eight entries in order |
| `TemplateCache.HeldKeyChanges` | rocmfpx/common/chat.cpp:2287-2300 | a store under a key that is held changes that entry in place and no other |
| `TemplateCache.RequestGives` | rocmfpx/common/chat.cpp:2390-2530 | whatever the caches hold, a request is refused exactly for a grammar beside tools that may be called, its prompt is the template rendered with the extra context, and pure content and special templates come from their own parsers |
| `TemplateCache.RequestKeeps` | rocmfpx/common/chat.cpp:2390-2530 | which generation prompt and parser a request takes from the caches, that both are kept afterwards, and which of the five counters go up |
| `TemplateCache.RepeatedRequest` | rocmfpx/common/chat.cpp:2390-2530 | a request repeated at once gives the same outcome, counts one hit in each cache and changes nothing else |
| `TemplateCache.GenKeyTells` | rocmfpx/common/chat.cpp:2265-2271 | keys agree if and only if template, tokens, tools and flags do, for texts free of the separator |
| `TemplateCache.ParserKeyTells` | rocmfpx/common/chat.cpp:2311-2318 | requests with the same parser key generate the same parser, for texts free of the separator |
| `TemplateCache.CachedKeepsSound` | rocmfpx/common/chat.cpp:2273-2352 | every request keeps the caches tidy and true, and hits plus misses count the lookups |
| `TemplateCache.RunIsUncached` | rocmfpx/common/chat.cpp:2390-2530 | if the suffix depends only on the key, every run with the caches gives the outcomes without them |
| `TemplateCache.CacheLaw` | rocmfpx/common/chat.cpp:2390-2530 | the caches change no outcome of any run if and only if the suffix depends only on the key |
| `TemplateCache.AnyTemplate` | rocmfpx/common/chat.cpp:2390-2530 | for any template and any caches the generation prompt is empty, ends the prompt or is the one computed now, unless the request is for pure content and its key is kept; then it is the kept one |
| `TemplateCache.EndsWithIs` | rocmfpx/common/chat.cpp:2502-2507 | a prompt ends with a generation prompt if and only if it is some text followed by it |
| `TemplateCache.ParserBelongs` | rocmfpx/common/chat.cpp:2486-2522 | on the generic path the parser is always the one for the generation prompt that is returned |
| `TemplateCache.TrustLaw` | rocmfpx/common/chat.cpp:2390-2530 | every generation prompt of every run is empty, ends its prompt or is the one computed now, if and only if that holds of the prompts of any two requests with the same key |
| `TemplateCache.StalePureContent` | rocmfpx/common/chat.cpp:2437-2451 | pure content after a request with other messages comes with the generation prompt of those messages |

## Left out

- PEG engine and syntax trees: the mapper is given the list of tagged nodes in visiting order; partial Gemma trees are given as trees.
- Jinja rendering, parser generation and template analysis: functions of exactly the inputs the code passes them; their exceptions are not modelled.
- The JSON library: reading and escaping are written after RFC 8259; numbers are kept as their text, and text that is not UTF-8, on which the library's dump throws, is not modelled.
- Events after a nameless call was discarded: the code then follows a dangling pointer; such event lists are outside `PegMapper.Visitable`.
- Messages: role, content parts and tool name never change in the diff and are not modelled; the client takes identifier and name together when either is given.
- MessageDiff.StampedRun: assumes that the generator of identifiers never returns a blank one.
- ChatStreaming.StreamingLaw: event lists follow the call protocol of `ChatStreaming.PhaseStep`, as the grammars of the templates produce; a call that is named twice, or mixes the two ways of giving arguments, is outside it.
- ToolArguments.TaggedCallIsObject: raw text that is neither JSON, nor blank, nor a literal of the Python grammar is judged only if it is closed and no value can be read from it; a text such as `1,"y":2`, which the tag grammar of chat-peg-parser.cpp:481 also takes, reads as a further member (`ToolArguments.RawMembers`).
- GemmaPrinter: the visitor that finds the argument node of a call is not modelled.
- The key list of cacheable templates and its copy in the dispatch are one predicate; mutexes, logging and the environment switch are a flag or nothing.
- TemplateCache.GenKeyTells: needs template source, tokens and tools free of the separator character, which JSON text always is.
- TemplateCache.ParserKeyTells: needs source, generation prompt, tools and schema free of the separator character.
- Terminal output, key decoding and Windows branches of the console: keys arrive decoded, widths come from a function, and the screen column is a number without line wrapping.
- ReadLine.ReadLine: requires that completions and the history offer valid text and that typed values are code points; `LineEditor.Line.Insert` and `LineEditor.Line.SetLineContents` say exactly what happens otherwise.
- Python values of scalar GGUF entries: they are kept as the bytes they are packed in, so a change of not-a-number payloads in conversion is not seen; the recursion limit is not modelled.
- GgufRewrite.Sanitize: replacement texts are byte strings; texts that cannot be encoded count as values that cannot be packed.
- GgufRewrite.RewrittenParses: needs a positive alignment, without which the script's arithmetic does not align.
- Tensor indices inside index tuples, element types and floating-point rounding of `LoraTorchTensor`; a split axis below minus the number of axes.
- LoraEllipsis: tuples with more than one ellipsis, which the tensor library refuses, are expanded but not judged.
- LoraReshaping.CatCommutes: is stated for parts of at least one entry along the joined axis, and for two or more parts.
- LoraReshaping.ReshapeCommutes: a factor pair of rank 0 can be reshaped to a different number of elements by the code; the count is stated for positive rank.
- Base64 iterators: the out-of-place decoder writes a sequence; the throwing of the in-place one is a result, with the buffer left partly written.
- Characters of file patterns compare as signed bytes, and `strtol` as in the C locale.
- Checkpoints: vectors are empty after a move; `load_tgt`, `load_dft` and `size` only read and are left out; a failed capture aborts the process.
- `arg.cpp`, grammar builders, template probes, model loading, downloads and the other scripts: option tables, compositions over code that is not here, file and network access.
