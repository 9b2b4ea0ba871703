# Verified models of the llama.cpp tooling behind the study bot

The study bot ships a copy of llama.cpp. This project models the parts of that copy whose correctness
rests on an argument rather than on inspection, and proves the argument. Every statement is about all
inputs unless it says otherwise; where the code does not keep a promise, there is a concrete input that
shows it and, next to it, the exact condition under which the promise holds.

Run `dafny verify dfyconfig.toml` to check everything. Every lemma is marked `{:induction false}`: inductions are
written out as recursive calls.

## What is modelled

**What JSON is** (`JsonGrammar`, `JsonMeaning`, `GrammarTokens`, `GrammarStrings`, `GrammarTheorems`,
`ReadMeaning`, `ReadableTexts`, `ViablePrefixes`). The grammar of RFC 8259, with UTF-8 as in RFC 3629, and what
each text of it means, written on slices of a string without the parser. `json::parse` accepts exactly the texts
of that grammar (`ParsesExactly`) and returns exactly what they mean (`ReadsExactly`): escapes and surrogate
pairs become UTF-8, and a repeated key replaces the value in its old place. Escaped surrogates outside a pair,
which RFC 8259 leaves open, are refused, as the lexer does. `CanBeginExactly` says which texts can still become
JSON texts, and `ErrorPositionExactly` what the reported position has to do with it.

**Healing truncated JSON** (`JsonText`, `SaxEvents`, `Text`, `PartialJson`, `HealingTheorems`,
`CommonJson`). `JsonText` is the vendored nlohmann parser as a character automaton with a container
stack: one `char` is one byte, and strings keep the lexer's escapes, surrogate pairs and UTF-8 ranges.
`SaxEvents` adds the callbacks and the listener that records a stack of OBJECT, KEY and ARRAY. The
branches of `common_json_parse` each try one completion and write another one; the proof reads the
branch off the automaton state, so that what is written is known to fit. A text that stops inside a `\u`
escape is cut back to the last `:`, `,` or `[`, which may be part of a string (`BracketInsideString`);
`EscapedTextHealsExactly` says when that works.

**Reading and dumping** (`JsonValue`, `JsonRead`, `DumpRead`, `HealedRead`, `HealedDump`, `HealedCut`).
`JsonRead` runs the automaton together with what the parser builds, so that every text that parses has a
value; `DumpReadBack` is the round trip. The value a healed text reads as is derived for every text, and
with it the promise of `json_dump_marker`: cutting `json.dump()` at its first occurrence gives back what
was read. That holds under an exact condition (`CutExactly`, `CutGivesBackDump`): the marker is drawn so
that it is not in the input, but it may start in the input and end in itself (`MarkerRunsOverTheEnd`), and
with escapes the raw input does not decide it (`EscapesMoveTheCut`).

**Cleaning what was healed** (`JsonClean`, `CleanTheorems`, `PartialResults`, `CleanedParts`). The recursion that removes
the marker and dumps arguments, with the shared `path` that its `break`s leave too long.
`PartialExactlyWhenCut` goes from the input to the flag: a result is partial exactly when the input was cut.
Complete values are flagged exactly when cleaning meets the marker in them (`CompleteFlaggedExactly`), and
`MarkerSpelledByEscapes` is a complete text that is, because escapes spell a marker that the raw text does
not contain. `CleanLeaves` says of every value what is left of each member and item: on a complete text the
arguments are replaced by texts that read as them, and nothing else changes (`CompleteReplaced`).

**Streaming chat parsing** (`ChatParser`, `ReasoningBlocks`, `StreamingTheorems`, `JsonStreaming`). Literals, partial
literals, reasoning blocks and JSON on a message that is still growing. Reasoning text is never
retracted unless the end of the opening tag can run into the closing tag (`BadTags`); then it is, and
`BadTagsRetract` builds the two messages.

**LoRA pairs** (`Tensors`, `TensorMeaning`, `LoraTensor`, `LoraTheorems`, `LoraAccepted`, `LoraStacking`,
`LoraIndexing`, `LoraEllipsis`, `LoraCases`, `LoraPairing`, `LlamaPermute`). A pair `(A, B)` stands for the product of `B` and `A`, as
`torch.matmul` multiplies them with broadcasting. Each operation on the pair is proved to commute with
multiplying out, over exact elements, and `LoraAccepted` says exactly which operations are accepted, over the
shapes of the factors. Where the code accepts an operation that does not, the exact
condition is proved and `LoraCases` has a pair that shows it: a slice of a dimension that `A` repeats, a
concatenation of such pairs, a single element of the matrix, and an ellipsis in the middle of an index,
which is expanded from the length of the tuple and not from the rank.

**Merge recovery, expert merging and re-layout** (`Bpe`, `ExpertMerge`, `NibbleLayout`). The greedy
merge loop with its rank limit; the buffers that collect the experts of each layer; the nibble shuffle of
MXFP4 blocks, expression by expression on bytes. The final leftover check of expert merging does not
notice a layer of which nothing at all arrived (`LeftoverExactly`).

**Base64** (`Base64`). RFC 4648, sections 4 and 5: encoder, decoder, in-place decoder, alphabet
detection.

**GGML files** (`GgmlScan`, `GgmlAccepted`, `GgmlTheorems`, `GgmlRoundTrip`). Header, vocabulary and tensor records with
NumPy's 64-bit arithmetic and Python's slices. The scan does not end on every file: a record whose size
overflows can send it back (`LoopingFileNeverEnds`), and `LoopingFile` is a whole file that is never read to
its end. `LengthExactly` says when a recorded size is right,
`FileSpansInOrder` exactly when the recorded spans are in order, and every file either ends within a bound
or never, the latter exactly when an offset comes back (`EndsSoonOrNever`, `NeverEndsExactly`). The scanning
methods therefore take a limit on the number of records.

## Model

| member | source | states |
|---|---|---|
| JsonText.ClosesExactly | llama.cpp/vendor/nlohmann/json.hpp:13038-13330 | a list of closing brackets completes a text exactly when a value could have ended there and they are the brackets of the open containers, innermost first |
| JsonText.RunFits | llama.cpp/vendor/nlohmann/json.hpp:13038-13330 | every state the parser reaches over any text is well formed: key states only directly inside objects, values inside arrays only where one is due |
| JsonText.BracketStep | llama.cpp/vendor/nlohmann/json.hpp:13233-13330 | a closing bracket ends the innermost container exactly when it is its own and a value could have ended, and leads nowhere otherwise |
| GrammarTokens.NumberExactly | llama.cpp/vendor/nlohmann/json.hpp:7992-8310 | the number scanner accepts exactly an optional minus, `0` or digits without a leading zero, an optional fraction and an optional exponent |
| GrammarStrings.CharactersExactly | llama.cpp/vendor/nlohmann/json.hpp:7277-7857 | the string scanner is between two characters exactly after a series of characters of the grammar: unescaped ones, well-formed UTF-8, short escapes, and `\uXXXX` escapes with surrogates in pairs only |
| GrammarTheorems.ParsesExactly | llama.cpp/vendor/nlohmann/json.hpp:13038-13330 | a text parses exactly when it is a JSON text of RFC 8259, with blanks around it |
| ReadMeaning.Utf8Encodes | llama.cpp/vendor/nlohmann/json.hpp:7402-7430 | what the lexer appends for a code point is a well-formed UTF-8 sequence of that code point |
| ReadMeaning.ReadsExactly | llama.cpp/vendor/nlohmann/json.hpp:8817-9010 | a text parses to a value exactly when it means that value, by a definition on the grammar alone |
| ReadableTexts.ReadDumpedBack | llama.cpp/vendor/nlohmann/json.hpp:18828-19112 | whatever any text parses to can be dumped, and parsing the dump gives it again |
| ViablePrefixes.CanBeginExactly | llama.cpp/vendor/nlohmann/json.hpp:13038-13330 | some continuation makes a text a JSON text exactly when no character and no token of it has been refused and it does not stop inside an escape whose digits already make a misplaced surrogate |
| ViablePrefixes.ErrorPositionExactly | llama.cpp/common/json-partial.cpp:48-54 | the reported position is not before the end of anything that can begin a JSON text, and what is before it can, unless it stops inside a token or escape that had already gone wrong |
| SaxEvents.StepMirror | llama.cpp/common/json-partial.cpp:55-111 | at each character the callbacks raised meet the assertions of `end_object` and `end_array` and keep the stack the mirror of the nesting |
| SaxEvents.RunMirror | llama.cpp/common/json-partial.cpp:55-111 | the same over any text not yet refused |
| SaxEvents.MirrorShape | llama.cpp/common/json-partial.cpp:159-169 | keys sit directly on objects, containers at the bottom or on a key or array, and `closing` is exactly the brackets that close the open containers |
| SaxEvents.JsonErrorLocator.On | llama.cpp/common/json-partial.cpp:55-111 | one callback changes the stack as specified, under the assertion the code makes |
| SaxEvents.JsonErrorLocator.OnAll | llama.cpp/common/json-partial.cpp:55-111 | a series of callbacks does |
| SaxEvents.JsonErrorLocator.ParseError | llama.cpp/common/json-partial.cpp:48-54 | records the position and that there was an error, nothing else |
| SaxEvents.ErrorPositionState | llama.cpp/vendor/nlohmann/json.hpp:7992-8330 | the reported position is not past what was read, and the listener's stack is the one of the text before it, also when the lexer read one character too many |
| SaxEvents.SaxParse | llama.cpp/common/json-partial.cpp:113-120 | after `sax_parse` an error is recorded exactly when the text does not parse, at the specified position, with the stack of the text before it |
| Text.FirstAtJoin | llama.cpp/common/json-partial.h:10 | the first occurrence of a marker appended to a text is the join exactly when it is neither in the text nor starts in it and runs over the join |
| PartialJson.GuardSuits | llama.cpp/common/json-partial.cpp:173-232 | when a branch is taken its guard, on another completion, already shows that the text stops where the branch's own text fits, and that `closing` closes it |
| PartialJson.EmissionReady | llama.cpp/common/json-partial.cpp:173-232 | from such a state what the branch writes leads to the end of a value at the same depth |
| PartialJson.HealedParses | llama.cpp/common/json-partial.cpp:173-245 | for every text and stack, a branch that does not cut back keeps the text and writes one that parses |
| PartialJson.CutGivesBackKept | llama.cpp/common/json-partial.cpp:173-240 | in the healed text itself the first `json_dump_marker` is right behind the kept text exactly when it neither occurs in that text nor runs over its end |
| HealingTheorems.BranchTaken | llama.cpp/common/json-partial.cpp:173-243 | which of the branches a text takes, as a function of the state it ends in and its last character |
| HealingTheorems.DigitMarkerExactly | llama.cpp/common/chat-parser.cpp:18-24 | with a marker of digits not in the input, as the parser draws it, the first `json_dump_marker` of the healed text is at the join exactly when the branch taken writes something before the marker or the marker does not start in the input |
| HealingTheorems.ObjectOpenedNeverTaken | llama.cpp/common/json-partial.cpp:180-182 | the branch for an opening brace under a KEY is dead code |
| HealingTheorems.CutParsesExactly | llama.cpp/common/json-partial.cpp:189-240 | a text cut back to a `:`, `[` or `,` heals exactly when a value was due there with the same containers open |
| HealingTheorems.PrimitiveCutPlace | llama.cpp/common/json-partial.cpp:148-240 | for a text that stops in a number or literal the character cut back to is structural, makes a value due, and has the same containers open |
| HealingTheorems.TruncatedTextHeals | llama.cpp/common/json-partial.cpp:140-248 | every text that stops inside an object or array and not inside an escape heals: the result parses, and starts with the text, or with the text up to the value that was cut, in the same containers |
| HealingTheorems.EscapedTextHealsExactly | llama.cpp/common/json-partial.cpp:189-240 | a text that stops inside an escape, or at a token the grammar refuses, heals exactly when the character cut back to is structural at the same depth |
| CommonJson.BuildClosing | llama.cpp/common/json-partial.cpp:159-169 | the loop builds the specified closing string |
| CommonJson.CommonJsonParse | llama.cpp/common/json-partial.cpp:32-256 | the whole function computes the specified outcome: parsed, healed, refused or thrown |
| ViablePrefixes.OutcomeExactly | llama.cpp/common/json-partial.cpp:32-256 | for every input: a JSON text is parsed whole, otherwise a JSON text before the error is; without a marker or outside containers nothing is; what remains is healed to a JSON text, or thrown |
| CommonJson.TruncatedOutcome | llama.cpp/common/json-partial.cpp:117-248 | on every text truncated inside a container it succeeds, consumes everything and returns a text that parses |
| CommonJson.EscapedOutcome | llama.cpp/common/json-partial.cpp:189-245 | on a text truncated inside an escape it succeeds or throws, by the exact condition |
| CommonJson.ValueThenText | llama.cpp/common/json-partial.cpp:117-131 | a complete value followed by other text is parsed up to that text, except that nothing is parsed when it starts a token of more than one character |
| CommonJson.MarkerRunsOverTheEnd | llama.cpp/common/json-partial.cpp:195-213 | for the input `["12` and the marker `1212`, not in it, the function returns a text in which the dump marker comes two characters before the join |
| CommonJson.BracketInsideString | llama.cpp/common/json-partial.cpp:211-245 | an input cut inside a `\u` escape after a bracket of its string makes the function throw |
| JsonValue.DumpParses | llama.cpp/vendor/nlohmann/json.hpp:18828-19112 | every value that can be dumped dumps to a text that parses |
| JsonValue.EscapeExactly | llama.cpp/vendor/nlohmann/json.hpp:19112-19230 | how each character of a dumped string is written |
| JsonRead.RunFitsReader | llama.cpp/vendor/nlohmann/json.hpp:8817-9010 | over any text the containers being filled are, one for one, the open ones, and hold something exactly where a value or a comma came last |
| DumpRead.DumpReadBack | llama.cpp/vendor/nlohmann/json.hpp:18828-19112 | parsing what a value dumps to gives the value back |
| DumpRead.CutDumpHeld | llama.cpp/common/json-partial.h:10 | wherever a dump is cut, except inside an escape, what has been read so far, written as a dump writes it, is exactly the text up to there |
| HealedRead.HealedTextReads | llama.cpp/common/json-partial.cpp:173-245 | every text that heals reads, once healed, as the value it had begun, with the marker put where it stopped and all containers closed |
| HealedDump.HealedShapeExactly | llama.cpp/common/json-partial.cpp:173-245 | that value has the marker in the last key or string only, as its branch put it there, exactly when nothing read before has the marker and it does not start in the string it is appended to |
| HealedDump.HealedDumped | llama.cpp/common/json-partial.h:10 | its dump is what was read, written as a dump, then the dump marker, then what closes the string and the containers |
| HealedCut.CutExactly | llama.cpp/common/json-partial.h:10 | for a marker without characters that a dump escapes, where no pending key and not the key written repeats: cutting that dump at the first `json_dump_marker` gives what was read, written as a dump, exactly when the marker neither occurs in it nor runs over its end |
| HealedCut.HealedTextCut | llama.cpp/common/json-partial.h:10 | the same from the text on, with a marker not in what was read: the cut is right exactly when the branch writes something before the marker or the marker does not start in what was read |
| HealedCut.CutGivesBackDump | llama.cpp/common/json-partial.h:10 | for any part at the front of a dump, cutting `json.dump()` of the healed value gives back the kept text itself, under the same exact condition |
| HealedCut.ApartHealed | llama.cpp/common/chat-parser.cpp:304-318 | when the marker is apart from what was read, the healed value has it in its one place, and its dump has it first there |
| HealedCut.HealedPlace | llama.cpp/common/chat-parser.cpp:332-379 | with a marker not in what was read, wherever it may start, the value of a healed text has it, and only in its rightmost leaf or last key |
| JsonClean.Cleaner.Remove | llama.cpp/common/chat-parser.cpp:304-381 | the recursion over a shared path computes what a recursion with true key paths computes, when the marker is at most in the rightmost place, and leaves the path as it was when the marker is nowhere |
| JsonClean.Cleaner.RemoveMembers | llama.cpp/common/chat-parser.cpp:332-363 | the same for the loop over members |
| JsonClean.Cleaner.RemoveItems | llama.cpp/common/chat-parser.cpp:364-379 | the same for the loop over items |
| JsonClean.ConsumeJsonWithDumpedArgs | llama.cpp/common/chat-parser.cpp:283-389 | the whole call on a parsed value, with its two early returns |
| CleanTheorems.CleanFree | llama.cpp/common/chat-parser.cpp:304-381 | a value with the marker nowhere is cleaned without finding it |
| CleanTheorems.HealedIsRightmost | llama.cpp/common/chat-parser.cpp:332-379 | a value of the shape healing leaves fits the recursion that shares one path |
| CleanTheorems.CleanBare | llama.cpp/common/chat-parser.cpp:302-388 | when `json_dump_marker` is the marker itself, cleaning any object or array leaves the marker in no key, string or dumped argument, and finds it whenever it was there |
| CleanTheorems.CleanHealed | llama.cpp/common/chat-parser.cpp:302-388 | cleaning an object or array of that shape finds the marker and leaves it nowhere; where the branch wrote something before the marker, it must come first there in the dump, which HealedCut.ApartHealed derives from the text |
| PartialResults.HealedTextIsPartial | llama.cpp/common/chat-parser.cpp:283-389 | any text that heals, with a marker not in what was read: the value it reads as is cleaned of the marker everywhere and flagged partial, unless a content path that holds no string is reached, and then the call throws |
| PartialResults.PartialExactlyWhenCut | llama.cpp/common/chat-parser.cpp:233-389 | from the input to the flag: for every part at the front of a dumped object or array that is parsed, all of it is consumed, the result has the marker nowhere, and it is flagged partial exactly when the input is not the whole dump; the call throws exactly when a misused content path is reached |
| PartialResults.ThrowsExactly | llama.cpp/common/chat-parser.cpp:320-323 | cleaning throws exactly when it comes to a content path that holds no string, outside dumped arguments and not behind a break |
| PartialResults.ConsumeThrowsExactly | llama.cpp/common/chat-parser.cpp:283-389 | the same of the whole call, past its two early returns |
| PartialResults.SeenExactly | llama.cpp/common/chat-parser.cpp:304-381 | an unhealed value is flagged partial exactly when some key, or some member or item string outside the argument paths, has the marker the parser drew, or a content path is reached |
| PartialResults.CompleteFlaggedExactly | llama.cpp/common/chat-parser.cpp:283-389 | for every complete text the same of the value it reads as, with the two early returns |
| CleanTheorems.CleanKeeps | llama.cpp/common/chat-parser.cpp:304-381 | without the marker and without paths, a value with distinct keys comes back unchanged |
| CleanedParts.CleanLeaves | llama.cpp/common/chat-parser.cpp:304-381 | what cleaning leaves of any value: which members and items are kept and under which keys, which strings are cut where, and that each argument is a text that reads as its value, or its dump up to the dump marker |
| CleanedParts.ConsumedLeaves | llama.cpp/common/chat-parser.cpp:283-389 | the same of the whole call on what any input was parsed to, with its two early returns |
| CleanedParts.CompleteReplaced | llama.cpp/common/chat-parser.cpp:283-389 | on a complete text whose value has the marker nowhere, every value at an argument path is replaced by a text that parses to it, and all else is unchanged |
| CleanedParts.RootArgumentsAreText | llama.cpp/common/chat-parser.cpp:305-318 | when the whole JSON is the argument and a dump is cut, the argument is the text healing kept, exactly when the marker does not run over its end |
| PartialResults.MarkerSpelledByEscapes | llama.cpp/common/chat-parser.cpp:18-24 | a complete input without the marker is parsed, reads as a value that has it, loses a member and is reported partial |
| PartialResults.EscapesMoveTheCut | llama.cpp/common/json-partial.h:10 | an input with escapes in which the marker neither occurs nor starts at the end, and whose dump is still cut two characters early |
| ChatParser.StringStrip | llama.cpp/common/common.cpp:404-414 | the two loops strip front and back |
| ChatParser.FindPartialStop | llama.cpp/common/common.cpp:461-475 | the loop from the longest prefix down finds the start of the longest suffix that is a prefix of the literal, or nothing when there is none |
| ChatParser.DrawMarker | llama.cpp/common/chat-parser.cpp:18-24 | the marker is the first one drawn that is not in the input |
| ChatParser.MsgParser.constructor | llama.cpp/common/chat-parser.cpp:13-25 | a new parser stands at the start, with a marker not in the input |
| ChatParser.MsgParser.TryConsumeLiteral | llama.cpp/common/chat-parser.cpp:94-107 | succeeds exactly when the literal comes next, and moves past it, or not at all |
| ChatParser.MsgParser.TryFindLiteral | llama.cpp/common/chat-parser.cpp:109-131 | gives the first occurrence, or on partial input the possible start at the end, and moves past it |
| ChatParser.MsgParser.ConsumeSpaces | llama.cpp/common/chat-parser.cpp:84-92 | moves past the blanks and says whether there were any |
| ChatParser.MsgParser.ConsumeRest | llama.cpp/common/chat-parser.cpp:176-180 | gives the rest and moves to the end |
| ChatParser.MsgParser.TryParseReasoning | llama.cpp/common/chat-parser.cpp:139-174 | position, reasoning and content after a block: the text goes to the reasoning, or into the content between the tags, `<think>` and `</think>` for Deepseek, the closing one only when the block is closed |
| ReasoningBlocks.BlockExactly | llama.cpp/common/chat-parser.cpp:94-174 | which block is taken: none, one up to the first closing tag, one up to the longest end of a partial message that could become the tag, or the rest; its text is stripped, and parsing goes on behind the blanks |
| ReasoningBlocks.ShownAgain | llama.cpp/common/chat-parser.cpp:139-174 | a text between the two tags is parsed as that text, closed, to the end, exactly when it has no blanks at its ends and the closing tag neither is in it nor runs over its end |
| ChatParser.MsgParser.TryConsumeJson | llama.cpp/common/chat-parser.cpp:233-249 | answer and position: nothing, a value, or one of the two exceptions |
| StreamingTheorems.StripMonotone | llama.cpp/common/common.cpp:404-414 | stripping a prefix gives a prefix of stripping the whole |
| StreamingTheorems.ReasoningNeverRetracts | llama.cpp/common/chat-parser.cpp:94-174 | the reasoning shown for a partial prefix is a prefix of the reasoning shown for every extension, partial or complete, unless the tags overlap badly |
| StreamingTheorems.BadTagsRetract | llama.cpp/common/chat-parser.cpp:94-174 | with tags that overlap badly there are two messages, one extending the other, whose reasoning is taken back |
| StreamingTheorems.DisjointTagsAreGood | llama.cpp/common/chat-parser.cpp:139-174 | tags where no end of the opening one starts the closing one never overlap badly |
| StreamingTheorems.OverlappingTags | llama.cpp/common/chat-parser.cpp:139-174 | a pair of tags that do |
| JsonStreaming.CutOffJson | llama.cpp/common/chat-parser.cpp:233-249 | on a message cut off inside a container the partial parser takes all of it and the complete parser throws the partial exception |
| JsonStreaming.WholeJson | llama.cpp/common/chat-parser.cpp:233-249 | a complete value is taken without a marker, or nothing is, by what follows it |
| JsonStreaming.NoJsonThere | llama.cpp/common/chat-parser.cpp:233-239 | where no JSON text and no container begins nothing is taken |
| JsonStreaming.CutOffInEscape | llama.cpp/common/chat-parser.cpp:233-239 | a message cut off inside an escape that cannot be cut back raises the parse error at the old position |
| TensorMeaning.ReshapeKeepsOrder | llama.cpp/convert_lora_to_gguf.py:150-153 | a reshape keeps every element at its row-major position |
| TensorMeaning.PermuteMoves | llama.cpp/convert_lora_to_gguf.py:161-169 | dimension `k` of a permuted tensor is dimension `dims[k]`, for shapes and elements |
| TensorMeaning.CatHolds | llama.cpp/convert_lora_to_gguf.py:209-218 | concatenating appends rows: each tensor's rows come behind those of the tensors before it |
| TensorMeaning.SliceSelects | llama.cpp/convert_lora_to_gguf.py:71-75 | a slice selects exactly the positions from its start up to its end that its step meets, in order, with bounds counted from the end when negative |
| TensorMeaning.ProductElement | llama.cpp/convert_lora_to_gguf.py:44-52 | an element of a valid pair's product is the inner product of a row of `B` and a column of `A`, whose leading dimensions of size 1 are repeated |
| LoraTensor.ValidExactly | llama.cpp/convert_lora_to_gguf.py:44-52 | a pair multiplies out to the shape it reports exactly when each leading dimension of `A` is 1 or the one of `B` |
| LoraTheorems.ReshapeLoraCommutes | llama.cpp/convert_lora_to_gguf.py:129-153 | every accepted reshape, sizes of -1 included, commutes with multiplying out, and every -1 is filled in so that the element count is kept |
| LoraAccepted.ExpandsExactly | llama.cpp/convert_lora_to_gguf.py:136-140 | sizes of -1 are expanded to the one shape in which each times the given sizes is the number of elements, when there is one |
| LoraAccepted.ReshapeAccepted | llama.cpp/convert_lora_to_gguf.py:129-153 | a reshape is accepted exactly when such a shape of at least two dimensions keeps the last size, `A` has no more elements than its matrix, and the rows of `B` fit the new ones |
| LoraAccepted.ReshapeRefused | llama.cpp/convert_lora_to_gguf.py:129-153 | which exception a refused reshape raises |
| LoraTheorems.PermuteCommutes | llama.cpp/convert_lora_to_gguf.py:161-178 | every accepted permute, with the last dimension kept or two dimensions exchanged, commutes with multiplying out |
| LoraAccepted.PermuteAccepted | llama.cpp/convert_lora_to_gguf.py:161-172 | a permutation is accepted exactly when it keeps the last dimension and `A` is a plain matrix, or exchanges the dimensions of a matrix; and when the assertion fails |
| LoraTheorems.TransposeCommutes2D | llama.cpp/convert_lora_to_gguf.py:168-169 | the pair of transposed factors in exchanged roles multiplies out to the transposed product |
| LoraStacking.StackCommutes | llama.cpp/convert_lora_to_gguf.py:197-204 | every accepted stack commutes with multiplying out |
| LoraAccepted.StackAccepted | llama.cpp/convert_lora_to_gguf.py:197-204 | pairs stack exactly when there are some, all `A` have one shape and all `B` have one shape |
| LoraStacking.CatFlatCommutes | llama.cpp/convert_lora_to_gguf.py:214-218 | every accepted concatenation of two-dimensional pairs does |
| LoraAccepted.CatFlatAccepted | llama.cpp/convert_lora_to_gguf.py:214-220 | two-dimensional pairs concatenate exactly when all have the same `A` |
| LoraAccepted.CatDeepAccepted | llama.cpp/convert_lora_to_gguf.py:209-213 | deeper pairs concatenate exactly when their factors agree behind the first dimension |
| LoraStacking.CatDeepCommutes | llama.cpp/convert_lora_to_gguf.py:209-213 | a concatenation of deeper pairs does when no `A` is repeated along the first dimension |
| LoraStacking.CatDeepValidExactly | llama.cpp/convert_lora_to_gguf.py:209-213 | a concatenation of deeper pairs stands for a product of the reported shape exactly then, or when there is one pair only |
| LoraIndexing.IntCommutes | llama.cpp/convert_lora_to_gguf.py:66-70 | every accepted integer index commutes with multiplying out |
| LoraAccepted.IntAccepted | llama.cpp/convert_lora_to_gguf.py:66-70 | an integer index is accepted exactly on more than two dimensions and inside the first one of both factors |
| LoraIndexing.SliceFlatCommutes | llama.cpp/convert_lora_to_gguf.py:74-75 | every slice of a two-dimensional pair does |
| LoraAccepted.SliceAccepted | llama.cpp/convert_lora_to_gguf.py:71-75 | a slice is accepted exactly when its step is positive |
| LoraIndexing.SliceDeepCommutes | llama.cpp/convert_lora_to_gguf.py:72-73 | a slice of a deeper pair does whenever it leaves a valid pair |
| LoraIndexing.SliceValidExactly | llama.cpp/convert_lora_to_gguf.py:72-73 | it leaves one exactly when `A` keeps one row or as many as `B` |
| LoraIndexing.SliceOfBroadcastFails | llama.cpp/convert_lora_to_gguf.py:72-73 | after a reshape, only a slice of the first row, or of none, leaves a valid pair |
| LoraIndexing.AnyTupleCommutes | llama.cpp/convert_lora_to_gguf.py:91-111 | indexing with integers and slices, short tuples included, that keeps the matrix dimensions commutes whenever it leaves a valid pair |
| LoraAccepted.AnyTupleAccepted | llama.cpp/convert_lora_to_gguf.py:77-111 | a tuple is accepted exactly when it is neither empty nor too long, every index fits, and rows and columns are both slices, or both integers behind a leading dimension of `A` as large as the rank |
| LoraAccepted.TupleAccepted | llama.cpp/convert_lora_to_gguf.py:91-111 | the same for tuples of all dimensions, and which exception the others raise |
| LoraIndexing.TupleValidExactly | llama.cpp/convert_lora_to_gguf.py:94-111 | it leaves one exactly when every slice of a leading dimension meets a single row of `A` or keeps as many rows as `A` has |
| LoraIndexing.OneOfRowAndColumnRejected | llama.cpp/convert_lora_to_gguf.py:97-111 | one row with all columns, or one column with all rows, is never accepted |
| LoraIndexing.SingleElementNeverRight | llama.cpp/convert_lora_to_gguf.py:97-111 | a single element, if accepted, reports one dimension more than the indexed product has |
| LoraEllipsis.EllipsisExactly | llama.cpp/convert_lora_to_gguf.py:78-111 | an accepted index with an ellipsis before other entries stands, for all pairs of these shapes, for what the product gives when indexed as intended, exactly when the tuple taken and the intended one give the same shape and select the same positions of every dimension |
| LoraEllipsis.EllipsisOnColumns | llama.cpp/convert_lora_to_gguf.py:78-111 | when the last entry does not keep every column, that is exactly when the rank is twice the number of the other entries |
| LoraEllipsis.EllipsisRefused | llama.cpp/convert_lora_to_gguf.py:78-111 | with a smaller rank an index that is valid for the product, as intended, is refused |
| LoraEllipsis.RefusedByRank | llama.cpp/convert_lora_to_gguf.py:78-111 | every index with an ellipsis before other entries is refused then |
| LoraEllipsis.AlikeExactly | llama.cpp/convert_lora_to_gguf.py:78-94 | two indices read the same element everywhere exactly when they leave the same shape and, unless that is empty, select the same positions of every dimension |
| LoraEllipsis.EarlyYetAlike | llama.cpp/convert_lora_to_gguf.py:78-94 | two entries that select and land a dimension early can still read what was meant |
| LoraEllipsis.TrailingDots | llama.cpp/convert_lora_to_gguf.py:77-79 | ellipses at the end are dropped: the index is the tuple before them, and nothing but ellipses fails the assertion |
| LoraCases.SliceAfterReshape | llama.cpp/convert_lora_to_gguf.py:72-73 | a reshaped pair sliced `[1:]` is accepted and stands for nothing |
| LoraCases.CatAfterReshape | llama.cpp/convert_lora_to_gguf.py:209-213 | two reshaped pairs are concatenated to factors that cannot be multiplied |
| LoraCases.OneElementEach | llama.cpp/convert_lora_to_gguf.py:97-111 | `[:, 0, 0]` of a pair of rank two is accepted and reports a matrix instead of a vector |
| LoraCases.EllipsisOfThree | llama.cpp/convert_lora_to_gguf.py:78-111 | `[..., :1]` of a pair of three dimensions is accepted and cuts rows instead of columns |
| LoraCases.EllipsisRefusedOfThree | llama.cpp/convert_lora_to_gguf.py:78-111 | `[:, ..., :1]` of that pair is refused, though the product has that index |
| LoraPairing.GetTensors | llama.cpp/convert_lora_to_gguf.py:378-415 | the two loops compute the specified outcome: tensors and pairs, an assertion, or an exit |
| LoraPairing.PairedExactly | llama.cpp/convert_lora_to_gguf.py:401-415 | pairing succeeds exactly when every base name with one side has both, fitting; each such name is then yielded once with its own A and B |
| LoraPairing.PairingAnyOrder | llama.cpp/convert_lora_to_gguf.py:378-415 | acceptance and partners do not depend on the order of the adapter's entries |
| LoraPairing.ExitExactly | llama.cpp/convert_lora_to_gguf.py:388-399 | the converter exits exactly when some entry is of no known kind |
| LoraPairing.SidesMeet | llama.cpp/convert_lora_to_gguf.py:225-232 | the two names of a weight's adapter, and those of a token embedding's, with or without the prefix, come to the same base name, the weight's own |
| LoraPairing.KindExactly | llama.cpp/convert_lora_to_gguf.py:382-399 | which names are of side A, of side B, skipped, kept as norms, or unexpected |
| LoraPairing.ReplaceNext | llama.cpp/convert_lora_to_gguf.py:225-232 | each replacement replaces the first occurrence and goes on behind it |
| LoraPairing.NormsInOrder | llama.cpp/convert_lora_to_gguf.py:391-394 | the norms are yielded first, all of them, in the order of the file and under their base names |
| LoraPairing.NamesInOrder | llama.cpp/convert_lora_to_gguf.py:401-410 | then the pairs, in the order in which the file first has a side of them |
| LlamaPermute.PairPermuteCommutes | llama.cpp/convert_hf_to_gguf.py:2136-2142 | converting a pair as the base model's weights are converted gives a pair whose product is the converted product |
| LlamaPermute.AcceptedExactly | llama.cpp/convert_hf_to_gguf.py:2136-2142 | the reshape is accepted exactly when the rows divide into heads of two equal halves; the heads are those of keys and values when they are given, whatever the other count is |
| LlamaPermute.PairAcceptedExactly | llama.cpp/convert_hf_to_gguf.py:2136-2142 | a pair is accepted exactly when `A` is a plain matrix and the rows divide like that |
| LlamaPermute.PermuteMovesRows | llama.cpp/convert_hf_to_gguf.py:2136-2142 | row by row, which row of the weights each row of the result is, within the given key/value heads, or the heads when none are given |
| LlamaPermute.RowsBijection | llama.cpp/convert_hf_to_gguf.py:2136-2142 | the row map is a bijection that stays within each head |
| LlamaPermute.PermuteUndone | llama.cpp/convert_hf_to_gguf.py:2136-2142 | splitting the permuted rows the other way round and swapping gives the weights back |
| Bpe.Bpe | llama.cpp/convert_hf_to_gguf.py:2926-2940 | the nested loops compute the run of leftmost minimum-rank merges under the limit |
| Bpe.BestIsLeftmost | llama.cpp/convert_hf_to_gguf.py:2929-2935 | the scan finds the leftmost pair of minimum rank, or that no pair has a rank |
| Bpe.RunKeepsBytes | llama.cpp/convert_hf_to_gguf.py:2926-2940 | the parts always spell the same bytes |
| Bpe.EncodeMeans | llama.cpp/convert_hf_to_gguf.py:2926-2940 | the result spells the token in single bytes and entries below the limit, no two neighbours of which could still be merged |
| Bpe.LimitsContinue | llama.cpp/convert_hf_to_gguf.py:2936-2937 | a run with a larger limit continues the run with the smaller one |
| Bpe.EncodeSplitsExactly | llama.cpp/convert_hf_to_gguf.py:2926-2940 | a byte position is a part boundary of the result exactly when the result is that of the bytes before it followed by that of the bytes after it |
| Bpe.MergeSound | llama.cpp/convert_hf_to_gguf.py:943-945 | the two parts recovered for a token spell it, are single bytes or entries of smaller rank, and joining them is the last step of its encoding |
| Bpe.SplitsInTwoExactly | llama.cpp/convert_hf_to_gguf.py:943-944 | with distinct ranks, the assertion that a token splits in two holds exactly when merges up to its own rank build it |
| Bpe.NeverWhole | llama.cpp/convert_hf_to_gguf.py:943-944 | a token of more than one byte never comes out whole under its own rank |
| Bpe.RecoverMerges | llama.cpp/convert_hf_to_gguf.py:936-945 | the loop over the vocabulary gives the merges, or fails the assertion |
| Bpe.RecoverSound | llama.cpp/convert_hf_to_gguf.py:936-945 | a successful recovery lists, in order, a sound pair for every entry of more than one byte, and nothing else |
| ExpertMerge.ExpertCollector.Collect | llama.cpp/convert_hf_to_gguf.py:2183-2212 | one arrival: the new buffers and what is emitted or raised |
| ExpertMerge.ExpertCollector.TakeWid | llama.cpp/convert_hf_to_gguf.py:2199-2203 | the inner loop takes the tensors of one weight out of the buffer in expert order, or stops at the first missing name |
| ExpertMerge.ExpertCollector.MergeLayer | llama.cpp/convert_hf_to_gguf.py:2194-2212 | the outer loop stacks the three weights |
| ExpertMerge.ExpertCollector.CheckLeftover | llama.cpp/convert_hf_to_gguf.py:2248-2255 | raises exactly when a buffer is not empty, and names what is in the buffers |
| ExpertMerge.NameInjective | llama.cpp/convert_hf_to_gguf.py:2201 | the formatted name determines expert and weight |
| ExpertMerge.MergedNameInjective | llama.cpp/convert_hf_to_gguf.py:2207 | the merged name determines layer and weight |
| ExpertMerge.CollectExactly | llama.cpp/convert_hf_to_gguf.py:2183-2212 | what every arrival gives: the assertion, the index error, nothing, the merged weights exactly when all are there and of one shape, or the error for the first thing that is wrong |
| ExpertMerge.MergedFull | llama.cpp/convert_hf_to_gguf.py:2197-2212 | merging a full buffer gives its three stacks in index order and leaves it empty |
| ExpertMerge.RunHolds | llama.cpp/convert_hf_to_gguf.py:2182-2214 | after every orderly run each buffer holds what its layer has received, or nothing once the layer is complete |
| ExpertMerge.EmitsFinished | llama.cpp/convert_hf_to_gguf.py:2193-2212 | what is emitted is the three stacks of each completed layer, in the order of completion |
| ExpertMerge.FinishedExactly | llama.cpp/convert_hf_to_gguf.py:2193-2212 | a layer is completed exactly when all its tensors have come, and once |
| ExpertMerge.LeftoverExactly | llama.cpp/convert_hf_to_gguf.py:2248-2255 | the final check raises exactly when some layer has received some of its tensors but not all |
| ExpertMerge.OrderDoesNotMatter | llama.cpp/convert_hf_to_gguf.py:2182-2255 | the order of arrival changes only the order in which layers are emitted |
| NibbleLayout.TransformAt | llama.cpp/convert_hf_to_gguf.py:8282-8305 | which two input bytes each output byte is made of, and how |
| NibbleLayout.LayoutKeepsElements | llama.cpp/convert_hf_to_gguf.py:8282-8305 | reading the result by low and high halves gives what reading the input in consecutive nibbles gives |
| NibbleLayout.LayoutBijection | llama.cpp/convert_hf_to_gguf.py:8282-8305 | the transform is a bijection, with its inverse |
| Base64.Encode | llama.cpp/common/base64.hpp:80-144 | the loop encodes group by group, and writes exactly `required_encode_size` characters |
| Base64.AlphabetTable | llama.cpp/common/base64.hpp:80-144 | the character of each value, by tables 1 and 2 of RFC 4648 |
| Base64.SixBits | llama.cpp/common/base64.hpp:92-130 | the four values of a group are its 24 bits, six at a time |
| Base64.TestVectors | llama.cpp/common/base64.hpp:80-144 | test vectors of section 10 of RFC 4648 |
| Base64.Decode | llama.cpp/common/base64.hpp:200-244 | decoding to a separate buffer computes the specified result |
| Base64.FeedText | llama.cpp/common/base64.hpp:205-229 | its first loop |
| Base64.PaddingOnly | llama.cpp/common/base64.hpp:231-241 | its second loop: only padding follows |
| Base64.DecodeInplace | llama.cpp/common/base64.hpp:294-313 | decoding in place gives the same result, at the front, and leaves what is behind untouched, also when it throws |
| Base64.FeedInplace | llama.cpp/common/base64.hpp:205-229 | the first loop on one buffer: the writing position never passes the reading position |
| Base64.FeedCounts | llama.cpp/common/base64.hpp:205-229 | after `k` data characters exactly `floor(3k/4)` bytes are written |
| Base64.WrittenFits | llama.cpp/common/base64.hpp:324-327 | no more bytes than characters, and no more than `max_decode_size` |
| Base64.RoundTrip | llama.cpp/common/base64.hpp:80-244 | decoding an encoding gives the bytes back, with its alphabet or with detection, whether or not padding is checked |
| Base64.AutoRefinesBoth | llama.cpp/common/base64.hpp:344-389 | detection succeeds exactly when one of the alphabets does, with its result |
| Base64.AcceptedExactly | llama.cpp/common/base64.hpp:200-244 | which texts are accepted: characters of the alphabet up to the first `=`, then only `=` unless loose, of any length |
| GgmlScan.Vocab.Load | llama.cpp/convert_llama_ggml_to_gguf.py:84-98 | the loop over vocabulary items gives the items and the bytes read, or the first error |
| GgmlScan.ScanTensors | llama.cpp/convert_llama_ggml_to_gguf.py:190-194 | the loop over tensor records, up to a number of records |
| GgmlScan.TensorMapLast | llama.cpp/convert_llama_ggml_to_gguf.py:193 | a name is mapped exactly when a tensor has it, to the last one that does |
| GgmlAccepted.HeaderExactly | llama.cpp/convert_llama_ggml_to_gguf.py:145-166 | which headers are taken: GGML, GGMF of version 1, GGJT of versions 1 to 3 |
| GgmlAccepted.HyperExactly | llama.cpp/convert_llama_ggml_to_gguf.py:59-74 | hyperparameters are taken exactly when all are there and the file type exists |
| GgmlAccepted.EligibleExactly | llama.cpp/convert_llama_ggml_to_gguf.py:168-178 | which file types may be converted for each format and version |
| GgmlAccepted.ItemExactly | llama.cpp/convert_llama_ggml_to_gguf.py:86-97 | which vocabulary items are taken, and what is read of them; only the text may be cut off by the end of the file |
| GgmlAccepted.RecordExactly | llama.cpp/convert_llama_ggml_to_gguf.py:110-123 | which tensor records are taken, and which error the others raise |
| GgmlAccepted.FeedForwardExactly | llama.cpp/convert_llama_ggml_to_gguf.py:53-57 | the feed-forward size is the second dimension of the last tensor of that name |
| GgmlAccepted.FirstErrorDecides | llama.cpp/convert_llama_ggml_to_gguf.py:180-200 | the first of header, hyperparameters, file type, vocabulary and tensors that is wrong decides the error of a load |
| GgmlScan.GGMLModel.Load | llama.cpp/convert_llama_ggml_to_gguf.py:180-200 | what the object holds after loading, and the answer or the error |
| GgmlScan.GGMLModel.Take | llama.cpp/convert_llama_ggml_to_gguf.py:195-200 | the object takes what was read, then looks up the feed-forward size |
| GgmlTheorems.LengthExactly | llama.cpp/convert_llama_ggml_to_gguf.py:126-127 | a recorded length is the true one exactly when elements times bytes per block fits in 63 bits |
| GgmlTheorems.RecordAligned | llama.cpp/convert_llama_ggml_to_gguf.py:110-128 | in a padded file data starts at a multiple of 32, less than 32 bytes after the header, whose name length is the one the file gives; in others right after it |
| GgmlTheorems.RecordPlain | llama.cpp/convert_llama_ggml_to_gguf.py:110-131 | a record whose sizes do not overflow has its true length, and one whose recorded length is not negative and whose end does not overflow moves the offset past its data |
| GgmlTheorems.StartsAligned | llama.cpp/convert_llama_ggml_to_gguf.py:110-128 | over a whole scan every tensor starts right after its own record's header or, in a padded file, at the next multiple of 32 |
| GgmlTheorems.FileSpansInOrder | llama.cpp/convert_llama_ggml_to_gguf.py:190-194 | the recorded spans are in file order, disjoint, and all but the last inside the file, exactly when no recorded length is negative and no end overflows |
| GgmlTheorems.SoundFilesEnd | llama.cpp/convert_llama_ggml_to_gguf.py:190-194 | scanning a file of such records ends within one record for every twelve bytes |
| GgmlTheorems.EndsSoonOrNever | llama.cpp/convert_llama_ggml_to_gguf.py:190-194 | the scan of any file ends within twice as many records as it has bytes, or never |
| GgmlTheorems.NeverEndsExactly | llama.cpp/convert_llama_ggml_to_gguf.py:190-194 | the scan of a file goes on for ever exactly when it reaches some offset twice |
| GgmlTheorems.LoopingRecordStays | llama.cpp/convert_llama_ggml_to_gguf.py:126-131 | a record of 36 bytes whose recorded length is -36 |
| GgmlTheorems.LoopingFileNeverEnds | llama.cpp/convert_llama_ggml_to_gguf.py:190-194 | a file with that record where a tensor is expected, padded or not, is scanned for ever, and its spans are not in order |
| GgmlRoundTrip.TensorBack | llama.cpp/convert_llama_ggml_to_gguf.py:110-131 | a written tensor header is read back field by field |
| GgmlRoundTrip.ItemBack | llama.cpp/convert_llama_ggml_to_gguf.py:86-97 | a written vocabulary item is read back |
| GgmlRoundTrip.HeaderBack | llama.cpp/convert_llama_ggml_to_gguf.py:145-166 | each written format header is read back |
| GgmlRoundTrip.HyperBack | llama.cpp/convert_llama_ggml_to_gguf.py:59-74 | written hyperparameters are read back field by field |
| GgmlRoundTrip.FileBack | llama.cpp/convert_llama_ggml_to_gguf.py:180-200 | a whole eligible file is read back as written, up to its last byte |
| GgmlRoundTrip.LoopingFileStillRead | llama.cpp/convert_llama_ggml_to_gguf.py:180-200 | a whole eligible file that ends in the looping record is still being read after any number of tensor records |
| GgmlRoundTrip.LoopingFileIsOne | llama.cpp/convert_llama_ggml_to_gguf.py:180-200 | a file of 68 bytes that is one |

## Left out

- FastAPI routers, database models, training scripts and the frontend: input and output around one-branch logic.
- JSON numbers: a number is kept as the text it was read from; the conversion to a double and the shortest form the dump would write are not part of this model.
- HealedTextCut: is about texts that repeat no key in the containers that are open where they stop, and markers that are not in what was read and have no character that a dump escapes or that separates values; the parser's markers are digits.
- HealedTextIsPartial: is about the same texts and markers as HealedTextCut, wherever the marker may start.
- PartialExactlyWhenCut: is about inputs in the format of the dump; HealedTextIsPartial is about any input, with the condition on what was read.
- JSON texts with a byte order mark, a NUL byte or a number too large for a double; these end or fail in the original for reasons outside the grammar.
- `last_token`, `exception_message` and the key text in stack elements: nothing reads them.
- Regular expressions in the chat parser (`try_find_regex`, `try_consume_regex`) and tool calls: `regex-partial.cpp` is not part of this model.
- Root-level JSON strings in `try_consume_json_with_dumped_args`.
- ReasoningNeverRetracts: is about the reasoning text; with `reasoning_in_content` the content is not monotone, because a possible end tag already writes the closing tag.
- DrawMarker: the random numbers are a given list with at least one that is not in the input; the original draws until it finds one.
- Element types, dtype conversion and rounding of tensors: elements are exact.
- PairPermuteCommutes: asks for a rank above 0; a pair of rank 0 has no elements in its factors, and any reshape of it is accepted.
- PermuteCommutes: `dims` is a permutation, as torch demands; the check is not modelled.
- Aliasing of tensors: an operation on a pair gives a new pair, as in the original.
- The `LoraTorchTensor` operations that only call others (`view`, `reshape_as`, `swapaxes`, `to`) and the dispatch in `__torch_function__`.
- GetTensors: the adapter file's entries come as a list in file order; dtype and lazy loading are not modelled, and a generator that fails after yielding is its failure.
- Names in `modify_tensors`: prefix rewriting and skipping of multimodal tensors; the model starts at the expert branch, and `map_tensor_name` is left to the caller.
- Bpe: the byte-to-character table and the strings of the merges; pairs of byte strings stand for them.
- Encode: the encoding table is written as ranges of characters, with the values of tables 1 and 2 of RFC 4648.
- `repack_mxfp4` around the nibble layout: concatenation and reshaping for the writer.
- Load: reads at most a given number of tensor records, because the original's loop has no bound; a scan that reaches the limit says so.
- Tensor records of the GGML file as objects: a record is loaded once and then only read, so it is a value here.
- Vocabulary scores are kept as their four bytes; the conversion to a float is not modelled.
- LoopingFileNeverEnds: is about files of less than 2^63 bytes.
- The GGUF writer and everything after `GGMLModel.load`.
