# Verified models of llama.cpp's text and tensor helpers

Dafny models of the parts of llama.cpp whose correctness spans whole runs: the streaming parser of chat
output, the XML tool-call parser and the grammars generated for it, the terminal line editor, the
low-rank tensor algebra of the LoRA converter, JSON healing, and a few in-place text routines. The
original program is not run by anything here.

`dafny verify dfyconfig.toml` checks everything.

## What is modelled

Strings are sequences of characters; where the program works on bytes (`std::string`), a character is a
byte. Exceptions are outcomes. Code that changes fields, buffers or local variables step by step is a
class or a method, proved against a function on values; the theorems are about that function.

* **Streaming** (`Text`, `ChatParser`, `Streaming`, `ThinkRoundTrip`, `ChatDiff`, `ServerStream`). A growing
  model output is parsed afresh at every step and only differences are sent. Text is never taken back,
  with one exception that is characterised exactly: blanks are shown as content, and blanks followed by
  part of an opening tag are not. The server skips the empty message that results, so that whole streams
  conserve the answer for every input, every chunking and every setting.
* **XML tool calls** (`XmlToolCall`, `XmlRoundTrip`, `JsonDump`, `XmlShown`, `XmlStream`, `XmlRuns`, `XmlRepeat`).
  The backtracking parser with its recovery flag and its exceptions, for any form whose values are raw text. A
  failed parse changes nothing, calls already read are never lost, and printed calls are parsed back. Stopped
  anywhere, the text of printed calls shows the calls that are complete and the open one as far as it is
  certain; so over every way in which it and text behind it may arrive, the last parse included, no
  difference fails and the client ends with the calls. That holds if and only if no call repeats a key. The
  new value of a repeated key takes the place of the old one: the client then never ends with the message
  shown, whether the difference throws, which is characterised, or not.
* **Grammars** (`GrammarExcluding`, `GrammarText`, `GrammarReader`, `ArgumentRules`). Grammars are syntax trees with
  a denotation. The comment on `make_gbnf_excluding` says that no accepted string contains a forbidden word;
  after a mismatch the expression starts again at the root, so this is false, and the exact language is
  proved instead, together with exactly when the comment is right. The generated text is read back by the
  grammar reader to that language, with two exceptions. A word with ^ or - makes the reader throw, since it
  does not know their escapes. And the bytes of a word are read as code points of their own, so a word that
  is not plain ASCII, forbidden alone, is not kept out. Words without any character give the class `[^]`, for which the
  reader pushes no element.
* **Line editor** (`Utf8`, `LineSession`, `Console`). The editor on bytes, widths, two cursors and a history
  refines an editor on a sequence of code points, for every sequence of keys. An empty line entered while
  an old entry is viewed leaves the view for the next line. Above 0x10FFFF the program records a width
  without encoding a character; its invariant holds exactly up to there.
* **Low-rank tensors** (`Tensors`, `Lora`, `LoraEllipsis`, `LoraReshape`, `LoraPermute`,
  `LoraJoin`). A pair A, B of any number of dimensions stands for the product B.A, with A's leading dimensions broadcast. For every operation it
  is proved when the code carries it out, and when the result stands for the same operation on the
  product. Cases are found where it does not although the code succeeds, each with its exact condition and
  with factors at which it happens: a leading slice that a tuple index does not apply to A, a slice that
  leaves out the one place of a shared A, an integer for row and column, a join of stacks whose A is shared,
  and an ellipsis inside a tuple. An ellipsis is expanded to as many full slices as there are other entries,
  say k. With n = 2k dimensions the tuple is then read as torch reads it; with n > 2k the entries behind the
  ellipsis fall on other dimensions, which is right exactly when they select the same there; and with
  n < 2k the code raises where torch need not. With a rank of zero a reshape may be carried out that torch
  refuses for the product.
* **JSON healing** (`JsonText`, `JsonBytes`, `JsonErrors`, `JsonGrammar`, `JsonTrials`, `JsonUnicode`, `JsonLocator`,
  `JsonHealing`, `JsonSafety`). The strict parser is a pushdown automaton on bytes, UTF-8 check included,
  that accepts exactly the documents of the grammar; a listener keeps the open containers and the place of
  the error; healing finds out by trial where the text stopped. The trials are shown to come to what the
  parser's state calls for, and healing a truncated document to be right with two exceptions that can be
  seen from the text. It may end in a fresh `\u` behind an escaped backslash and what looks like a high
  surrogate, where the padding makes an invalid pair. Or it may stop within a character of several bytes,
  where every trial fails. In both the text is cut at the last separator: a string value that holds none is
  lost, and one that holds one makes the code throw. An error before the end is treated as a stop there,
  unless it is a longer token that may not stand where it stands: then part of that token is in the text,
  no trial succeeds, and the cut loses what has been read since the last separator, or throws.
* **Codec and text routines** (`Base64`, `Escapes`, `CpuMask`, `WordWrap`). Decoding and unescaping over the
  buffer that is read, a processor mask read by a counter that wraps, and an optimal greedy line layout.

## Model

| member | source | states |
|---|---|---|
| `Streaming.KeepsUnlessTakenBack` | llama.cpp-official/common/chat-parser.cpp:287-431 | For every input, every extension of it and every setting: content and reasoning of the parse of the prefix are prefixes of those of the extension, partial or final, if and only if the pair is not of the one exceptional kind (nothing but blanks so far, reasoning parsed and not forced open, and the extension is blanks and a proper part of the opening tag). |
| `Streaming.TakesBackHappens` | llama.cpp-official/common/chat-parser.cpp:343-358 | A concrete pair of the exceptional kind: one blank is shown as content, and the blank with half an opening tag shows nothing. |
| `Streaming.BlocksGrow` | llama.cpp-official/common/chat-parser.cpp:360-428 | The loop over think blocks, entered at one cursor with one pending prefix: what it and the rest make of an input is kept by what they make of every extension, for any number of blocks. |
| `Streaming.OpenBlockGrows` | llama.cpp-official/common/chat-parser.cpp:361-385 | A block still open keeps what it showed whatever the extension turns it into: still open, closed, or closed and followed by more. |
| `Streaming.OpenEndBeforeTag` | llama.cpp-official/common/chat-parser.cpp:361-373 | A closing tag that shows up later begins no earlier than the place where the open block was cut off. |
| `ServerStream.ShownContinues` | llama.cpp-official/tools/server/server-task.cpp:157-175 | In every reachable state of a streamed answer the next parse is empty, and then skipped, or continues the message shown; so no text is ever retracted from the client. |
| `ServerStream.UpdateConserves` | llama.cpp-official/tools/server/server-task.cpp:157-175 | One update never throws, and a client that holds what the server shows holds it again after appending the differences. |
| `ServerStream.StreamConserves` | llama.cpp-official/tools/server/server-task.cpp:157-175 | For every text, every way of cutting it into chunks and every setting, no difference fails, and the client ends with the final parse of the whole text; when that is empty it holds at most blanks sent before. |
| `ServerStream.TaskResultState.UpdateChatMsg` | llama.cpp-official/tools/server/server-task.cpp:157-175 | The method changes the stored text and message, and returns the differences, exactly as the update function the run theorems are about. |
| `ThinkRoundTrip.WrittenIsTold` | llama.cpp-official/common/chat-parser.cpp:287-431 | Think blocks and an answer, written one after another, are parsed to exactly those blocks in order as reasoning (or, tagged, as content) and exactly that answer, in every mode, partial or final. |
| `ThinkRoundTrip.TurnTells` | llama.cpp-official/common/chat-parser.cpp:360-428 | One turn of the loop at a closed block consumes the block and its closing tag, adds exactly its text to the message, and leaves the pending prefix empty. |
| `ChatParser.MissIsStableIff` | llama.cpp-official/common/chat-parser.cpp:257-279 | A miss of `try_find_literal` promises, for all inputs, extensions and cursors, that the literal begins nowhere in the text seen, if and only if the literal's first character does not recur in it. |
| `ChatParser.FullMatchIsStable` | llama.cpp-official/common/chat-parser.cpp:257-267 | A whole match in an input is found unchanged, prelude and range, in every extension of it. |
| `ChatParser.PartialMatchIsStable` | llama.cpp-official/common/chat-parser.cpp:268-277 | A match cut off by the end of the input at `i` means that no extension holds the literal between the cursor and `i`. |
| `ChatParser.WholeMatchHasFullLength` | llama.cpp-official/common/chat-parser.cpp:257-279 | Callers that compare the length of a match with the literal tell a whole match from a cut-off one, and rightly. |
| `ChatParser.ChatMsgParser.TryFindLiteral` | llama.cpp-official/common/chat-parser.cpp:257-279 | The cursor moves behind the match found, or stays; the result is the search that the stability lemmas are about. |
| `ChatParser.ChatMsgParser.TryParseReasoning` | llama.cpp-official/common/chat-parser.cpp:287-431 | The method that moves the cursor and fills the message in a loop with a pending prefix leaves exactly the state, and returns exactly the flag, of the function on values that the streaming and round-trip theorems are about. |
| `ChatParser.ChatMsgParser.HandleReasoning` | llama.cpp-official/common/chat-parser.cpp:309-331 | A stretch of reasoning is stripped, dropped when blank, and added with its tags to the content or bare to the reasoning; nothing else changes. |
| `ChatParser.ChatMsgParser.RunContentOnly` | llama.cpp-official/common/chat-parser.cpp:1501-1504 | The whole content-only parse: the message built by the class is the parse that streaming is stated for. |
| `ChatParser.ChatMsgParser.ConsumeSpaces` | llama.cpp-official/common/chat-parser.cpp:232-240 | The cursor moves over the blanks and no further; the answer tells whether it moved. |
| `ChatParser.ChatMsgParser.TryConsumeLiteral` | llama.cpp-official/common/chat-parser.cpp:242-255 | The cursor moves past the literal, whole or cut off by the end of the input, or does not move at all. |
| `ChatParser.ChatMsgParser.ConsumeRest` | llama.cpp-official/common/chat-parser.cpp:433-437 | The rest of the input is returned and the cursor is at its end. |
| `ChatParser.ChatMsgParser.MoveTo` | llama.cpp-official/common/chat-parser.h:37-42 | The cursor is set when the position lies within the input; otherwise the method fails and nothing changes. |
| `ChatParser.ChatMsgParser.MoveBack` | llama.cpp-official/common/chat-parser.h:43-48 | The cursor goes back when there is room; otherwise the method fails and nothing changes. |
| `ChatParser.ChatMsgParser.AddToolCall` | llama.cpp-official/common/chat-parser.cpp:159-172 | A call without a name is refused and changes nothing; any other is appended as given. |
| `Text.StringFindPartialStop` | llama.cpp-official/common/common.h:708-721 | The countdown with its last-character filter finds the leftmost start of a suffix that begins the stop string. |
| `Text.PartialStopIsFirst` | llama.cpp-official/common/common.h:708-721 | No longer suffix of the text begins the stop string than the one found; when none is found no suffix does. |
| `Text.FindIsFirst` | llama.cpp-official/common/chat-parser.cpp:258 | The literal matches nowhere before the place found, and nowhere at all when none is found. |
| `Text.StringStrip` | llama.cpp-official/common/common.cpp:410-420 | The two loops over start and end return the stripped text. |
| `Text.StripIs` | llama.cpp-official/common/common.cpp:410-420 | Whatever is written as a stripped core between two blank margins is stripped to that core. |
| `Text.StripGrows` | llama.cpp-official/common/common.cpp:410-420 | Stripping an extension keeps the stripped text as a prefix. |
| `ChatDiff.DiffsConserve` | llama.cpp-official/common/chat.cpp:136-183 | Differences can be computed and appending them to the old message gives the new one, if and only if the new message continues the old: texts grow, earlier calls stay, the last keeps its name and a changed id is not lost. |
| `ChatDiff.ChainConserves` | llama.cpp-official/common/chat.cpp:136-183 | Over any chain of messages each continuing the one before, no difference fails and a client appending all of them in order holds the last message. |
| `ChatDiff.ComputeDiffsSucceeds` | llama.cpp-official/common/chat.cpp:37-50 | `compute_diffs` throws exactly when some text is no prefix of its counterpart in either direction, calls have disappeared, or the last known call changed its name. |
| `ChatDiff.RebuiltIs` | llama.cpp-official/common/chat.cpp:136-183 | Whenever differences can be computed, the client ends with the longer of each pair of texts, whatever the two messages. |
| `ChatDiff.ComputeDiffsImpl` | llama.cpp-official/common/chat.cpp:136-183 | The method that appends difference after difference, and throws part-way, returns the differences the conservation lemmas are about. |
| `Utf8.DecodesWhatIsEncoded` | llama.cpp-official/common/console.cpp:363-428 | Decoding at the place of an encoded code point gives it back with its length, wherever it stands, for all code points up to 0x10FFFF. |
| `Utf8.EncodeInjective` | llama.cpp-official/common/console.cpp:409-428 | Different sequences of code points have different encodings. |
| `Utf8.NextUtf8CharPos` | llama.cpp-official/common/console.cpp:439-446 | The byte loop stops at the position that the code-point lemma is about. |
| `Utf8.PrevUtf8CharPos` | llama.cpp-official/common/console.cpp:430-437 | The byte loop stops at the position that the code-point lemma is about. |
| `Utf8.StepsAreCodePoints` | llama.cpp-official/common/console.cpp:430-446 | In an encoded text the next and the previous byte position are exactly the next and the previous code point. |
| `Utf8.InsertEncoded` | llama.cpp-official/common/console.cpp:941-957 | Inserting the bytes of a code point at the byte offset of a place inserts the code point at that place. |
| `Utf8.EraseEncoded` | llama.cpp-official/common/console.cpp:454-466 | Erasing the bytes of one code point erases that code point and no other. |
| `Utf8.Utf8TruncateSafe` | llama.cpp-official/common/chat-parser-xml-toolcall.cpp:27-50 | The backward loop over at most four bytes returns the length the truncation lemmas are about. |
| `Utf8.TruncateIsLongestValid` | llama.cpp-official/common/chat-parser-xml-toolcall.cpp:27-50 | On any byte prefix of valid UTF-8 the result is the length of the longest valid prefix, at most three bytes are dropped, and a second application changes nothing. |
| `Utf8.TruncateMonotone` | llama.cpp-official/common/chat-parser-xml-toolcall.cpp:27-50 | A longer prefix of the same text never lets through less. |
| `Console.LineEditor.Readline` | llama.cpp-official/common/console.cpp:743-1019 | For every sequence of keys, the loop over bytes, widths and two cursors ends with the encoding of the line, the history and the answer of an editor that works on a plain sequence of code points. |
| `Console.LineEditor.HandleKey` | llama.cpp-official/common/console.cpp:810-972 | Every key does to line, cursor, widths and history what one step of the code-point editor does, and keeps the bytes an encoding, one width for each code point and the byte cursor at the encoded length before the cursor. |
| `Console.LineEditor.InsertChar` | llama.cpp-official/common/console.cpp:935-972 | A code point is inserted at the cursor; beyond 0x10FFFF a width is recorded for a character that was not encoded, and the line is then no longer consistent: it stays so exactly for code points. |
| `Console.LineEditor.DeleteAtCursor` | llama.cpp-official/common/console.cpp:454-480 | The code point under the cursor, its bytes and its width are removed, nothing happens at the end of the line, and the terminal column is restored. |
| `Console.LineEditor.Backspace` | llama.cpp-official/common/console.cpp:905-931 | The code point before the cursor is removed and the cursor follows it. |
| `Console.LineEditor.MoveWordLeft` | llama.cpp-official/common/console.cpp:571-607 | The cursor goes back over blanks and then over a word of the code-point line, and the terminal column by the widths passed over. |
| `Console.LineEditor.MoveWordRight` | llama.cpp-official/common/console.cpp:609-654 | The cursor goes over blanks, a word and the blanks behind it on the code-point line, and the terminal column by the widths passed over. |
| `Console.BackOver` | llama.cpp-official/common/console.cpp:576-602 | Each backward loop stops at the start of the run of blank or non-blank code points, with the byte cursor at its encoded offset and the widths passed over added up. |
| `Console.ForwardOver` | llama.cpp-official/common/console.cpp:614-648 | Each forward loop stops at the end of the run, with byte cursor and widths in step. |
| `Console.AssertsHold` | llama.cpp-official/common/console.cpp:757-759 | What the loop asserts at every turn holds in every valid state. |
| `Console.LineEditor.SetLineContents` | llama.cpp-official/common/console.cpp:495-517 | The line becomes the given text with its widths measured anew, the cursor at its end. |
| `Console.LineEditor.MoveToLineStart` | llama.cpp-official/common/console.cpp:519-527 | Both cursors are 0 and the terminal column has gone back by the widths passed over. |
| `Console.LineEditor.MoveToLineEnd` | llama.cpp-official/common/console.cpp:529-537 | Both cursors are at the end and the terminal column has advanced by the widths passed over. |
| `Console.LineEditor.HistoryAdd` | llama.cpp-official/common/console.cpp:693-703 | A line is remembered unless it is empty; one equal to the newest entry is not stored twice; storing leaves viewing. |
| `Console.LineEditor.HistoryPrev` | llama.cpp-official/common/console.cpp:704-716 | Going up is the up step of the code-point editor: the first one saves the typed line, the oldest entry stays put. |
| `Console.LineEditor.HistoryNext` | llama.cpp-official/common/console.cpp:717-729 | Going down is the down step: past the newest entry the typed line comes back and viewing ends. |
| `Console.LineEditor.EndLine` | llama.cpp-official/common/console.cpp:981-1018 | A trailing backslash, a trailing slash, the two line modes and the end of the stream end the line as on code points, and the line without its newline goes into the history. |
| `LineSession.UpsThenDowns` | llama.cpp-official/common/console.cpp:689-741 | From not viewing, with n entries, any k ups followed by min(k, n) downs restore the typed line and leave viewing. |
| `LineSession.FinishedHistory` | llama.cpp-official/common/console.cpp:1008-1016 | Entries stay non-empty with no equal neighbours and the view in range over every line; viewing survives the end of a line exactly when nothing was stored, so an empty line entered while viewing leaves the old view. |
| `LineSession.EditsUndo` | llama.cpp-official/common/console.cpp:894-972 | Backspace undoes typing, and deleting forward is moving right and deleting back. |
| `XmlToolCall.FailureIsAtomic` | llama.cpp-official/common/chat-parser-xml-toolcall.cpp:640-648 | Whenever `try_consume_xml_tool_calls` returns false, by recovery or by a caught exception, cursor, calls and texts are those on entry; and the parser's own exception never escapes it. |
| `XmlToolCall.ToolsOnlyAdd` | llama.cpp-official/common/chat-parser-xml-toolcall.cpp:386-632 | Whatever happens, calls already read stay in order and the texts are untouched; false is returned only at the start position with the message on entry. |
| `XmlToolCall.ToolMovesOn` | llama.cpp-official/common/chat-parser-xml-toolcall.cpp:399-613 | A turn of the loop reads a whole call and strictly advances, or stops, so the loop ends: a matched tool start is never empty, even when cut off. |
| `XmlToolCall.NonEmptyMatch` | llama.cpp-official/common/chat-parser-xml-toolcall.cpp:399 | A non-empty literal is never matched by nothing, whole or cut off. |
| `XmlToolCall.ParseXmlToolCalls` | llama.cpp-official/common/chat-parser-xml-toolcall.cpp:386-632 | The method over the builder, with its recovery flag and its exceptions, leaves the state and the outcome of the function on values. |
| `XmlToolCall.TryConsumeXmlToolCalls` | llama.cpp-official/common/chat-parser-xml-toolcall.cpp:640-648 | The method ends as the function does, and when it returns false the builder is as it was. |
| `XmlToolCall.GenPartial` | llama.cpp-official/common/chat-parser-xml-toolcall.cpp:314-343 | A call cut off by the end of the input is added with its arguments dumped and cut before the marker. |
| `XmlRoundTrip.PrintedIsParsed` | llama.cpp-official/common/chat-parser-xml-toolcall.cpp:386-632 | Clean calls printed in the shape that the generated grammar derives, whatever follows them, are parsed back to exactly those calls in order, with the cursor just past the scope. |
| `XmlRoundTrip.CallReads` | llama.cpp-official/common/chat-parser-xml-toolcall.cpp:399-613 | One turn of the loop reads one printed call, name and arguments, and stands right behind it. |
| `XmlRoundTrip.ArgsRead` | llama.cpp-official/common/chat-parser-xml-toolcall.cpp:448-587 | The argument loop reads printed arguments in order onto those already read, for distinct keys. |
| `XmlRuns.StreamedCalls` | llama.cpp-official/common/chat-parser-xml-toolcall.cpp:386-648 | Printed calls with text behind them: over every way in which all of it may arrive, with the parse repeated at each stop and a last, non-partial parse of the whole, no difference fails, the last parse returns true, and a client that appends all differences holds exactly those calls at the end. |
| `XmlRuns.StopsGrow` | llama.cpp-official/common/chat-parser-xml-toolcall.cpp:386-648 | What the parse shows at any stop, within the scope or behind it, is continued by what it shows at every later stop and by the message of the calls. |
| `XmlRuns.SeenBehind` | llama.cpp-official/common/chat-parser-xml-toolcall.cpp:386-648 | At a stop behind the scope, the beginning of a tool start included, exactly the calls show, when the whole text does not go on like one more call. |
| `XmlRuns.EveryTextBehind` | llama.cpp-official/common/chat-parser-xml-toolcall.cpp:399-404 | Behind a scope end that is not blank no text goes on like one more call. |
| `XmlRuns.ParsePasses` | llama.cpp-official/common/chat-parser-xml-toolcall.cpp:386-399 | The parser enters the scope, blank or not, reads the calls that are there and goes on behind them with those calls in the message. |
| `XmlStream.SeenGrows` | llama.cpp-official/common/chat-parser-xml-toolcall.cpp:386-632 | What the parse shows of a beginning of the text is continued by what it shows of every longer one, so that differences between any two stops can be computed and rebuild the later message. |
| `XmlStream.SeenIsShown` | llama.cpp-official/common/chat-parser-xml-toolcall.cpp:386-632 | Wherever the text of printed calls stops, within a delimiter, a name, a key, a value or a character, the message is exactly the calls that are complete and the open one as far as it is certain. |
| `XmlStream.MinimaxStreams` | llama.cpp-official/common/chat.cpp:1880-1889 | With the delimiters of the MiniMax-M2 format, but with values taken as raw text (the format itself also tries them as JSON), every list of calls with plain names, distinct plain keys and values without an opening angle bracket meets the conditions of streaming. |
| `XmlStream.ArgsStop` | llama.cpp-official/common/chat-parser-xml-toolcall.cpp:448-587 | The argument loop on a text that stops: it halts, and the JSON of the open call is that of the arguments so far, cut off where the text stops. |
| `XmlStream.FindCut` | llama.cpp-official/common/chat-parser.cpp:257-279 | At the end of an input the search over all of it comes to the search in the text from the cursor on, when the literal's first character does not recur in it. |
| `XmlShown.ShownCallsGrow` | llama.cpp-official/common/chat-parser-xml-toolcall.cpp:314-343 | What shows of printed calls only grows as the text arrives: complete calls stay, and the open one keeps its name and grows. |
| `XmlShown.VisibleGrows` | llama.cpp-official/common/chat-parser-xml-toolcall.cpp:27-50 | What is certain of a field, without the beginning of its delimiter and without half a character, is kept as the text grows. |
| `XmlRepeat.ToldIffDistinct` | llama.cpp-official/common/chat-parser-xml-toolcall.cpp:314-343 | Calls whose keys may repeat, whatever text follows them: every stop is continued by every later one, so that no difference fails and the client ends with the message shown, if and only if no call has the same key twice, wherever in the call. |
| `XmlRepeat.RepeatedKey` | llama.cpp-official/common/chat-parser-xml-toolcall.cpp:314-343 | A key that comes again behind any arguments of any call, its new value in part: the client never ends with what shows then. If the key stood last, the difference throws exactly when what shows of the new value does not begin the old one as it was shown; if others without the marker follow it, the call vanishes and the difference throws. |
| `XmlRepeat.RepeatSeen` | llama.cpp-official/common/chat-parser-xml-toolcall.cpp:314-343 | The new value of a key read before is put in the place of the old one, and the dump is cut at the marker. |
| `XmlRepeat.NeverContinued` | llama.cpp-official/common/chat-parser-xml-toolcall.cpp:332-343 | Whatever is put for a key that has been shown, what shows then never continues what has been shown. |
| `XmlRepeat.RepeatedKeyFails` | llama.cpp-official/common/chat-parser-xml-toolcall.cpp:314-343 | Concrete stops: 1 and then 2 for the same key makes the difference throw; 12 and then 1 does not, and leaves the client with 12. |
| `JsonDump.DumpInjective` | llama.cpp-official/common/chat-parser-xml-toolcall.cpp:332-343 | Argument lists with the same dumped JSON are the same list, so a dumped call loses nothing. |
| `JsonDump.AddedInjective` | llama.cpp-official/common/chat-parser.cpp:159-172 | The message determines the calls added to it: no two lists of named calls give the same message. |
| `JsonDump.AddedShape` | llama.cpp-official/common/chat-parser.cpp:159-172 | Calls are appended in order behind those already there, each with its name and dumped arguments, and the texts stay. |
| `GrammarExcluding.ExcludingLanguage` | llama.cpp-official/common/chat-parser-xml-toolcall.cpp:84-161 | For any list of words in any order, the expression built from the trie accepts exactly the strings that fall into blocks, a block being a proper prefix of a word with one character that leaves every word; only the empty string when words are listed but none has a character, and every string for an empty list. |
| `GrammarExcluding.FactoringUnique` | llama.cpp-official/common/chat-parser-xml-toolcall.cpp:84-161 | A string falls into blocks in one way only. |
| `GrammarExcluding.NoWordAtBoundary` | llama.cpp-official/common/chat-parser-xml-toolcall.cpp:84-161 | For a prefix-free set no forbidden word starts at a block boundary of an accepted string. |
| `GrammarExcluding.ForbiddenWordSlipsThrough` | llama.cpp-official/common/chat-parser-xml-toolcall.cpp:81-84 | Forbidding "ab" admits "aab", which contains it: the comment promises more than the expression does. |
| `GrammarExcluding.SingleWordExcludedIff` | llama.cpp-official/common/chat-parser-xml-toolcall.cpp:81-161 | For a single word, no accepted string contains it if and only if all its characters are equal. |
| `GrammarExcluding.PromiseHoldsIff` | llama.cpp-official/common/chat-parser-xml-toolcall.cpp:81-161 | For a prefix-free set of words, the accepted strings are exactly those without any forbidden word if and only if every word is one character. |
| `GrammarExcluding.ExcludedIffNoClash` | llama.cpp-official/common/chat-parser-xml-toolcall.cpp:81-161 | For every prefix-free set, no accepted string contains a forbidden word if and only if no word is met again from within a word: it ends there, or leaves that word one character later with the rest of it let through. |
| `GrammarExcluding.ExcludedIffNoMeeting` | llama.cpp-official/common/chat-parser-xml-toolcall.cpp:81-161 | With one character that occurs in no word the condition is on the words alone: from within the beginning of a word, no word that contains no other is met whole, or met by its own beginning and left there by its next character. |
| `GrammarText.ClassReads` | llama.cpp-official/src/llama-grammar.cpp:526-550 | A character class as written is read back character for character, whatever follows it, if and only if it has neither ^ nor -, whose escapes the reader does not know; otherwise the reader throws. |
| `GrammarText.EscapeReads` | llama.cpp-official/src/llama-grammar.cpp:161-182 | Each escape written for a byte in a class is read back as that byte, ^ and - excepted. |
| `GrammarText.QuotedReads` | llama.cpp-official/common/chat-parser-xml-toolcall.cpp:125-134 | The quoted character of a branch is read back for every byte. |
| `GrammarText.ExcludingReadable` | llama.cpp-official/common/chat-parser-xml-toolcall.cpp:84-161 | No class of the generated expression is refused by the reader if and only if no forbidden word has ^ or -, at any depth of the trie. |
| `GrammarReader.GbnfReads` | llama.cpp-official/src/llama-grammar.cpp:433-448 | The text of make_gbnf_excluding for any list of byte strings is read to its end as a grammar that accepts exactly the strings that fall into blocks (every string for an empty list), if no word has ^ or -; otherwise the reader throws. |
| `GrammarReader.ExprReads` | llama.cpp-official/src/llama-grammar.cpp:450-638 | A printed expression is read back item by item, in its order and nesting, in any row and before any text; or the reader throws, exactly when a class in it has ^ or -. |
| `GrammarReader.ItemsMean` | llama.cpp-official/common/chat-parser-xml-toolcall.cpp:99-151 | What is read of a printed expression accepts exactly what the expression matches. |
| `GrammarReader.HyphenThrows` | llama.cpp-official/common/chat-parser-xml-toolcall.cpp:84-161 | Forbidding "-" generates `( [^\-] )*`, at which the reader throws. |
| `GrammarReader.BeyondAsciiSlipsThrough` | llama.cpp-official/common/chat-parser-xml-toolcall.cpp:84-161 | The bytes of a word become code points of their own in the grammar: when a word that is not plain ASCII is forbidden alone, it begins a text that the grammar, as it is read, accepts. |
| `GrammarExcluding.NodeMatches` | llama.cpp-official/common/chat-parser-xml-toolcall.cpp:98-151 | The expression of a trie node with prefix p matches exactly what completes p to a block. |
| `GrammarExcluding.ChildrenAreGroups` | llama.cpp-official/common/chat-parser-xml-toolcall.cpp:105-117 | The grouping loop over the sorted words puts every word that goes on from the node into exactly the child of its next character. |
| `ArgumentRules.BuildArgumentRules` | llama.cpp-official/common/chat-parser-xml-toolcall.cpp:246-257 | The unsigned countdown ends for every number of parameters, zero included, with the rule the language lemmas are about. |
| `ArgumentRules.RulesAcceptChoices` | llama.cpp-official/common/chat-parser-xml-toolcall.cpp:246-257 | The rule accepts exactly the in-order choices of declared parameters that contain every required one, with the separator between consecutive arguments and the last end after the final one; and the empty string exactly when nothing is required. |
| `ArgumentRules.ListedInjective` | llama.cpp-official/common/chat-parser-xml-toolcall.cpp:246-257 | The accepted text tells which parameters were chosen. |
| `Lora.CutCommutes` | llama.cpp-official/convert_lora_to_gguf.py:59-113 | Selecting leading places and columns from A and leading places and rows from B selects them from the product, if and only if what is left of A still broadcasts to what is left of B. |
| `Lora.IntIsRight` | llama.cpp-official/convert_lora_to_gguf.py:68-72 | `l[i]` of a stack succeeds exactly when it does on the product and, for an A shared by the stack, i is 0 or -1; the result then stands for the product's `[i]`. |
| `Lora.SliceIsRight` | llama.cpp-official/convert_lora_to_gguf.py:73-75 | `l[a:b:c]` of a stack succeeds exactly when it does on the product; the result stands for the product's slice exactly when A is not shared, or the slice keeps its one place, or the result is empty. |
| `Lora.SliceFails` | llama.cpp-official/convert_lora_to_gguf.py:73-75 | A concrete stack with a shared A whose slice succeeds and does not stand for the product's. |
| `Lora.RowSliceIsRight` | llama.cpp-official/convert_lora_to_gguf.py:76-77 | Slicing the rows of a plain matrix is always right. |
| `Lora.TupleIsRight` | llama.cpp-official/convert_lora_to_gguf.py:78-113 | Indexing by a tuple that slices rows and columns succeeds exactly when it does on the product; the result stands for the product's exactly when each leading slice meets a shared A or keeps the whole dimension. |
| `Lora.TupleFails` | llama.cpp-official/convert_lora_to_gguf.py:99-113 | A concrete stack and tuple with a leading slice that is not applied to A: the result does not stand for the product's. |
| `Lora.TupleMatches` | llama.cpp-official/convert_lora_to_gguf.py:99-113 | Whenever rows and columns are sliced the tuple gives factors; they go together exactly when each leading slice meets a shared A or keeps the whole dimension, and then they stand for the selection. |
| `Lora.NoSingleRow` | llama.cpp-official/convert_lora_to_gguf.py:99-113 | With an integer for the row or the column, the result never stands for what the product gives. |
| `Lora.CornerFails` | llama.cpp-official/convert_lora_to_gguf.py:99-113 | A concrete stack indexed by `[:, 0, 0]`: the code succeeds with a result of another shape. |
| `Lora.TooManyEntries` | llama.cpp-official/convert_lora_to_gguf.py:96-113 | A tuple with more entries than dimensions always raises. |
| `LoraEllipsis.EllipsisIsRight` | llama.cpp-official/convert_lora_to_gguf.py:82-113 | For factors of given shapes and entries before and behind an ellipsis: `l[before, ..., after]` gives what torch gives for the product, whatever the elements, if and only if the entries as the code expands them resolve, slice rows and columns, leave no leading dimension of A behind, and select the same places as torch's reading. |
| `LoraEllipsis.EllipsisTooWide` | llama.cpp-official/convert_lora_to_gguf.py:82-97 | With fewer dimensions than twice the other entries the code raises, while torch raises only when an entry is out of range. |
| `LoraEllipsis.SlicesAgree` | llama.cpp-official/convert_lora_to_gguf.py:82-97 | Two readings by slices select the same of every tensor exactly when they resolve to the same lists of places, or the result has the same shape and is empty. |
| `LoraEllipsis.EllipsisMisreads` | llama.cpp-official/convert_lora_to_gguf.py:82-97 | A concrete stack and tuple for which the code returns something that does not stand for what torch gives. |
| `LoraEllipsis.EllipsisRaises` | llama.cpp-official/convert_lora_to_gguf.py:82-97 | `[:, ..., :]` of a concrete matrix raises although it selects the whole of it. |
| `LoraEllipsis.PlainTuple` | llama.cpp-official/convert_lora_to_gguf.py:78-113 | A tuple without an ellipsis is read as it stands, and one that ends with an ellipsis as without it. |
| `Lora.FactorsDecide` | llama.cpp-official/convert_lora_to_gguf.py:46-57 | The product depends on the elements of the factors only. |
| `LoraReshape.ReshapeIsRight` | llama.cpp-official/convert_lora_to_gguf.py:131-155 | A reshape that is carried out and that torch allows for the product gives the reshaped product, with a size left open or not. |
| `LoraReshape.ReshapeIsAccepted` | llama.cpp-official/convert_lora_to_gguf.py:131-155 | With a non-empty rank and row, the reshapes carried out are exactly those torch allows for the product, to two or more dimensions, keeping the row size, when A has no leading dimensions of its own. |
| `LoraReshape.ReshapeAccepts` | llama.cpp-official/convert_lora_to_gguf.py:131-155 | For every factor pair, empty ones included, and any number of open sizes: a reshape is carried out exactly when the settled sizes are not negative, keep the row size and, for a rank above zero, the number of rows, and A has no leading dimensions of its own where it has elements. |
| `LoraReshape.NoRankReshapes` | llama.cpp-official/convert_lora_to_gguf.py:131-155 | A concrete pair of rank zero for which the code carries out a reshape that torch refuses for the product. |
| `LoraReshape.RowsMove` | llama.cpp-official/convert_lora_to_gguf.py:150-155 | Reshaping all dimensions but the last moves whole rows. |
| `LoraPermute.PermuteIsRight` | llama.cpp-official/convert_lora_to_gguf.py:163-174 | For every permutation torch accepts, permute succeeds exactly when the row dimension stays last and A is shared, or the tensor is a plain matrix; and the result stands for the permuted product. |
| `LoraPermute.TransposeIsRight` | llama.cpp-official/convert_lora_to_gguf.py:176-180 | Exchanging two dimensions, counted from either end, succeeds exactly when both are in range and neither is the row dimension (or they are the same) and A is shared, or for a plain matrix; and the result stands for the exchanged product. |
| `LoraPermute.MatrixTransposes` | llama.cpp-official/convert_lora_to_gguf.py:170-171 | Exchanging the transposed factors transposes the product. |
| `LoraJoin.StackIsRight` | llama.cpp-official/convert_lora_to_gguf.py:199-206 | Stacking the factors stacks the products. |
| `LoraJoin.CatStacksIsRight` | llama.cpp-official/convert_lora_to_gguf.py:207-215 | Joining non-empty stacks gives the joined products if and only if there is one stack, or each has as many A's as B's. |
| `LoraJoin.CatShapesDecide` | llama.cpp-official/convert_lora_to_gguf.py:207-215 | For stacks of given shapes, empty ones among them, the join is right whatever the elements if and only if the A's join to a single one, or each part has as many A's as B's, or there are as many in all and the products have nothing to show. |
| `LoraJoin.CatStacks` | llama.cpp-official/convert_lora_to_gguf.py:207-215 | Every join that succeeds: it is right when the A's join to a single one or each part has as many A's as B's, and wrong when the joined A's do not broadcast to the joined B's. |
| `LoraJoin.JoinFails` | llama.cpp-official/convert_lora_to_gguf.py:207-215 | Two concrete stacks with a shared A each, whose join succeeds and does not stand for the joined products. |
| `LoraJoin.CatMatricesIsRight` | llama.cpp-official/convert_lora_to_gguf.py:216-222 | Joining plain matrices, allowed only for equal A's, gives the joined products. |
| `Tensors.FlattenUnflatten` | llama.cpp-official/convert_lora_to_gguf.py:150-155 | Row-major places and indices correspond one to one. |
| `Tensors.PickIs` | llama.cpp-official/convert_lora_to_gguf.py:207-222 | A row of joined tensors is the right row of the right part. |
| `JsonLocator.JsonErrorLocator.SaxParse` | llama.cpp-official/common/json-partial.cpp:40-117 | For every text, when the parser stops the listener's stack is the open containers, with a pending key behind each object that waits for a value; an error is told exactly for texts that are no documents, at the character where the offending token is over; and the two assertions hold at every event. |
| `JsonErrors.ErrorIs` | llama.cpp-official/common/json-partial.cpp:49-55 | The text before the error begins with what the parser has taken; it is just that, or it goes on within a token that may not stand there, and then it begins no document. |
| `JsonErrors.TokenStays` | llama.cpp-official/common/json-partial.cpp:116-117 | A token that may not stand where it stands is read as it would be where a value may stand: up to the error it goes on, and with the next character it is over. |
| `JsonLocator.JsonErrorLocator.Feed` | llama.cpp-official/common/json-partial.cpp:56-112 | One character keeps the stack equal to the open containers and pending keys. |
| `JsonLocator.JsonErrorLocator.CloseValue` | llama.cpp-official/common/json-partial.cpp:56-60 | A completed value drops the key it belongs to and nothing else. |
| `JsonLocator.JsonErrorLocator.EndObject` | llama.cpp-official/common/json-partial.cpp:93-98 | The object is popped, and with it the key whose value it was. |
| `JsonLocator.JsonErrorLocator.EndArray` | llama.cpp-official/common/json-partial.cpp:107-112 | The array is popped, and with it the key whose value it was. |
| `JsonGrammar.ParserIsGrammar` | llama.cpp-official/common/json-partial.cpp:116-140 | The strict parser, which decides every trial, accepts exactly the documents of the JSON grammar, blanks included. |
| `JsonGrammar.ValueRuns` | llama.cpp-official/common/json-partial.cpp:116-140 | Every value of the grammar takes the parser from where a value may stand to right behind it, in any containers. |
| `JsonGrammar.ValueInverse` | llama.cpp-official/common/json-partial.cpp:116-140 | Whenever the parser succeeds from where a value may stand, the text begins with blanks and a value of the grammar, and it succeeds from behind that value. |
| `JsonHealing.CommonJsonParse` | llama.cpp-official/common/json-partial.cpp:114-324 | For every text and marker the outcome is the planned one: the whole text or what stands before the error as a document; the completion that the parser's state there calls for; or, when the error lies behind a token that may not stand there, a cut. Where each branch is taken, what is inserted and where the text is cut are those of the plan. |
| `JsonHealing.HealValue` | llama.cpp-official/common/json-partial.cpp:215-242 | With a key pending, each trial succeeds in exactly one state, and the branch taken is that of the state. |
| `JsonHealing.HealItem` | llama.cpp-official/common/json-partial.cpp:243-266 | In an array, likewise; a number that may go on is cut off rather than kept. |
| `JsonHealing.HealMember` | llama.cpp-official/common/json-partial.cpp:267-291 | In an object without a pending key, likewise. |
| `JsonHealing.HealRoot` | llama.cpp-official/common/json-partial.cpp:301-318 | Outside all containers only a string cut off is completed. |
| `JsonHealing.BuildClosing` | llama.cpp-official/common/json-partial.cpp:160-170 | The loop from the top of the stack yields the brackets that close the containers, innermost first. |
| `JsonHealing.CutIsRight` | llama.cpp-official/common/json-partial.cpp:235-241 | Where the text is cut, a value was expected in the same containers, and nothing but a number or a word is dropped. |
| `JsonHealing.RunLastFits` | llama.cpp-official/common/json-partial.cpp:143-158 | The last character before blanks determines what the code infers from it: colon, comma, opening bracket, or the end of a value. |
| `JsonSafety.HealingIsRight` | llama.cpp-official/common/json-partial.cpp:141-299 | For every truncation of a valid document within a container, and every marker of plain text, healing gives a valid document that keeps the text up to the insertion or the cut, drops at most a number or a word, keeps the containers and carries the marker, if and only if the text does not end in a fresh `\u` (or `\ud`) behind an escaped backslash and what looks like a high surrogate, and `utf8_truncate_safe` would keep all of it. |
| `JsonSafety.MendingIsRight` | llama.cpp-official/common/json-partial.cpp:141-299 | The same for every text within a container, truncation or not: the exception is then what the padding does not complete, lone low surrogates among it. |
| `JsonSafety.AsIfStopped` | llama.cpp-official/common/json-partial.cpp:119-141 | An error within a token, or at a token of one character: the outcome is that of the text that stops before it. |
| `JsonSafety.ErrorIsHealed` | llama.cpp-official/common/json-partial.cpp:119-299 | Such a text within a container is kept up to where the marker goes in, dropping at most a number or a word, if and only if the padding completes what is open before the error. |
| `JsonSafety.TokenIsCut` | llama.cpp-official/common/json-partial.cpp:119-299 | An error at a longer token: no trial succeeds and the text is cut; the result is a document exactly when the last separator stands before that token and a value was expected behind it in the containers open there, and otherwise the code throws, or returns false outside all containers. |
| `JsonSafety.StrayHeals` | llama.cpp-official/common/json-partial.cpp:257-265 | `[1 true]`: the error is told behind `[1 tru`, and healing gives an array of the marker alone, without the 1. |
| `JsonSafety.CutIsTold` | llama.cpp-official/common/json-partial.cpp:235-291 | Cutting at the last separator gives a document exactly when a value was expected right behind it in the containers that are then closed; otherwise the code throws. For every text, one that fails included. |
| `JsonSafety.UnfilledValue` | llama.cpp-official/common/json-partial.cpp:225-265 | A string value that stops where the padding does not help (an excepted escape, or within a character) is replaced by the marker when it holds no separator, and the code throws when it holds one. |
| `JsonSafety.BrokenThrows` | llama.cpp-official/common/json-partial.cpp:257-265 | A concrete truncation within a two-byte character, behind a comma in the string: the code throws. |
| `JsonSafety.DroppedHeals` | llama.cpp-official/common/json-partial.cpp:257-265 | A concrete truncation within a two-byte character, without a comma: the code heals and the string is lost. |
| `JsonBytes.InCharacterIff` | llama.cpp-official/common/chat-parser-xml-toolcall.cpp:27-50 | While the parser goes on, it stands within a character exactly when `utf8_truncate_safe` would drop bytes, so the exception can be checked before the call. |
| `JsonBytes.PlainTextIsUtf8` | llama.cpp-official/common/json-partial.cpp:116-140 | Text without quotes, backslashes and control characters keeps a string in plain text exactly when it is valid UTF-8, byte by byte as the lexer checks it. |
| `JsonSafety.MisledThrows` | llama.cpp-official/common/json-partial.cpp:189-211 | A concrete truncation that ends in the excepted escape and at a whole character, for which the code throws. |
| `JsonSafety.RootHealing` | llama.cpp-official/common/json-partial.cpp:301-318 | Outside all containers the outcome is a valid document with the marker exactly for a string stopped in plain text or behind a backslash, and false otherwise. |
| `JsonUnicode.PaddingFills` | llama.cpp-official/common/json-partial.cpp:172-211 | The padding found by the two regular expressions completes the open escape, low surrogate included, in every state of a string except the excepted one, digits that no character has, and within a character of several bytes, where the parser fails. |
| `JsonTrials.OneQuoteOutside` | llama.cpp-official/common/json-partial.cpp:133-140 | Outside strings no trial with a single quote succeeds. |
| `JsonTrials.QuoteTrial` | llama.cpp-official/common/json-partial.cpp:225-227 | A trial that closes the string succeeds exactly when the text stopped in plain string text. |
| `JsonTrials.CloseRuns` | llama.cpp-official/common/json-partial.cpp:160-170 | The closing brackets complete the document from behind any value. |
| `Base64.EncodeAll` | llama.cpp-official/common/base64.hpp:80-144 | The loop over groups of three returns the encoding, of exactly the announced size. |
| `Base64.DecodeAll` | llama.cpp-official/common/base64.hpp:200-244 | The loop over bits returns the decoding or the error of the specification, within the announced maximum size. |
| `Base64.DecodeInPlace` | llama.cpp-official/common/base64.hpp:294-297 | Decoding a buffer over itself ends with the bytes that decoding into a fresh one gives, in front of what the buffer held; also when it fails. |
| `Base64.StepInPlace` | llama.cpp-official/common/base64.hpp:207-228 | One character read and perhaps one byte written keep 6 times the characters read equal to 8 times the bytes written plus the bits left, so writing stays behind reading. |
| `Base64.RoundTrip` | llama.cpp-official/common/base64.hpp:80-244 | Decoding the encoding of any bytes returns them, with the alphabet used or detecting it, in both behaviours. |
| `Base64.EncodeSize` | llama.cpp-official/common/base64.hpp:338-341 | The encoding has exactly the required size. |
| `Base64.DecodeFits` | llama.cpp-official/common/base64.hpp:324-327 | What is decoded fits the announced maximum, and is never longer than the input. |
| `Base64.BitsConserved` | llama.cpp-official/common/base64.hpp:204-228 | The bytes put out are exactly the whole bytes among the bits read. |
| `Base64.AcceptedAlphabet` | llama.cpp-official/common/base64.hpp:344-389 | With a given alphabet the main loop succeeds exactly on texts without a foreign character before the padding. |
| `Escapes.ProcessEscapes` | llama.cpp-official/common/common.cpp:576-611 | The loop that rewrites the buffer leaves in front of it exactly the unescaped original. |
| `Escapes.TurnInPlace` | llama.cpp-official/common/common.cpp:580-608 | One turn reads everything it takes before writing over it, and writes no more than it read. |
| `Escapes.DoublingUndone` | llama.cpp-official/common/common.cpp:576-611 | A string with every backslash doubled is given back. |
| `Escapes.HexUndone` | llama.cpp-official/common/common.cpp:589-600 | Bytes written as `\x` and two digits are given back. |
| `Escapes.UnchangedIsPlain` | llama.cpp-official/common/common.cpp:576-611 | The text never grows, and keeps its length exactly when it is left as it is, which is when no escape sequence is met. |
| `CpuMask.ParseCpuMask` | llama.cpp-official/common/common.cpp:325-359 | Each flag keeps its value or is set because its bit is set in the number read, at most 128 digits of it; on a foreign character it fails and the digits before it have taken effect at their places. Every index stays within the array although the counter wraps. |
| `CpuMask.BitOfNumber` | llama.cpp-official/common/common.cpp:352-355 | Bit k of the number is bit k % 4 of the digit in place k / 4 from the end. |
| `CpuMask.SetFour` | llama.cpp-official/common/common.cpp:352-355 | A digit sets exactly the four flags of its bits. |
| `CpuMask.MaskRoundTrip` | llama.cpp-official/common/common.cpp:325-359 | A number of up to 512 bits written in hexadecimal behind 0x asks for exactly its own bits. |
| `WordWrap.BreakStrIntoLines` | llama.cpp-official/common/arg.cpp:148-173 | The two loops return lines that hold all words of the text in order, each within the limit or a single word. |
| `WordWrap.AddLineTo` | llama.cpp-official/common/arg.cpp:152-168 | A line that fits is kept as it is; a longer one is laid out again greedily. |
| `WordWrap.LayOutIsShortest` | llama.cpp-official/common/arg.cpp:156-166 | No other lines with the same words in order, each within the limit or a single word, are fewer. |
| `WordWrap.LayOutKeeps` | llama.cpp-official/common/arg.cpp:156-166 | The new lines of an over-long line hold its words in order, each line within the limit or a single word. |
| `WordWrap.GreedyStaysAhead` | llama.cpp-official/common/arg.cpp:156-166 | Laying out the last part of the words takes no more lines than any fitting layout of all of them. |
| `WordWrap.NextWord` | llama.cpp-official/common/arg.cpp:158 | Reading one word takes the blanks before it and exactly its characters. |

## Left out

- The other chat formats, `try_find_regex`, `try_consume_json` and the parsers built on them: they rest on regex-partial and on JSON values, which are not part of this model; streaming is proved for the content-only format.
- ServerStream.TaskResultState.UpdateChatMsg: messages without tool calls, since the server generates their ids at random, and the content-only format; `ChatDiff` covers messages with tool calls, and `XmlStream` streams them without the server's ids.
- XmlToolCall.ParseXmlToolCalls: forms with `raw_argval` set and without `last_val_end` and `last_tool_end` only, because the other paths parse JSON values or special-case one model; the Kimi-K2 rewriting of function names is not modelled either.
- XmlStream.MinimaxStreams: the delimiters are those of a format of the program, which leaves `raw_argval` unset and so also tries values as JSON; here values are raw text.
- XmlRoundTrip.PrintedIsParsed: for stripped non-empty names, distinct keys and fields that contain no delimiter, since the format has no escapes.
- XmlRuns.StreamedCalls: for forms whose delimiters have a first character that does not come again in them, which is when their beginnings are noticed (`ChatParser.MissIsStableIff`); for names without the first character of a delimiter that may follow, and keys that do not end in the parser's own marker. It follows the message of `try_consume_xml_tool_calls`; the content that `parse_msg_with_xml_tool_calls` makes of the text around the scope is not part of this model.
- XmlRepeat.RepeatedKey: when arguments behind the repeated one hold the marker themselves, only that the client does not end with the message shown.
- JsonDump: the exception that dumping invalid UTF-8 raises, and number formatting; dumped values are strings.
- GrammarExcluding.ExcludingLanguage: the words are taken byte by byte, each byte a character of its own, which is how the generated text is read (`GrammarReader.BeyondAsciiSlipsThrough`).
- GrammarReader.GbnfReads: of the GBNF reader, the constructs that are generated: literals, classes, the dot, groups, alternatives, the star, spaces and comments; names, tokens and other repetitions are not part of this model, nor is raw text beyond ASCII, which is not generated. For words without any character the class of `( [^] )*` is taken to match nothing, as no element is pushed for it; the loader's check for left recursion, which refuses that grammar, is not part of this model.
- The surrounding rules of `build_grammar_xml_tool_call` (schemas, tool names, repetition of calls): string concatenation around the argument rules.
- Console.LineEditor.HandleKey: keys are given as decoded; reading escape sequences and control-key parameters from the terminal is not modelled.
- Console.LineEditor.PrintTail: of the display only the column is kept, with the width that `put_codepoint` measures given by a function; colours, clearing and Windows branches are not.
- The locale's space test and the width table are parameters of the editor.
- Lora.Make: the conversion of the data type when A and B differ, and `to`; elements are real numbers, so rounding is not modelled.
- Lora.GetTuple: index tensors and negative steps inside a tuple are not modelled (torch refuses negative steps).
- LoraReshape.ReshapeIsAccepted: the form for non-empty factors with at most one size left open; `LoraReshape.ReshapeAccepts` has no such conditions.
- LoraJoin.CatStacksIsRight: the form for parts without an empty leading dimension; with empty ones, `LoraJoin.CatShapesDecide` is exact for all elements of given shapes, since single elements may agree by chance.
- JsonText: of nlohmann's lexer, the byte order mark skipped at the start, a NUL byte taken for the end of the input, and numbers too large for a double; and the texts of keys on the stack, which nothing reads.
- JsonGrammar.ParserIsGrammar: the grammar of values, arrays, objects and blanks; numbers and the insides of strings are what their state tables accept.
- The parsed `out.json` value: that the healed text is a document is proved, not its value.
- Base64.EncodeAll: shifts and masks are written as products, quotients and remainders.
- Escapes.ProcessEscapes: `strtol` on two characters is written out (two digits, or a blank or a sign and a digit) and assumes the "C" locale.
- CpuMask.ParseCpuMask: the mask is shorter than 2^64 characters.
- `parse_cpu_range`, the option table, downloads, file access, model loading, samplers, templates, logging, the spinner, and the floating-point helpers.
- `string_split`, `string_join`, `parse_csv_row` and the n-gram cache: comparatively easy.
