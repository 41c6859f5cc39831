# BZCC scanner: a verified model of the scan

The scanner asks a lobby server (or a file) for a list of games, parses the answer as it arrives, fills a table of games
and players, compares it with the previous table, and keeps nicknames for players it has seen. This project models that
path from the bytes to the table, the windows messages that start and stop it, and the nickname cache, and proves what
they keep. `dafny verify dfyconfig.toml` checks everything.

## How it is put together

| file | what it models |
|---|---|
| `Common.dfy` | what several parts share: an optional value, two lengths |
| `CStrings.dfy` | the C library's strings: terminators, `strcmpi`, `atoi`, decimal notation |
| `ParserSpec.dfy` | one byte of `parse_data` as a function, and runs over whole streams, with or without a consumer that may stop them |
| `StreamParser.dfy` | `parse_data` on its buffers, state by state, and `ScanFile` and `ScanHTTP` around it; every method is proved against `ParserSpec` |
| `ParserInvariants.dfy`, `BracketStack.dfy`, `ParserRuns.dfy` | what every reachable state keeps, the bracket stack, chunks, stop requests, the order of callbacks |
| `Grammar.dfy`, `BadBytes.dfy`, `StatusLines.dfy` | exactly which byte streams are accepted, byte by byte; escapes, line breaks, failed reads; the head of a response |
| `Document.dfy`, `RoundTrip.dfy`, `Acceptance.dfy`, `HttpFraming.dfy`, `SwallowedBody.dfy`, `LineStarts.dfy` | documents, their printed forms, a recursive reading that knows nothing of bytes, and the proof that parsing a printed document, alone or in a response, is that reading; which documents are accepted, and what an empty header value does to a body |
| `ModList.dfy` | `split_raw_mod_ids` |
| `SessionTable.dfy`, `SessionScan.dfy` | one callback of `ProcessSessionInfo` as a function of the table, and the class that does it on arrays |
| `FrozenRows.dfy`, `Notifications.dfy`, `PlayerListener.dfy`, `CountedRoster.dfy` | what a scan does not write, whom `player_count` covers, and what its announcements tell a listener about games and about the players of one game |
| `DirectReading.dfy`, `LobbyScan.dfy`, `WholeScan.dfy` | a lobby document read directly into games, and the proof that printing, chunking, parsing and consuming it gives the same games |
| `LiteralKeys.dfy`, `LiteralLobby.dfy`, `Limits.dfy` | which letters stand for which field, and one lobby in full; the limits as numbers |
| `LobbyReplay.dfy` | lobby files scanned one after the other, and a listener who hears only the announcements |
| `Lifecycle.dfy`, `AutoScan.dfy`, `StoppedScan.dfy`, `ScannerWindow.dfy` | messages and scan threads as a state machine whose steps come in any order, what the messages are for, and the handlers on the window's fields |
| `Crc32.dfy`, `CheckValues.dfy`, `HashTable.dfy`, `NickCache.dfy` | the hash and a known value of it, the linked table on the heap, and nicknames cached from the registry |

Text is `seq<char>`; the hash works on `bv8`, `bv16` and `bv32`. What the operating system supplies is a parameter: the
reads that a stream delivers (`ParserSpec.Read`), whether memory can be had, the registry as a map, base-64 decoding as
an unknown function. Library calls follow the C locale on ASCII.

## What the code does where its comments say otherwise

- `bzccnet.h:23-24` calls KVI_STATUS_LAST the last key and value of a block. The code raises it only for a bare value
  that a brace ends (line 354 of `bzccnet.c`); a quoted last value is NORMAL (line 259). So a row appears exactly if the
  last member of a server is a bare value (`DirectReading.EndsWithWord`; `LobbyScan.QuotedServerHasNoRow` is a server
  without one), and `player_count` is the number of players that end that way. But the players that it covers, that is
  those shown, compared and announced, are the first so many: `CountedRoster.CountedAreTheClosedIff` says when they are
  the same players, `CountedRoster.WrongPlayerIsCounted` is a server for which they are not.
- EXPECT_ROOT_END is reached when the root closes and waits for one more closing brace. A complete document therefore
  returns 0 because the stream ends, and so does every prefix of it: `RoundTrip.AfterTheRoot`,
  `RoundTrip.TruncatedReturnsZero`. One brace too many after the root returns 0 as well, so `{}}` is not rejected:
  `BracketStack.ExtraBrace`; every other text whose brackets do not nest is: `BracketStack.BadNestingIsRejected`.
- An object that is a member of an object, and not the last one, is rejected, since line 434 expects a key after it:
  `Acceptance.ObjectBeforeAMember` is `{"a":{},"b":1}`. `Acceptance.DocumentIsAcceptedIff` says which documents are
  accepted, and `RoundTrip.DocumentRoundTrip` holds for all printable documents, rejected ones too.
- A key that is left without a value at the end of an object within an object runs into the next key, whose value is then
  reported under both: `BadBytes.KeysRunTogether`. Values may be left out, a comma may be the last thing in an object, and
  another value may follow an array without a comma: `Grammar.MayFollow` is the whole table, and
  `Grammar.ReturnsZeroIff` says that it is exact.
- Of JSON's escapes, those of the slash, of backspace and form feed, and by number are rejected:
  `BadBytes.EscapeDecides`, `BadBytes.SlashIsNoEscape`.
- A header line without a colon ends the head as a blank line does: `StatusLines.ColonlessLineEndsTheHead`.
- A header with an empty value takes the next line for its value: `HttpFraming.MergedLines`. A Content-Length lost this
  way does no harm, since the body is then read to the end of the stream. What does harm is an empty value with no header
  line after it: it swallows the blank line and the body. `LineStarts.LobbyResponseIsReadIff` gives the condition, and
  `HttpFraming.EmptyLastHeaderLosesTheBody` a response that returns 0 and reports nothing. After a line end in the body
  the rest of it may be taken for a body of its own, and for one document that makes the same callbacks:
  `SwallowedBody.SwallowedBodyIsReadAllTheSame`.
- A scan that is stopped ends with KVI_STATUS_ERROR, and still announces every previous game that it has not reached as
  gone: `StoppedScan.StopEnds`, and `StoppedScan.QuitWhileStillThere` for a game that is in the document all the time.
- Line 167 of `bzcchtable.c` has no effect; the comment above it says what it is for. `HashTable.Table.Delete` models
  both, and says exactly when the table stays usable for new entries without the repair.
- `isspace(mm_string[i] && len == 0)` never skips a space, so "1; 2" is rejected, and an overflow on the last mod id
  returns 1, not 0: `ModList.SpaceIsRejected`, `ModList.SplitReturns`, `ModList.FullListOverflows`.
- Under every key of a server the last value wins, except for the mod list: a later list overwrites only the slots that it
  fills. `DirectReading.LastModListWinsIff` says when it wins all the same, `DirectReading.ModListsMix` shows when not.
- A server or player object without any field takes up an index and reports nothing, so one that reports something after
  it is refused as skipping over an index: `LobbyScan.LobbyIsAcceptedIff`, `LobbyScan.SkippedServerIsRefused`.
- Nicknames are cached by a hash of the identifier, and valid identifiers can share one: `NickCache.IdsCollide`. The
  nickname given to one player is then shown for the other: `NickCache.WrongNicknameIsShown`.
- `LoadNick` asks for 64 bytes and returns one character less than is stored, so which nicknames the registry gives back
  depends on their length: `NickCache.LostEntryComesBackIff`. An empty one counts as loaded: `NickCache.LoadedLengths`.
- The hash shifts right over a table made for shifting left, so it is not the CRC-32 of section 8 of RFC 1952. All facts
  are about the code's own function.

## Model

| member | source | states |
|---|---|---|
| `WholeScan.LobbyFileIsScanned` | bzccscanner.c:693-712 | a lobby whose texts fit, with at most 128 servers that report something and room for their players, none of which comes after one that reports nothing, printed with any white space into a file and read in any chunks, returns 0, is never refused by the consumer, and leaves exactly the games that a direct reading of the document gives, with a row for each server that a bare value closes |
| `WholeScan.LobbyResponseIsScanned` | bzccnet.c:466-562 | the same for the lobby as body of a 200 response, one of whose header lines gives the body's length; header values may be empty as long as none is left at the end once each has taken the next line, although the last byte may never be processed |
| `WholeScan.LobbyFileIsAcceptedIff` | bzccscanner.c:266-295 | those conditions are exact, for every document of that shape, empty objects included: parser and consumer together return 0 if and only if the texts fit, there is room, and no index is skipped |
| `WholeScan.LobbyAccepted` | bzccnet.c:142-251 | the parser accepts a lobby exactly if every key and value is shorter than its buffer and no key holds a line break |
| `WholeScan.NobodyStops` | bzccscanner.c:256-290 | a consumer that accepts every callback of the unstopped run leaves the run as it is |
| `LiteralLobby.TheLobbyIsScanned` | bzccscanner.c:256-424 | one lobby with literal keys and values, of one server with one player, printed into a file with any white space around it and read in any chunks, leaves one game that is given field by field, with its row |
| `LobbyScan.LobbyIsRead` | bzccscanner.c:266-421 | consuming the callbacks of a lobby in order is the direct reading of its servers, one zeroed game for each that reports something, and no callback is answered with a stop |
| `LobbyScan.LobbyIsAcceptedIff` | bzccscanner.c:266-295 | a callback is answered with a stop if and only if more than 128 servers report something, a field or a reporting player comes after sixteen players of its server, or a server or player that reports something comes after one that does not |
| `LobbyScan.SkippedServerIsRefused` | bzccscanner.c:272-275 | an empty server object followed by one with a field: the parser accepts it, the consumer stops |
| `LobbyScan.QuotedServerHasNoRow` | bzccscanner.c:390-392 | a server `{"n":"x"}` fills a game and shows no row |
| `LobbyScan.ServerIsRead` | bzccscanner.c:271-399 | the callbacks of one server object fill the next game and nothing else, and show its row exactly if its last value is bare |
| `LobbyScan.FillServerReads` | bzccscanner.c:294-391 | fields and players may come in any order in a server object: the game has the fields folded and the players placed as if they were read separately |
| `DirectReading.LastValueWins` | bzccscanner.c:327-391 | every field of a game but the mod list holds the value of the last member whose key stands for it, and zero if there is none |
| `DirectReading.ModListsAreFolded` | bzccscanner.c:345-347 | the mod slots are what all mod lists of the server leave, each written over the one before |
| `DirectReading.OneModListIsRead` | bzccscanner.c:345-347 | a server whose only mod list is 1 to 31 ids joined by semicolons holds these ids, and zeros after them |
| `DirectReading.LastModListWinsIff` | bzccscanner.c:345-347 | the slots are those of the last mod list alone if and only if the lists before have left zeros in all slots that it does not fill |
| `DirectReading.SecondModListWinsIff` | bzccscanner.c:345-347 | for two printed lists: if and only if the first has no id but zero where the second has ended |
| `DirectReading.ModListsMix` | bzccscanner.c:345-347 | a server with `"mm":"1;2"` and then `"mm":"3"` holds 3 and 2 |
| `DirectReading.LastPlayerValueWins` | bzccscanner.c:302-321 | the same for a player |
| `DirectReading.Fields` | bzccscanner.c:327-391 | which keys fill the texts, the password flag and the identifier of a game, how they are cut, and that no other key touches them |
| `DirectReading.NumberFields` | bzccscanner.c:353-386 | the same for its numbers |
| `DirectReading.PlayerFields` | bzccscanner.c:302-321 | the same for the fields of a player |
| `LiteralKeys.ServerTexts` | bzccscanner.h:252-272 | with the scanner's own key table, for every key in any mix of cases: "n", "m", "v", "h", "k", "g" and "mm" each fill the one field they stand for, as it is cut or decoded, and a key that is none of the fifteen fills nothing, among them "mu", "gtd", "t" and "si" |
| `LiteralKeys.ServerNumbers` | bzccscanner.h:252-272 | the same for the eight keys with a number: "pm", "tps", "pgm", "pg", "gtm", "gt", "ti" and "ki" |
| `LiteralKeys.PlayerTexts` | bzccscanner.h:227-235 | the same for a player's "n", "i", "t" and "k"; any other key fills nothing, among them "s" and "d" |
| `LiteralLobby.TextsAreRead` | bzccscanner.c:327-359 | for every server object: each text, the password flag and the identifier are those of the last value under its letters, where 32 characters of a key and 512 of a value count |
| `LiteralLobby.NumbersAreRead` | bzccscanner.c:349-383 | the same for its numbers |
| `LiteralLobby.PlayerIsRead` | bzccscanner.c:302-320 | the same for a player |
| `LiteralLobby.ModsAreRead` | bzccscanner.c:345-347 | the mod slots are what the lists under "mm" leave, one over the other |
| `LiteralLobby.ModsMix` | bzccscanner.c:345-347 | so the scanner itself holds 3 and 2 after `"mm":"1;2"` and `"mm":"3"` |
| `SessionTable.ModNameIsTheFirstId` | bzccscanner.c:391 | the mod name is the first mod id in decimal digits |
| `CStrings.AtoiReads` | bzccscanner.c:314-318 | a number is read after white space and with either sign, and whatever follows its digits is ignored |
| `RoundTrip.DocumentRoundTrip` | bzccnet.c:117-464 | for every printable document with any white space between tokens: parsing it makes exactly the callbacks of the recursive reading, with level, slots, status, cut key and unescaped cut value, and fails exactly when that reading does |
| `Grammar.StreamIsReadIff` | bzccnet.c:123-463 | for every byte stream: the parser is still reading at its end if and only if each byte may follow those before it, which is said of the bytes alone, with literal characters and limits |
| `Grammar.ReturnsZeroIff` | bzccnet.c:117-565 | for every byte stream: it returns 0 if and only if each byte may follow those before it, or that holds up to a brace after the root; otherwise it returns 1 |
| `Grammar.FirstBadByte` | bzccnet.c:123-463 | the first byte that may not follow ends the run, whatever comes after it; within quotes it adds no callback |
| `BadBytes.FileReturnsZeroIff` | bzccnet.c:98-115 | the same for a file, however it is cut into reads |
| `BadBytes.EscapeDecides` | bzccnet.c:288-319 | in a quoted value below the limit, a backslash and the byte after it: the five escapes add one character each, and for any other byte the run returns 1 at once |
| `BadBytes.PlainByteDecides` | bzccnet.c:283-330 | any other byte there stands for itself, except that a line feed or carriage return ends the run with 1 |
| `BadBytes.BadEscapeIsRejected` | bzccnet.c:315-318 | in any byte stream that has been read up to a place within a quoted value: a bad escape there returns 1 with the callbacks made before, whatever follows |
| `BadBytes.LineBreakIsRejected` | bzccnet.c:150-153 | so does a line break within a quoted value or a key |
| `BadBytes.BrokenFileIsRejected` | bzccnet.c:150-318 | a file that begins like an accepted document and then has a bad escape or a line break within quotes returns 1, after callbacks that are the first ones of the document |
| `BadBytes.SlashIsNoEscape` | bzccnet.c:315-318 | so `{"a":"\/` is rejected |
| `BadBytes.KeysRunTogether` | bzccnet.c:410-437 | a key without a value at the end of an object within an object, and the next key, are read as one key |
| `BadBytes.FailedReadReturnsOne` | bzccnet.c:98-112 | a read that fails ends the run with 1 and the callbacks made so far, an empty one is the end of the stream, and nothing is read afterwards |
| `Acceptance.DocumentIsAcceptedIff` | bzccnet.c:142-251 | a printed document returns 0 if and only if its texts, words and keys fit their buffers, no key holds a line break, at most five brackets are open anywhere, and every object that is a member of an object is its last member; otherwise 1 |
| `Acceptance.ObjectBeforeAMember` | bzccnet.c:430-438 | `{"a":{},"b":1}` returns 1 |
| `RoundTrip.AfterTheRoot` | bzccnet.c:445-460 | after the root, a closing brace returns 0 and any other byte but white space returns 1, with the callbacks unchanged |
| `RoundTrip.TruncatedReturnsZero` | bzccnet.c:562-565 | every prefix of an accepted document returns 0, with a prefix of its callbacks |
| `RoundTrip.ReadText` | bzccnet.c:253-330 | an escaped text is read back as the text, and rejected exactly if it does not fit |
| `HttpFraming.FileRoundTrip` | bzccnet.c:98-115 | the round trip holds however the file is cut into reads |
| `HttpFraming.ResponseRoundTrip` | bzccnet.c:466-560 | the round trip holds for a document in a 200 response, however it is cut into reads, with any header lines that fit, empty values included, as long as none is left at the end once each has taken the next line |
| `StatusLines.StatusDecides` | bzccnet.c:466-491 | for every status line of 6 to 1022 characters and everything after it: if its last six characters are 200 OK, in upper or lower case, what follows is read as header lines, and otherwise the run returns 1 without a callback |
| `StatusLines.ErrorPageIsRejected` | bzccnet.c:470-473 | so an error page makes no callback and returns 1, however it is cut into reads and whatever the consumer answers |
| `StatusLines.NotFoundIsRejected` | bzccnet.c:470-473 | the same for `HTTP/1.1 404 Not Found` |
| `StatusLines.OverlongStatusIsRejected` | bzccnet.c:483-486 | a status line of 1024 characters returns 1 |
| `StatusLines.OverlongNameIsRejected` | bzccnet.c:521-524 | and so does a header's name |
| `StatusLines.ColonlessLineEndsTheHead` | bzccnet.c:505-510 | a header line without a colon ends the head, and what follows is read as the body |
| `SwallowedBody.ResponseIsReadIff` | bzccnet.c:493-560 | that condition is exact for a document that reports something and that holds no line end, or is accepted and opens no line with a brace except after a comma or an opening bracket: the response is read as the document if and only if no empty value is left at the end |
| `LineStarts.FlatResponseIsReadIff` | bzccnet.c:493-560 | so it is exact, whatever white space is printed, for every accepted document that reports something and in which no object is a member of an object |
| `LineStarts.LobbyResponseIsReadIff` | bzccnet.c:493-560 | in particular for every lobby whose texts fit |
| `SwallowedBody.LinesAreSwallowed` | bzccnet.c:493-560 | in the accepted case, whatever piece of the body the header states leave to the JSON states reports nothing or is rejected |
| `SwallowedBody.SwallowedBodyIsReadAllTheSame` | bzccnet.c:493-560 | a response with an empty last header and a document, in which a member's object begins after a blank line, that is read as the document although its front is taken for the value |
| `HttpFraming.Framing` | bzccnet.c:117-121 | a response with one Content-Length equal to its body's length gives the callbacks and return value of the body without its last byte |
| `HttpFraming.OpenDocument` | bzccnet.c:385-437 | a document without its closing brace has made all its callbacks, and is rejected exactly if the whole one is |
| `HttpFraming.MergedLines` | bzccnet.c:531-560 | a list of header lines, with no empty value left at the end, reads as the list in which each empty value has taken the whole next line |
| `HttpFraming.BodyIsSwallowed` | bzccnet.c:531-560 | if an empty value is left at the end, the blank line and a body without a line end become that value: nothing is reported, and 0 is returned exactly if the body is shorter than 1024 bytes |
| `HttpFraming.EmptyLastHeaderLosesTheBody` | bzccnet.c:531-560 | a response with an empty last header returns 0 and reports nothing, although its document reports a field |
| `ParserRuns.ChunkIndependence` | bzccnet.c:98-115 | for every way of cutting a stream into nonempty reads, return value, callbacks and final state are those of the one-byte step folded over the stream |
| `ParserRuns.StoppingCutsTheRun` | bzccnet.c:265-277 | a consumer changes a run only by ending it: the callbacks are those of the unstopped run up to the first nonzero answer, and then it returns 1 |
| `ParserRuns.NothingAfterAStop` | bzccnet.c:360-372 | once a data callback has answered nonzero there is no other data callback, and the run returns 1 |
| `ParserRuns.TraceOrder` | bzccnet.c:352-437 | in every run the server and player slots of the callbacks never go back, and nothing is reported about a server or a player after its LAST |
| `ParserRuns.OneLastPerBlock` | bzccnet.c:354-356 | every server and every player has at most one LAST |
| `BracketStack.StackIsUnclosedBrackets` | bzccnet.c:385-438 | for every byte stream, while the parser reads on: brackets nest, `is_array[0..depth]` is the stack of unclosed brackets, there are at most five, and none only before the root opens and after it closes, so line 386 always has one to look at |
| `BracketStack.BadNestingIsRejected` | bzccnet.c:385-460 | a text whose brackets do not nest returns 0 if the first byte that breaks the nesting is a closing brace outside quotes after the root has closed and all before it was accepted, and otherwise 1 |
| `BracketStack.ExtraBrace` | bzccnet.c:450-455 | `{}}` returns 0 |
| `BracketStack.LastIsTheFinalEntry` | bzccnet.c:354-437 | in every byte stream that returns 0, each LAST is raised by a brace that closes an object three brackets deep, or five for a player |
| `ParserInvariants.ReachableIsGood` | bzccnet.c:155-161 | in every reachable state the accumulated lengths are below 1024, at most five brackets are open, the value is empty except while it is read, and each flag belongs to the state that uses it |
| `StreamParser.BufferedReaderInfo.Fill` | bzccnet.c:7-38 | one read: a failure, the end of the stream, or bytes in the buffer |
| `StreamParser.WordChar` | bzccnet.c:40-53 | a word character is a letter, a digit, or one of the twelve listed |
| `StreamParser.CopyString` | bzccnet.c:262-263 | what `strncpy` takes out of a zero-terminated buffer |
| `StreamParser.Parser.MakeCallback` | bzccnet.c:259-277 | the callback at the end of a value: its record, only at depths 3 and 5, and whether the consumer stops the run |
| `StreamParser.Parser.AtRootStart` | bzccnet.c:123-140 | EXPECT_ROOT_START does the specified step |
| `StreamParser.Parser.AtKeyName` | bzccnet.c:142-180 | EXPECT_KEY_NAME does the specified step or falls through to EXPECT_NEXT |
| `StreamParser.Parser.AtKeySep` | bzccnet.c:182-194 | EXPECT_KEY_SEP does the specified step |
| `StreamParser.Parser.AtValue` | bzccnet.c:196-251 | EXPECT_VALUE does the specified step or falls through; its unchecked store is in bounds |
| `StreamParser.Parser.InQuotedValue` | bzccnet.c:254-330 | a quoted value: escapes, line breaks, overflow, closing quote |
| `StreamParser.Parser.InBareValue` | bzccnet.c:332-382 | a bare value: word characters, white space, and the end that falls through to EXPECT_NEXT after its callback |
| `StreamParser.Parser.CloseArray` | bzccnet.c:394-405 | a closing bracket pops an array and always expects a value next |
| `StreamParser.Parser.CloseObject` | bzccnet.c:418-437 | a closing brace advances the slots, pops an object, and expects what its parent asks for |
| `StreamParser.Parser.AtNext` | bzccnet.c:385-443 | EXPECT_NEXT does the specified step or falls through to the error |
| `StreamParser.Parser.JsonByte` | bzccnet.c:123-463 | the fall-through chain of the JSON states is the specified step, for every byte |
| `StreamParser.Parser.HeaderByte` | bzccnet.c:466-491 | the status line |
| `StreamParser.Parser.HeaderNameByte` | bzccnet.c:493-529 | a header's name, and the blank line |
| `StreamParser.Parser.HeaderValueByte` | bzccnet.c:531-561 | a header's value, and Content-Length |
| `StreamParser.Parser.Byte` | bzccnet.c:114-562 | one turn of the inner loop is the specified step; buffers stay zero beyond what was accumulated |
| `StreamParser.ReadBuffer` | bzccnet.c:114-562 | one buffer of bytes |
| `StreamParser.ParseData` | bzccnet.c:66-565 | the nested loops compute the specified run over whatever the reads deliver, and they end |
| `StreamParser.ScanFile` | bzccnet.c:673-705 | data callbacks followed by exactly one terminal callback, COMPLETE exactly if the parser returned 0 |
| `StreamParser.ScanHTTP` | bzccnet.c:567-671 | the same over a connection, and one ERROR callback for each way to fail before reading |
| `ModList.SplitRawModIds` | bzccscanner.c:163-203 | the loop over the text returns and stores what the specified split does, errors included |
| `ModList.ModListRoundTrip` | bzccscanner.c:163-203 | 1 to 31 ids below 2^31, joined by semicolons, come back exactly, and their number is returned |
| `ModList.SplitReturns` | bzccscanner.c:163-203 | the return value for every text: the number of its runs between semicolons if each has at most 15 characters, all digits, and there are fewer runs than slots; 1 if there are just as many runs as slots; 0 otherwise |
| `ModList.AcceptedIsStored` | bzccscanner.c:170-202 | a text that is accepted stores the numbers of all its runs, in order, and leaves the other slots alone |
| `ModList.SpaceIsRejected` | bzccscanner.c:180-193 | "1; 2" returns 0 |
| `ModList.SecondListAloneIff` | bzccscanner.c:163-203 | two printed lists in turn leave the second alone if and only if the first holds only zeros where the second has ended |
| `ModList.FullListOverflows` | bzccscanner.c:196-202 | 32 ids return 1, with all but the last stored |
| `SessionTable.GetKeyIdentifier` | bzccscanner.c:143-151 | the loop finds the number of a key, 0 if it is unknown |
| `SessionTable.FirstSpellingDecides` | bzccscanner.c:143-151 | the first entry that spells the key decides |
| `SessionTable.CaseDoesNotMatter` | bzccscanner.c:145-146 | upper and lower case of a key do not matter |
| `SessionScan.ScanControls.StartScan` | bzccscanner.c:696-698 | the games become the previous games, and counting starts again |
| `SessionScan.ScanControls.PlayerField` | bzccscanner.c:302-321 | the switch over a player's keys |
| `SessionScan.ScanControls.ServerField` | bzccscanner.c:327-391 | the switch over a server's keys |
| `SessionScan.ScanControls.LookUpGame` | bzccscanner.c:61-69 | the first game with an identifier, if there is one |
| `SessionScan.ScanControls.LookUpPlayer` | bzccscanner.c:103-112 | the first counted player with an identifier, if there is one |
| `SessionScan.ScanControls.FlushServer` | bzccscanner.c:393-408 | the LAST of a server: mod name, row, and an announcement exactly if its nonzero identifier is new |
| `SessionScan.ScanControls.ProcessRecord` | bzccscanner.c:260-424 | a data callback: stop request, ranges, skipped indices, opening, storing, counting and closing, as specified, and the answer is nonzero exactly when it is refused |
| `SessionScan.ScanControls.ProcessEnd` | bzccscanner.c:210-254 | the terminal callback announces what the specified comparison of the two tables does, in that order |
| `Limits.RefusedIff` | bzccscanner.c:260-292 | a data callback is answered with a stop if and only if one was asked for, it is about a 129th server or a seventeenth player, or an index skips one |
| `FrozenRows.ConsumeWritesItsOwnRow` | bzccscanner.c:271-399 | a callback writes no game but its own and shows no row but its own, and that exactly on its server's LAST |
| `FrozenRows.FinishedRowsAreFrozen` | bzccscanner.c:271-281 | for every stream, chunking, failure and stop request: after a server's LAST no later callback of the scan writes that game or its players, and no row goes away |
| `FrozenRows.PlayerCountsFit` | bzccscanner.c:323-326 | no scan counts more players than a game has slots |
| `Notifications.ListenerHoldsTheTable` | bzccscanner.c:217-226 | over any number of scans that leave no new game without a row and an identifier, a listener that applies GAME_NEW and GAME_QUIT always holds exactly the table's identifiers |
| `Notifications.ScanReplays` | bzccscanner.c:217-254 | one scan, whether it is completed, fails or is stopped, takes such a listener from the old table to the new one if and only if every new game has a row and a nonzero identifier |
| `PlayerListener.GamesReplay` | bzccscanner.c:217-226 | one scan announces as new exactly the games shown under a nonzero identifier that was not in the table, and as gone exactly those no longer in it |
| `PlayerListener.PlayersReplay` | bzccscanner.c:217-251 | for a game whose identifier is its own in both tables: a listener of that game that held the counted players and their names, and folds over everything a scan announces, in order, holds the new ones, if and only if no two of these share an identifier under different names |
| `PlayerListener.ListenerHoldsThePlayers` | bzccscanner.c:217-251 | the same over any number of scans, as long as the game stays |
| `PlayerListener.OnlyStayingGames` | bzccscanner.c:217-251 | a scan announces something about players only for a game that is in both tables |
| `PlayerListener.QuitsAndJoinsReplay` | bzccscanner.c:228-251 | one scan announces exactly the old players whose identifier is gone as having left, and exactly the new ones whose identifier was not there as having joined |
| `PlayerListener.QuitsComeFirst` | bzccscanner.c:228-251 | of one game, nobody is announced as gone after somebody has joined or changed the name |
| `PlayerListener.NickChangesReplay` | bzccscanner.c:239-249 | a scan announces a nick change of a game if and only if it is about a new player and the first old one with that identifier, and their names differ |
| `PlayerListener.NothingIsAnnouncedIff` | bzccscanner.c:217-251 | the comparison at the end of a scan announces nothing if and only if every previous game is in the table, with the same players under the same names |
| `CountedRoster.CountedAreTheClosedIff` | bzccscanner.c:322-326 | the players that `player_count` covers are those whose last value is bare, if and only if none of these comes after a player that reports something and ends otherwise |
| `CountedRoster.WrongPlayerIsCounted` | bzccscanner.c:322-326 | of the players `{"i":"A"}` and `{"i":B}`, the second ends with LAST and the first is covered |
| `LobbyReplay.LobbyCloses` | bzccscanner.c:385-407 | a lobby whose servers end with a bare value and have a nonzero identifier leaves a table in which every game is visible, with exactly the identifiers in the document |
| `LobbyReplay.ListenerHoldsTheLobby` | bzccscanner.c:210-254 | any number of such lobby files, each cut in any way, parsed, consumed and compared with the table before: a listener that held the table's games, and hears only what is announced, holds exactly the games of the last document |
| `Lifecycle.ScansNeverOverlap` | bzccscanner.c:1470-1486 | in every order of messages and thread steps at most one thread can write the table |
| `Lifecycle.AutoRefreshIsNeverLost` | bzccscanner.c:564-587 | with automatic scanning on, every thread gone and nobody quitting, the timer is set, or the rename dialog is open and will set it |
| `AutoScan.TimerAndButton` | bzccscanner.c:1203-1213 | a timer message, and the Refresh button: without the dialog, one scan of the stream begins in one new thread if none is running, and one that runs is asked to stop and no thread is created; with the dialog open, a timer message is deferred and the button does nothing |
| `AutoScan.TogglesAndDelay` | bzccscanner.c:958-990 | switching automatic scanning off stops the timer, switching it on sets it, a new delay sets it again if it is on, and nothing else changes |
| `AutoScan.AtTheStart` | bzccscanner.c:2113-2115 | with automatic scanning the window starts with one scan begun, without it with none and no timer |
| `AutoScan.TimerScans` | bzccscanner.c:564-713 | a timer message and all the steps of the thread it creates: the table is what the whole scan makes of the stream, the window is at rest again, and the timer is set if automatic scanning is on |
| `AutoScan.ScanningGoesOn` | bzccscanner.c:564-713 | so any number of streams are scanned one after the other, each leaving the timer set for the next |
| `AutoScan.ReachableScansGoOn` | bzccscanner.c:564-713 | from every reachable window with automatic scanning on, no thread at work, no dialog and nobody quitting |
| `AutoScan.ListenerFollowsTheWindow` | bzccscanner.c:217-254 | a listener that hears what these scans announce holds the games of the window's table, as long as every new game is seen |
| `AutoScan.DeferredScanBegins` | bzccscanner.c:1156-1172 | a timer message that came while the dialog was open: closing the dialog sets the timer, and the next message begins a scan |
| `AutoScan.NothingDeferredWhenOff` | bzccscanner.c:1165-1172 | but not if automatic scanning is off by then |
| `AutoScan.ChosenPlayerIsRenamed` | bzccscanner.c:1117-1201 | choosing a game and a player, opening the dialog and submitting a nickname writes it for that player of that game, and nothing else in the table changes |
| `AutoScan.CloseWaitsForTheScan` | bzccscanner.c:1488-1506 | the first close during a scan only asks it to stop; when the thread has ended the window is closed and no timer has been set; a second close does not wait |
| `AutoScan.NothingElseCloses` | bzccscanner.c:572-587 | the window is closed by nothing but a close, or the end of a thread after one |
| `Lifecycle.NoScanBeginsWhileRenaming` | bzccscanner.c:1471-1473 | no scan begins while the rename dialog is open |
| `Lifecycle.RenamedPlayerIsFrozen` | bzccscanner.c:1129-1131 | the player under rename keeps, in its place, everything a scan fills in, from the opening of the dialog to its closing, whatever the running scan still does |
| `Lifecycle.StopIsFinal` | bzccscanner.c:260-264 | once a scan has been asked to stop, even before its thread runs, and until its terminal callback, it stores and announces nothing, the request stands, and only nicknames change in the table |
| `StoppedScan.StopEnds` | bzccscanner.c:210-257 | the terminal callback of such a scan stores nothing, and announces exactly the comparison of the previous games with what had been stored at the request; it announces nothing if and only if all of them had been stored, with the same players |
| `StoppedScan.NoServersQuitAll` | bzccscanner.c:217-226 | if nothing had been stored, that is a GAME_QUIT for every previous game |
| `StoppedScan.StopAnnouncesAGameThatIsThere` | bzccscanner.c:210-264 | a stream of one server scanned twice, with Stop pressed in the second scan before its first callback: its game is announced as gone |
| `StoppedScan.QuitWhileStillThere` | bzccscanner.c:210-264 | the same for the file `{"G":[{"g":x}]}` |
| `StoppedScan.TheScannerQuitsIt` | bzccscanner.c:210-264 | and so for the scanner's own key table, with the identifier of `x` |
| `Lifecycle.NextKeeps` | bzccscanner.c:1117-1506 | every message and every thread step keeps the invariant behind these |
| `ScannerWindow.WindowControls.constructor` | bzccscanner.c:2113-2115 | at the start, automatic scanning refreshes at once |
| `ScannerWindow.WindowControls.BeginScan` | bzccscanner.c:589-642 | stops the timer, forgets selections and rows, and creates one thread |
| `ScannerWindow.WindowControls.Refresh` | bzccscanner.c:1470-1486 | nothing while renaming, a stop request while scanning, otherwise a new scan |
| `ScannerWindow.WindowControls.ThreadStarts` | bzccscanner.c:693-698 | the thread moves the games over |
| `ScannerWindow.WindowControls.Data` | bzccscanner.c:256-424 | the thread's next callback, answered with the flag as it stands |
| `ScannerWindow.WindowControls.LastData` | bzccscanner.c:210-257 | the terminal callback and the release of the handle |
| `ScannerWindow.WindowControls.EndScan` | bzccscanner.c:572-587 | quits if asked to, otherwise sets the timer if automatic scanning is on |
| `ScannerWindow.WindowControls.WmTimer` | bzccscanner.c:1203-1213 | defers the refresh while renaming, and otherwise refreshes |
| `ScannerWindow.WindowControls.ToggleAutoScan` | bzccscanner.c:958-971 | sets or stops the timer |
| `ScannerWindow.WindowControls.ApplyDelay` | bzccscanner.c:973-990 | restarts the timer with a delay of at least the minimum |
| `ScannerWindow.WindowControls.SelectGame` | bzccscanner.c:1355-1361 | selecting another visible game deselects the player |
| `ScannerWindow.WindowControls.SelectPlayer` | bzccscanner.c:1253-1273 | selecting a player of the selected game, in range |
| `ScannerWindow.WindowControls.OpenRename` | bzccscanner.c:1117-1154 | opens the dialog for the selected player, unless one is open |
| `ScannerWindow.WindowControls.CloseRename` | bzccscanner.c:1156-1172 | closes it, and sets the timer if a refresh was deferred and automatic scanning is still on |
| `ScannerWindow.WindowControls.WmClose` | bzccscanner.c:1488-1506 | waits for a running scan the first time |
| `Crc32.CalcCRC32A` | bzcchtable.c:81-90 | the loop computes the hash of the characters before the terminator |
| `Crc32.CalcCRC32` | bzcchtable.c:70-79 | the same over wide characters |
| `Words.TableIsBitwise` | bzcchtable.c:3-68 | each of the 256 table entries is what eight single-bit steps of polynomial 0x04C11DB7 make of its index |
| `Words.TopBytesDiffer` | bzcchtable.c:3-68 | the top bytes of the table are a permutation |
| `Crc32.CrcIsBitwise` | bzcchtable.c:81-90 | the table loop equals a computation bit by bit without a table |
| `Crc32.CrcIsAffine` | bzcchtable.c:81-90 | over strings of equal length the hash of an exclusive or of three is the exclusive or of the hashes |
| `Crc32.WideIsNarrow` | bzcchtable.c:70-90 | the wide and the narrow hash agree on the low bytes of every string |
| `Crc32.WindowIsDetected` | bzcchtable.c:81-90 | two different strings of equal length that differ only inside four consecutive bytes never share a hash |
| `CheckValues.IdentifiersAreToldApart` | bzccscanner.c:308-311 | so two identifiers of a lobby that are equally long and differ only within four characters in a row get different numbers |
| `CheckValues.IdentityOfX` | bzccscanner.c:385-387 | the identifier `x` gets the number 0x884BB0EB |
| `NickCache.KnownHash` | bzcchtable.c:70-79 | the hash of "00000" is 0x51379801 |
| `HashTable.Entry.CopyStr` | bzcchtable.c:92-101 | copies a string that fits, with its terminator |
| `HashTable.Table.FindCrc32` | bzcchtable.c:103-113 | finds exactly what the map holds under the hash |
| `HashTable.Table.Find` | bzcchtable.c:115-118 | the same under a reference string |
| `HashTable.Table.New` | bzcchtable.c:120-137 | adds an entry after a missed lookup; it can be found again exactly if `last` was the final entry |
| `HashTable.Table.Set` | bzcchtable.c:139-157 | replaces or adds, on the map; reports failure exactly if memory is needed and missing |
| `HashTable.Table.Delete` | bzcchtable.c:159-192 | removes the key and frees its entry once; says exactly when `last` is still the final entry, with and without the repair |
| `HashTable.Table.Free` | bzcchtable.c:194-203 | frees every live entry once and empties the table |
| `HashTable.PerformAll` | bzcchtable.c:103-203 | with the repair, any sequence of operations on a new table does to every lookup what it does to a map, and no entry is lost |
| `HashTable.Perform` | bzcchtable.c:103-203 | one operation: the map's new value, and every entry ever allocated stays live, or becomes freed and stays so |
| `HashTable.DanglingLast` | bzcchtable.c:164-170 | as written, deleting the final entry of two leaves `last` outside the chain |
| `HashTable.LostString` | bzcchtable.c:135 | and then a string filed under a new hash cannot be found |
| `HashTable.MapOfWithout` | bzcchtable.c:159-192 | taking a node out of a chain with distinct keys takes its key out of the map and nothing else |
| `HashTable.AssignedMeans` | bzcchtable.c:139-157 | replacing or appending a node updates the map at its key and nowhere else |
| `NickCache.NickNames.ShowPlayer` | bzccscanner.c:513-533 | the loop body of `UpdatePlayerList`, on the linked table and the registry, is the specified step |
| `NickCache.NickNames.ShowPlayers` | bzccscanner.c:510-555 | the loop over a game's players: a player only gains a nickname, only if it had none and has an identifier, and only if one is then stored for it, namely the same if line 167 is repaired or the registry can give it back; nothing stored is lost, and the cache stays coherent |
| `NickCache.NickNames.RenamePlayer` | bzccscanner.c:1174-1198 | so is submitting the rename dialog: an unchanged text or an invalid identifier changes nothing, the empty text deletes |
| `NickCache.UserIDIsValid` | bzccscanner.c:134-141 | a valid identifier has at most 32 letters and digits |
| `NickCache.StaysCoherent` | bzccscanner.c:513-533 | over any interleaving of shown lists, automatic saves, renames and deletions every cached nickname is the stored one, if no two identifiers share a hash, with line 167 as written or repaired |
| `NickCache.CoherentIffNoCollisions` | bzccscanner.c:513-533 | for every set of identifiers, valid or not, that condition is exact: coherence is kept by all runs if and only if no two share a hash |
| `NickCache.IdsCollide` | bzcchtable.c:70-79 | the valid identifiers "00000" and "i8knj" share their hash |
| `NickCache.WrongNicknameIsShown` | bzccscanner.c:513-533 | so a nickname given to the one player is shown for the other, for whom none is stored |
| `NickCache.ShownIsStored` | bzccscanner.c:513-533 | what a list shows for a player without a nickname is the stored one, or the in-game name that is then stored, or nothing |
| `NickCache.ShownIsCached` | bzccscanner.c:521-532 | what is shown from the registry, or saved as the in-game name, is cached if its entry can be kept, only the latter is stored, and nothing else changes |
| `NickCache.EmptyTextDeletes` | bzccscanner.c:1182-1186 | the empty text, submitted for a player with a nickname and a valid identifier: the nickname is gone from the player, the registry and the cache, and everything else is stored and cached as before |
| `NickCache.TextIsSet` | bzccscanner.c:1187-1191 | any other new text becomes the player's, is stored under the identifier and cached under its hash, and nothing else changes |
| `NickCache.DeletedStaysDeleted` | bzccscanner.c:1182-1186 | whatever happens to other players afterwards, the deleted nickname is neither stored nor cached, and the next list shows nothing for the player, or the in-game name if that is saved |
| `NickCache.OthersStayCached` | bzccscanner.c:1185 | under a hash of its own, every other nickname stays cached |
| `NickCache.RenameIsShownAgainIff` | bzccscanner.c:1186-1190 | a nickname that was set is shown again after a new scan, whatever happened to other players, if and only if its entry was kept, or the registry gives it back, or it is saved again as the in-game name |
| `NickCache.LoadedLengths` | bzccsettings.c:67-99 | the stored strings that count as loaded are those of 2 to 32 characters, or 1 to 31 if the registry puts back the terminator that is left out, and the empty one |
| `NickCache.LostEntryComesBackIff` | bzccsettings.c:102-131 | so a nickname whose entry was lost comes back exactly if it has such a length or is saved again |

## Left out

- Sockets, files, threads, the registry and window handles as such: they appear as sequences of reads, map operations
  and steps. `CreateThread`, the assignment to `hScan` and `BeginScan` are one step, and `SetTimer` succeeds.
- The `send` loop, address lookup and the request line; gzip or chunked bodies, which the code does not decode.
- Windows, layout, drawing, menus, the tray, list views, sorting (`CompareFunc`), status texts, message boxes, error
  texts, settings other than nicknames.
- `json_name`, written and never read, and `value_complete`, never tested.
- Notification texts and the test whether the window is minimized: `SessionTable.Note` logs every call. `NotifyGameOpen`,
  whose body is empty, is not logged.
- `total_player_count`, time stamps, and the score and deaths keys, which the table has numbers for but no case.
- Aliasing inside a game: `GameInfo` and `PlayerInfo` are values in an array, so `scan_game` and `scan_player` are
  indices. The test of `scan_game` against NULL is not modelled: the first record of a scan that is stored opens a game.
- `ParserSpec.StepJson`: the slot counters are unbounded, where the source's are `int`.
- `CStrings.Atoi`: does not overflow, where C leaves `atoi` of a number out of range undefined.
- `ModList.AcceptedIsStored`: runs of digits of 2^31 and more are stored as they are, for the same reason.
- `StreamParser.Parser.HeaderByte`: a status line shorter than six characters is rejected, where the source compares from
  before its buffer.
- `StreamParser.Parser.MakeCallback`: of a value of 512 bytes or more the first 512 are taken as the value, where the
  source leaves `value_str` without a terminator.
- `SessionTable.SetServerField`: decoding names is an unknown function, and converting them to wide characters is not
  modelled; neither is the width of the numbers.
- `HashTable.Table.New`: after a deletion that leaves `last` behind, the source writes into freed memory; the model
  counts the new entry as lost and does not say what else may happen.
- `HashTable.LostString`: likewise, the lookup fails in the model, and what the write into freed memory does is left open.
- `ScannerWindow.WindowControls.SelectPlayer`: without a selected game the message is ignored, where line 1270 indexes
  the players of a null game.
- `Lifecycle.OnShowNames`: the list may write any nicknames into the selected game; which ones is the subject of
  `NickCache`, whose players are separate from the table's.
- `NickCache.OnShow`: a string read back from the registry is taken to be the stored one. The source does not terminate
  what it reads, and for an empty string, which it takes for loaded, it shows what its buffer held before.
