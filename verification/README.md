# A verified model of le-cli

This project models the parts of le-cli with the most state and the most branching, and proves
what they promise for every input, every run and every interleaving.

- **JSON reformatter** (`JsonGrammar`, `JsonLexer`, `JsonPrinter`, `JsonNesting`, `JsonUtf8`, `TextJson`). The
  grammar of RFC 8259 as value trees, tokens, and the texts that spell them. The flat byte loop of
  `tools/text.go` prints what a recursive printer prints, in place, through an output that refuses
  to pass 1 MiB. `FormatControls` is the escaping pass of `cmd/datacenter.go` over the same grammar.
- **Text codecs** (`Base64`, `TextCodecs`, `TextOutcomes`, `CodecTables`, `Utf8`, `ByteStrings`). Base64 and percent-encoding with
  the checks that `Transform` puts around them.
- **Companion action protocol** (`CompanionServer`, `CompanionProtocol`, `CompanionVerdicts`). The server object and its
  critical sections, and every interleaving of handlers, timer callbacks and shutdown.
- **Wire guard** (`RespGrammar`, `RespNumbers`, `WireGuard`, `WireStream`). The RESP2 reader against a grammar,
  and the stream adapter over all sequences of read sizes.
- **Terminal interface** (`UiScheduler`, `UiScans`, `UiRows`, `UiSort`, `UiGroups`, `UiSelection`, `UiModel`).
  Scan scheduling, row order, grouping, selection and cursor.
- **Decoders, joins and guards** (`Unescape`, `MetricsJoin`, `MetricsHealth`, `MetricsAssemble`,
  `MetricsStamps`, `MetricsFields`, `MongoFilter`, `MongoText`, `MongoMeaning`, `KillGuard`).

`Wrappers`, `Sequences` and `StringOrder` are shared helpers.

Each object the program updates in place is a class here; its methods are tied to functions of the
old state, and the lemmas are about those functions. Answers of code that is not modelled (the
grammar check, the engine, the tools that stop processes, the socket) are parameters and may be
anything.

Where the code and its comments or the obvious expectation differ, the code is followed:

- `unescapePS` misreads more than carets and `M-`: an `M` before a control byte, DEL, and the byte
  0xDE also come back wrong. `PsRoundTrip` gives the exact condition, `MBeforeControl` an input.
- `unescapeLsof` undoes the escaping of every name without a literal `\xHH`, backslashes included.
- `Stop` and `Restart` act in cases in which the strict path refuses. `LegacyActsAlone` gives the exact
  condition, `LegacySignalsUnstamped` an instance.
- In `datacenter/metrics/fetch.go` a device's stamps are found by a string prefix; the lemmas show
  that this is sound because labels contain no NUL.
- In GPU mode several devices can bring an `up` timestamp for one source. The later one wins, so the
  answer can depend on the order of the samples (`LaterUpWins`). The program's own query groups `up`
  without device labels.

To verify: `dafny verify dfyconfig.toml`.

## Model

| member | source | states |
|---|---|---|
| JsonLexer.LexReadsTokens | tools/text.go:262-319 | any text of a tree, however spaced, reads back as exactly the tree's tokens |
| JsonLexer.TokensUnique | tools/text.go:231-232 | a token sequence followed by anything belongs to one tree only |
| JsonLexer.OneTreePerText | tools/text.go:231-232 | the grammar is unambiguous: a text has at most one tree |
| JsonPrinter.TokenLoopPrintsTree | tools/text.go:259-328 | printing token by token, with only depth, previous and next token, equals the recursive four-space printer |
| JsonPrinter.PrettyIsTextOf | tools/text.go:231-232 | the printed text with its final LF is a JSON text of the same tree |
| JsonNesting.ScanMeasuresDepth | tools/text.go:234-255 | on a JSON text the scan rejects exactly the trees nested deeper than 128 |
| JsonNesting.TreesBalance | tools/text.go:269-284 | the depth never goes below zero and ends at zero |
| TextJson.BoundedTextOutput.Append | tools/text.go:335-341 | appends whole or refuses, and refuses exactly past 1 MiB |
| TextJson.BoundedTextOutput.Newline | tools/text.go:343-353 | writes LF and four spaces a level, failing exactly when that does not fit |
| TextJson.SkipSpaces | tools/text.go:272-275 | finds the next byte that is no space, in bounds, without changing what the rest lexes to |
| TextJson.SkipString | tools/text.go:303-310 | stops on the closing quotation mark, in bounds |
| TextJson.SkipPrim | tools/text.go:313-317 | stops on the last byte of a number or literal |
| TextJson.EmitToken | tools/text.go:262-323 | one round of the switch writes the token's piece, moves past the token, and fails only when the piece does not fit |
| TextJson.PrintLoop | tools/text.go:259-328 | the loop answers the recursive printer's text plus LF, or the limit error when that is too long |
| TextJson.ScanDepth | tools/text.go:234-255 | the first loop computes the nesting scan |
| TextJson.PrettyTextJson | tools/text.go:233-329 | which of the four outcomes every input gets, and the exact output for the tree of a valid text |
| TextJson.SameTokensSameAnswer | tools/text.go:231-329 | texts with the same tokens get the same answer |
| TextJson.OutputKeepsTokens | tools/text.go:231-329 | a successful output lexes to the input's tokens, every lexeme unchanged |
| TextJson.Idempotent | tools/text.go:231-329 | reformatting an output gives it back and nothing else |
| JsonUtf8.PrettyIsUtf8 | tools/text.go:155-157 | the printed text of a JSON text in UTF-8 is in UTF-8, so the final check never rejects it |
| FormatControls.EscapeFormatControls | cmd/datacenter.go:309-321 | the loop writes the escaped text |
| FormatControls.SurrogatesOf | cmd/datacenter.go:313-314 | the pair above U+FFFF is a high and a low surrogate and combines back, RFC 2781 section 2.1 |
| FormatControls.EscapeKeepsString | cmd/datacenter.go:310-321 | an escaped string body is a string body that decodes to the same code points |
| FormatControls.EscapingKeepsMeaning | cmd/datacenter.go:301-323 | escaping a JSON text leaves a JSON text without format controls whose only tree means the same |
| Base64.DecodesExactly | tools/text.go:203-206 | strict decoding gives exactly the bytes whose encoding the text is, RFC 4648 sections 3.5 and 4 |
| Base64.EncodedLen | tools/text.go:99-105 | the encoded length is four for every started group of three |
| TextCodecs.DecodeTextBase64 | tools/text.go:187-208 | success with x exactly when the text without white space is the encoding of x |
| TextCodecs.EncodeTextUrl | tools/text.go:210-225 | the bounded loop answers the percent-encoding or the limit error |
| TextCodecs.UnescapeOfEncode | tools/text.go:108-116 | percent-decoding undoes percent-encoding |
| TextCodecs.PercentLength | tools/text.go:213-222 | one byte for each unreserved byte or slash, three for every other |
| TextCodecs.Transform | tools/text.go:61-159 | the JSON, plain, Base64 and percent operations, each with the input check, output limit and UTF-8 check around it |
| TextCodecs.Base64RoundTrip | tools/text.go:98-107 | decoding an encoded input through Transform gives the input |
| TextCodecs.Base64Canonical | tools/text.go:106-107 | a text decodes only if it is the encoding of the result |
| TextCodecs.UrlRoundTrip | tools/text.go:108-116 | decoding an encoded input through Transform gives the trimmed input |
| TextCodecs.JsonCanonical | tools/text.go:76-77 | through Transform, JSON texts with the same tokens that pass the input check get the same answer |
| TextCodecs.JsonIdempotent | tools/text.go:76-77 | through Transform, a JSON output passes the input check, keeps the input's tokens, and is its own only answer |
| TextOutcomes.RefusedInputs | tools/text.go:61-173 | an input that is too long or not UTF-8 is refused by every operation, and what comes out is neither |
| TextOutcomes.EncodersAnswer | tools/text.go:97-109 | what plain, Base64 and percent-encoding answer to every other input, by its length |
| TextOutcomes.DecodersAnswer | tools/text.go:110-115 | percent-decoding answers what is spelled, if it is spelled and is UTF-8 |
| TextOutcomes.Base64Answers | tools/text.go:106-107 | Base64 decoding answers what is spelled, if it is spelled and is UTF-8 |
| CodecTables.AlphabetExactly | tools/text.go:99-105 | the 64 characters of RFC 4648, table 1 |
| CodecTables.QuantumNumber | tools/text.go:99-105 | four characters spell in base 64 what three bytes spell in base 256 |
| CodecTables.PaddedNumber | tools/text.go:99-105 | the padded groups of two bytes and of one |
| CodecTables.QuantumAt | tools/text.go:99-105 | every group of bytes makes the four characters at its place |
| CodecTables.HexExactly | tools/text.go:211-222 | the upper-case hexadecimal digits and what they stand for |
| CodecTables.LowerHexExactly | cmd/datacenter.go:310-318 | the lower-case hexadecimal digits of an escape |
| CodecTables.PlainExactly | tools/text.go:215-217 | letters, digits, four marks and the slash stay as they are |
| CodecTables.PercentExactly | tools/text.go:213-222 | every other byte becomes a percent sign and its two digits |
| CodecTables.UnescapeExactly | tools/text.go:110-115 | percent-decoding gives x exactly for the spellings of x |
| CodecTables.UnescapeFails | tools/text.go:110-115 | and fails exactly when a percent sign is not followed by two hexadecimal digits |
| CodecTables.SpaceLenExactly | tools/text.go:109-112 | trimmed characters are those of Unicode's White_Space property |
| CodecTables.TrimExactly | tools/text.go:109-112 | trimming takes all white space at both ends and nothing else |
| CodecTables.WordsSplitAtWhite | kill/kill.go:171-175 | start times are split at the characters of the same property |
| CodecTables.StripExactly | tools/text.go:189-192 | stripping drops the six ASCII white-space bytes and keeps every other in its place |
| CodecTables.ValidExactly | tools/text.go:165-173 | a text is valid exactly when it is the encoding of scalar values, RFC 3629 |
| CompanionServer.Server.ClaimWork | companion/server.go:247-259 | takes the slot unless it is taken or the server is closing |
| CompanionServer.Server.StopClaims | companion/server.go:263-266 | marks the server as closing, which ClaimWork refuses; that nothing starts any more is CompanionProtocol.StoppedForGood |
| CompanionServer.Server.ReleaseWork | companion/server.go:287-391 | the deferred release of both handlers gives the slot back and changes nothing else |
| CompanionServer.Server.ClearSnapshotLocked | companion/server.go:274-280 | drops the snapshot and its timer, nothing else |
| CompanionServer.Server.PublishSnapshot | companion/server.go:339-349 | makes the snapshot current with a timer of its own |
| CompanionServer.Server.TimerCallback | companion/server.go:341-348 | clears only the snapshot it was armed for |
| CompanionServer.Server.PruneReceipts | companion/server.go:363-367 | removes exactly the final receipts whose time has come |
| CompanionServer.Server.FindTarget | companion/server.go:395-401 | the first row with the target ID, or none |
| CompanionServer.Server.BeginAction | companion/server.go:362-411 | the first critical section, with its six verdicts and the state each leaves |
| CompanionServer.Server.FinishAction | companion/server.go:415-432 | the final receipt, its outcome and its new expiry |
| CompanionVerdicts.VerdictExactly | companion/server.go:362-403 | which of the six verdicts every action request gets: a live receipt answers first, then 128 receipts, the slot and the snapshot decide, and all else runs |
| CompanionVerdicts.StateAfterVerdict | companion/server.go:362-411 | receipts, slot and snapshot after each verdict |
| CompanionVerdicts.OutcomeExactly | companion/server.go:415-429 | the class of outcome for every answer of the engine |
| CompanionVerdicts.UnacceptableIgnored | companion/server.go:354-361 | only IDs of 32 lower-case hexadecimal digits and the two operations are looked at |
| CompanionVerdicts.SnapshotGoesThrough | companion/server.go:282-349 | from an idle server a snapshot request publishes its rows for two minutes and gives the slot back |
| CompanionVerdicts.ActionStartsExactly | companion/server.go:356-414 | on an idle server an action starts exactly when its request is new, receipts are few enough and its target is listed |
| CompanionVerdicts.ExpiryGoesThrough | companion/server.go:341-348 | once its time has come the timer takes the current snapshot away |
| CompanionProtocol.Reachable | companion/server.go:247-434 | in every reachable state the slot has one holder at most, a pending receipt's handler holds it, receipts stay within 128, timers match snapshots |
| CompanionProtocol.AtMostOnce | companion/server.go:356-414 | at most one engine action per published snapshot and per identical request, over every run, receipts expired or not |
| CompanionProtocol.RepeatedRequest | companion/server.go:368-379 | over every run, within ten minutes of an action's start its request is answered from the receipt and another under the same ID is refused; nothing starts |
| CompanionProtocol.RequestIdsSpacedOut | companion/server.go:363-411 | over every run, two actions under one request ID start at least ten minutes apart |
| CompanionProtocol.FinishedRequestReplays | companion/server.go:415-432 | once finished, the same request answers the final receipt until that expires |
| CompanionProtocol.StartedFromCurrent | companion/server.go:394-414 | the action's snapshot was current and unexpired in the state in which it was claimed |
| CompanionProtocol.TargetNamesOneRow | companion/server.go:317-321 | the row an action runs on is the only one published under that target ID |
| CompanionProtocol.OnePending | companion/server.go:386-411 | at most one receipt is pending and its action holds the slot |
| CompanionProtocol.FinalUntilExpiry | companion/server.go:363-380 | a final receipt does not change before its own expiry, whatever happens |
| CompanionProtocol.SnapshotLeaves | companion/server.go:274-289 | a snapshot goes only by its own timer after expiry, a new request, its own action, or shutdown |
| CompanionProtocol.StoppedForGood | companion/server.go:261-272 | after stopAndWait no engine call runs or starts and no snapshot returns |
| RespGrammar.ReadsLine | datacenter/database/wire.go:140-149 | a line of the grammar is read whole within the 4096-byte buffer |
| RespGrammar.Complete | datacenter/database/wire.go:136-190 | every frame of the grammar that fits the budget is accepted |
| RespGrammar.ParsesExactly | datacenter/database/wire.go:136-190 | success with a frame exactly when it is in the grammar, begins the stream, and fits the budget |
| RespGrammar.PrefixFree | datacenter/database/wire.go:136-190 | no frame is a proper beginning of another |
| RespNumbers.ParsesDecimal | datacenter/database/wire.go:155-158 | a count is read as n exactly when it spells n in decimal, with or without sign and leading zeros, and n fits 64 bits |
| RespNumbers.PlaceValue | datacenter/database/wire.go:155-158 | each digit counts ten times as much as the one after it |
| RespNumbers.ReadsBulk | datacenter/database/wire.go:162-175 | a bulk string with its length in decimal before it is read whole, if it fits |
| RespNumbers.ReadsArray | datacenter/database/wire.go:176-186 | an array with the number of its parts in decimal before it is read whole, if it fits |
| RespNumbers.ReadsStatus | datacenter/database/wire.go:150-153 | a status, error or integer is one line |
| RespNumbers.ReadsNull | datacenter/database/wire.go:159-161 | the null bulk string and the null array are one line |
| RespNumbers.RefusesTooMuch | datacenter/database/wire.go:154-189 | too many bytes or parts are a limit error, another type byte a query error |
| RespNumbers.RefusesByLimit | datacenter/database/wire.go:136-146 | nesting beyond 32, a line beyond 4096 bytes and a spent budget are limits, a stream that ends early is its own error |
| RespNumbers.RefusesBrokenBulk | datacenter/database/wire.go:162-175 | a bulk string that breaks off or does not end in CR LF |
| RespNumbers.ReadsMessage | datacenter/database/wire.go:101-124 | a message whose little-endian header gives its size is handed on whole up to 1 MiB, and refused when compressed |
| WireGuard.Reader.ReadSlice | datacenter/database/wire.go:140-146 | a line up to LF, a full buffer, or the end of the stream |
| WireGuard.RespFrame | datacenter/database/wire.go:136-190 | the recursive reader answers what the parser says, consumes exactly the bytes it returns, and terminates |
| WireGuard.PartsBody | datacenter/database/wire.go:179-186 | the loop over array parts gathers their bytes within the remaining budget |
| WireStream.FrameConn.Fill | datacenter/database/wire.go:101-130 | pending becomes the next whole frame, or stays empty on an error |
| WireStream.FrameConn.Read | datacenter/database/wire.go:97-134 | one read of any size |
| WireStream.NextFrameIs | datacenter/database/wire.go:101-130 | the next frame is the guarded frame the stream starts with, if there is one |
| WireStream.DeliversWholeFrames | datacenter/database/wire.go:97-134 | delivered plus pending bytes are whole guarded frames taken off the stream in order |
| WireStream.DeliversPrefix | datacenter/database/wire.go:97-134 | what is delivered is a beginning of the stream for all read sizes |
| WireStream.NoEarlyError | datacenter/database/wire.go:97-134 | an error comes only after all complete frames before it were delivered |
| WireStream.ReadGives | datacenter/database/wire.go:131-133 | a read hands out as much as was asked for, or all that is ready |
| WireStream.DeliversAll | datacenter/database/wire.go:97-134 | as many reads of any size above zero as there are bytes deliver every whole frame to the last byte |
| WireStream.DeadlineConn.Read | datacenter/database/wire.go:23-33 | each read is cut to the allowance, so the total never passes 4 MiB |
| UiScheduler.Scheduler.RequestScan | ui/ui.go:191-204 | one entry point: refuse, coalesce or start |
| UiScheduler.Scheduler.OnScanned | ui/ui.go:482-508 | only the active scan's answer frees the slot, may change rows, and starts the coalesced request |
| UiScheduler.Scheduler.OnPauseKey | ui/ui.go:766-775 | pausing freezes and forgets requests, resuming asks for a scan |
| UiScheduler.OneCommand | ui/ui.go:188-204 | over every event sequence at most one command is outstanding, with the active ID, and pending implies in flight |
| UiScheduler.ScanTimeGrows | ui/ui.go:489-497 | lastScan never goes back and rows change only with an accepted answer |
| UiScheduler.PausedRowsNeedRefresh | ui/ui.go:482-508 | while paused rows change only by a scan issued for a manual refresh after the latest pause |
| UiScans.PauseIsParity | ui/ui.go:766-775 | after every event sequence the pause is on exactly when the key was pressed an odd number of times |
| UiScans.AnswerShows | ui/ui.go:482-508 | over every run the scan on its way replaces the rows exactly when nothing paused since it started and it is not older than what is shown |
| UiScans.StartsExactly | ui/ui.go:188-204 | over every run a scan starts exactly when one is asked for and none is on its way, or when that one answers and another was asked for meanwhile and no pause forgot it |
| UiScans.LoadingExactly | ui/ui.go:188-204 | the loading sign shows while an answer that will be shown is awaited, and before the first scan unless paused |
| UiSort.TiesKeepOrder | ui/ui.go:1068-1077 | tied rows keep their prior order |
| UiSort.OneStableSort | ui/ui.go:1068-1095 | sorting and then floating pinned rows is one stable sort by pinned-then-column |
| UiSort.SortKeepsRows | ui/ui.go:1068-1095 | the view is a permutation of itself |
| UiSort.ViewInOrder | ui/ui.go:1068-1114 | the result is in compound order with ties as before, ascending and descending |
| UiSort.ColumnsInOrder | ui/ui.go:1068-1114 | rows with a pinned port stand first, and in each part the key of the active column goes up, or down |
| StringOrder.StringLessExactly | ui/ui.go:1097-1114 | strings compare as in a dictionary: by the first difference, a proper beginning first |
| UiGroups.Conservation | ui/group.go:47-94 | each view index has one line or is in a folded group; shown, hidden and header counts add up to the view |
| UiGroups.NeverHidden | ui/group.go:107-137 | a filter match, a pinned group's row, or an actionable row not folded by the user is visible |
| UiGroups.FoldedExactly | ui/group.go:107-137 | a group is folded exactly without a search and a pinned port, when the user folded it or, left alone, it has three rows or more and none to act on |
| UiGroups.HeadersTell | ui/group.go:81-86 | a header counts exactly the rows of its owner in view, and hides all of them or none |
| UiGroups.HeadersInFirstAppearance | ui/group.go:56-72 | headers follow the first appearance of their owners |
| UiGroups.LinesMatchView | ui/group.go:74-93 | each line's row is the view row at its index, and groups are contiguous in view order |
| UiSelection.SameProcessIsPartialEquivalence | ui/ui.go:227-237 | sameProcess is symmetric and transitive, and reflexive only with an identity to compare |
| UiSelection.SameProcessExactly | ui/ui.go:227-237 | two listeners are one process exactly when PID and start time are equal and, without a start time, both have a command line and these are equal |
| UiSelection.ClampRestoresInv | ui/ui.go:1012-1041 | clamp puts cursor and window back in range without moving a cursor that is on a line |
| UiSelection.RunKeepsInv | ui/ui.go:1003-1041 | every event, a pin from the action menu included, keeps 0 <= offset <= cursor, the cursor on a line, and pane focus on a row |
| UiSelection.SelectionFollowsChoice | ui/ui.go:239-258 | over refreshes, sorts and pins the selected listener has the chosen PID and start time, or PID and command line when no start time exists, or the selection is lost |
| UiSelection.PinChooses | ui/ui.go:922-927 | pinning any row with a port selects its process, or loses the selection exactly when no line of it is left |
| UiSelection.LostOnlyWhenGone | ui/ui.go:247-257 | a refresh loses the selection exactly when no line with these fields is left |
| UiSelection.GroupStays | ui/ui.go:247-257 | a selected group header stays selected over a refresh exactly when a header of that owner is left |
| UiSelection.NavigationLands | ui/ui.go:1003-1010 | moving, Home, End and a click lead to the line meant, kept within the list |
| UiModel.Model.SortRows | ui/ui.go:1071-1095 | the view becomes its stable sort with pinned rows first |
| UiModel.Model.BuildItems | ui/group.go:47-94 | the lines become those of the view and the folding state |
| UiModel.Model.GroupFolded | ui/group.go:107-137 | whether a group is folded now |
| UiModel.Model.ApplyFilter | ui/ui.go:1043-1066 | the view becomes the sorted matches, and all is left alone |
| UiModel.MatchesExactly | ui/ui.go:1051-1061 | a row matches exactly when the query stands somewhere in its text |
| UiModel.Model.RestoreSelection | ui/ui.go:239-258 | selects the first line that fits the saved selection, or loses it |
| UiModel.Model.ClampCursor | ui/ui.go:1012-1041 | the statements of clamp in their order |
| UiModel.Model.MoveCursor | ui/ui.go:1003-1010 | moving selects again and stays in range |
| UiModel.Model.ShowRows | ui/ui.go:493-497 | an accepted scan keeps filter, sort, folds and selection |
| UiModel.Model.PressColumn | ui/ui.go:783-794 | the same column flips, another starts ascending, the selection stays on its process |
| UiModel.Model.TogglePin | ui/ui.go:900-928 | pins or unpins the first port of any row and puts the selection on that row's process |
| UiModel.Model.ToggleGroup | ui/group.go:140-154 | records the opposite of how the group stands |
| UiModel.Model.SetAllGroups | ui/group.go:157-165 | one fold state for every owner in view |
| UiModel.ToggleFlips | ui/group.go:139-154 | a toggle flips the group unless a filter or a pin keeps it open |
| Utf8.FewerRunes | scan/unescape.go:103-105 | a valid text has fewer characters than bytes exactly when one is multi-byte |
| Unescape.ChangeIsGenuine | scan/unescape.go:99-107 | a changed result is valid UTF-8 with a multi-byte character, on any input |
| Unescape.UnescapeLsof | scan/unescape.go:62-81 | the loop computes the lsof decoding under the commit rule |
| Unescape.LsofRoundTrip | scan/unescape.go:61-81 | a multi-byte name comes back exactly when it contains no literal \xHH |
| Unescape.UnescapePs | scan/unescape.go:34-59 | the loop computes the ps decoding under the commit rule |
| Unescape.PsRoundTrip | scan/unescape.go:27-59 | a multi-byte command line comes back exactly when none of its bytes is misread |
| Unescape.PsPlainText | scan/unescape.go:27-59 | without caret, M-, control byte and 0xDE it always comes back |
| Unescape.MBeforeControl | scan/unescape.go:45-47 | an input without caret and M- that does not come back |
| MetricsJoin.KeysIdentify | datacenter/metrics/fetch.go:296-305 | with NUL-free labels equal row, source and stamp keys mean equal tuples |
| MetricsJoin.PrefixPicksRow | datacenter/metrics/fetch.go:377-382 | the prefix test accepts exactly the stamps of the row's own tuple |
| MetricsAssemble.Assemble | datacenter/metrics/fetch.go:169-275 | the two passes, the health of every source, the row limit, and the rows in key order |
| MetricsAssemble.RefusedExactly | datacenter/metrics/fetch.go:181-255 | a response is refused as ambiguous exactly for an unknown field, a second up, a second value of a row's field, another model of a device, or a second timestamp for one place |
| MetricsAssemble.TooManyExactly | datacenter/metrics/fetch.go:260-266 | an unambiguous response is refused for its size exactly when it has more than 256 host tuples or 512 device tuples |
| MetricsAssemble.OneAnswer | datacenter/metrics/fetch.go:256-275 | one response gets one answer whatever the order in which the maps are walked |
| MetricsJoin.ValuesAreExact | datacenter/metrics/fetch.go:197-226 | a row holds a field exactly when one selected sample has its tuple and that field, and holds that sample's value and source |
| MetricsJoin.SourceRequirements | datacenter/metrics/fetch.go:181-227 | each source requires up and exactly the stamps its value samples call for |
| MetricsJoin.RowSeesItsOwnStamps | datacenter/metrics/fetch.go:368-386 | a row sees exactly the stamps demanded by samples of its own tuple on that source |
| MetricsJoin.RowViewNoWorse | datacenter/metrics/fetch.go:368-386 | a row's view of a fresh source is fresh, no older, and healthy when the source is |
| MetricsStamps.StampsAreExact | datacenter/metrics/fetch.go:229-255 | a source holds a stamp for a row and raw field exactly when one selected timestamp sample has that row tuple, source tuple and field, and holds its value |
| MetricsStamps.UpStampIsLast | datacenter/metrics/fetch.go:244-255 | the stamp "up" is that of the source's last sample; two such samples differ in their device, so outside GPU mode there is one |
| MetricsStamps.LaterUpWins | datacenter/metrics/fetch.go:244-255 | in GPU mode two "up" timestamps of one source are both taken exactly when they name different devices, and the later one stays |
| MetricsStamps.UpIsRead | datacenter/metrics/fetch.go:194-203 | a source is up or down exactly when its "up" value sample is 1 or 0 |
| MetricsStamps.HealthFromSamples | datacenter/metrics/fetch.go:169-416 | after a successful assemble a source is healthy exactly when its "up" sample is 1 and the timestamps of "up" and of every field its values rest on are in the window |
| MetricsStamps.RowHealthFromSamples | datacenter/metrics/fetch.go:368-416 | the same for a row's view of a source, over the values of the row's own tuple |
| MetricsFields.TakesWhatIsAsked | datacenter/metrics/query.go:28-57 | the fields taken are exactly those the queries ask for |
| MetricsFields.RawsMatchValues | datacenter/metrics/fetch.go:321-330 | every value field rests on raw fields that can arrive, and each of those is behind exactly one value field |
| MetricsFields.HostIsFirst | datacenter/metrics/fetch.go:288-295 | the host is the first label of three that is not empty |
| MetricsFields.OthersAreIgnored | datacenter/metrics/fetch.go:306-308 | samples of another site, rack or host, or not live, change nothing |
| MetricsFields.TheRestCount | datacenter/metrics/fetch.go:181-227 | every other sample counts: its value goes to its row, and an unknown field is refused |
| MetricsFields.HealthFieldByField | datacenter/metrics/fetch.go:169-416 | the health of a source with the two readings behind memory and file system written out |
| MetricsHealth.SourceFreshness | datacenter/metrics/fetch.go:388-416 | freshness, age and health of a set of required stamps |
| MetricsHealth.HealthyExactly | datacenter/metrics/fetch.go:388-416 | healthy exactly when up and every required stamp is positive, at most 120 s old and 5 s ahead |
| MetricsHealth.FreshnessExactly | datacenter/metrics/fetch.go:388-416 | unknown, stale or fresh by 5 s and 120 s, and the age of the oldest stamp, never below zero |
| MetricsHealth.FewerStampsNoWorse | datacenter/metrics/fetch.go:376-383 | requiring fewer stamps of a fresh source keeps it fresh with no greater age |
| MetricsHealth.Summarize | datacenter/metrics/fetch.go:417-449 | any source down, all known, worst freshness, greatest age |
| MetricsHealth.SummaryExactly | datacenter/metrics/fetch.go:417-449 | down, up, stale, fresh and the age by what the sources say |
| MetricsHealth.SummaryIgnoresOrder | datacenter/metrics/fetch.go:417-449 | the summary does not depend on the order of the sources |
| MongoFilter.JsonNode | datacenter/database/mongo.go:58-100 | the recursive token pass answers true exactly for what the reading function accepts, and consumes it |
| MongoFilter.UniqueJsonExactly | datacenter/database/mongo.go:49-100 | uniqueJSON accepts exactly one document with no repeated key within 32 levels |
| MongoFilter.DecodedAgreesWithRaw | datacenter/database/mongo.go:102-131 | on such a document checking the decoded value is checking every occurrence |
| MongoFilter.AcceptedFilters | datacenter/database/mongo.go:19-47 | a filter is accepted exactly when it is such an object and every operator occurrence is allowed |
| MongoText.DecoderReadsTree | datacenter/database/mongo.go:49-57 | the tokens the decoder hands out for the text of a tree are those of the raw document |
| MongoText.AcceptedTexts | datacenter/database/mongo.go:19-47 | the same for input bytes: a JSON text is accepted exactly when it passes the input check and its tree is such an object |
| MongoMeaning.AcceptedMeans | datacenter/database/mongo.go:19-131 | accepted exactly: an object, at most 32 deep, in which no container has a repeated key, no array is too long and no $ key is off the list |
| MongoMeaning.AcceptedTextsMean | datacenter/database/mongo.go:19-131 | the same for input bytes of at most 64 KiB |
| MongoFilter.RepeatedKeyHidesOperator | datacenter/database/mongo.go:23-25 | without the token pass an operator under a repeated key would pass |
| KillGuard.NormalizedEqual | kill/kill.go:171-175 | spellings compare equal exactly when their words are equal |
| KillGuard.FieldsExactly | kill/kill.go:171-175 | the words of a text are these exactly when it is these words in some spacing |
| KillGuard.StillSameExactly | kill/kill.go:142-169 | the same process: the words of the start time again, or without one the words of the full command line, and some |
| KillGuard.Tools.ActionContext | kill/context.go:46-136 | outcome and calls of the strict path for every behaviour of the tools |
| KillGuard.Tools.StillSameProcess | kill/kill.go:142-169 | which identity is read and when it counts as the same process |
| KillGuard.Tools.StopOrRestart | kill/kill.go:57-132 | the calls of the legacy paths |
| KillGuard.OneEffectAtMost | kill/context.go:46-136 | at most one effect, always the last call, none after a refusal |
| KillGuard.EffectNeedsIdentity | kill/context.go:63-122 | the effect is the one this listener calls for, only after the start time was read again and matched and, for managers, the label returned the same PID |
| KillGuard.LegacyAgrees | kill/kill.go:57-132 | whenever the strict path acts, Stop or Restart makes the same calls |
| KillGuard.ActsExactly | kill/context.go:46-136 | the strict path acts if and only if every guard holds: it refuses nothing beyond them |
| KillGuard.OutcomesExactly | kill/context.go:46-136 | when the strict path is accepted, fails, exceeds the output limit or is cancelled; all else is a refusal |
| KillGuard.ArgumentExactly | kill/context.go:44-44 | a manager's argument is any printable text without quotes, brackets and separators that does not begin with a mark |
| KillGuard.LegacyActsExactly | kill/kill.go:57-132 | when Stop and Restart act, and that their one effect comes last and is the one called for |
| KillGuard.LegacyActsAlone | kill/context.go:46-136 | where Stop or Restart acts the strict path does not, exactly for PID 1 or below, no start time, an unknown kind, a malformed argument, a failed brew lookup, or a context that is done |
| KillGuard.LegacySignalsUnstamped | kill/kill.go:156-168 | such a case: without a captured start time Stop still signals |

## Left out

- CompanionProtocol.Reachable: each critical section is one step that reads the clock once; nothing inside it can be seen by another handler, because the parts of it outside the lock (a claim that fails, a release) only touch the slot.
- Liveness of the companion: that a handler or the shutdown eventually proceeds is not stated. Engine calls are assumed to return.
- HTTP headers, authentication, request bodies, response encoding and size, row resource fields and receipt messages of the companion.
- TextJson.PrettyTextJson: the grammar check of the standard library is a parameter that must answer as RFC 8259 says; texts are sequences of numbers, of which bytes are those below 256.
- TextCodecs.Transform: the identifiers, hashes, dates, counters and sample texts of the same switch, which only call libraries.
- FormatControls.EscapingKeepsMeaning: works on code points; turning them into UTF-8 and the table of format controls are the standard library's, and the table is any set of non-ASCII scalar values.
- WireGuard.RespFrame: where the reader stands after an error is not stated; the connection is given up then.
- WireStream.DeadlineConn.Read: deadlines are not modelled, only the byte allowance.
- UiScheduler.OneCommand: scan IDs do not wrap around at 64 bits.
- UiSelection.SelectionFollowsChoice: filter typing and grouping keys rebuild the lines without restoring the selection in the source too, so only the cursor bounds are shown there.
- UiSort.OneStableSort: CPU percentages are real numbers, never NaN, and lower-casing and the first port number are taken as given fields of a row.
- UiModel.Model.TogglePin: writing the favorites file and its error message.
- Rendering, mouse menus, the copy picker, dialogs and flash messages of the terminal interface.
- MetricsAssemble.Assemble: fetching and parsing samples, and the labels a row displays, which are those of its first sample.
- MetricsHealth.HealthyExactly: times are real numbers; floating-point rounding is not modelled.
- MongoFilter.AcceptedFilters: starts from the decoder's tokens; the input bytes come in with MongoText.AcceptedTexts.
- MongoText.AcceptedTexts: how the decoder unescapes a string lexeme and what the driver's own conversion says are parameters.
- KillGuard.Tools.ActionContext: messages, output text and the platform's way of signalling and reading start times.
- Process scanning, classification of listeners, inventory, SQL and Redis querying, backups, port tools and the command-line wiring.
