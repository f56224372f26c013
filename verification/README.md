# Verified model of the chat system and its obfuscator

This project models four programs of the repository and proves what they are for.

* **The obfuscator** (`brootfrouce.py`): the Base64 and XOR string codecs together with the C decoders that are
  emitted for them, the three renaming passes, and the rewriting of `if` conditions.
* **The chat server** (`src/server.c`, with the initial slot table, token writer and disconnect of
  `src/trash/server2.c`): slots, accounts, commands, bounded JSON lines, the transport loops, the rate limiter,
  the sanitiser and the audit ring.
* **The chat client's reading side** (`src/assets/chatclient.cpp`).
* **The peer-to-peer registry** (`p2p_messenger/network.c`).

Code that changes state step by step is written as methods over arrays and classes, and each such method is proved
equal to a function of the state (`CText`, `Base64Codec`, `XorCodec`, `Obfuscator`, `RateLimit`, `Transport`,
`AuditRing`, `PeerRegistry`, `Tokens`, `ChatServerState`, `ChatClientState`).  The lemmas are about those functions.

## How the files fit together

| file | content |
|---|---|
| `Common.dfy` | optional values, bytes, hexadecimal digits |
| `Base64Codec.dfy`, `Base64Form.dfy`, `XorCodec.dfy` | encoders, emitted decoders, round trips, the form of encoded text |
| `Renaming.dfy`, `CallPlaces.dfy`, `PointerNames.dfy`, `Obfuscator.dfy` | substitution over tokens; the function pass place by place; names with stars; the renamer's dictionaries and passes |
| `ConditionRewriter.dfy`, `ConditionPlaces.dfy` | a C-like language with its interpreter, and the rewriter; which conditions it replaces |
| `CText.dfy` | C strings: sanitiser, `strncat`, `sscanf` conversions |
| `RateLimit.dfy`, `Tokens.dfy`, `Transport.dfy`, `AuditRing.dfy` | the server's smaller machines |
| `PeerRegistry.dfy`, `PeerGroups.dfy` | users, groups, group messages; groups and answers in terms of the operations |
| `JsonLines.dfy`, `LineStream.dfy`, `GenuineStreams.dfy` | printed lines, the reader of RFC 8259 for them, streams of lines that may be cut, what they can report |
| `ChatServer.dfy` | every server step as a function |
| `ChatInvariants.dfy`, `ChatRuns.dfy` | the invariant, and runs of server and clients |
| `ChatTheorems.dfy`, `ChatConnections.dfy`, `ChatLimits.dfy`, `ChatTimeouts.dfy`, `ChatSenders.dfy`, `ChatClients.dfy` | the main results about runs: descriptors, slots, logins, accounts, keys; how connections are made and ended; request limits; time-outs; senders; what clients know of their logins |
| `ChatWords.dfy` | tables and scanners by their literals |
| `ChatLines.dfy`, `ChatLogins.dfy`, `ChatAnswers.dfy`, `ChatNotices.dfy`, `ChatMessages.dfy`, `ChatControls.dfy` | from the lines clients send to the events clients see |
| `ChatServerState.dfy`, `ChatClientState.dfy` | the imperative server and client, equal to the functions |

A chat run is a sequence of atomic steps: a connection (with or without a successful handshake, with or without a free
slot), a welcome, one turn of a handler, the end of a handler, a disconnect, a time-out sweep, and, for a client, one
line read, leaving, or losing the connection.  Any slot may be served or ended at any time, which includes a stale
handler whose slot was given to another connection.

## What turned out to differ from what one would expect

* A private message is not always the sanitised text cut to 2047 bytes: when the first character that survives
  sanitising is a space, that space is lost.  `DeliveredIsCutIff` gives the exact condition and `LeadingSpaceIsLost` an
  input.
* A condition rewritten with `!= 0xDEAD` changes the program when the drawn mask is `0xDEAD`.  `SameBranchIff` is exact
  for one condition, `AllMeaningsPreservedIff` for whole programs.
* The XOR codec does not restore every string in the emitted program.  The escapes stand in a C string literal there, so
  the decoder is given the XORed bytes themselves: a character equal to the key ends the string, and two neighbours that
  become a backslash and an `x` are scanned as an escape.  `LiteralRoundTripIff` gives the exact condition, `KeyInString`
  an input.
* A broadcast for which the sender's nick and the sanitised text together exceed 8152 characters loses its newline: no
  online client sees it, and the next broadcast is not seen either.  A client whose stream was at the start of a line
  reports nothing for the two; another one may report what it has as one text of "System" (`BroadcastArrives`,
  `LongBroadcastSwallows`, `LineSeen`; `LongTextIsTooLong` is an input the server can receive).  Before a login no line
  is ever cut, so login answers are always seen.
* A command may hold newlines, when two lines of a client share a transport record.  Its later lines are shown to other
  clients as texts of "System"; `SystemTextIff` gives the exact condition and `NewlineIsHeardAsSystem` an input.  Without
  newlines in commands every text of "System" is a notice of the server, in every run (`SystemIsGenuine`), and under any
  other name nobody ever reports what that user has not sent (`SenderIsGenuine`).
* An encrypted message is seen if and only if its data hold no control character and the line fits
  (`EncryptedArrivesIff`).  The server's encoder ends its output with a newline (`src/server.c:1649-1660`), so that what
  it gives is never seen (`EncodedIsNeverSeen`).
* Names with stars such as `*p`, which two patterns of the variable pass collect, rewrite products with that name; the
  pass is undone if and only if there are none (`MixedPassIff`, `ProductIsNotUndone`).
* The renaming passes lose the blanks before the parentheses of the calls they rename, and nothing else: the text comes
  back exactly if and only if there are no such blanks (`PassesUndone`).
* It is not only the issued token that logs in: as many characters are compared as were presented
  (`src/server.c:1367`), of which a login line carries at most 63.  Over every run a login is granted if and only if the
  presented word, cut to 63 characters, is a beginning of the issued token (`LoginGrantedIff`); its first character alone
  is enough (`OneDigitLogsIn`).
* A nick of more than 31 characters is not refused: a registration line registers its first 31 characters
  (`RegisterLineIsCut`), and in a login line the rest of it is taken as the token (`LongNickSplits`).
* Two lines of a client that share a transport record are read as one command (`LinesMerge`); `LineIsReadIff` gives the
  exact condition for one line per read.
* An audit record without an address or details repeats those of the record sent 1000 events earlier
  (`SentAreTheEvents`).
* The emitted terminator is the two-character constant `'\\0'`; the codec results are about the payload before it.
* The third sum of a left-over Base64 group can reach 256, but is never written (`NoOverflow`).
* The initial slots of `src/server.c` have descriptor 0 (its table is zeroed at line 237); the model starts from the
  table with -1 in `src/trash/server2.c:1524-1526`.

## Model

| member | source | states |
|---|---|---|
| Base64Codec.RoundTrip | brootfrouce.py:317-354 | for every byte string, of any length modulo 3, the decoder's payload for its RFC 4648 encoding is that byte string, and the encoding is a text the decoder is defined on |
| Base64Form.EncodingHasForm | brootfrouce.py:275 | the encoding of n bytes has 4 * ((n + 2) / 3) characters: symbols, then as many pads as bytes are missing to a group of three, and nowhere else |
| Base64Form.SpareBitsAreZero | brootfrouce.py:275 | the bits of the last symbol that carry no input, which the decoder ignores, are zero |
| Base64Form.PadEndsText | brootfrouce.py:323-324 | the first pad ends the text, whatever follows |
| Base64Codec.NoOverflow | brootfrouce.py:329-348 | no sum of a full group exceeds an unsigned char; of a left-over group only the third sum can, exactly when the last symbol's low bits are 3 |
| Base64Codec.MasksAndShifts | brootfrouce.py:329-331 | the masks and shifts of the decoder are the quotients and remainders the model computes with |
| Base64Codec.SymbolsAreTheLiteral | brootfrouce.py:318 | the symbol table is the literal of the emitted code |
| Base64Codec.SearchIsFirst | brootfrouce.py:326-327 | `strchr` returns the first index that holds the byte |
| Base64Codec.B64Decode | brootfrouce.py:317-354 | the emitted loop over `char_array_4` writes exactly the payload, then the terminator, and touches nothing behind it |
| Base64Codec.DecryptB64 | brootfrouce.py:289-294 | whatever string shorter than the buffer's 1024 bytes was encrypted, the buffer starts with it after decoding |
| XorCodec.RoundTrip | brootfrouce.py:278-308 | XOR, printing as `\xNN`, scanning that text and XOR again give the original bytes, for every key |
| XorCodec.Scan | brootfrouce.py:297-308 | the scan loop stores exactly the unescaped text |
| XorCodec.StrtolExamples | brootfrouce.py:302-303 | what the two characters after an escape mark are read as: digits of both cases, one digit, blanks and signs, no number |
| XorCodec.DecryptXor | brootfrouce.py:296-315 | the emitted decoder stores the XOR of the unescaped text with the key, then the terminator |
| XorCodec.LiteralOfEscapes | brootfrouce.py:280-281 | the C literal made of the escapes stands for the XORed bytes themselves |
| XorCodec.LiteralRoundTripIff | brootfrouce.py:278-315 | in the emitted program the decoder restores a string if and only if it does not hold the key and no two neighbours become an escape mark |
| XorCodec.KeyInString | brootfrouce.py:278-315 | an input that is not restored: "abc" with the key of its first letter gives the empty string |
| XorCodec.DecryptLiteral | brootfrouce.py:296-315 | the emitted decoder leaves the original string in the buffer exactly under that condition |
| Renaming.RepeatedIsSimultaneousIff | brootfrouce.py:198-199 | substituting entry by entry is one simultaneous renaming if and only if no later entry picks up a name an earlier one gave |
| Renaming.AnyOrder | brootfrouce.py:198-199 | with generated names that are no keys, every order of the entries gives the simultaneous renaming |
| Renaming.UndoneIff | brootfrouce.py:198-199 | mapping the generated names back restores the text if and only if none of them stood in it under another role |
| Renaming.RepeatedCallsIsSimultaneousIff | brootfrouce.py:224-225 | the same exact condition for the function pass, over the names called with or without blanks before the parenthesis |
| Renaming.AnyOrderOfCalls | brootfrouce.py:224-225 | the function pass does not depend on the order of the entries |
| Renaming.CallsUndone | brootfrouce.py:224-225 | mapping function names back gives the text without the blanks the pass removed before parentheses |
| Renaming.PassesUndone | brootfrouce.py:176-250 | the three passes composed are undone by mapping generated names back in reverse, up to blanks before parentheses, and exactly if and only if no call that the function pass renames has such blanks |
| CallPlaces.RenameCallsIsPicked | brootfrouce.py:224-225 | after the function pass exactly the words that are keys and are followed by blanks, also none, and a parenthesis have their new names, exactly the blanks between the two are gone, and everything else stands as it was, in terms of the tokens alone |
| CallPlaces.SubstituteCallIsPicked | brootfrouce.py:225 | the same for the substitution of one name |
| CallPlaces.NoCallIsLeft | brootfrouce.py:224-225 | with new names that are no keys, no place of the result is a call of a key |
| CallPlaces.SqueezeIsPicked | brootfrouce.py:225 | squeezing, up to which the passes are undone, leaves out the blanks between called words and parentheses and nothing else |
| CallPlaces.GaplessIff | brootfrouce.py:225 | the exact condition of `PassesUndone` in terms of tokens: no blank stands between a called key and its parenthesis |
| CallPlaces.PassesLeaveNoOldName | brootfrouce.py:176-250 | after the three passes no renamed type or variable occurs, and no renamed function is called |
| CallPlaces.CallWithBlank | brootfrouce.py:225 | the call `area ()` becomes `x9()` |
| PointerNames.PointerShortensIff | brootfrouce.py:198-199 | substituting a name with stars shortens the text if and only if there is a product with that name, and otherwise changes nothing |
| PointerNames.FirstProductJoins | brootfrouce.py:198-199 | up to the first product nothing changes, there the new name joins the word before the stars, and the search goes on |
| PointerNames.MixedPassIff | brootfrouce.py:183-199 | the variable pass with such names among its entries can be undone by a mapping of names if and only if none of them meets a product when its turn comes, and is then undone by the words alone |
| PointerNames.ProductIsNotUndone | brootfrouce.py:183-199 | a product that the pass destroys |
| Obfuscator.AdvancedObfuscator.GenerateComplexName | brootfrouce.py:163-174 | a generated name is new, does not start with a digit, and is recorded as used |
| Obfuscator.AdvancedObfuscator.Collect | brootfrouce.py:186-196 | the dictionary gets one entry for each eligible new name, in order, with names never used before in any of the three maps |
| Obfuscator.EligibleIff | brootfrouce.py:190-218 | which names each pass renames: not the reserved ones, such as `main`, nor short ones, nor those with underscores in front |
| Obfuscator.NewKeysAre | brootfrouce.py:186-196 | a dictionary made from found names has exactly the eligible ones among them, each once |
| Obfuscator.SortedFalls | brootfrouce.py:198 | entries are substituted by falling length of the old name, and entries of one length in the order they were made |
| Obfuscator.AdvancedObfuscator.ObfuscateTypes | brootfrouce.py:229-250 | the type pass is the simultaneous renaming by the collected dictionary |
| Obfuscator.AdvancedObfuscator.ObfuscateFunctions | brootfrouce.py:203-227 | the function pass, longest names first, is the simultaneous renaming of calls, which `CallPlaces.RenameCallsIsPicked` describes place by place |
| Obfuscator.AdvancedObfuscator.ObfuscateVariables | brootfrouce.py:176-201 | the variable pass, longest names first, is the simultaneous renaming |
| Obfuscator.AdvancedObfuscator.ObfuscateNames | brootfrouce.py:176-250 | for draws that do not occur in the source, the three passes of a new obfuscator rename exactly the eligible names found in the text each of them is given, leave no old name, and are undone by its own dictionaries |
| ConditionRewriter.ComplexifiedEffects | brootfrouce.py:480-493 | every form has the effects of the original condition, crashes exactly when it does, and is true with it except for the losing mask |
| ConditionRewriter.SameBranchIff | brootfrouce.py:485-491 | a rewritten condition takes the old branch if and only if the mask is not 0xDEAD or the condition crashes or is false |
| ConditionRewriter.EvaluatedOnce | brootfrouce.py:480-493 | a probe on the original condition is passed exactly once by each form |
| ConditionRewriter.MeaningPreserved | brootfrouce.py:456-461 | rewriting every braced `if` of any nested program, when none of the draws it uses is the losing one, changes no run of it, whatever the outside world answers |
| ConditionRewriter.AllMeaningsPreservedIff | brootfrouce.py:456-493 | every program keeps all its runs if and only if no draw is the losing one |
| ConditionRewriter.LosingDrawChangesProgram | brootfrouce.py:486 | a program and state that the mask 0xDEAD changes |
| ConditionPlaces.RewriteReplaces | brootfrouce.py:456-461 | rewriting replaces exactly the conditions of the `if`s with braces, also inside loops, in the order of the text, each by the form of the next draw; loop conditions, bare `if`s and everything else stay |
| ConditionPlaces.ProgramIsKnown | brootfrouce.py:456-461 | a program is known by its skeleton and its conditions, so that the previous row leaves nothing open |
| ConditionPlaces.FormValues | brootfrouce.py:485-491 | the value of each form: the exclusive or keeps it, the others make it a truth value |
| ConditionPlaces.FormSize | brootfrouce.py:485-491 | by how much each form is larger than the condition |
| ConditionPlaces.FormsDiffer | brootfrouce.py:485-491 | no condition stays as it was |
| CText.SanitizeInput | src/server.c:448-460 | the in-place loop leaves exactly the filtered string and touches nothing from the old terminator on |
| CText.Compact | src/server.c:451-459 | the two-pointer loop; the write index never passes the read index |
| CText.SanitizedContents | src/server.c:453-458 | each safe character stays as often as it was, each unsafe one goes |
| CText.SanitizedOfConcat | src/server.c:452-458 | sanitising keeps order: the parts of a text are sanitised independently |
| CText.SanitizedIsIdentityIff | src/server.c:448-460 | sanitising changes exactly the strings that hold an unsafe character |
| CText.SanitizedTwice | src/server.c:448-460 | sanitising is idempotent |
| CText.ScanWordWhole | src/server.c:1198 | `%31s` reads a whole word that fits and is followed by a blank |
| CText.ScanLineCuts | src/server.c:1284 | `%2047[^\n]` reads the first 2047 characters of a line |
| ChatWords.UnsafeAre | src/server.c:452-453 | the eight characters that sanitising drops |
| ChatWords.ValidNickIff | src/server.c:422-441 | a valid nick: length, alphabet, and the six reserved words in any case of letters |
| ChatWords.SkipSpacesLeaves | src/server.c:1198 | a blank in a format skips all blanks and no more |
| ChatWords.ScanWordStops | src/server.c:1198 | a word is cut only by its width, a blank or the end |
| ChatWords.ScanLineStops | src/server.c:1284 | a line is cut only by its width, a newline or the end |
| ChatWords.CommandOfRaw | src/server.c:1104-1114 | what follows a NUL is not looked at, and a line that begins with a newline is no command |
| ChatWords.DecimalValue | src/server.c:1206-1209 | numbers are printed by their own decimal digits without leading zeros |
| RateLimit.Client.CheckRateLimit | src/server.c:2134-2148 | the method updates window and count as the limiter function does |
| RateLimit.CountIsAccepted | src/server.c:2134-2148 | in every run with a clock that never goes back, `count` is the number of requests accepted since `window_start` |
| RateLimit.AcceptedIff | src/server.c:2142-2147 | a request is accepted if and only if fewer than ten were accepted since its window started |
| RateLimit.TwentyPerMinute | src/server.c:1089-1102 | at most twenty requests are accepted in any closed interval of sixty seconds |
| RateLimit.AcceptedSinceConnect | src/server.c:1089-1102 | at most 10 * (1 + T / 61) requests are accepted in the first T seconds |
| RateLimit.TwentyIsReached | src/server.c:2134-2148 | the bound of twenty is reached within two seconds |
| Tokens.TokenRoundTrip | src/trash/server2.c:570-581 | a token is lower-case hexadecimal and decodes to its random bytes |
| Tokens.TokenIsInjective | src/trash/server2.c:576-578 | different random bytes give different tokens |
| Tokens.GenerateSecureToken | src/trash/server2.c:570-581 | the loop writes the 64 digits and a NUL, or fails and leaves the buffer alone |
| Tokens.ConstantTimeCompare | src/server.c:397-403 | the loop returns 1 if and only if the first `len` bytes agree |
| Transport.SafeWrite | src/server.c:1491-1506 | for any script of results the loop hands over exactly `data[..total]`, in order, and `total` is the length unless it was stopped or failed |
| Transport.ReadLoop | src/server.c:1525-1536 | the loop stores exactly the bytes consumed and leaves the rest in the transport |
| Transport.SafeRead | src/server.c:1508-1540 | the result of each branch, with the NUL within `max_len` |
| Transport.ReadConserves | src/server.c:1525-1536 | what is stored, then what is left, is what was sent |
| Transport.ReadIsPrefix | src/server.c:1525-1536 | what is stored is the beginning of what was sent, also when the connection ends |
| Transport.ReadStops | src/server.c:1525-1536 | reading stops at a trailing newline, a full buffer or the transport's end, and for no other reason |
| Transport.LineIsRead | src/server.c:1508-1540 | a line whose last record ends with it is returned exactly, however it was split before, and what follows stays in the transport |
| Transport.LineIsReadIff | src/server.c:1525-1536 | one read returns exactly the next line if and only if a record ends with it or it fills the buffer |
| Transport.LinesMerge | src/server.c:1525-1536 | two lines in one record are returned as one text |
| AuditRing.RingHoldsLast | src/server.c:1402-1434 | after n events the cursor is 0 or ((n-1) mod 1000)+1 and the array holds exactly the last min(n,1000) records sent to the database, each in the cell of its number modulo 1000 |
| AuditRing.SentAreTheEvents | src/server.c:1411-1433 | the n-th record sent to the database is the n-th event, cut to the sizes of its fields; without a user its name is empty, and without an address or details it repeats those of the record 1000 events earlier, or of the start |
| AuditRing.AuditLog.LogSecurityEvent | src/server.c:1402-1434 | the method changes array, cursor and database as the function does |
| PeerRegistry.RunIsGood | p2p_messenger/network.c:44-121 | in every reachable registry names and members are pairwise distinct, counts at most 100, and the creator is the first member |
| PeerRegistry.UsersAreTheMap | p2p_messenger/network.c:44-68 | the users array is an insertion-ordered map: the first hundred distinct names, each with the address added last |
| PeerRegistry.FindUserIsLookup | p2p_messenger/network.c:70-77 | `find_user` knows a name if and only if it is among the first hundred added, and returns the latest ip and port |
| PeerRegistry.GroupsGrow | p2p_messenger/network.c:79-121 | groups and members are never lost or moved |
| PeerRegistry.ExactlyOnce | p2p_messenger/network.c:209-212 | recipients are exactly the known members other than the local user, each once |
| PeerRegistry.GroupSendExactlyOnce | p2p_messenger/network.c:201-240 | the same in every reachable registry, for every group |
| PeerRegistry.P2PNetwork.AddUserEntry | p2p_messenger/network.c:44-68 | updates or appends one array entry as the function does, with the return value |
| PeerRegistry.P2PNetwork.Find | p2p_messenger/network.c:70-77 | the search loop finds the first entry of the name or none |
| PeerRegistry.P2PNetwork.CreateGroupEntry | p2p_messenger/network.c:79-99 | creates the group with its creator, or refuses a duplicate or a full table |
| PeerRegistry.P2PNetwork.JoinGroupEntry | p2p_messenger/network.c:101-121 | appends the member, or refuses a duplicate, a full group or an unknown one, as `PeerGroups.AnswersAre` says in terms of the earlier operations |
| PeerRegistry.P2PNetwork.SendGroupMessage | p2p_messenger/network.c:201-240 | the connections attempted are exactly the recipients in member order, the delivered ones those that could be reached |
| PeerGroups.GroupsAreTheMap | p2p_messenger/network.c:79-121 | in every run the groups are the first hundred distinct created names, in order, and the members of each are the local user and the first 99 distinct others that joined after its creation |
| PeerGroups.AnswersAre | p2p_messenger/network.c:44-121 | when each operation returns 0, in terms of the operations before it; otherwise it returns -1 and changes nothing |
| PeerGroups.ReachedAre | p2p_messenger/network.c:209-233 | a group message gets to exactly those of its recipients a connection can be made to |
| JsonLines.LineRoundTrip | src/assets/chatclient.cpp:127-130 | the client's reader gets exactly the pairs the server printed |
| ChatWords.EscapeIs | src/assets/chatclient.cpp:127 | the escapes of section 7 of RFC 8259, one by one |
| ChatWords.TrimmedLeaves | src/assets/chatclient.cpp:125 | trimming removes the blanks at both ends, all of them, and nothing else |
| ChatWords.StartedPeerIsRead | src/assets/chatclient.cpp:178-182 | a started peer connection is reported with its target and its success |
| LineStream.LineSeen | src/assets/chatclient.cpp:123-188 | the one event a line adds: what it says if and only if no unfinished line stands before it, otherwise what the client makes of the two as one line it cannot read, which is nothing if that begins like an object and else all of it as a text of "System" |
| LineStream.AtLineStartIff | src/assets/chatclient.cpp:124-126 | no unfinished line stands at the end of a stream if and only if only blanks follow its last newline |
| LineStream.LineIsHonest | src/assets/chatclient.cpp:140-145 | wherever a stream was left, a line confirms no login but its own |
| LineStream.TextLineIsHonest | src/server.c:1607-1610 | a message line with any text, cut anywhere, is never read as a login confirmation |
| LineStream.HonestFirstLine | src/assets/chatclient.cpp:124-145 | reading the first line of an honest stream yields no false confirmation and leaves an honest stream |
| LineStream.EventsConcat | src/assets/chatclient.cpp:123-125 | reading what is written later gives the same events as reading all at once |
| ChatInvariants.RegisterKeeps | src/server.c:1159-1194 | registration keeps the invariant on descriptors, accounts, slots and streams |
| ChatInvariants.LoginKeeps | src/server.c:1196-1234 | so does a login, which is only accepted under a valid nick |
| ChatInvariants.AuthorizedKeeps | src/server.c:1247-1309 | commands of authorised clients keep it and change nothing but what was written |
| ChatRuns.InputKeeps | src/server.c:1073-1157 | one turn of a handler keeps the invariant |
| ChatRuns.AcceptKeeps | src/server.c:1906-1966 | a new connection keeps it, with a full table and a failed handshake included |
| ChatRuns.CloseDescriptor | src/server.c:1725-1729 | the descriptor a live slot closes was open, and closing it keeps descriptors and slots in step |
| ChatRuns.ExitKeeps | src/server.c:1120-1133 | the end of a handler keeps it, also of a stale handler on a slot that was given away |
| ChatRuns.CleanupKeeps | src/server.c:1715-1754 | so does a cleanup |
| ChatRuns.DisconnectKeeps | src/trash/server2.c:723-750 | so does a disconnect that resets a slot |
| ChatRuns.SweepKeeps | src/server.c:1889-1900 | so does the time-out sweep, which closes descriptors and leaves the rest of the slots |
| ChatRuns.RunIsGood | src/server.c:1035-1136 | the invariant holds after every run, and every client that is logged in is so under a grant of the server |
| ChatRuns.RunGrows | src/server.c:1173-1188 | over every run accounts keep their tokens, grants stay, and connections are never used again |
| ChatTheorems.DescriptorsInEveryRun | src/server.c:1906-1966 | in every run the descriptors accepted and not closed are exactly those of the slots, pairwise distinct |
| ChatTheorems.SlotsStay | src/server.c:1715-1754 | in every run a connection never changes its slot nor comes back, and an authorised slot keeps its nick until it is closed |
| ChatConnections.AcceptTakesFirstFree | src/server.c:1922-1965 | after a handshake the first slot with a negative descriptor, and no other, is given to the new connection, with everything it then holds; without handshake or free slot nothing changes |
| ChatConnections.ConnectedIff | src/server.c:1906-1966 | in every run an attempt to connect succeeds, in the first free slot, if and only if the client is not connected, the descriptor is new, the handshake succeeds and fewer than a thousand descriptors are open; otherwise nothing changes |
| ChatConnections.RoomIff | src/server.c:1922-1932 | in every run at most a thousand descriptors are open, and a slot is free if and only if there are fewer |
| ChatConnections.TableStays | src/server.c:1922-1932 | the table of slots keeps its size in every run |
| ChatConnections.ThousandAreServed | src/server.c:1906-1966 | a thousand clients can be connected at once, each on its own slot and connection |
| ChatConnections.ExitFrees | src/server.c:1715-1754 | the end of a handler frees its slot, descriptor, connection and user, and nothing else |
| ChatConnections.DisconnectFrees | src/trash/server2.c:723-750 | so does the earlier server's disconnect, of a slot in use; any other is left alone |
| ChatConnections.SweepCloses | src/server.c:1889-1900 | after a sweep exactly the descriptors of the slots that were active in the last 300 seconds are open |
| ChatConnections.RoomAfterEnd | src/server.c:1715-1754 | after any run, once a handler has ended a client that is not connected can connect |
| ChatConnections.GreetIs | src/server.c:1059-1067 | a handler that starts on an open slot fills its keys, numbers the session and writes the welcome line; on any other it does nothing |
| ChatConnections.WelcomeIsRead | src/server.c:1066 | the welcome line as a JSON reader takes it |
| ChatTheorems.SweepSlots | src/server.c:1889-1900 | the sweep closes exactly the slots that were idle for more than 300 seconds, and changes nothing else of any slot |
| ChatTheorems.KeysInEveryRun | src/server.c:1742-1751 | in every run a slot without a connection holds no key material, or, if the earlier server's disconnect was used, none but the buffers which that leaves |
| ChatTheorems.GrantedIff | src/server.c:1196-1211 | a connection becomes logged in by a login with valid credentials on it and in no other way |
| ChatTheorems.GrantHasLogin | src/server.c:1196-1211 | every login of a run was granted by an earlier login line on that connection |
| ChatTheorems.LoggedInIsAuthorized | src/assets/chatclient.cpp:140-149 | whenever a client has `m_loggedIn` with nick n, the server earlier authorised exactly n on that connection, n is registered, and the open slot of the connection is authorised as n |
| ChatTheorems.GrantedNickStays | src/server.c:1715-1754 | once granted, the nick of the slot stays until it is closed |
| ChatTheorems.UsersChangeIff | src/server.c:1159-1194 | the table of accounts changes by registrations of valid new nicks and in no other way |
| ChatTheorems.RegistrationStays | src/server.c:1330-1389 | after a registration every later state maps the nick, in any case of letters, to the same token, and accepts it |
| ChatTheorems.AuthorizedIsRegistered | src/server.c:1352-1389 | in no run is a slot authorised, or a login granted, under an unregistered nick |
| ChatLimits.LimiterIsRun | src/server.c:1087-1102 | in any run the admitted requests of a connection are those that the limiter, run alone from the time of the connection on its requests, accepts, and the open slot's limiter is in the state of that run, whichever handler serves the slot |
| ChatLimits.TwentyPerMinute | src/server.c:1087-1102 | in any run with a clock that never goes back, a connection has at most twenty admitted requests in any closed interval of sixty seconds |
| ChatLimits.AdmittedSinceAccept | src/server.c:1087-1102 | and at most 10 * (1 + T / 61) in the T seconds after it was accepted |
| ChatTimeouts.ActivityIsLastTime | src/server.c:1087 | in any run the clock of an open slot is the time of the last request of its connection, or of its acceptance |
| ChatTimeouts.TimedOutIff | src/server.c:1889-1900 | in any run a sweep leaves open exactly those open connections whose last request, or acceptance, is at most 300 seconds ago |
| GenuineStreams.TextLineIsGenuine | src/server.c:1607-1610 | a line with free text, cut anywhere, reports its own event only from a line start, uncut and with plain text, and no other event of an object |
| GenuineStreams.EventsAreGenuine | src/assets/chatclient.cpp:123-188 | whatever stands in it, a stream reports only events that were written as lines, and texts of "System" |
| ChatSenders.StepFine | src/server.c:1035-1136 | every step keeps every stream genuine with respect to what the step says |
| ChatSenders.SenderIsGenuine | src/server.c:1247-1309 | in any run a message, private message or encrypted message that a client reports under a name other than "System" was sent, with that text, by an earlier admitted command on a connection granted to that name |
| ChatSenders.SystemIsGenuine | src/server.c:1120-1126 | in any run without newlines inside commands and encrypted texts, every text of "System" that a client reports is a notice of the server that somebody came or went |
| ChatClients.LoggedInIff | src/assets/chatclient.cpp:140-145 | in any run a client is logged in as n if and only if it has read a confirmation for n and has neither left nor lost its connection since |
| ChatClients.ConfirmationIsNotLost | src/assets/chatclient.cpp:140-145 | in any run a client that never left, on whose connection a login was granted, is logged in under that nick or the confirmation still waits in its stream |
| ChatClients.ReadingLogsIn | src/assets/chatclient.cpp:123-188 | after any run such a client that reads every whole line of its stream is logged in if and only if a login was granted on its connection, and then under the granted nick |
| ChatClients.ClientStep | src/assets/chatclient.cpp:27-145 | what each step does to a client: only a confirmation that was read, leaving and losing the connection change its login |
| ChatControls.SystemTextIff | src/server.c:1255-1258 | a client at a line start reports a text of "System" for a broadcast that fits if and only if the command holds a newline after which some line does not begin like an object, and the message itself if and only if the command holds no control character |
| ChatControls.NewlineIsHeardAsSystem | src/server.c:1104-1117 | a command with a newline for which that happens |
| ChatControls.EncryptedArrivesIff | src/server.c:1291-1309 | an encrypted message is seen by its target if and only if the stream is at a line start, the data are plain, and nick, target and data together have at most 8142 characters |
| ChatControls.EncryptedDropped | src/server.c:1291-1309 | nothing is written when the encryption fails, the target is not online, or nothing is left of the text |
| ChatControls.EncodedIsNeverSeen | src/server.c:1649-1660 | data that end with a newline, as the encoder's do, are never seen |
| ChatLogins.LoginLineIsRead | src/assets/chatclient.cpp:45-52 | sanitising is the identity on login lines, and both words are found again, the second cut to 63 characters |
| ChatLogins.LoginOutcome | src/server.c:1196-1234 | a login line of a registered nick is granted under the nick as typed, and confirmed by the client's next event, if the presented word is a beginning of the stored token; otherwise nothing changes and the next event is the refusal |
| ChatLogins.LoginSucceeds | src/server.c:1196-1211 | a login line with the stored token authorises the slot, and the next event of the client is the confirmation |
| ChatLogins.OneDigitLogsIn | src/server.c:1367-1368 | of the sixteen one-character words exactly the first character of the token is granted |
| ChatLogins.LoginGrantedIff | src/server.c:1159-1234 | in any run, after a registration, an admitted login line with that nick in any case of letters is granted if and only if its word, cut to 63 characters, is a beginning of the issued token |
| ChatLogins.RegisterLineIsRead | src/assets/chatclient.cpp:36-43 | sanitising is the identity on registration lines with a valid nick, and the nick is found again |
| ChatLogins.RegisterLineIsCut | src/server.c:1161 | of a longer word the first 31 characters are taken as the nick |
| ChatLogins.LongNickSplits | src/server.c:1198 | in a login line with a longer nick the rest of it is taken as the token |
| ChatAnswers.RegistrationAnswered | src/server.c:1159-1194 | for an admitted registration line of any bytes the client's next event is a success with nick and token if and only if exactly that account was added; each of the three refusals comes exactly under its condition, and no answer exactly when random bytes are missing; no other stream, slot or account changes |
| ChatAnswers.LoginAnswered | src/server.c:1196-1234 | for an admitted login line of any bytes the next event is a confirmation if and only if a login was granted under that nick, the refusal if and only if both words are there and not accepted, and nothing if one is missing |
| ChatAnswers.HelpAnswered | src/server.c:1236-1245 | the answer to `/help` lists the five commands, and nothing else changes |
| ChatAnswers.OtherAnswered | src/server.c:1143-1157 | any other command of a client that is not logged in is answered with one error line and changes nothing else; a blank line is not answered |
| ChatAnswers.RefusedByLimiter | src/server.c:1095-1099 | a turn that the limiter does not admit is answered with one error line and changes nothing else |
| ChatAnswers.ConfirmationsAreRead | src/server.c:1174-1209 | level, session, nick and token as a JSON reader takes them from the confirmations |
| ChatNotices.LoginAuthorizes | src/server.c:1200-1204 | everything the slot of a granted login holds afterwards: the nick as typed, the presented word, the account's level; no other slot, account or descriptor changes |
| ChatNotices.JoiningIsSeen | src/server.c:1206-1222 | a granted login is seen by its client as the confirmation and then the notice, and by every other online client at a line start as the notice; no other stream changes |
| ChatNotices.LeavingIsSeen | src/server.c:1120-1126 | the end of a handler of an authorised slot is seen by every online client at a line start as the notice; otherwise no stream changes |
| ChatLogins.RegisterSucceeds | src/server.c:1159-1184 | a registration of a new nick stores the account and the client's next event holds the very token that is stored |
| ChatLogins.RegisterThenLogin | src/server.c:1159-1234 | in any run, after a registration a login at any later time, on any connection, with the token that was answered and the nick in any case of letters succeeds and is seen |
| ChatLines.CutLineIsUnfinished | src/server.c:1607-1610 | a line leaves the stream at a line start if and only if it fits its buffer; a cut one shows nothing |
| ChatMessages.PrivateLineIsRead | src/assets/chatclient.cpp:62-69 | from the client's private message line the server takes exactly the target and the text to deliver |
| ChatMessages.DeliveredIsCutIff | src/server.c:1282-1289 | the delivered text is the sanitised text cut to 2047 if and only if that does not begin with a space |
| ChatMessages.LeadingSpaceIsLost | src/server.c:1284 | an input beginning with a non-space for which the two differ |
| ChatMessages.PrivateLineFits | src/server.c:1625-1628 | the JSON line of a private message is never cut |
| ChatMessages.PrivateMessageArrives | src/server.c:1619-1633 | a private message to an online nick changes one stream by one line, reported there with the same from, to and text if and only if no unfinished line stood before it |
| ChatMessages.PrivateMessageDropped | src/server.c:1282-1289 | nothing is written when the target is not online or nothing is left of the text |
| ChatMessages.OnlineListFits | src/server.c:1262-1280 | with at most 240 online nicks of at most 31 characters the list is not cut |
| ChatMessages.OnlineListArrives | src/server.c:1262-1280 | then the client gets the online nicks in the order of the slots |
| ChatWords.OnlineNicksOfConcat | src/server.c:1266-1276 | the online nicks follow the slots: each online slot gives its own, the others none |
| ChatMessages.BroadcastReachesOnce | src/server.c:1604-1617 | a broadcast is written once to the connection of each online slot and to no other |
| ChatMessages.BroadcastArrives | src/server.c:1256-1257 | what an authorised client types is seen, sanitised and under its nick, by each online client whose stream is at a line start, if and only if nick and sanitised text together have at most 8152 characters |
| ChatLines.CutLineSwallows | src/server.c:1607-1615 | after a cut line the next line of any kind is not seen: with what stood before, the two are one line the client cannot read, and nothing is reported for it if the first began at a line start |
| ChatMessages.LongBroadcastSwallows | src/server.c:1604-1617 | a broadcast that is too long is seen by no online client, and the next broadcast of anybody is not seen either: nothing is reported yet if it is too long as well, one unreadable line if it fits, and nothing for that one if the stream was at a line start |
| ChatMessages.LongTextIsTooLong | src/server.c:1604-1617 | a text of 8150 letters is too long under every nick, and its line fits the server's read buffer |
| ChatServerState.TakeCommand | src/server.c:1104-1114 | sanitising in place, dropping blank lines and cutting the newline give the command of the model |
| ChatServerState.ValidateNickname | src/server.c:422-441 | the loops accept exactly the nicks of 3 to 31 allowed characters that are not reserved in any case of letters |
| ChatServerState.SecureServer.FindClientByNick | src/server.c:1594-1602 | the first online slot of the nick, or none |
| ChatServerState.SecureServer.BroadcastMessage | src/server.c:1604-1617 | the loop over the table writes to every online slot |
| ChatServerState.SecureServer.SendPrivateMessage | src/server.c:1619-1633 | writes to the first online slot of the nick and nowhere else |
| ChatServerState.SecureServer.SendOnlineUsers | src/server.c:1262-1280 | for any slot table, the chain of `strncat` calls sends exactly the first min(8191, full length) characters of the full list |
| ChatServerState.SecureServer.ProcessRegistration | src/server.c:1159-1194 | every branch of registration, with its answer and effect on the table, which `ChatAnswers.RegistrationAnswered` describes from outside |
| ChatServerState.SecureServer.ProcessLogin | src/server.c:1196-1234 | every branch of a login, with the slot, the answer and the notice to everybody |
| ChatServerState.SecureServer.AdmitRequest | src/server.c:1087-1102 | the inlined limiter is the limiter function |
| ChatServerState.SecureServer.HandlerTurn | src/server.c:1087-1118 | one turn keeps the invariant and is the input step of the model on the bytes in the buffer |
| ChatServerState.SecureServer.HandlerStep | src/server.c:1073-1118 | the same with the read loop before it, and when the handler leaves its loop |
| ChatServerState.SecureServer.HandleNewConnection | src/server.c:1906-1966 | accept, free slot, handshake and initialisation are the accept step and keep the invariant; after a handshake the first free slot holds the new connection and nothing else changed, otherwise nothing did |
| ChatServerState.SecureServer.CleanupClientResources | src/server.c:1715-1754 | closes the descriptor once, clears connection, nick, token and authorisation, and wipes the five key buffers |
| ChatServerState.SecureServer.FinishHandler | src/server.c:1120-1135 | the leave notice and the cleanup, keeping the invariant; the slot and its descriptor are free afterwards |
| ChatServerState.SecureServer.DisconnectClient | src/trash/server2.c:723-750 | in a slot that is in use, closes the descriptor, clears connection, nick, token and authorisation, and wipes its three key buffers; any other slot is left alone |
| ChatServerState.SecureServer.CheckClientTimeouts | src/server.c:1889-1900 | the sweep closes exactly the slots that were idle for more than 300 seconds |
| ChatClientState.ChatClient.OnReadyRead | src/assets/chatclient.cpp:123-188 | the loop reports the events of all whole lines and keeps the unfinished one; `m_loggedIn` and `m_nick` are set by the last confirmation among them, and stay as they were if there is none |
| ChatClientState.ChatClient.OnDisconnected | src/assets/chatclient.cpp:110-115 | a lost connection leaves a client that is not logged in, with nick and token cleared |
| ChatClientState.ReadyReadIsSteps | src/assets/chatclient.cpp:123-188 | one call of the reading loop is as many single reading steps of a run as there are whole lines |

## Left out

- Code points of 256 and more in `encrypt_strings`, and escapes in the literals of the source, which it encrypts as they are written.
- The value of the two-character constant that ends both decoders' output: it is a parameter.
- Obfuscator.AdvancedObfuscator.ObfuscateNames: collected names are words of the text.  Two patterns (`brootfrouce.py:183-184`) also collect names such as `*p` from a pointer declaration; those entries are treated in `PointerNames`, with the exact condition for the pass to be undone.
- The patterns that collect names and conditions from a text, which are heuristics: names found and the parsed program are given.
- False returns, junk code, integrity and debugger checks, and the metadata banner of the obfuscator.
- `while` loops of the small language run for a bounded number of turns; the theorem holds for every bound.
- JSON values other than strings, whole numbers and arrays of strings, which no server line holds: the reader rejects them, and with them escapes for surrogates; trimming of characters outside ASCII.
- Bytes are characters in the chat model: UTF-8 decoding by the client is not part of it.
- The token writer of `src/server.c:405-420`: the 32-byte form of `src/trash/server2.c` stands for it.
- The switch that turns the limiter off in `src/trash/server2.c:613`.
- The user table is a map under lower-case nicks in which a nick or token cannot be entered twice; failures of the database are inputs of a step.  `is_locked` is never set by the program and is left out.
- `ChatServerState.SecureServer.AuthenticateUser`: compares the presented token as a prefix; the comparison loop itself is `ConstantTimeCompare`, on bytes.
- The contents of the key buffers of a slot: the model says which of them are filled.
- A write to a client is taken as handed over whole; what `ssl_safe_write` does with partial results is proved for itself in `Transport`.
- Log entries, stored messages, peers and Signal sessions that chat commands also create; the encrypted text is an input.
- Each command, sweep or accept is one step: interleavings inside one are not modelled, nor the audit record's use after its lock is released.
- Sockets, TLS, threads, the client's windows and timers; the mesh scripts; the first server generations other than the parts named above.
