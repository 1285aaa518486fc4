# Protohackers servers in Dafny

A verified model of the request logic inside four of the Rust servers in
henrikpersson/protohackers:

- **Prime time** (`problem1`, module `PrimeTime`, `prime_time.dfy`). Each
  line a client sends is one JSON request. The model covers how a parse
  error is classified by its message, trial-division primality, the answer
  to each parse result, and the session loop that stops after its first
  malformed response.
- **Means to an end** (`problem2`, module `MeansToAnEnd`,
  `means_to_an_end.dfy`). It covers the 9-byte record decoder with its
  big-endian two's-complement fields, and a per-session
  timestamp-to-price map. Its `insert` stores the new price even for a known
  timestamp and then reports the duplicate as an error. It also covers the
  truncating integer mean over an inclusive time window and the session's
  read loop.
- **Budget chat** (`problem3`, module `BudgetChat`, `budget_chat.dfy`).
  It covers the name handshake, the events one connection sends, and the
  room task. The room task keeps the members in a map and broadcasts
  join, chat and leave lines to everyone but the actor. Every socket is
  the sequence of lines written to it.
- **Unusual database** (`problem4`, module `UnusualDatabase`,
  `unusual_database.dfy`). It covers the datagram parser that splits at
  the first `=`, and the store with its fixed `version` key. It also
  covers the receive loop that answers each lookup to its sender.

Two small shared modules hold `Option`/`Result` (`wrappers.dfy`) and
bytes (`octets.dfy`).

The state the source changes in place is a class whose methods update its
field: the price map (`Session`), the chat room with its sockets (`Room`)
and the key-value store (`Server`). The source's loops are methods with
`while` loops: `is_prime`, the prime-time session loop, the chat
connection's read loop, and the loops of those classes. Each method is
proved against a function of its inputs and of the state it starts from.
Where the result depends on the order a `HashMap` is iterated in (the
"room contains" line), the function takes that order as a parameter, and
the method promises the result for some order.
The properties of those functions are proved as lemmas.

## Model

| member | source | states |
|---|---|---|
| PrimeTime.Response.Ok | problem1/src/main.rs:33-35 | defines `Response::ok`: the method `isPrime` with the given primality; never malformed, by `MalformedIsRecognised` |
| PrimeTime.Response.Malformed | problem1/src/main.rs:37-39 | defines `Response::malformed`: the method `malformed` with `prime` false; malformed, by `MalformedIsRecognised` |
| PrimeTime.Response.IsMalformed | problem1/src/main.rs:41-43 | defines `is_malformed`: the method name is `malformed`; it tells the two constructors apart, by `MalformedIsRecognised` |
| PrimeTime.MalformedIsRecognised | problem1/src/main.rs:32-43 | `is_malformed` holds of `malformed()` and never of `ok(prime)` |
| PrimeTime.Find | problem1/src/main.rs:14-15 | `str::find` returns the first character position where the pattern occurs, and `None` exactly when it occurs nowhere; Rust counts bytes, but only `Some` or `None` is used |
| PrimeTime.FromSerdeError | problem1/src/main.rs:12-17 | an error is `FloatingPoint` if and only if its message contains `invalid type: floating point `; any other error is `InvalidJSON` carrying the message |
| PrimeTime.FloatingPointMessageClassified | problem1/src/main.rs:12-17 | any message with the floating-point phrase somewhere inside it is classified `FloatingPoint` |
| PrimeTime.NoSmallDivisorMeansPrime | problem1/src/main.rs:72-79 | a number with no divisor below `i`, where `i * i` exceeds it, is prime: stopping at the square root is sound |
| PrimeTime.IsPrime | problem1/src/main.rs:67-80 | true exactly when the number is at least 2 and has no divisor strictly between 1 and itself, so false for every number up to 1 |
| PrimeTime.FirstNinePrimes | problem1/src/main.rs:166-178 | among 0 to 23 the primes are exactly 2, 3, 5, 7, 11, 13, 17, 19 and 23 |
| PrimeTime.AnswerMalformedExactly | problem1/src/main.rs:57-65 | the answer is malformed exactly for another method or invalid JSON; a float gets `ok(false)`; `isPrime` gets `ok` of the number's primality |
| PrimeTime.Answer | problem1/src/main.rs:57-65 | defines the response to each parse result, with `is_prime` replaced by primality itself; its cases are proved in `AnswerMalformedExactly` |
| PrimeTime.HandleRequest | problem1/src/main.rs:57-65 | answers a parse result as specified by `Answer` |
| PrimeTime.Replies | problem1/src/main.rs:89-103 | defines the responses a session writes: one `Answer` per parse result, up to and including the first malformed one; its shape is proved in `RepliesShape` |
| PrimeTime.RepliesShape | problem1/src/main.rs:82-104 | a session writes at most one response per line plus one; each response before the last answers its line and is well formed; the last is the only malformed one |
| PrimeTime.Start | problem1/src/main.rs:82-104 | the session loop writes exactly `Replies`: it stops right after the first malformed response |
| MeansToAnEnd.FromBeBytes | problem2/src/main.rs:26-27 | defines `i32::from_be_bytes`: four bytes read big-endian as two's complement; it inverts `ToBeBytes` by `BeBytesRoundTrip` and `BeBytesDecodeEncode` |
| MeansToAnEnd.ToBeBytes | problem2/src/main.rs:73 | the big-endian bytes of an `i32`, as `write_i32` sends them, always four of them |
| MeansToAnEnd.BeBytesRoundTrip | problem2/src/main.rs:26-27 | decoding the big-endian bytes of any `i32` gives it back |
| MeansToAnEnd.BeBytesDecodeEncode | problem2/src/main.rs:26-27 | any four bytes re-encode to themselves, so decoding is a bijection |
| MeansToAnEnd.FromBytes | problem2/src/main.rs:24-33 | defines `Message::from_bytes`: the tag byte picks insert or query, and the two fields follow; its partner `ToBytes` and both round trips are below |
| MeansToAnEnd.RecordRoundTrip | problem2/src/main.rs:24-33 | a message encoded as a record decodes to itself |
| MeansToAnEnd.RecordDecodeEncode | problem2/src/main.rs:24-33 | a record is rejected if and only if its tag is neither `I` nor `Q`; an accepted record re-encodes to itself |
| MeansToAnEnd.ManualRecord | problem2/src/main.rs:111-116 | the record `49 00 00 00 ff 00 00 10 00` is `Insert { timestamp: 255, price: 4096 }` |
| MeansToAnEnd.TruncDiv | problem2/src/main.rs:61 | the quotient truncated toward zero: `q * b` is the multiple of `b` closest to `a` that does not pass `a` going away from zero |
| MeansToAnEnd.TruncDivBetween | problem2/src/main.rs:61 | `/` truncating toward zero keeps the mean of `n` summands in `[lo, hi]` within `[lo, hi]` |
| MeansToAnEnd.SumOfRemove | problem2/src/main.rs:51-60 | the in-window sum does not depend on the order the map is iterated in |
| MeansToAnEnd.Window | problem2/src/main.rs:51-54 | defines the filter: the stored timestamps from `mintime` to `maxtime`, both included; an empty window gives mean 0 by `EmptyWindowMeansZero` |
| MeansToAnEnd.SumOf | problem2/src/main.rs:60 | defines the `i64` sum of the prices at a set of timestamps; independent of the order it is taken in by `SumOfRemove`, and within `i64` by `PartialSumFitsInt64` |
| MeansToAnEnd.Mean | problem2/src/main.rs:50-62 | defines `calculate_avg` as a value: 0 for an empty window, else the truncated quotient of the in-window sum by the in-window count; bounded by `MeanBetween` and `MeanFitsInt32` |
| MeansToAnEnd.MeanBetween | problem2/src/main.rs:50-62 | the mean lies between any lower and upper bound of the in-window prices |
| MeansToAnEnd.MeanFitsInt32 | problem2/src/main.rs:61 | the mean always fits an `i32`, so the `as i32` cast loses nothing |
| MeansToAnEnd.EmptyWindowMeansZero | problem2/src/main.rs:56-58 | with no stored timestamp in the window, in particular when `mintime > maxtime`, the mean is 0 |
| MeansToAnEnd.PartialSumFitsInt64 | problem2/src/main.rs:60 | every partial sum of prices fits the `i64` accumulator |
| MeansToAnEnd.Serve | problem2/src/main.rs:64-79 | defines `handle_client` as a value: records are handled until fewer than 9 bytes remain, a bad tag or a duplicate insert ends it with an error, and each query writes the 4-byte mean; its cases are proved in the three lemmas below |
| MeansToAnEnd.Records | problem2/src/main.rs:64-67 | a session reads one record per 9 bytes, each the next 9 bytes of the input, and ignores a shorter tail |
| MeansToAnEnd.QueriesOnlyAnswerEach | problem2/src/main.rs:64-79 | a client that only queries leaves the map unchanged, ends with `Ok`, and gets exactly `Answers`: for each record in order, the four big-endian bytes of the mean over the window that record names |
| MeansToAnEnd.Answers | problem2/src/main.rs:71-74 | defines the bytes a run of queries is answered with against a fixed map: each record's mean, as `write_i32` sends it; `QueriesOnlyAnswerEach` proves that a query-only session writes exactly these |
| MeansToAnEnd.Step | problem2/src/main.rs:68-75 | defines what one record does to the map: an unknown tag or a known timestamp ends the session, a fresh insert stores the price, and a query leaves the map alone; `EachQueryAnswered` and `OkWhenAllHandled` relate it to `Serve` |
| MeansToAnEnd.Handled | problem2/src/main.rs:67-76 | counts the records the session handles before one ends it, never more than there are |
| MeansToAnEnd.EachQueryAnswered | problem2/src/main.rs:67-76 | for any input, inserts and queries mixed, the session writes exactly 4 bytes per query among the records it handles, and nothing for any insert |
| MeansToAnEnd.OkWhenAllHandled | problem2/src/main.rs:67-78 | for any input, the session ends with `Ok` exactly when it handles every record |
| MeansToAnEnd.FreshInsertWritesNothing | problem2/src/main.rs:70 | inserting a timestamp not yet stored writes nothing, and the session goes on with the price stored |
| MeansToAnEnd.BadTagEndsSession | problem2/src/main.rs:28-31 | a record with an unknown tag anywhere makes the session end with an error |
| MeansToAnEnd.DuplicateInsertEndsSession | problem2/src/main.rs:42-48 | inserting a known timestamp ends the session with `UndefinedBehavior`, with the new price already stored and nothing written |
| MeansToAnEnd.Session.constructor | problem2/src/main.rs:36-39 | a session starts with no entries |
| MeansToAnEnd.Session.Insert | problem2/src/main.rs:42-48 | the price is stored even for a known timestamp; the result is `Err` exactly when the timestamp was already present |
| MeansToAnEnd.Session.CalculateAvg | problem2/src/main.rs:50-62 | returns `Mean`: 0 for an empty window, otherwise the truncated mean of the in-window prices |
| MeansToAnEnd.Session.HandleClient | problem2/src/main.rs:64-79 | leaves the map, the bytes written and the result that `Serve` gives for the input |
| MeansToAnEnd.AverageExample | problem2/src/main.rs:99-109 | prices 10, 123, 4, 3455, 3 and -9 at timestamps 1 to 6 average to 597 |
| UnusualDatabase.FindFirst | problem4/src/main.rs:13 | the position of the first `=`, and `None` exactly when there is none |
| UnusualDatabase.FromBuf | problem4/src/main.rs:12-19 | a datagram is a lookup exactly when it holds no `=`, and then a lookup of all of it; its partner `ToBuf` and both round trips follow |
| UnusualDatabase.ParseRoundTrip | problem4/src/main.rs:12-19 | every request a datagram can express parses back from its bytes; a value may itself hold `=` |
| UnusualDatabase.PrintRoundTrip | problem4/src/main.rs:12-19 | every datagram parses to a well-formed request that prints back to the same bytes |
| UnusualDatabase.FromBufExamples | problem4/src/main.rs:57-64 | `=AB`, `C=AB`, `C==AB`, `C=` and `CAB` parse as the repository's test expects |
| UnusualDatabase.Received | problem4/src/main.rs:29-31 | a packet is the datagram cut to its first 1000 bytes |
| UnusualDatabase.Apply | problem4/src/main.rs:34-38 | defines the store after a request: only an insert with a key changes it; proved in `LookupsOnlyAnswer` |
| UnusualDatabase.Reply | problem4/src/main.rs:39-46 | defines the reply to a request: none for an insert, the version string for `version`, otherwise `key=value` with an empty value for a missing key; proved in `VersionIsFixed` and `InsertThenGet` |
| UnusualDatabase.Served | problem4/src/main.rs:29-48 | defines the receive loop as a value: each datagram is cut, parsed, applied, and any reply goes to its sender; `ServedSnoc` extends it by one datagram |
| UnusualDatabase.VersionIsFixed | problem4/src/main.rs:26-41 | whatever came before, even an insert to `version`, a lookup of `version` is answered with the version string |
| UnusualDatabase.InsertThenGet | problem4/src/main.rs:34-46 | inserting `key=value` and then looking up `key` stores the value and answers `key=value` to the second peer only |
| UnusualDatabase.LookupsOnlyAnswer | problem4/src/main.rs:34-46 | lookups never change the store and are always answered; inserts are never answered; an insert with a key sets that key and no other |
| UnusualDatabase.Server.constructor | problem4/src/main.rs:27 | the store starts empty |
| UnusualDatabase.Server.Dispatch | problem4/src/main.rs:34-47 | updates the store by `Apply` and answers by `Reply` |
| UnusualDatabase.Server.Serve | problem4/src/main.rs:29-48 | leaves the store and sends the datagrams that `Served` gives for the incoming datagrams |
| BudgetChat.EnteredLine | problem3/src/main.rs:29 | defines the entered line `* name has entered the room`; `EnterNotifies` proves who is sent it |
| BudgetChat.ChatLine | problem3/src/main.rs:44 | defines the chat line `[name] text`; `BroadcastReachesOthers` proves who is sent it |
| BudgetChat.LeftLine | problem3/src/main.rs:49 | defines the left line `* name has left the room`; `LeaveNotifies` proves who is sent it |
| BudgetChat.Join | problem3/src/main.rs:34 | defines `join(", ")`: the names in order with the separator between neighbours only; `AliceAndBob` spells out the lines it builds |
| BudgetChat.RoomContainsLine | problem3/src/main.rs:34 | defines the "room contains" line around the joined names; `RoomContainsOthers` says which names it lists |
| BudgetChat.IsWhitespace | problem3/src/main.rs:121 | defines Unicode's White_Space set, the characters `trim` strips; used by `LeadingWhitespace`, `TrailingWhitespace` and `TrimPadded` |
| BudgetChat.IsAlphanumeric | problem3/src/main.rs:126 | defines the characters a name may hold, ASCII letters and digits only (narrower than Rust, see "Left out"); used by `AcceptUser` |
| BudgetChat.Deliver | problem3/src/main.rs:35 | defines one write of a whole line to a member's socket, the write that line 64 also makes; `BroadcastReachesOthers` and `EnterNotifies` prove which sockets get it |
| BudgetChat.LeadingWhitespace | problem3/src/main.rs:121 | counts the leading whitespace: everything before it is whitespace and the character at it is not |
| BudgetChat.TrailingWhitespace | problem3/src/main.rs:121 | finds where the trailing whitespace begins: everything from it on is whitespace and the character before it is not |
| BudgetChat.Trim | problem3/src/main.rs:121 | defines `str::trim` by the two scans above; `TrimPadded` and `TrimIdempotent` say what it removes |
| BudgetChat.TrimPadded | problem3/src/main.rs:121 | `trim` removes exactly the whitespace around a core that neither starts nor ends with whitespace |
| BudgetChat.TrimIdempotent | problem3/src/main.rs:121 | a trimmed string has no whitespace at either end and trimming it again changes nothing |
| BudgetChat.AcceptUser | problem3/src/main.rs:115-131 | accepted if and only if the trimmed line is non-empty and all alphanumeric; too short exactly when it is empty; the user is named by the trimmed line; whether accepted or refused, the socket has been sent the welcome prompt |
| BudgetChat.HandshakeAccepts | problem3/src/main.rs:115-131 | a non-empty alphanumeric name with any whitespace around it is accepted as itself |
| BudgetChat.AcceptedNameIsClean | problem3/src/main.rs:120-128 | an accepted name is non-empty and holds no whitespace |
| BudgetChat.BlankNameRejected | problem3/src/main.rs:122-124 | a blank line is refused as too short |
| BudgetChat.PunctuatedNameRejected | problem3/src/main.rs:126-128 | `bob!` is refused as invalid |
| BudgetChat.Messages | problem3/src/main.rs:95-105 | one `NewMessage` with the trimmed chunk per chunk read, in order, until a read returns nothing |
| BudgetChat.SessionEvents | problem3/src/main.rs:92-108 | nothing if the handshake fails; otherwise `UserEnter` with the accepted user first, `UserLeave` last, and only the connection's own messages in between |
| BudgetChat.Session | problem3/src/main.rs:88-109 | the connection task sends exactly `SessionEvents` |
| BudgetChat.Broadcasted | problem3/src/main.rs:57-66 | defines `broadcast`: the line is appended to the socket of every member but the sender; proved in `BroadcastReachesOthers` |
| BudgetChat.BroadcastReachesOthers | problem3/src/main.rs:57-66 | a broadcast appends the line once to every member but the sender, leaves the sender and all names alone, and reaches all members but one |
| BudgetChat.OthersNamesCount | problem3/src/main.rs:32-33 | the collected names hold one entry per listed member whose name differs from the joiner's |
| BudgetChat.OthersNamesMembers | problem3/src/main.rs:32-33 | a name is collected exactly when it differs from the joiner's and some listed member bears it |
| BudgetChat.OthersNames | problem3/src/main.rs:32-33 | defines the `here` list for one listing order: the members' names in that order, leaving out every name equal to the joiner's; `OthersNamesCount`, `OthersNamesMembers` and `RoomContainsOthers` prove what it holds, and `Room.Here` computes it |
| BudgetChat.RoomContainsOthers | problem3/src/main.rs:32-34 | in any iteration order, the "room contains" list holds exactly the present names other than the joiner's, filtered by name and not by id |
| BudgetChat.Entered | problem3/src/main.rs:28-38 | defines the room after `UserEnter` for one listing order: the others get the entered line and the joiner, sent the "room contains" line, is added; proved in `EnterNotifies` and `EnterAddsMember` |
| BudgetChat.EnterNotifies | problem3/src/main.rs:28-35 | on entry every other present member is sent the entered line, and the joiner is sent only the "room contains" line |
| BudgetChat.EnterAddsMember | problem3/src/main.rs:37 | on entry the joiner is added under its name and no other name changes |
| BudgetChat.Said | problem3/src/main.rs:43-45 | defines the room after a non-empty message: `[name] text` is broadcast from the sender; its effect is `BroadcastReachesOthers` |
| BudgetChat.Left | problem3/src/main.rs:47-52 | defines the room after `UserLeave`: the left line is broadcast and the leaver removed; proved in `LeaveNotifies` |
| BudgetChat.LeaveNotifies | problem3/src/main.rs:47-52 | on leaving every remaining member is sent the left line, and exactly the leaver is removed |
| BudgetChat.Advance | problem3/src/main.rs:27-53 | defines one event's effect on the names present: entry adds, leave removes, an empty message returns, and a message or leave from an absent member panics at `unwrap` |
| BudgetChat.RunEvents | problem3/src/main.rs:24-55 | the room handles events until they run out, an empty message stops it, or a message or leave names an absent member; no empty message is handled before the stop |
| BudgetChat.StopIgnoresLaterEvents | problem3/src/main.rs:40-42 | once the room has returned or panicked, later events change nothing |
| BudgetChat.SessionLeavesRosterUnchanged | problem3/src/main.rs:92-108 | a member who joins, sends only non-blank lines and disconnects leaves the room as it was |
| BudgetChat.BlankLineClosesRoom | problem3/src/main.rs:40-42 | a line that trims to nothing stops the room altogether |
| BudgetChat.Handle | problem3/src/main.rs:27-53 | defines one arm of `open` on the whole room, sockets included: `Entered`, `Said` or `Left`, or the stop that an empty message or a missing member causes |
| BudgetChat.RunRoom | problem3/src/main.rs:24-55 | the whole room after the events `open` handles, for any listing orders: it handles at most all the events, and handles all of them exactly when it stops because they ran out |
| BudgetChat.RunRoomRoster | problem3/src/main.rs:24-55 | whatever the listing orders, the whole-room run has the names, the number of events handled and the halt reason of the roster run `RunEvents` |
| BudgetChat.RunRoomStopped | problem3/src/main.rs:40-42 | once the whole-room run has returned or panicked, later events change no member and no socket |
| BudgetChat.AliceAndBobOpen | problem3/src/main.rs:24-55 | the room task handed alice's entry, bob's entry, bob's "hi" and bob's leave handles all four and leaves alice alone with the whole conversation on her socket, whatever the listing orders |
| BudgetChat.Room.constructor | problem3/src/main.rs:18-21 | the room starts empty |
| BudgetChat.Room.Broadcast | problem3/src/main.rs:57-66 | the members become `Broadcasted`: every member but the sender gets the line |
| BudgetChat.Room.Here | problem3/src/main.rs:32-33 | the loop over the members visits each exactly once in some order, and collects exactly `OthersNames` for that order |
| BudgetChat.Room.Enter | problem3/src/main.rs:28-38 | for some iteration order of the present members, the room becomes `Entered`; the joiner is added under its name |
| BudgetChat.Room.Post | problem3/src/main.rs:39-46 | an empty text closes the room and changes nothing; any other text is broadcast as `[name] text` |
| BudgetChat.Room.Leave | problem3/src/main.rs:47-52 | the leave line goes to the others and the leaver is removed |
| BudgetChat.Room.Open | problem3/src/main.rs:24-55 | for some listing order at each entry, the members with their sockets, the number of events handled and the reason for stopping are those `RunRoom` gives; the names are those `RunEvents` gives |
| BudgetChat.AliceAndBob | problem3/src/main.rs:28-52 | alice alone, bob joins, bob says hi, bob leaves: bob is told alice is there, and alice's socket holds the whole conversation in order |

## Left out

- JSON parsing and printing (serde) in problem1: a request arrives as the abstract result of parsing one line. The session loop is modelled over the sequence of parse results. The final empty read, which does not parse, is part of the model.
- PrimeTime.IsPrime: the loop bound is the exact integer square root (`i * i <= n`). The source uses an `f32` square root, which can round below the true root for very large `n`. Floating point is not modelled.
- PrimeTime.Start: read and write failures, which `unwrap` turns into panics, are not modelled.
- MeansToAnEnd.HandleClient: writes never fail. In the source a failed `write_i32` of the mean is unwrapped (problem2/src/main.rs:73), so it panics the session task.
- UnusualDatabase.Server.Serve: sends never fail. In the source a failed `send_to` is unwrapped (problem4/src/main.rs:40 and 45), so it panics the server and ends every later answer.
- BudgetChat.AcceptUser: alphanumeric means ASCII letters and digits. Rust's `char::is_alphanumeric` also accepts non-ASCII letters and numerals, so some non-ASCII names accepted by the source are refused here. Whitespace for `trim` is Unicode's full White_Space set, as in Rust.
- Sockets are sequences of the lines written to them. Writes never fail and are never partial, though in the source `write` may write only part of a line. What a failed write does is not modelled. In `broadcast` (problem3/src/main.rs:64) the result is ignored. When the room greets a joiner (line 35) it is unwrapped, so a failed write panics the room task. In the handshake (line 117) it is propagated, so a failed welcome write refuses the connection.
- The listener, `tokio::spawn`, the `mpsc` channel and the connection id counter in problem3 are left out. The room's input is a plain sequence of events, and one connection's events are a separate sequence. Interleaving several connections on the channel is not modelled.
- The line reader of problem3 is a sequence of chunks, one per `read_until` call. A read error ends the loop the same way as an empty read.
- UTF-8 decoding and its `unwrap`s in problems 3 and 4. Chat text is a string, and datagram keys and values are bytes.
- `HashMap` iteration order: `Room.Enter` promises the "room contains" line for some order of the present members, and `Room.Open` promises the whole-room run for some order at each entry. `CalculateAvg` and `Broadcast` visit keys in an arbitrary order.
- UDP addresses are abstract peer numbers. A failed `recv_from` ends the receive loop in the source; the model's loop ends when the incoming datagrams run out.
- The problem0 echo server and the problem5 regex proxy are not part of this model.
