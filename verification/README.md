# Thesaurus: a verified model

Thesaurus is an in-memory key-value server that speaks RESP2, expires keys lazily and by a background
sampler, and can persist its writes in an append-only log. This project models five parts of it in Dafny and
proves what they promise, over all inputs and all runs:

- **The glob matcher** behind KEYS (`Pattern.dfy`): the pruned backtracking search decides exactly the
  declarative meaning of a pattern, up to its depth cap, in a linear number of calls; `PatternSyntax.dfy` says how
  patterns are written.
- **The RESP2 codec** (`Resp2.dfy`, `Resp2Streams.dfy`, `Resp2Reader.dfy`, over `Bytes.dfy` and
  `Decimal.dfy`): decoding undoes encoding inside any stream, exactly for the values without newlines in
  simple strings; a truncated command never decodes, and the error it gives is known for every cut. `WireForms.dfy`
  and `Unicode.dfy` say what the bytes are.
- **The store** (`Database.dfy` for the specification, `Store.dfy` and `Executor.dfy` for the objects that
  update it, `Execution.dfy` for whole commands): conservation laws for lists and sets (`Lists.dfy`,
  `Sets.dfy`), SET and MSET (`Strings.dfy`), deadline arithmetic (`Deadlines.dfy`), and a bisimulation that
  makes eviction invisible (`Eviction.dfy`), whose ticks empty the index (`Ticks.dfy`). `Command.dfy` and
  `SetOptionOrder.dfy` are the parser.
- **Requests**: what every word of the protocol does, told in plain contents of the store and without the functions
  of the model. `Words.dfy` is the wording of each command, `Requests.dfy` what it means to serve it;
  `StringRequests.dfy`, `ListRequests.dfy`, `SetRequests.dfy`, `ExpiryRequests.dfy` and `KeyRequests.dfy` go through
  the words, `RequestLaws.dfy` and `OtherKeys.dfy` are laws between requests.
- **The log**: a run of requests, what it appends, and what a restart rebuilds. `Recovery.dfy` and
  `RecoverySteps.dfy` say of every command exactly when the log keeps up with it. `Journal.dfy` and
  `SecondLife.dfy` are about any server that keeps such a log: whole runs, cuts at any byte, appending after a
  cut. `LogFilter.dfy` says what gets into the log and `LogReplay.dfy` what is made of it. `Aof.dfy` and
  `TornLog.dfy` apply them to this server, `Handler.dfy` has the loops that run it, and
  `TornTail.dfy` what is read across a torn entry. `LateSteps.dfy` and `LateRuns.dfy`, `Lapsed.dfy` and
  `LapsedRuns.dfy` are about replays after deadlines have passed. `ReplayLimits.dfy` gives the inputs on which a
  replay goes wrong.

## Conventions

- A byte is a `char` below 256, so that `"SET"` is a byte string. UTF-8 validity is that of section 4 of RFC 3629.
- `Instant` and `SystemTime` are one clock in nanoseconds, read once per command. The clock, the digest
  function and the random sampler reach a command in its `Env`.
- A run is any interleaving of requests and of the eviction daemon deleting keys; which keys it has sampled is
  part of the deletion. A command is one atomic step. A panic is an outcome, not a precondition:
  `Decoded.Panic` where `line[1..]` would split a character (`resp2.rs:220`), `ParseResult.Crash` where `args[0]` has no element
  (`command/mod.rs:170`), `Reply.Panics` where an absolute deadline exceeds what `Instant` can hold.
- The synchronous and asynchronous decoders come from one macro and are one function here.
- A reply whose order the source leaves open is the set of its members.
- The sum in the rewritten deadline (`resp2.rs:190-208`) wraps, as it does in a release build.
- FLUSHDB empties the store in either mode; freeing the old maps in the background is not visible.
- `docs/dev/README.md` lists fewer write commands than `is_write`; the model follows the code.

"Rebuilds" below means: the same data, and for every stored key a deadline in the same unit (millisecond or
second, a parameter). "Live-view commands" are those that see only unexpired keys. An "edge" of a length is the
place right after its prefix byte, or between its CR and LF.

## Model

| member | source | states |
|---|---|---|
| `Pattern.StringMatch` | `crates/thesaurus/src/pattern.rs:18-21` | the search answers yes exactly when the string is non-empty, splits into one part per token of the pattern and the pattern has at most 1000 separate stars to search (or both string and pattern are empty); it takes at most one call per byte of the string, plus one |
| `Pattern.StringMatchImpl` | `crates/thesaurus/src/pattern.rs:23-145` | the same for one call at any depth; if it sets the skip flag, no suffix of its string matches its pattern; a call that fails without the flag made no further call |
| `Pattern.TryStar` | `crates/thesaurus/src/pattern.rs:37-66` | the star arm: it fails exactly when it sets the flag, and then no suffix can match, so no enclosing star can profit from trying on |
| `Pattern.WalkClass` | `crates/thesaurus/src/pattern.rs:68-108` | walking a class finds its end and whether some member (escape, range, swapped range, single byte) covers the byte, terminated or not |
| `Pattern.MatchesIsDenotes` | `crates/thesaurus/src/pattern.rs:5-13` | the token-by-token meaning of a pattern is the declarative one, both ways |
| `Pattern.NoSuffixHit` | `crates/thesaurus/src/pattern.rs:54-56` | a set flag at one offset rules out every later offset |
| `Pattern.StarNotFound` | `crates/thesaurus/src/pattern.rs:61-65` | a star that finds no offset rules out its own match and that of every star before it |
| `Pattern.PlainSearchExact` | `crates/thesaurus/src/pattern.rs:48-65` | pruning loses no match: the search that never looks at the flag accepts exactly the strings the real one accepts, the empty string included |
| `Pattern.StarRunsBound` | `crates/thesaurus/src/pattern.rs:29-31` | the searches a pattern nests are at most its star bytes, classes and escapes included |
| `Pattern.ExactWithinCap` | `crates/thesaurus/src/pattern.rs:1-31` | with at most 1000 star bytes the depth cap is never felt: a non-empty string is accepted exactly when the pattern denotes it |
| `PatternSyntax.TokenizeWrite` | `crates/thesaurus/src/pattern.rs:68-145` | reading a pattern undoes writing it: stars, question marks, plain and escaped bytes, and classes of plain and escaped bytes and ranges in either order, negated or not, closed or not |
| `PatternSyntax.ReadMembers` | `crates/thesaurus/src/pattern.rs:68-108` | the same for the members of a class, up to what closes it |
| `PatternSyntax.EveryPatternIsWritten` | `crates/thesaurus/src/pattern.rs:68-145` | every text is the writing of such pieces, so nothing else is a pattern |
| `PatternSyntax.MatchesAsWritten` | `crates/thesaurus/src/pattern.rs:5-145` | a non-empty text matches a pattern if and only if it splits into one part for each piece written, any part for a star and one byte that the piece names for any other, and no more than 1000 stars have another piece right after them |
| `PatternSyntax.RangeMatches` | `crates/thesaurus/src/pattern.rs:91-97` | `[a-b]` and `[b-a]` match exactly the bytes from a to b, and `[^a-b]` exactly the others |
| `Resp2.DecodeEncode` | `crates/thesaurus/src/resp2.rs:39-75` | every nested value whose simple strings hold no newline is decoded back from its encoding followed by anything, leaving exactly what followed |
| `Resp2.DecodeEncodeAll` | `crates/thesaurus/src/resp2.rs:279-317` | a concatenation of encodings decodes to the same sequence of values |
| `Resp2.DecodeHeader` | `crates/thesaurus/src/resp2.rs:217-222` | a header line is read back as its prefix and its text, whatever follows it |
| `Unicode.Utf8Exactly` | `crates/thesaurus/src/resp2.rs:225-230` | a byte string is taken for UTF-8 if and only if it is the encoding, as RFC 3629 defines it, of some sequence of Unicode scalar values: no surrogates, no overlong forms, nothing above U+10FFFF |
| `WireForms.WireForm` | `crates/thesaurus/src/resp2.rs:175-186` | the bytes of every kind of value, as the RESP2 specification lists them |
| `WireForms.WireRead` | `crates/thesaurus/src/resp2.rs:217-222` | one-line values are read back from those bytes |
| `WireForms.NullRead` | `crates/thesaurus/src/resp2.rs:245-250` | a length of -1 reads as the null bulk string or the null array |
| `WireForms.DecimalForm` | `crates/thesaurus/src/resp2.rs:175-186` | numbers are decimal, most significant digit first, without leading zeros, with a minus sign for the negative |
| `WireForms.HexForm` | `crates/thesaurus/src/executor/string.rs:143-149` | digests are in lower-case hexadecimal |
| `WireForms.NumberFits` | `crates/thesaurus/src/command/mod.rs:370-388` | a decimal number is read if and only if it fits its 64 bits, signed or unsigned |
| `WireForms.PlusSign` | `crates/thesaurus/src/command/mod.rs:370-388` | a plus sign is accepted |
| `WireForms.LeadingZeros` | `crates/thesaurus/src/command/mod.rs:370-388` | leading zeros are accepted |
| `WireForms.NoNumber` | `crates/thesaurus/src/command/mod.rs:370-388` | a text that is empty, a lone sign, or has another byte than a digit after its sign is no number |
| `WireForms.LineEnds` | `crates/thesaurus/src/resp2.rs:53-57` | a line ends with the first newline, or with the stream |
| `WireForms.TrimEndExactly` | `crates/thesaurus/src/resp2.rs:217-222` | all the CRLFs at the end of a line are trimmed and nothing else |
| `WireForms.HeaderErrors` | `crates/thesaurus/src/resp2.rs:53-73` | a header that is no number, or a length below -1, is an invalid integer, and an unknown prefix byte is named in its error |
| `WireForms.LineErrors` | `crates/thesaurus/src/resp2.rs:53-57` | a line that is not UTF-8 reads as the end of the stream, and one whose first character is longer than a byte panics |
| `WireForms.BulkErrors` | `crates/thesaurus/src/resp2.rs:225-257` | the body of a bulk string must be UTF-8, while the two bytes after it may be any |
| `Resp2Streams.RoundTripExactly` | `crates/thesaurus/src/resp2.rs:175-186` | the round trip holds before every continuation if and only if no simple string or error inside the value holds a newline |
| `Resp2Streams.NewlineBreaks` | `crates/thesaurus/src/resp2.rs:217-222` | with a newline inside, a value that still comes back equal leaves a stray CRLF in the stream |
| `Resp2Streams.TornBulkString` | `crates/thesaurus/src/resp2.rs:233-260` | a bulk string cut at any byte fails: as a malformed number at the two edges of its length, as end of stream everywhere else |
| `Resp2Streams.TornCommand` | `crates/thesaurus/src/resp2.rs:279-317` | the same for every strict prefix of every non-empty array of bulk strings, naming the error for each cut |
| `Resp2Streams.DecodedSize` | `crates/thesaurus/src/resp2.rs:291-309` | whatever lengths are claimed, a decoded value has no more nodes than the bytes it took, and what is left is a suffix of the input |
| `Resp2Streams.DecodeWellTyped` | `crates/thesaurus/src/resp2.rs:225-230` | whatever is decoded holds valid UTF-8 and 64-bit integers only |
| `Resp2Reader.Reader.ReadLine` | `crates/thesaurus/src/resp2.rs:53-57` | the line read and the input left are the input cut after its first newline |
| `Resp2Reader.Reader.ReadExact` | `crates/thesaurus/src/resp2.rs:253-255` | exactly the requested bytes, or none if too few are left |
| `Resp2Reader.Reader.DecodeNext` | `crates/thesaurus/src/resp2.rs:53-73` | the reader that consumes its input yields the value, the error or the panic of the decoder's specification and leaves exactly its remaining bytes |
| `Resp2Reader.Reader.ParseBulkString` | `crates/thesaurus/src/resp2.rs:245-257` | the same for a bulk string after its header |
| `Resp2Reader.Reader.ParseArray` | `crates/thesaurus/src/resp2.rs:291-309` | the same for the loop over the items of an array |
| `Resp2Reader.EncodeValue` | `crates/thesaurus/src/resp2.rs:175-186` | the buffer the encoder fills is the wire form that decoding is proved to undo |
| `Resp2Reader.EncodeArray` | `crates/thesaurus/src/resp2.rs:358-377` | the same for the loop that appends the items |
| `Command.ParseSetCommand` | `crates/thesaurus/src/command/string.rs:40-157` | the option loop computes what the option scanner, proved order independent below, specifies |
| `Command.ParsedWellFormed` | `crates/thesaurus/src/command/mod.rs:145-242` | whatever parses has at least one element or member to add, deadlines within u64, the operands of SET's options included, and a relative deadline names the client's key |
| `Command.ParsePExpireAt` | `crates/thesaurus/src/command/mod.rs:370-388` | a PEXPIREAT request with a number in decimal parses to that deadline: the parser undoes the rewriting |
| `Command.StoredFromArguments` | `crates/thesaurus/src/command/string.rs:40-157` | whatever string SET or MSET stores, the client sent it as an argument |
| `Words.Understood` | `crates/thesaurus/src/command/mod.rs:145-242` | every command, SET with any options included, is what its wording as a request is parsed to: word, operands in order, numbers in decimal, digests in hexadecimal |
| `Words.NotUnderstood` | `crates/thesaurus/src/command/mod.rs:145-242` | a known word with a number of arguments it does not take is rejected for just that, an unknown word as unknown |
| `SetOptionOrder.OrderDoesNotMatter` | `crates/thesaurus/src/command/string.rs:40-157` | any two orders of the same well-formed options parse alike, errors included |
| `SetOptionOrder.SetMeaning` | `crates/thesaurus/src/command/string.rs:40-157` | two conditions or two expiries are a syntax error; otherwise SET gets exactly the condition, the expiry and the GET flag written, with operands that look like keywords kept as operands |
| `SetOptionOrder.AcceptedOptionsAreGroups` | `crates/thesaurus/src/command/string.rs:40-157` | conversely every token list SET accepts is a list of well-formed options |
| `Store.Store.Get` | `crates/thesaurus/src/store/mod.rs:41-50` | a value is found exactly when it is stored and not expired |
| `Store.Store.SetValue` | `crates/thesaurus/src/store/mod.rs:97-101` | the whole new state: the value set and the deadline cleared |
| `Store.Store.Delete` | `crates/thesaurus/src/store/mod.rs:104-108` | value and deadline gone, and the answer says whether the value was stored, expired or not |
| `Store.Store.TakeValue` | `crates/thesaurus/src/store/mod.rs:111-120` | the live value and its removal; an expired key is left as it is |
| `Store.Store.Exists` | `crates/thesaurus/src/store/mod.rs:123-130` | exactly the live keys exist |
| `Store.Store.SetDeadline` | `crates/thesaurus/src/store/mod.rs:139-147` | only a stored key gets a deadline, expired or not |
| `Store.Store.Persist` | `crates/thesaurus/src/store/mod.rs:150-153` | the index entry is removed whether or not a key is stored |
| `Store.Store.SampleEvictionIndex` | `crates/thesaurus/src/store/mod.rs:156-166` | some entries of the index with their deadlines, as many as asked for or as there are |
| `Store.Store.DeleteBulk` | `crates/thesaurus/src/store/mod.rs:169-175` | exactly the named keys leave both maps |
| `Store.Store.Keys` | `crates/thesaurus/src/store/mod.rs:180-199` | every live key the pattern accepts, exactly once and no other; a lone star also lists the empty key |
| `Store.Store.SetMany` | `crates/thesaurus/src/store/string.rs:49-55` | the loop does what the specification of MSET says |
| `Store.Store.GetText` | `crates/thesaurus/src/store/string.rs:8-14` | the live string, nothing for a missing key, an error for another type |
| `Store.Store.GetMany` | `crates/thesaurus/src/store/string.rs:34-42` | one answer per key, in order; another type counts as missing |
| `Store.Store.Length` | `crates/thesaurus/src/store/list.rs:130-137` | the length of the live list, 0 for a missing key, an error for another type |
| `Store.Store.ElementAt` | `crates/thesaurus/src/store/list.rs:141-154` | the element the resolved index names, if there is one |
| `Store.Store.Range` | `crates/thesaurus/src/store/list.rs:161-195` | the clamping steps give the slice whose meaning is proved below |
| `Store.Store.Members` | `crates/thesaurus/src/store/set.rs:37-44` | the live members, none for a missing key, an error for another type |
| `Store.Store.PushElement` | `crates/thesaurus/src/store/list.rs:11-36` | one push, its reply and the whole new state, in all cases |
| `Store.Store.PopElements` | `crates/thesaurus/src/store/list.rs:62-92` | the pop loop, its reply and the whole new state; an emptied list goes but its index entry stays |
| `Store.Store.SetElement` | `crates/thesaurus/src/store/list.rs:109-126` | push-then-swap-remove is an update of one element in place |
| `Store.Store.AddMembers` | `crates/thesaurus/src/store/set.rs:14-33` | the whole new state and the number of members that were really new |
| `Store.Store.RemoveMembers` | `crates/thesaurus/src/store/set.rs:197-218` | the whole new state and the number of members that were really there; an emptied set stays |
| `Store.Store.MoveMember` | `crates/thesaurus/src/store/set.rs:115-167` | the step-by-step move is the move whose conservation is proved below |
| `Store.Store.PopMembers` | `crates/thesaurus/src/store/set.rs:172-192` | what the sampler drew leaves the set, and an emptied set leaves both maps |
| `Store.PopLoop` | `crates/thesaurus/src/store/list.rs:78-83` | popping one by one yields the first or last elements in popping order and leaves the rest |
| `Store.SwapRemoveBack` | `crates/thesaurus/src/store/list.rs:118-119` | only the chosen position changes, to the element just pushed |
| `Store.AddLoop` | `crates/thesaurus/src/store/set.rs:28-30` | the loop's counter is the number of distinct new members |
| `Store.RemoveLoop` | `crates/thesaurus/src/store/set.rs:209-217` | the loop's counter is the number of distinct members removed |
| `Executor.Executor.Execute` | `crates/thesaurus/src/executor/mod.rs:40-99` | executing a command against the mutable store gives the reply and the state of the specification on which all run theorems rest |
| `Executor.Executor.SetCommand` | `crates/thesaurus/src/executor/string.rs:23-107` | the same for SET, which writes before it finds a deadline invalid |
| `Executor.Executor.DeleteAll` | `crates/thesaurus/src/executor/mod.rs:108-112` | all keys are removed and the reply counts the distinct ones that were stored |
| `Executor.Executor.CountExisting` | `crates/thesaurus/src/executor/mod.rs:114-117` | the reply counts live keys, repetitions included |
| `Executor.Executor.ListKeys` | `crates/thesaurus/src/executor/mod.rs:210-219` | the reply holds exactly the live keys that match |
| `Executor.Executor.PushElements` | `crates/thesaurus/src/executor/list.rs:14-29` | the push loop, stopping at a wrong type |
| `Executor.Executor.SetRelative` | `crates/thesaurus/src/executor/mod.rs:152-172` | the deadline counted from now, an error if the clock cannot hold it, and the reply |
| `Executor.Executor.SetAbsolute` | `crates/thesaurus/src/executor/mod.rs:174-208` | a past deadline deletes the key, a future one is installed, one the clock cannot hold panics |
| `Executor.Executor.RemainingTime` | `crates/thesaurus/src/executor/mod.rs:268-280` | the physical deadline counted from now, -2 once it has passed, -1 or -2 without one |
| `Requests.ServerObeys` | `crates/thesaurus/src/handler.rs:64-98` | the server answers every command worded as a request with the effect and reply of that command; the rows that follow speak of whatever answers so, in plain contents of the two maps |
| `LogFilter.ServedAnswer` | `crates/thesaurus/src/handler.rs:64-120` | and what it leaves in the store is what a run of the theorems about the log has |
| `StringRequests.GetRequest` | `crates/thesaurus/src/executor/string.rs:13-21` | GET key: the string, nothing for a key that is missing or expired, an error for another type |
| `StringRequests.StrLenRequest` | `crates/thesaurus/src/executor/string.rs:135-141` | STRLEN key: its number of bytes, or 0 |
| `StringRequests.GetDelRequest` | `crates/thesaurus/src/executor/string.rs:109-116` | GETDEL key: the reply of GET; the key goes, of another type too, but an expired one stays where it is |
| `StringRequests.SetRequest` | `crates/thesaurus/src/executor/string.rs:23-107` | SET key value: stored without a deadline, over a string or an expired key of any type, refused on another type |
| `StringRequests.SetGetRequest` | `crates/thesaurus/src/executor/string.rs:98-107` | SET ... GET: replies with what was there |
| `StringRequests.SetDelayRequest` | `crates/thesaurus/src/executor/string.rs:48-80` | SET ... EX n or PX n: the deadline is n seconds or milliseconds from now; out of range it is an error after the string is stored |
| `StringRequests.SetTimeRequest` | `crates/thesaurus/src/executor/string.rs:82-96` | SET ... EXAT n or PXAT n: the deadline is in that second or millisecond at the clock's offset, or now if it is past |
| `StringRequests.KeepTtlRequest` | `crates/thesaurus/src/executor/string.rs:23-107` | SET ... KEEPTTL: the index is left as it is |
| `StringRequests.SetPresenceRequest` | `crates/thesaurus/src/executor/string.rs:37-46` | SET ... NX writes if and only if the key is missing, SET ... XX if and only if it is there; else nothing changes and nothing is replied |
| `StringRequests.CompareAndSet` | `crates/thesaurus/src/executor/string.rs:37-46` | SET ... IFEQ t writes if and only if t is there, SET ... IFNE t if and only if another string is |
| `StringRequests.CompareDigestAndSet` | `crates/thesaurus/src/executor/string.rs:37-46` | the same for IFDEQ and IFDNE, by the digest |
| `StringRequests.OnlyOneSwaps` | `crates/thesaurus/src/executor/string.rs:37-46` | of two clients that expect the same string and set another, only the first is served |
| `StringRequests.DigestRequest` | `crates/thesaurus/src/executor/string.rs:143-149` | DIGEST key: sixteen hexadecimal digits of the digest |
| `StringRequests.DigestThenSet` | `crates/thesaurus/src/executor/string.rs:143-149` | what DIGEST prints satisfies IFDEQ while the string is there |
| `StringRequests.MSetRequest` | `crates/thesaurus/src/executor/string.rs:129-133` | MSET: each key gets its last string and no deadline, and no other key is touched |
| `StringRequests.MGetRequest` | `crates/thesaurus/src/executor/string.rs:118-127` | MGET: one answer for each key, in order |
| `ListRequests.PushRequest` | `crates/thesaurus/src/executor/list.rs:14-50` | LPUSH, RPUSH, LPUSHX, RPUSHX: the elements at the left, last first, or at the right, in order; the new length; a new list only without the X |
| `ListRequests.PopRequest` | `crates/thesaurus/src/executor/list.rs:55-85` | LPOP key n takes the first n elements, RPOP key n the last n, last first; an emptied list goes and its index entry stays |
| `ListRequests.PopOneRequest` | `crates/thesaurus/src/executor/list.rs:55-85` | without a number the one element itself is the reply |
| `ListRequests.LLenRequest` | `crates/thesaurus/src/executor/list.rs:96-104` | LLEN key: the length, or 0 |
| `ListRequests.LIndexRequest` | `crates/thesaurus/src/executor/list.rs:106-114` | LINDEX key i: the element at i, from the end if i is negative, or nothing |
| `ListRequests.LSetRequest` | `crates/thesaurus/src/executor/list.rs:87-94` | LSET key i x: that element becomes x, and where there is none it is refused |
| `ListRequests.LRangeRequest` | `crates/thesaurus/src/executor/list.rs:116-126` | LRANGE key i j: exactly the elements from position i to position j, in order |
| `SetRequests.SAddRequest` | `crates/thesaurus/src/store/set.rs:14-33` | SADD: the members join the set, or found it, and the reply is how many were new |
| `SetRequests.SRemRequest` | `crates/thesaurus/src/store/set.rs:197-218` | SREM: the members leave the set, which stays, and the reply is how many were there |
| `SetRequests.SMembersRequest` | `crates/thesaurus/src/store/set.rs:37-44` | SMEMBERS: the members |
| `SetRequests.SCardRequest` | `crates/thesaurus/src/executor/mod.rs:40-99` | SCARD: their number |
| `SetRequests.SRandMemberRequest` | `crates/thesaurus/src/executor/mod.rs:40-99` | SRANDMEMBER samples the members and changes nothing |
| `SetRequests.SIsMemberRequest` | `crates/thesaurus/src/executor/mod.rs:40-99` | SISMEMBER: 1 for a member, 0 otherwise |
| `SetRequests.SMIsMemberRequest` | `crates/thesaurus/src/executor/mod.rs:40-99` | SMISMEMBER: the same for each in turn |
| `SetRequests.SMoveRequest` | `crates/thesaurus/src/store/set.rs:115-167` | SMOVE to another key: the two new sets and what becomes of deadlines |
| `SetRequests.SMoveOntoRequest` | `crates/thesaurus/src/store/set.rs:115-167` | SMOVE to the same key: only the deadline of a lone member's set goes |
| `SetRequests.SMoveNothingRequest` | `crates/thesaurus/src/store/set.rs:115-167` | SMOVE of what is not there changes nothing |
| `SetRequests.SPopRequest` | `crates/thesaurus/src/store/set.rs:172-192` | SPOP key n: what is drawn leaves the set and is the reply, and an emptied set goes with its deadline |
| `SetRequests.SPopOneRequest` | `crates/thesaurus/src/store/set.rs:172-192` | the same for one member without a number |
| `ExpiryRequests.ExpireRequest` | `crates/thesaurus/src/executor/mod.rs:152-172` | EXPIRE key n and PEXPIRE key n: the deadline of a stored key is n seconds or milliseconds from now, in nanoseconds; no other key gets one; out of range it is refused |
| `ExpiryRequests.ExpireAtRequest` | `crates/thesaurus/src/executor/mod.rs:174-208` | EXPIREAT key n and PEXPIREAT key n: a past one deletes the key and replies 0, a future one is the deadline in that second or millisecond at the clock's offset |
| `ExpiryRequests.TimeRequest` | `crates/thesaurus/src/executor/mod.rs:268-280` | TTL, PTTL, EXPIRETIME, PEXPIRETIME: whole units left or the Unix time they lead to, -2 once past, -1 for a key without a deadline and -2 without a key |
| `ExpiryRequests.PersistRequest` | `crates/thesaurus/src/executor/mod.rs:147-150` | PERSIST: the deadline goes, and the reply says whether there was one |
| `KeyRequests.DelRequest` | `crates/thesaurus/src/executor/mod.rs:108-112` | DEL: the keys go with their deadlines, and the reply is how many were stored |
| `KeyRequests.ExistsRequest` | `crates/thesaurus/src/executor/mod.rs:114-117` | EXISTS: at how many places a key is named that is there |
| `KeyRequests.KeysRequest` | `crates/thesaurus/src/executor/mod.rs:210-219` | KEYS: the keys that are there and match |
| `KeyRequests.DbSizeRequest` | `crates/thesaurus/src/executor/mod.rs:229-231` | DBSIZE: how many keys are stored, expired or not |
| `KeyRequests.FlushRequest` | `crates/thesaurus/src/executor/mod.rs:233-248` | FLUSHDB in all its forms leaves an empty store |
| `KeyRequests.PingRequest` | `crates/thesaurus/src/executor/mod.rs:40-99` | PING: its message, or PONG |
| `KeyRequests.SelectRequest` | `crates/thesaurus/src/executor/mod.rs:221-227` | SELECT: 0 and no other number |
| `RequestLaws.ExpireThenGet` | `crates/thesaurus/src/executor/mod.rs:152-172` | after EXPIRE or PEXPIRE a string is found if and only if its time is not over |
| `RequestLaws.SetDelayThenGet` | `crates/thesaurus/src/executor/string.rs:48-80` | the same after SET with EX or PX |
| `RequestLaws.PersistThenGet` | `crates/thesaurus/src/executor/mod.rs:147-150` | and after PERSIST at any time |
| `RequestLaws.QueueAndStack` | `crates/thesaurus/src/executor/list.rs:14-85` | a list pushed at one end and popped at the other is a queue, pushed and popped at one end a stack |
| `RequestLaws.PushThenRange` | `crates/thesaurus/src/executor/list.rs:14-126` | LRANGE 0 -1 shows what was pushed, in its place |
| `RequestLaws.SAddThenSMembers` | `crates/thesaurus/src/store/set.rs:14-44` | SMEMBERS shows what SADD added, SCARD counts it, and SREM of it leaves nothing |
| `RequestLaws.DelThenExists` | `crates/thesaurus/src/executor/mod.rs:108-117` | after DEL none of the keys exists |
| `OtherKeys.LeavesOthers` | `crates/thesaurus/src/executor/mod.rs:40-99` | no request but FLUSHDB changes the value or the deadline of a key it does not mention |
| `Lists.PushAllResult` | `crates/thesaurus/src/executor/list.rs:14-29` | a push of several elements, whole: their order in the list, the length replied, nothing changed on a wrong type, no key created by the X forms |
| `Lists.PopRecomposes` | `crates/thesaurus/src/store/list.rs:62-92` | what is popped and what is left make up the old list |
| `Lists.PopTwice` | `crates/thesaurus/src/store/list.rs:62-106` | popping m and then n is popping m + n, in state and in elements |
| `Lists.PushThenPop` | `crates/thesaurus/src/store/list.rs:11-106` | pushing elements and popping as many at the same end returns them reversed and restores the store, or a store without the key if it was not live |
| `Lists.StepNoEmptyList` | `crates/thesaurus/src/store/list.rs:85-89` | no command a client can send stores an empty list |
| `Lists.SliceMeaning` | `crates/thesaurus/src/store/list.rs:161-196` | LRANGE returns exactly the elements whose position lies between the resolved bounds, in order |
| `Lists.RangeSumsFit` | `crates/thesaurus/src/store/list.rs:161-196` | the sums LRANGE forms stay within i64 |
| `Lists.IndexAgreesWithRange` | `crates/thesaurus/src/store/list.rs:141-196` | LINDEX i finds x exactly when LRANGE i i finds just x; both find nothing, or both fail, together |
| `Lists.SetThenIndex` | `crates/thesaurus/src/store/list.rs:109-157` | LSET succeeds exactly where LINDEX finds an element, changes that element and no other, and otherwise changes nothing |
| `Sets.SMoveSucceeds` | `crates/thesaurus/src/store/set.rs:115-167` | a move happens exactly when the member is there and the destination is missing or a set; otherwise nothing changes |
| `Sets.SMoveBetween` | `crates/thesaurus/src/store/set.rs:139-167` | between two keys the member leaves the one set and joins the other, and the source disappears exactly when emptied |
| `Sets.SMoveOnto` | `crates/thesaurus/src/store/set.rs:139-167` | onto itself the set is kept, and exactly a lone member's set loses its deadline |
| `Sets.SMoveConserves` | `crates/thesaurus/src/store/set.rs:115-167` | the union of the two sets is conserved and no other key is touched |
| `Sets.SPopConserves` | `crates/thesaurus/src/store/set.rs:172-192` | what is popped and what is left are disjoint and make up the old set, in the right number, and the key goes exactly when emptied |
| `Sets.SAddCounts` | `crates/thesaurus/src/store/set.rs:14-33` | the reply is the growth of the set, whatever is repeated |
| `Sets.SRemCounts` | `crates/thesaurus/src/store/set.rs:197-218` | the reply is the shrinkage of the set, which stays stored |
| `Strings.MSetLastWins` | `crates/thesaurus/src/store/string.rs:49-55` | a key named more than once gets its last value, and no deadline |
| `Strings.MSetLeavesOthers` | `crates/thesaurus/src/store/string.rs:49-55` | a key not named keeps value and deadline |
| `Strings.SetEffect` | `crates/thesaurus/src/executor/string.rs:23-107` | a SET that does not write changes nothing; one that writes leaves the value with exactly the deadline its options give, and every other key alone |
| `Strings.SetGetReply` | `crates/thesaurus/src/executor/string.rs:98-100` | with GET, SET replies what GET would have, condition met or not, unless it writes and its deadline is invalid or overflows |
| `Strings.ConditionMeaning` | `crates/thesaurus/src/executor/string.rs:37-46` | what each condition of SET asks of the key, on any other options: NX that it is missing, XX that it is there, IFEQ that this string is there, IFNE another, IFDEQ and IFDNE one with this digest or another |
| `Strings.OnlySentStrings` | `crates/thesaurus/src/executor/mod.rs:40-99` | no command stores a string that was not stored before or sent with it |
| `Deadlines.InstantOf` | `crates/thesaurus/src/executor/mod.rs:250-264` | a future Unix time becomes that unit on the clock, at the offset the clock has within its unit now |
| `Deadlines.DeadlineWindow` | `crates/thesaurus/src/executor/mod.rs:174-208` | EXPIREAT and PEXPIREAT D install a deadline from D up to but not including D + 1 units |
| `Deadlines.SplitDeadline` | `crates/thesaurus/src/executor/mod.rs:127-145` | rounding down the clock and the time left separately loses one unit exactly when the clock's offset exceeds the deadline's |
| `Deadlines.ReadBack` | `crates/thesaurus/src/executor/mod.rs:127-145` | reading a deadline D back before it is reached yields D, or D - 1 exactly when the offset of the clock within its unit has grown, never more; beyond i64 the cast wraps |
| `Eviction.StepSameLive` | `crates/thesaurus/src/store/mod.rs:38-66` | two stores with the same live view give the same reply to every live-view command and keep the same live view |
| `Eviction.RemoveInvisible` | `crates/thesaurus/src/store/mod.rs:169-175` | deleting keys keeps the live view if and only if none of them is live |
| `Eviction.RemoveUndetected` | `crates/thesaurus/src/store/mod.rs:169-175` | no live-view command can tell that keys were deleted if and only if none of them was live |
| `Eviction.EvictionInvisible` | `crates/thesaurus/src/ttl.rs:35-51` | wherever the two phases of eviction fall in a run of live-view commands, no reply changes, provided no key is live when it is deleted |
| `Eviction.StillSampledIsDead` | `crates/thesaurus/src/ttl.rs:35-51` | that holds if each deleted key still has the deadline it was sampled with |
| `Eviction.UndetectedExactly` | `crates/thesaurus/src/ttl.rs:35-51` | throughout a run no live-view command can tell that there was eviction if and only if it never deletes a live key |
| `Eviction.EvictionRace` | `crates/thesaurus/src/ttl.rs:35-51` | without the proviso a SET between the two phases succeeds and is lost |
| `Eviction.TtlEvictionDaemon.EvictExpired` | `crates/thesaurus/src/ttl.rs:35-51` | for some 20 entries of the index, or all there are, exactly those whose deadline has been reached go, with their data; the live view stays; with at most 20 entries every expired key goes, and the size of the store is then the number of live keys |
| `Eviction.TtlEvictionDaemon.EvictPeriodically` | `crates/thesaurus/src/ttl.rs:17-33` | the loop of ticks: of n entries whose deadlines had all been reached, n - 20 t are left after t ticks, or none |
| `Ticks.TickProgress` | `crates/thesaurus/src/ttl.rs:35-51` | a tick removes at least as many entries as it samples, less those still to come, and none of these |
| `Ticks.TicksProgress` | `crates/thesaurus/src/ttl.rs:17-33` | every sequence of ticks over entries that have all been reached takes 20 at a time |
| `Ticks.EmptyAfter` | `crates/thesaurus/src/ttl.rs:17-33` | and it has emptied an index of n such entries if and only if it has at least n / 20 ticks, rounded up |
| `Eviction.PickExpired` | `crates/thesaurus/src/ttl.rs:38-43` | exactly the sampled keys whose deadline has been reached are picked |
| `Eviction.DbSizeBound` | `crates/thesaurus/src/store/mod.rs:203-206` | DBSIZE is at least the number of live keys, and equal exactly when no stored key has expired |
| `Recovery.LostWrites` | `crates/thesaurus/src/handler.rs:100-104` | exactly which commands change what is stored and are not logged: LSET to another element, GETDEL of a non-string, a past EXPIREAT or PEXPIREAT of a stored key, a SET whose deadline is invalid |
| `Recovery.LoggedDeadlineExact` | `crates/thesaurus/src/resp2.rs:189-214` | the rewritten deadline is the intended one if and only if that fits in u64 |
| `LogFilter.TurnLogged` | `crates/thesaurus/src/handler.rs:100-120` | what one turn appends: nothing for a read, LSET, an error, the reply 0, a panic, a request that is not understood or an eviction; for every other exactly one value, the client's own or the PEXPIREAT form of EXPIRE and PEXPIRE, whose product saturates and whose sum wraps |
| `LogFilter.RunLogged` | `crates/thesaurus/src/handler.rs:100-120` | the log of a run is what its turns append, in their order, and nothing else |
| `LogFilter.QuietRun` | `crates/thesaurus/src/handler.rs:100-104` | a run that appends nothing at any turn leaves the log as it was |
| `LogFilter.TurnServed` | `crates/thesaurus/src/handler.rs:64-98` | a turn changes the store as its command does; the session ends where a command panics or the request is an empty array, and only there |
| `RecoverySteps.UnixRecovered` | `crates/thesaurus/src/executor/mod.rs:250-264` | a Unix deadline not reached by then lands in the same unit whenever it is installed |
| `RecoverySteps.RelativeRecovered` | `crates/thesaurus/src/resp2.rs:189-214` | the deadline EXPIRE or PEXPIRE installs and the one its log entry installs later fall in the same unit |
| `RecoverySteps.LoggedStep` | `crates/thesaurus/src/handler.rs:69-120` | the entry of a logged command never makes a replay panic, and rebuilds the command's effect if and only if: the draws of SPOP leave the same members; a SET that writes gets its deadline in the same unit (EX and PX), from readings equally far into their second (EXAT, by the millisecond), or from index entries that agree (KEEPTTL); a rewritten EXPIRE or PEXPIRE fits in u64; EXPIREAT has the same offset, by the millisecond; and always for every other command |
| `RecoverySteps.UnloggedStep` | `crates/thesaurus/src/handler.rs:100-104` | leaving out a command that is not logged keeps the replay right if and only if the command is none of those LostWrites names |
| `RecoverySteps.DeletionStep` | `crates/thesaurus/src/ttl.rs:45-50` | an eviction, which is not logged, keeps the replay right if and only if none of the deleted keys is stored |
| `RecoverySteps.ReplayableReplays` | `crates/thesaurus/src/handler.rs:69-120` | a condition on the run alone that is enough whatever the replay's clock, sampler and stale entries: SPOP has nothing to choose, a SET that writes has no deadline, an absolute one or that of a stored key, and deadlines fit |
| `Aof.EntryArguments` | `crates/thesaurus/src/handler.rs:106-115` | whatever is appended is one whole well-formed request and parses to the command it stands for |
| `Journal.EntryReplays` | `crates/thesaurus/src/aof.rs:164-189` | replaying a whole entry followed by anything executes it and goes on with what follows |
| `Journal.TornEntry` | `crates/thesaurus/src/aof.rs:164-176` | a torn entry does not decode, and the error is one that fails the start exactly when the cut is at an edge of a length |
| `LogReplay.CommandReplayed` | `crates/thesaurus/src/aof.rs:164-189` | a restart executes each command in the log with the clock it then reads, and goes on unless the command panics |
| `LogReplay.OtherReplayed` | `crates/thesaurus/src/aof.rs:178-184` | a value that is no command is skipped, except an empty array, which panics |
| `LogReplay.ReplayEndings` | `crates/thesaurus/src/aof.rs:166-176` | a log that ends or breaks off is synced, any other decoding error keeps the server from starting |
| `Aof.StepExact` | `crates/thesaurus/src/handler.rs:50-123` | one turn, a request or an eviction, keeps the store and what the log rebuilds in step if and only if the log keeps up with it, as LoggedStep, UnloggedStep and DeletionStep say |
| `Journal.RunRecovers` | `crates/thesaurus/src/handler.rs:46-127` | so does a whole run of such requests, from any session whose log already rebuilds its store |
| `Aof.ReplayEqualsRun` | `crates/thesaurus/src/aof.rs:164-189` | replay equals the run: from an empty store the log of such a run rebuilds the same data and, to the unit, the same deadline of every stored key, and the server starts |
| `Aof.FaithfulExactly` | `crates/thesaurus/src/aof.rs:164-189` | and only then: the log rebuilds the store after every prefix of a run without late requests or reached deadlines, evictions included, if and only if the log keeps up with every turn |
| `TornLog.PlainRunKeeps` | `crates/thesaurus/src/aof.rs:164-189` | a run that meets the condition of ReplayableReplays is rebuilt by every replay |
| `Journal.CrashRecovers` | `crates/thesaurus/src/aof.rs:164-189` | a log cut at any byte rebuilds what its whole entries rebuild, and the server starts if and only if the cut is not at an edge of a length in the next entry |
| `Aof.CrashConsistency` | `crates/thesaurus/src/aof.rs:164-189` | so the store found is that after the longest prefix of the run whose entries are wholly inside the cut |
| `Aof.RestartKeeps` | `crates/thesaurus/src/aof.rs:45-63` | a second life: after a restart from the log and further requests appended to it, the one log still rebuilds everything |
| `TornLog.AppendingIsSafe` | `crates/thesaurus/src/aof.rs:45-63` | a server that comes up from a log cut at any byte can go on appending to it, whatever plain requests come, if and only if the cut is between two entries |
| `TornLog.ForgetsAppended` | `crates/thesaurus/src/aof.rs:69-81` | after any other cut from which the server starts there is one MSET whose value the server then holds and no later restart finds, whatever its clock |
| `TornTail.TornCommandThen` | `crates/thesaurus/src/resp2.rs:279-317` | a torn command with another entry after it fails to decode, or decodes to an array without that entry's value after which nothing can be read |
| `LateRuns.LateFaithfulExactly` | `crates/thesaurus/src/aof.rs:164-189` | replay at one time T, however many deadlines have passed by then, for every run that ends before T: after every prefix of the run, evictions included, the log rebuilds exactly what clients can see at T if and only if the log keeps up with every turn, as LoggedLate, UnloggedLate and DeletionLate say |
| `LateRuns.LateReplayEqualsRun` | `crates/thesaurus/src/aof.rs:164-189` | then the whole log is read, the server starts, and every value and, to the unit, every deadline a client can see at T is there |
| `LateRuns.LateCrash` | `crates/thesaurus/src/aof.rs:164-189` | and the log cut at any byte rebuilds what clients can see at T of the longest prefix of the run whose entries are wholly inside |
| `LateSteps.LoggedLate` | `crates/thesaurus/src/handler.rs:69-120` | the entry of a logged command, replayed at T, rebuilds the view at T if and only if: LPUSH, RPUSH or SADD found no key that expires by T; SMOVE meets the condition of SMoveLate and SET that of SetLate; SPOP found a key that expires by T or draws so that the same members are left; PERSIST finds the same value physically stored in the replay; an EXPIRE or EXPIREAT form whose deadline is after T finds that too, and the deadline it logs fits, is still to come by the count of units at T, and is not moved to another unit by the clock's offset; and always for every other command |
| `LateSteps.SMoveLate` | `crates/thesaurus/src/store/set.rs:115-167` | a move is rebuilt if and only if neither set expires between the move and T; or the source does, and so does the destination, or it held the member already; or the expiring source is the destination and has other members |
| `LateSteps.SetLate` | `crates/thesaurus/src/executor/string.rs:23-107` | a SET that writes in the run and in the replay is rebuilt if and only if: a delay (EX, PX) is zero or, counted again from T, ends after T in the same unit as in the run; a Unix deadline (EXAT, PXAT) after T is still to come by the count of units at T and is not moved to another unit by the clock's offset; with KEEPTTL the deadlines kept are both reached by T or in one unit. Where only one of the two writes, because the key has expired in between, it is rebuilt if and only if that one leaves a deadline reached by T |
| `LateSteps.UnloggedLate` | `crates/thesaurus/src/handler.rs:100-104` | leaving out a command that is not logged keeps the view at T if and only if it loses nothing, or only at a key that is not seen at T anyway |
| `LateSteps.DeletionLate` | `crates/thesaurus/src/ttl.rs:45-50` | an eviction keeps the view at T if and only if it deletes no key that would still be seen at T |
| `LateRuns.SampledAreNotMissed` | `crates/thesaurus/src/ttl.rs:35-51` | which holds for keys sampled as expired that still have the deadline they were sampled with |
| `LapsedRuns.LateReplay` | `crates/thesaurus/src/aof.rs:164-189` | a condition on the run alone, for a replay that takes time: the whole log is read, and it rebuilds what clients can see at the end of the replay at every key whose deadline does not fall in the unit of that moment, if a key whose deadline is reached by then is not created anew by a push or SADD, moved, extended, persisted or tested by a condition before it expires, nor otherwise changed in the very unit of its deadline, and SPOP has nothing to choose |
| `Lapsed.LoggedFollows` | `crates/thesaurus/src/handler.rs:69-120` | one logged command and its late replay: the keys without reached deadlines stay the same, and the others stay the same or dead |
| `Lapsed.FollowsIsView` | `crates/thesaurus/src/store/mod.rs:41-50` | for a replay at one time the relation between the stores follows from clients seeing the same at a key, and is the same as that unless the key's deadline falls in the unit of that time |
| `Aof.RunNoEmptyList` | `crates/thesaurus/src/store/list.rs:85-89` | no run of any requests, malformed ones included, and evictions stores an empty list |
| `Handler.Handler.RunHandler` | `crates/thesaurus/src/handler.rs:46-127` | serving a stream leaves the store and the log of the run of the requests it holds, up to its end or its first malformed one |
| `Handler.Handler.Serve` | `crates/thesaurus/src/handler.rs:64-120` | one turn of the loop is one step of that run |
| `Handler.AofWriter.Append` | `crates/thesaurus/src/aof.rs:69-81` | the bytes are added at the end of the log |
| `Handler.ApplyEntry` | `crates/thesaurus/src/aof.rs:178-188` | one entry: skipped if it does not parse, executed if it does |
| `Handler.SyncStoreWithAof` | `crates/thesaurus/src/aof.rs:145-192` | the replay loop leaves the store, and ends in the way, the restart of the theorems above has |
| `Journal.ServingIsRun` | `crates/thesaurus/src/handler.rs:50-123` | serving while decoding is decoding everything first and then running it |
| `Journal.RequestsWellTyped` | `crates/thesaurus/src/handler.rs:51-62` | every request off the wire is well typed, as the replay theorems ask |
| `ReplayLimits.ReplayableExactly` | `crates/thesaurus/src/handler.rs:69-120` | the condition of ReplayableReplays is exact: a logged command that does not meet it has a clock reading, a sampler or a stale entry of the replay with which its entry rebuilds something else (readings may reach one unit) |
| `ReplayLimits.ListOutlivesDeadline` | `crates/thesaurus/src/aof.rs:187-188` | a deadline reached before the replay: a list pushed to after EXPIRE comes back without its first elements and without a deadline, though it had expired |
| `ReplayLimits.KeepTtlFindsStaleEntry` | `crates/thesaurus/src/store/list.rs:85-89` | the index entry left by a pop makes SET KEEPTTL set a deadline in the replay that it did not set in the run |
| `ReplayLimits.HugeExpireLogsThePast` | `crates/thesaurus/src/resp2.rs:189-200` | an EXPIRE that succeeds with a very large delay is logged as a deadline just past, and its replay deletes the key |
| `ReplayLimits.EvictedComesBack` | `crates/thesaurus/src/ttl.rs:45-50` | a SET PX expires and the daemon samples its key; the key is set anew before the daemon deletes it: the store is empty after the deletion, and the next restart finds the second value, since no eviction is in the log |
| `ReplayLimits.SetExDrifts` | `crates/thesaurus/src/handler.rs:106-115` | SET EX is logged as it came: two clock readings a millisecond apart give the run and the replay different deadlines |
| `ReplayLimits.SetPxDrifts` | `crates/thesaurus/src/handler.rs:106-115` | the same for SET PX |
| `ReplayLimits.SetExAtShifts` | `crates/thesaurus/src/executor/string.rs:82-85` | the same for SET EXAT, which takes over the milliseconds of the clock |
| `ReplayLimits.ExpireAtShifts` | `crates/thesaurus/src/executor/mod.rs:250-256` | the same for EXPIREAT |
| `ReplayLimits.SPopAnySampler` | `crates/thesaurus/src/store/set.rs:180-184` | SPOP replays to the same set for every sampler if and only if it draws nothing, or at least as many members as there are |
| `ReplayLimits.SPopOfTwo` | `crates/thesaurus/src/store/set.rs:180-184` | SPOP of one of two members: for every draw of the run some draw of the replay leaves another set |
| `ReplayLimits.SamplerExists` | `crates/thesaurus/src/store/set.rs:181-181` | there are samplers of the kind the theorems about SPOP quantify over |
| `ReplayLimits.FirstByteRefused` | `crates/thesaurus/src/aof.rs:172-175` | a log holding one byte of its first entry keeps the server from starting |
| `ReplayLimits.TornSetIsTorn` | `crates/thesaurus/src/aof.rs:69-81` | the torn SET used below is what a crash can leave of a SET with a five-byte value |
| `ReplayLimits.TornTailSwallowsNext` | `crates/thesaurus/src/aof.rs:55-55` | the log is reopened for appending without being cut back, so the head of the next entry is decoded as the missing part of the torn one: a SET no client sent |
| `ReplayLimits.TornTailCorrupts` | `crates/thesaurus/src/aof.rs:164-189` | a whole history: the server starts from the torn SET with an empty store, serves a GETDEL that finds nothing and is logged, and the next restart finds a key with a value no client sent |

## Left out

- TCP listener, connection limit, shutdown, signals, fsync policy: runtime plumbing without a state to reason about.
- Configuration, command line, logging: no hard property.
- Error texts are shortened, and `InvalidInteger` does not carry the text it rejected.
- XXH3 is a function parameter; the distribution of random samples is not modelled, only their size and that they are subsets.
- Allocation and stack limits: a claimed bulk length allocates its buffer at once (`resp2.rs:253`), a pop count its vector, and nested arrays recurse; the model has unbounded memory.
- Interleaving of several handlers within one command, or between executing and appending: SET takes several locks, and two handlers may append in another order than they executed. The run theorems are about atomic steps.
- Writing replies to the socket, and the order of KEYS and set replies.
- The sample SRANDMEMBER returns: the reply names the set and the count it is drawn from.
- Two clocks that drift apart: `Instant` and `SystemTime` are one.
- I/O errors while appending or reading the log, and a server with the log switched off.
- LapsedRuns.LateReplay: is a condition on the run alone and sufficient, and says nothing of a key whose deadline falls in the unit of the end of the replay; the exact condition, LateFaithfulExactly, also speaks of the replay, because whether PERSIST, EXPIRE, KEEPTTL and SPOP are rebuilt depends on what the replay still holds and draws.
- TornLog.AppendingIsSafe: is about logs shorter than 2^63 - 1 bytes, the largest offset a file has, and about requests that meet the condition of ReplayableReplays.
- Eviction.EvictionInvisible: excludes DEL, the TTL family, PERSIST, the EXPIRE family, SET KEEPTTL and DBSIZE, which look at physical entries.
- Strings.SetGetReply: excludes a SET that writes with an invalid or overflowing deadline, whose error or panic replaces the reply.
