# Models of Maju's protocol and parsing cores

Dafny 4.11 models, with proofs, of the parts of Maju whose behaviour is easiest to get wrong:

- `AcpTurn`, `AcpTurnLaws`, `AcpSession`, `AcpSessionLaws`, `AcpWireLaws`, `AcpClient` — the JSON-RPC client
  that talks to an agent process. The surroundings of the read loop are a trace of wake-ups: clock
  readings, what the agent's stdout has ready, the steer at the head of the channel, and whether a
  write made then succeeds. `AcpClient` is the class with the client's fields; each of its methods is
  proved to do what a function on values says, and the laws are proved of those functions over every
  trace and every sequence of calls. `AcpWireLaws` tells what is written to the agent and what a call
  returns from frames and fields alone.
- `CodexConfig` — the recursive JSON merge and the configuration built with it.
- `Decimals`, `Texts`, `Conditions`, `Base64`, `Utf8`, `Envelopes`, `GitSignatures`, `GitSignatureLaws` — git
  signatures:
  the conditions grammar, base64 (section 4 of RFC 4648), the canonical envelope, the armor, the signing
  preimage, and signing followed by verification. Signatures, hash, key formats and the JSON parser are
  the fields of a `World`; what they are trusted for is the predicate `Ideal`, which some world meets.
  `GitSignatureLaws` writes out the bytes that are signed and the text of a file, and says which files
  and which inputs the two programs accept.
- `RustScanner`, `RustSourceLaws`, `ModuleRanges` — the scanner that blanks comments and literals of Rust
  source, the grammar of pieces it is proved to follow, the literal parser beside it, and the module ranges found by brace matching.
- `EventFilter`, `ChannelFilters`, `UuidSpellings` — matching of events against subscription rules with timeout
  counters, and the relay filters merged from the same rules. Evaluation of a filter expression is an
  answer carried by each call; reading and printing UUIDs is a pair of functions, trusted only to read
  back what it prints, and `UuidSpellings` gives the standard pair.
- `PoolLifecycle` — the lazy pool's wake protocol and its back-off.
- `FlowControl` — reader-set lattice and flow state.
- `Resp`, `RespLaws` — the Redis protocol as the benchmark client writes and reads it.
- `LineFramer` — line framing over a chunked reader.

Text is kept as its UTF-8 bytes, one `char` each, except in the scanner, where a `char` is a code point.

Where the source and its comments disagree the model follows the code:

- `acp.rs:1350-1362` says a pending steer is drained on every return path. The two `?` exits at 1731 and
  1745 return without doing so. The first is taken by a permission request without an id, without a list
  of options, with no option to choose, or with a grant that has no id, as well as by a reply that is not
  written; the second by a "method not found" reply that is not written. `DispatchFailsExactly` states
  this, `EverySteerAckedOnce` has exactly those frames as its exceptions, and `SteerDropped` is such a run.
- The header of `git-sign-nostr/src/lib.rs` lists a status `kind_not_applicable`; verification never
  emits it, so `OaStatus` does not have it.
- `filter.rs:67-72` compares UUID spellings and `config.rs:1506-1515` parses them.
  `ScopesAgreeExactlyWhenCanonical` says when they agree, and `CapitalsNeverMatch` is a list on which
  they do not.
- An empty list of kinds means every kind to the rules built at `lib.rs:2716-2745` and no kind to the
  relay filter; `SoundExactlyUnlessKindsEmpty` has this as its one exception. Only code that builds a
  `Config` by hand can meet it: the option at `config.rs:349-350` is cut at commas and every piece has to
  be a number, so `SoundFromCommandLine` needs no exception.
- The comment at `pool_lifecycle.rs:95-98` says a result of an older attempt is rejected. One is accepted
  exactly if a wake is out that has the same number in its own epoch, an epoch lasting until a pool is taken and
  numbers from the largest u32 on counting as one: `OlderResultAcceptedExactly`. Within one epoch and
  below that number it is rejected, `StaleRejected`; both exceptions are met, `TokensStartOver` and
  `SaturatedTokenAccepted`.

## Model

| member | source | states |
|---|---|---|
| AcpClient.AcpClient.HandlePermissionRequest | crates/maju-acp/src/acp.rs:1956-2031 | the first `allow_once` option is selected, else `reject_once`; the request stays pending on every error |
| AcpClient.AcpClient.HandleSessionUpdate | crates/maju-acp/src/acp.rs:1770-1876 | `activeRunId` is set by a string and cleared by null; only a tool call reports activity |
| AcpClient.AcpClient.WakeUp | crates/maju-acp/src/acp.rs:1371-1754 | one wake-up: deadline check first, then reader, steer and timer in that order, on fields and locals; `SteerWritten` says what a steer writes |
| AcpClient.AcpClient.ReadUntilResponseWithIdleTimeout | crates/maju-acp/src/acp.rs:1337-1754 | the loop over a whole trace is the run of wake-ups; it consumes the steer receiver |
| AcpClient.AcpClient.SessionPrompt | crates/maju-acp/src/acp.rs:799-861 | a timeout keeps prompt id and deadline for the cancel; every other return clears both, as `PromptLeaves` spells out |
| AcpClient.AcpClient.SessionCancel | crates/maju-acp/src/acp.rs:871-876 | the bare cancel notice, or the error of writing it |
| AcpClient.AcpClient.CancelWithCleanupUntil | crates/maju-acp/src/acp.rs:1036-1084 | a pending permission is answered `cancelled` before the notice is sent and the turn drained |
| AcpClient.AcpClient.CancelWithCleanup | crates/maju-acp/src/acp.rs:976-1005 | drains to the later of the stored deadline and thirty seconds from now |
| AcpClient.AcpClient.CancelWithCleanupGrace | crates/maju-acp/src/acp.rs:1020-1034 | a hard timeout of the drain is reported as a drain timeout |
| AcpClient.AcpClient.ReadUntilResponse | crates/maju-acp/src/acp.rs:1213-1304 | the loop of plain requests answers the agent's requests while it waits |
| AcpClient.AcpClient.SendRequest | crates/maju-acp/src/acp.rs:1118-1148 | a request takes the next id even if its write fails |
| AcpClient.AcpClient.InitializeAgent | crates/maju-acp/src/acp.rs:615-627 | steering counts as supported only on a literal `true` |
| AcpTurnLaws.EverySteerAckedOnce | crates/maju-acp/src/acp.rs:1337-1754 | over any run each steer taken is acknowledged once and in order, but for the one in flight; a returned loop leaves it unacknowledged exactly if a poll handed it a failing frame that answered neither the prompt nor the steer |
| AcpTurnLaws.DispatchFailsExactly | crates/maju-acp/src/acp.rs:1716-1750 | which frames fail, by method, id, options and write: a permission request that cannot be answered, or a reply that is not written |
| AcpTurnLaws.SteerDropped | crates/maju-acp/src/acp.rs:1730-1732 | for every client with a transport open, a run in which all writes succeed and the steer is never acknowledged |
| AcpTurnLaws.SuccessMeansDelivery | crates/maju-acp/src/acp.rs:1593-1697 | a wake-up reports success exactly on a non-error answer to the steer in flight from goose, or with outcome `injected` or `startedNewTurn` |
| AcpTurnLaws.EverySuccessWasDelivered | crates/maju-acp/src/acp.rs:1593-1697 | every success in a run was sent on such a frame for that very request |
| AcpTurnLaws.AckedExactlyForCause | crates/maju-acp/src/acp.rs:1423-1711 | a wake-up acknowledges one request at most: at once exactly if it takes a steer with no transport open or no write made, as its own answer says exactly on that answer, neutrally exactly if the loop returns with it in flight by any but the two failing exits |
| AcpTurnLaws.EveryAckHasItsCause | crates/maju-acp/src/acp.rs:1337-1754 | every acknowledgement in a run had that cause at the wake-up it was made at |
| AcpTurnLaws.WakeDeadlines | crates/maju-acp/src/acp.rs:1366-1404 | the idle deadline is last activity plus the limit; blank lines and lines that are no JSON renew nothing; only a delivery into the live turn moves the hard deadline |
| AcpTurnLaws.HardDeadlineOverRuns | crates/maju-acp/src/acp.rs:1637-1669 | over a run the hard deadline never moves back and is the original one or `max_duration` past some delivery |
| AcpTurnLaws.TimeoutsAreReal | crates/maju-acp/src/acp.rs:1373-1404 | an iteration begun at or past the nearer deadline handles nothing and times out |
| AcpTurnLaws.EveryTimeoutIsReal | crates/maju-acp/src/acp.rs:1392-1523 | a run that timed out met a wake-up that found the deadline it names passed and nearer |
| AcpTurnLaws.LoopReturnsInTime | crates/maju-acp/src/acp.rs:1371-1404 | a bound on the number of wake-ups, from the deadlines and the number of steers offered |
| AcpTurnLaws.EveryLoopReturns | crates/maju-acp/src/acp.rs:1371-1404 | in every endless environment with an advancing clock and finitely many steers the loop returns |
| AcpTurnLaws.OnlyItsOwnAnswerReturns | crates/maju-acp/src/acp.rs:1593-1713 | the loop returns the agent's value or error exactly on a frame with the expected id and no method |
| AcpTurnLaws.StrayResponseIgnored | crates/maju-acp/src/acp.rs:1593-1713 | any other response only counts as activity |
| AcpTurnLaws.ChoosesExactly | crates/maju-acp/src/acp.rs:1968-2010 | a permission is granted by the first `allow_once` option, else refused by the first `reject_once` one, and otherwise nothing is sent |
| AcpSessionLaws.EverySessionIsSound | crates/maju-acp/src/acp.rs:799-1148 | in every session ids are never shared by two requests, and no permission request that arrived gets two replies |
| AcpSessionLaws.InOrderMeans | crates/maju-acp/src/acp.rs:1118-1148 | request ids and the numbers of answered permission requests strictly increase over everything written, and each reply carries the id with which the request of its number arrived |
| AcpSessionLaws.TurnReturnsOnlyItsAnswer | crates/maju-acp/src/acp.rs:1593-1713 | in a turn of any session a steer's answer or a late answer is never returned as the prompt's |
| AcpSessionLaws.LateAnswerIgnored | crates/maju-acp/src/acp.rs:1593-1713 | answers to every id used before a turn began, by a request written or not, are ignored throughout it |
| AcpSessionLaws.DrainIgnoresOtherAnswers | crates/maju-acp/src/acp.rs:1071-1082 | a cancel drain, steered or not, ignores the answer to any earlier request but its prompt |
| AcpSessionLaws.DrainReturnsOnlyItsAnswer | crates/maju-acp/src/acp.rs:1036-1084 | a drain begun in any session returns the agent's value or error exactly on its prompt's own id |
| AcpSessionLaws.RequestReturnsOnlyItsAnswer | crates/maju-acp/src/acp.rs:1213-1304 | a plain request returns the agent's value or error exactly on the first frame with its id and no method met while waiting |
| AcpSessionLaws.AskReturnsOnlyItsAnswer | crates/maju-acp/src/acp.rs:1118-1148 | in any session that id is larger than that of every earlier request |
| AcpSessionLaws.CancelWaitsForTheLaterDeadline | crates/maju-acp/src/acp.rs:981-1004 | a cancel, steered or not, runs out only past both the stored deadline and thirty seconds of grace |
| AcpSessionLaws.CancelSpeaksInOrder | crates/maju-acp/src/acp.rs:1036-1068 | a cancel first refuses the permission still waiting, then gives notice, then answers anything else |
| AcpSessionLaws.EverySessionIsBooked | crates/maju-acp/src/acp.rs:799-1084 | between calls a prompt is recorded exactly when a deadline is, if no cancel is steered |
| AcpSessionLaws.CancelBooksIffUnsteered | crates/maju-acp/src/acp.rs:976-1084 | after a cancel of either kind that holds for every agent exactly when no steer receiver was installed |
| AcpWireLaws.SteerWritten | crates/maju-acp/src/acp.rs:1423-1508 | a steer taken with a transport open is written with the next id and says what the request says: its own blocks, and the run id if one is known; with none open nothing is written |
| AcpWireLaws.SuccessWasAskedFor | crates/maju-acp/src/acp.rs:1423-1697 | every success in a run is for a request whose own blocks were written, under the id the agent answered |
| AcpWireLaws.PermissionAnswered | crates/maju-acp/src/acp.rs:1956-2031 | the reply to a permission request carries the chosen option under the id it came with; one that cannot be answered stays pending |
| AcpWireLaws.UnknownMethodAnswered | crates/maju-acp/src/acp.rs:1733-1747 | a request by any other name is answered "method not found" under its own id and name |
| AcpWireLaws.UpdateHeard | crates/maju-acp/src/acp.rs:1770-1876 | an update sets, clears or keeps the run id, writes nothing, and is a tool call by that name only |
| AcpWireLaws.OtherFramesIgnored | crates/maju-acp/src/acp.rs:1727-1729 | usage updates and frames without a method change nothing |
| AcpWireLaws.TimeoutSays | crates/maju-acp/src/acp.rs:1392-1404 | the error of a timeout names the idle limit, or how long the agent has been silent |
| AcpWireLaws.ReadSays | crates/maju-acp/src/acp.rs:1536-1713 | what is returned when the stream fails and when the answer comes, the agent's error with its code and message |
| AcpWireLaws.PromptSpeaks | crates/maju-acp/src/acp.rs:799-861 | a prompt is written first, with the next id and its own blocks |
| AcpWireLaws.RequestSpeaks | crates/maju-acp/src/acp.rs:1118-1148 | a plain request likewise |
| AcpWireLaws.PromptLeaves | crates/maju-acp/src/acp.rs:838-861 | a prompt that times out by either deadline leaves its id and a deadline no earlier than its own; any other finished prompt leaves neither |
| AcpWireLaws.TimedOutTurnIsCancelled | crates/maju-acp/src/acp.rs:976-1084 | after a timed-out turn of any session a cancel whose writes succeed gives notice and drains on that turn's prompt |
| AcpWireLaws.CancelBegins | crates/maju-acp/src/acp.rs:1036-1084 | what a cancel leaves before it hears anything: prompt and deadline taken, the waiting permission refused and forgotten, the notice written, all else as it was |
| AcpWireLaws.GraceRunsOut | crates/maju-acp/src/acp.rs:1020-1034 | a cancel with a grace names that grace when it runs out, and only past its end |
| AcpWireLaws.StopReasonNamed | crates/maju-acp/src/acp.rs:2034-2062 | an answer gives a stop reason exactly if it names it, in whatever case |
| AcpWireLaws.HandshakeLearns | crates/maju-acp/src/acp.rs:615-627 | steering is supported after the handshake exactly if the agent said `true` |
| CodexConfig.DeepMerge | crates/maju-acp/src/acp.rs:222-242 | the loop over the overlay's keys computes the merge, whatever order they come in |
| CodexConfig.MergeLookup | crates/maju-acp/src/acp.rs:222-242 | what a merge holds at any path, from what its two sides hold there |
| CodexConfig.MergeAbsorbs | crates/maju-acp/src/acp.rs:222-242 | merging the same overlay again changes nothing |
| CodexConfig.CoveredAddsNothing | crates/maju-acp/src/acp.rs:222-242 | when a base adds nothing to its overlay |
| CodexConfig.MergeAssociativeIff | crates/maju-acp/src/acp.rs:222-242 | merging is associative exactly without an object, non-object, object sandwich in which the outer object has a key to add |
| CodexConfig.SandwichExists | crates/maju-acp/src/acp.rs:222-242 | three layers, each an object, on which it is not |
| CodexConfig.LastSpeakerWins | crates/maju-acp/src/acp.rs:293-336 | merged layers hold a leaf at a path exactly if some layer holds it there and every later one is silent: it binds nothing on the way but objects, and nothing at the path |
| CodexConfig.BuildCodexConfigEnv | crates/maju-acp/src/acp.rs:271-359 | the configuration, nothing, or an error, whose meaning `ConfigLeaf` and `BuildsUnless` give |
| CodexConfig.ForceGrantsNetwork | crates/maju-acp/src/acp.rs:337-358 | every configuration built grants network access and is otherwise the merge |
| CodexConfig.ConfigLeaf | crates/maju-acp/src/acp.rs:271-359 | off the grant a configuration holds a leaf exactly if the parent holds it there, or the parent is silent and the last entry of the environment to say anything there holds it; on the grant it holds `true` |
| CodexConfig.BuildsUnless | crates/maju-acp/src/acp.rs:276-358 | nothing is built exactly without the signal or without an entry; otherwise an error is given exactly for the first entry that is no object, the persona's if it is the first of all, then for the parent, then for a sandbox setting that is no object |
| Decimals.ParsesExactlyDecimals | crates/git-sign-nostr/src/lib.rs:632-650 | the parser accepts exactly the canonical numerals of 0 to 2^32 - 1, each with its value |
| Decimals.DecimalMeans | crates/git-sign-nostr/src/lib.rs:632-650 | the canonical numeral of a number stands for it in base ten |
| Conditions.AcceptsExactlyPrints | crates/git-sign-nostr/src/lib.rs:562-584 | a clause is accepted, and means `c`, exactly if it is the print of the valid clause `c` |
| Conditions.ValidatesExactlyPrints | crates/git-sign-nostr/src/lib.rs:562-584 | conditions are accepted exactly if they are the joined prints of a list of valid clauses |
| Conditions.PrintConditionsInjective | crates/git-sign-nostr/src/lib.rs:562-584 | and of one list only |
| Conditions.EnforcesExactlyTheWindow | crates/git-sign-nostr/src/lib.rs:591-616 | enforcement succeeds exactly strictly between the greatest lower and the least upper bound, and otherwise names the first violated clause |
| Base64.DecodesExactlyEncodings | crates/git-sign-nostr/src/lib.rs:1123-1132 | strict base64: what decodes is the one encoding of its bytes |
| Base64.EncodesBits | crates/git-sign-nostr/src/lib.rs:938-941 | every three bytes become the four letters of their twenty-four bits |
| Base64.EncodesLastBits | crates/git-sign-nostr/src/lib.rs:938-941 | of one or two bytes left the missing bits are zeros and the missing letters padding |
| Utf8.ValidExactly | crates/git-sign-nostr/src/lib.rs:1143-1150 | well-formed texts are exactly the encodings of sequences of scalar values |
| Envelopes.BuildEnvelopeInjective | crates/git-sign-nostr/src/lib.rs:924-935 | two printable envelopes with the same text are the same |
| Envelopes.ParsesExactlyEnvelopes | crates/git-sign-nostr/src/lib.rs:1345-1446 | the parser accepts exactly the JSON values of valid envelopes, and inverts them |
| Envelopes.OpensOnlyItsPrint | crates/git-sign-nostr/src/lib.rs:1174-1188 | a text that passes the reconstruction check is the print of exactly one valid envelope, whatever the JSON parser does |
| Envelopes.HasNonStringWhitespace | crates/git-sign-nostr/src/lib.rs:1700-1722 | the loop over two flags finds exactly the blanks that its scan meets outside strings |
| Envelopes.ScanFindsExactlyBlanksBetween | crates/git-sign-nostr/src/lib.rs:1700-1722 | in a text made of string values, escapes and all, and what stands between them, those are exactly the blanks that stand between |
| Envelopes.EnvelopeShape | crates/git-sign-nostr/src/lib.rs:924-935 | prints are printable ASCII without outer blanks, with a bound on their length |
| Envelopes.ParsesExactlyArmor | crates/git-sign-nostr/src/lib.rs:1464-1493 | the armor parser accepts exactly armored lines and returns the line |
| Envelopes.ComputeSigningHash | crates/git-sign-nostr/src/lib.rs:895-916 | feeding the engine piece by piece hashes the preimage |
| Envelopes.PreimageDecodes | crates/git-sign-nostr/src/lib.rs:895-916 | a preimage decides time, attestation and payload among inputs that all have an attestation or all have none |
| Envelopes.PreimageAcrossPresence | crates/git-sign-nostr/src/lib.rs:895-916 | across presence two preimages agree exactly if one payload starts with the other's binding |
| Envelopes.PreimageDecodesGitObjects | crates/git-sign-nostr/src/lib.rs:895-916 | so a preimage decides everything for payloads that do not begin with a lowercase hex digit |
| GitSignatures.DoSign | crates/git-sign-nostr/src/lib.rs:943-1080 | the checks and their order, then the armored signature |
| GitSignatures.DoVerify | crates/git-sign-nostr/src/lib.rs:1099-1335 | the checks and their order, then key, time and attestation status |
| GitSignatures.ArmorFits | crates/git-sign-nostr/src/lib.rs:119-129 | with an auth tag within its limit the JSON, the base64 line and the file stay within theirs, and unwrapping gives the JSON back |
| GitSignatures.SoundEnvelopeVerifies | crates/git-sign-nostr/src/lib.rs:1099-1335 | every valid envelope of permitted size whose signature covers the payload verifies |
| GitSignatures.SignThenVerify | crates/git-sign-nostr/src/lib.rs:943-1335 | whatever signing emits verifies on the same payload, with status `none` or `valid` |
| GitSignatureLaws.VerifiedMeans | crates/git-sign-nostr/src/lib.rs:1099-1335 | an accepted file is that of one valid envelope whose signature covers time, attestation and payload; `valid` means that the owner signed this key with these conditions, byte for byte, and they permit the time; the two other statuses exactly otherwise |
| GitSignatureLaws.SignatureBindsPayload | crates/git-sign-nostr/src/lib.rs:1099-1335 | a file accepted for two payloads shows a hash collision on two texts or one signature over two digests |
| GitSignatureLaws.AttestationBinds | crates/git-sign-nostr/src/lib.rs:1500-1545 | one owner's signature accepted for two keys or two conditions shows the same of the texts an owner signs |
| GitSignatureLaws.VerifiesExactly | crates/git-sign-nostr/src/lib.rs:1099-1335 | on a file that holds an envelope the verdict is good, bad or "payload too long", exactly by the payload's length and the signature over the bytes written out |
| GitSignatureLaws.VerdictNeedsEnvelope | crates/git-sign-nostr/src/lib.rs:1099-1335 | whatever the JSON parser does, a file that holds no envelope is neither accepted nor called badly signed |
| GitSignatureLaws.FatalExactly | crates/git-sign-nostr/src/lib.rs:1099-1132 | the verdict is fatal exactly on a file over 8 KiB or one that is no UTF-8 |
| GitSignatureLaws.SignsExactly | crates/git-sign-nostr/src/lib.rs:943-1080 | signing succeeds exactly when key, key argument, payload, clock and auth tag are in order, and emits the file of exactly that envelope |
| GitSignatureLaws.EnforcementSpelled | crates/git-sign-nostr/src/lib.rs:591-616 | conditions are enforced as their clauses read |
| GitSignatureLaws.PrintIsJson | crates/git-sign-nostr/src/lib.rs:924-935 | the print is the JSON text without blanks of the object with five fields in this order |
| GitSignatureLaws.JsonHasFields | crates/git-sign-nostr/src/lib.rs:1345-1446 | and the value the parser accepts has exactly those fields |
| GitSignatureLaws.ValidMeans | crates/git-sign-nostr/src/lib.rs:1345-1462 | which envelopes are valid, by digits, lengths, clauses and owner |
| GitSignatures.IdealIsMet | crates/git-sign-nostr/src/lib.rs:943-1335 | primitives as trusted as signing and verifying need exist |
| RustScanner.SanitizeRust | scripts/check-postgres-test-discovery.py:30-99 | the in-place scan ends on every input and blanks exactly the tokens |
| RustScanner.SanitizedKeeps | scripts/check-postgres-test-discovery.py:30-99 | same length; every character is the original or a blank; newlines stay where they are |
| RustScanner.NoQuoteSurvives | scripts/check-postgres-test-discovery.py:79-97 | no double quote is left |
| RustScanner.NoCommentSurvives | scripts/check-postgres-test-discovery.py:36-61 | no comment mark is left |
| RustScanner.NoCharLiteralSurvives | scripts/check-postgres-test-discovery.py:63-69 | no character literal is left, nor made by blanking |
| RustScanner.SanitizeIdempotent | scripts/check-postgres-test-discovery.py:30-99 | sanitizing twice is sanitizing once |
| RustScanner.NestedCommentEnds | scripts/check-postgres-test-discovery.py:44-61 | a block comment ends at the mark that closes it, over comments nested to any depth |
| RustSourceLaws.SanitizedIsKept | scripts/check-postgres-test-discovery.py:30-99 | however a source is written in code in which nothing starts, comments, character literals, strings and raw strings, closed or running to its end, sanitizing keeps the code and blanks exactly the rest |
| RustSourceLaws.EverySourceIsWritten | scripts/check-postgres-test-discovery.py:30-99 | and every source is written in such pieces |
| RustSourceLaws.LineCommentEnds | scripts/check-postgres-test-discovery.py:36-42 | a line comment ends at its line |
| RustSourceLaws.CharLiteralsExactly | scripts/check-postgres-test-discovery.py:23-23 | the pattern of a character literal finds exactly the literals of the grammar, to their end |
| RustSourceLaws.RawStringsExactly | scripts/check-postgres-test-discovery.py:22-22 | the pattern of a raw string finds exactly `r` or `br`, up to 255 hashes and a quote |
| RustScanner.ParseRustStringLiteral | scripts/check-postgres-test-discovery.py:102-132 | the two loops return content and end, or nothing for an unterminated literal |
| RustScanner.QuotedLiteralParses | scripts/check-postgres-test-discovery.py:102-132 | any text, written as a literal behind white space, is read back whole |
| RustScanner.ParserAndScannerAgree | scripts/check-postgres-test-discovery.py:71-132 | where a literal parses the scanner blanks exactly what the parser consumes |
| RustSourceLaws.ParsesExactly | scripts/check-postgres-test-discovery.py:102-132 | where a piece stands the literal parser returns what an ordinary or raw string stands for, and nothing for anything else |
| ModuleRanges.BracePairs | scripts/check-postgres-test-discovery.py:154-160 | the stack pairs two braces exactly when one closes the other |
| ModuleRanges.NestedOrApart | scripts/check-postgres-test-discovery.py:154-160 | matched pairs never interleave |
| ModuleRanges.HeadersApart | scripts/check-postgres-test-discovery.py:163-168 | no header starts inside another, so non-overlapping search misses none |
| ModuleRanges.HeadersExactly | scripts/check-postgres-test-discovery.py:18-18 | a header is found exactly where the keyword, space, a name and a brace are written and no word runs into them |
| ModuleRanges.ModuleRanges | scripts/check-postgres-test-discovery.py:152-168 | the ranges returned, in order, are exactly those of the modules whose brace is closed |
| ModuleRanges.ModulesNestOrPart | scripts/check-postgres-test-discovery.py:152-168 | module ranges nest or are apart, and begin and end on braces of the source |
| EventFilter.Matcher.MatchEvent | crates/maju-acp/src/filter.rs:368-460 | the loop over the rules with its effect on the shared counters |
| EventFilter.WinsExactly | crates/maju-acp/src/filter.rs:368-460 | a rule wins, under its tag or name, exactly if it passes and every earlier one is not concerned with the event or was evaluated false, with channel, kinds, mention, limit and length of the filter spelled out |
| EventFilter.LosesExactly | crates/maju-acp/src/filter.rs:368-460 | no rule wins exactly if none that is reached passes: timeouts, errors and disabled rules let nothing by |
| EventFilter.CountersTellStreaks | crates/maju-acp/src/filter.rs:403-447 | over every run a counter is the number of timeouts since the last successful evaluation, at most five, and five is final |
| EventFilter.DisabledForever | crates/maju-acp/src/filter.rs:403-416 | behind a rule whose counter is full nothing is matched any more that the rule applies to |
| ChannelFilters.ResolveChannelFilters | crates/maju-acp/src/config.rs:1324-1415 | every discovered channel gets what the configuration means for it, no other channel anything |
| ChannelFilters.ResolveDynamicChannelFilter | crates/maju-acp/src/config.rs:1426-1504 | a channel found later gets what the configuration means for it |
| ChannelFilters.ResolversAgree | crates/maju-acp/src/config.rs:1324-1504 | asked for any discovered channel both return what the configuration means for it, kinds in the same order |
| ChannelFilters.ResolvedLetsThrough | crates/maju-acp/src/config.rs:1324-1504 | which channels get a filter and which events it lets through, mode by mode: a mention required unless switched off, the three default kinds, or the rules for the channel |
| ChannelFilters.MergeRules | crates/maju-acp/src/config.rs:1378-1409 | the loop merges the rules that apply to the channel, and nothing comes of none |
| ChannelFilters.MergedMeans | crates/maju-acp/src/config.rs:1378-1409 | the merged filter is the union of the kinds, each once, a wildcard if one rule is, and requires a mention if all rules do |
| ChannelFilters.MergeIsSound | crates/maju-acp/src/config.rs:1376-1412 | in Config mode every event that can match on a channel passes its filter |
| ChannelFilters.SoundExactlyUnlessKindsEmpty | crates/maju-acp/src/lib.rs:2715-2751 | in every mode, with the rules of that mode, exactly unless the list of kinds is empty outside Config mode |
| ChannelFilters.SoundFromCommandLine | crates/maju-acp/src/config.rs:349-350 | for every `--kinds` option or environment value that is accepted it holds without exception |
| ChannelFilters.KindsReadBack | crates/maju-acp/src/config.rs:349-350 | numbers with commas between them are read back from the option, or from the environment without one |
| ChannelFilters.SimpleModesMatch | crates/maju-acp/src/lib.rs:2715-2751 | in the two simple modes the matcher takes exactly what the relay lets through, under the tag of the mode |
| ChannelFilters.MatchedPassesFilter | crates/maju-acp/src/filter.rs:368-460 | what the matcher matches the relay has let through |
| ChannelFilters.MergeIsExactWhen | crates/maju-acp/src/config.rs:1378-1409 | exactly when the merged filter lets through only what some rule wants, event kinds having sixteen bits |
| ChannelFilters.ScopesAgreeExactlyWhenCanonical | crates/maju-acp/src/config.rs:1506-1515 | the matcher's and the resolver's reading of a channel list agree exactly if every entry that parses stands beside its canonical spelling |
| ChannelFilters.OtherSpellingNeverMatches | crates/maju-acp/src/filter.rs:67-72 | a rule with any other spelling subscribes to the channel and matches none of its events |
| UuidSpellings.StandardIsLawful | crates/maju-acp/src/filter.rs:67-72 | the standard printer and parser of UUIDs meet what is trusted of them |
| UuidSpellings.BracedIsOtherSpelling | crates/maju-acp/src/config.rs:1506-1515 | every channel has another spelling that is read |
| UuidSpellings.CapitalsSpellTheSame | crates/maju-acp/src/config.rs:1506-1515 | in capitals it is read too, and is another spelling exactly if it has a letter |
| UuidSpellings.CapitalsNeverMatch | crates/maju-acp/src/filter.rs:67-72 | a rule listing the channel of UUID 10 in capitals subscribes to it and matches nothing there |
| PoolLifecycle.RetryDelayDoubles | crates/maju-acp/src/pool_lifecycle.rs:123-132 | the delay is min(300, 5 * 2^(n-1)) for every n from 1, in spite of saturation |
| PoolLifecycle.PoolLifecycle.StartWakeIfDue | crates/maju-acp/src/pool_lifecycle.rs:37-58 | a wake starts only with work pending, when none is out and the delay has passed |
| PoolLifecycle.PoolLifecycle.TakeReady | crates/maju-acp/src/pool_lifecycle.rs:60-68 | only a ready pool is handed out, and once |
| PoolLifecycle.PoolLifecycle.CompleteWake | crates/maju-acp/src/pool_lifecycle.rs:99-120 | a result is accepted exactly for the attempt that is out; any other changes nothing |
| PoolLifecycle.EveryRunIsLegal | crates/maju-acp/src/pool_lifecycle.rs:27-121 | in every run wakes, accepted results and pools taken follow each other in the one legal order, with the delays between |
| PoolLifecycle.WakesExactly | crates/maju-acp/src/pool_lifecycle.rs:37-58 | after any run a wake starts exactly if there is work and one may start: at the beginning, after a pool was taken, or when the delay after a failure is over; and with which token |
| PoolLifecycle.ReadyPoolCame | crates/maju-acp/src/pool_lifecycle.rs:60-120 | a pool ready to be taken is the one the last accepted result brought |
| PoolLifecycle.OneWakeOut | crates/maju-acp/src/pool_lifecycle.rs:37-58 | no two wakes are ever out together |
| PoolLifecycle.TokensCountUp | crates/maju-acp/src/pool_lifecycle.rs:37-120 | within an epoch tokens of wakes and of accepted results strictly increase below the largest u32 |
| PoolLifecycle.TokensStartOver | crates/maju-acp/src/pool_lifecycle.rs:60-120 | after a pool is taken a result with an old token can be accepted again |
| PoolLifecycle.AcceptedExactly | crates/maju-acp/src/pool_lifecycle.rs:99-120 | after every run a result is accepted exactly if a wake is out and the token is the number of wakes since a pool was taken, up to the largest u32 |
| PoolLifecycle.OlderResultAcceptedExactly | crates/maju-acp/src/pool_lifecycle.rs:95-120 | the exact condition under which the result of an older wake is accepted |
| PoolLifecycle.StaleRejected | crates/maju-acp/src/pool_lifecycle.rs:95-120 | within an epoch, below the largest u32, an older result is refused |
| PoolLifecycle.SaturatedTokenAccepted | crates/maju-acp/src/pool_lifecycle.rs:44-58 | at the largest u32 one is accepted within an epoch |
| PoolLifecycle.ReadyIsReached | crates/maju-acp/src/pool_lifecycle.rs:99-120 | a run that makes a pool ready |
| PoolLifecycle.BackOff | crates/maju-acp/src/pool_lifecycle.rs:99-132 | the n-th wake in a row of failures, n at least 7, starts at least 315 + 300 (n - 7) seconds after the first |
| FlowControl.FlowIsPartialOrder | crates/ifc-core/src/lib.rs:53-59 | flow is a partial order |
| FlowControl.FlowsExactlyWhenNoReaderIsAdded | crates/ifc-core/src/lib.rs:53-59 | information flows exactly where it gains no reader |
| FlowControl.JoinAndMeetAreBounds | crates/ifc-core/src/lib.rs:66-89 | join is the least upper and meet the greatest lower bound |
| FlowControl.Distributes | crates/ifc-core/src/lib.rs:66-89 | the lattice is distributive |
| FlowControl.JoinLeavesNobodyExactly | crates/ifc-core/src/lib.rs:66-133 | join leaves the non-empty labels exactly for two disjoint lists |
| FlowControl.FlowState.Observe | crates/ifc-core/src/lib.rs:238-249 | a label of another universe makes the state unresolved and keeps what was held |
| FlowControl.FlowState.CheckEgress | crates/ifc-core/src/lib.rs:257-277 | the verdict and the order of its errors |
| FlowControl.EgressExactly | crates/ifc-core/src/lib.rs:238-277 | after any inputs egress is allowed exactly when none was unknown and each may itself flow to the destination |
| FlowControl.RefusedExactly | crates/ifc-core/src/lib.rs:257-277 | which of the three errors is given, by the inputs alone |
| FlowControl.VerdictIgnoresOrder | crates/ifc-core/src/lib.rs:238-277 | the verdict, its error included, ignores order and repetition |
| FlowControl.RefusalLasts | crates/ifc-core/src/lib.rs:238-277 | no further input turns a refusal into leave |
| Resp.EncodeCommand | perf/relay_bus_scaling.py:110-117 | the pieces joined are the command's bytes |
| Resp.ReadResp | perf/relay_bus_scaling.py:129-153 | the recursive reader on a stream, with its errors and the bytes it leaves |
| Resp.NumeralParses | perf/relay_bus_scaling.py:129-153 | every number is read back from its numeral |
| Resp.ReplyRoundTrip | perf/relay_bus_scaling.py:129-153 | every reply, however deep, is read back from its print and leaves the bytes behind it |
| Resp.CommandRoundTrip | perf/relay_bus_scaling.py:110-153 | a command is read back as exactly its parts, line ends inside them and all |
| Resp.PipelineRoundTrip | perf/relay_bus_scaling.py:110-153 | commands written one after another are read back in order |
| Resp.CommandsPrefixFree | perf/relay_bus_scaling.py:110-117 | no command is the beginning of another |
| Resp.ServerErrorConsumesItsLine | perf/relay_bus_scaling.py:129-137 | after an error reply the stream stands at the next reply |
| Resp.ReadExtends | perf/relay_bus_scaling.py:129-153 | bytes behind a reply change neither it nor how much is read |
| Resp.TruncationIsAnError | perf/relay_bus_scaling.py:129-153 | a reply cut short anywhere is an error, never another reply |
| RespLaws.ReadsExactlyWires | perf/relay_bus_scaling.py:129-153 | the reader returns a reply exactly for the bytes of one, its numbers in any spelling, and leaves what stands behind it |
| RespLaws.ParsesExactlySpelled | perf/relay_bus_scaling.py:138-150 | a number is read exactly where one is spelled: space, sign, grouped digits, space |
| RespLaws.FramingErrors | perf/relay_bus_scaling.py:120-153 | nothing to read, a line cut short or ended by a line feed alone, and an unknown first byte: the error and what is left |
| RespLaws.LineErrors | perf/relay_bus_scaling.py:132-150 | error replies, lines that are no UTF-8, and lines that spell no number |
| RespLaws.StringErrors | perf/relay_bus_scaling.py:139-147 | a string with a length below -1, of the wrong length, with the wrong end, or that is no UTF-8 |
| RespLaws.ListErrors | perf/relay_bus_scaling.py:148-152 | a list ends at its first error |
| LineFramer.ReadLine | crates/maju-antigravity/src/wire.rs:86-119 | the loop over buffered chunks |
| LineFramer.ReadsFirstFrame | crates/maju-antigravity/src/wire.rs:86-119 | the frame read is the first line of the bytes; the 8 MiB verdict depends on the length of that line only |
| LineFramer.TooLongLeavesByChunks | crates/maju-antigravity/src/wire.rs:106-108 | after a line that is too long what is left to read depends on the chunks |
| LineFramer.ReadLoop | crates/maju-antigravity/src/lib.rs:107-127 | repeated reads up to the end or the first error |
| LineFramer.ChunkingIsImmaterial | crates/maju-antigravity/src/wire.rs:86-119 | the same bytes give the same frames in whatever chunks they arrive |
| LineFramer.FramesAreLines | crates/maju-antigravity/src/wire.rs:86-119 | the frames are the pieces between line feeds, each terminated one without one trailing carriage return |
| LineFramer.LinesReadBack | crates/maju-antigravity/src/wire.rs:86-119 | lines written with either line end are read back, each as it was, and then the end |

## Left out

- Processes, pipes and scheduling: a write succeeds or fails as a whole, and the clock is an input that does not go back.
- The write timeout's own clock and partly written lines: only the outcome of a write is modelled.
- Overflow of the 64-bit request counter: ids are unbounded.
- Usage tracking, the observer, turn logs and the text of messages that only go to logs.
- `drain_stale_responses`, `session_new_full`, `session_set_model` and the other plain requests beyond their ids and answers: they share `SendRequest`.
- A call dropped in the middle: the trace ends and the result is `None`; what the caller does next is its own.
- AcpSessionLaws.EverySessionIsBooked: needs that no steer receiver is installed when a cancel begins; `CancelBooksIffUnsteered` shows that it fails otherwise.
- EventFilter.CountersTellStreaks: calls one after another only; interleaved calls on shared counters are not modelled.
- PoolLifecycle.TokensCountUp: at the largest u32 the token saturates and repeats, as in the program; `SaturatedTokenAccepted` is such a run.
- LineFramer.ReadsFirstFrame: after a line that is too long, where the reader stands depends on the chunks, as `TooLongLeavesByChunks` shows; the read loop stops there.
- Evaluation of filter expressions, the evaluation semaphore and its timers: one of four answers per rule and call.
- Rule files: `load_rules` is modelled only as counters that start at zero.
- Serialization of the built configuration, and the environment it is put in.
- GnuPG status lines, trust levels, dates, best-effort key extraction, key files and their permissions, `git config`.
- Schnorr signatures, SHA-256, bech32 and the JSON grammar: functions of `World`.
- Case folding of stop reasons beyond ASCII, and white space beyond what each parser's own rules name.
- Which characters outside ASCII count as word characters in the module pattern: a parameter.
- Ignore attributes, out-of-line modules and the file checks built on the module ranges.
- The `since` field and the subscription message around a channel filter.
- The command-line parser: `KindsOption` states what is read off the option's declaration.
- The socket, the digit limit and the recursion limit of the Redis client's language.
- `explicit_readers`, snapshots and audience strategies of the flow crate: easy projections.
