# Concord server: protocols, limits, codecs and membership

A Dafny model of the parts of the Concord server whose correctness spans several functions or
whole runs, with proofs of what they keep. `dafny verify dfyconfig.toml` verifies the project.

| module | component |
|---|---|
| `SingleFlight`, `SingleFlightCallers` | the participant cache in front of the voice server: a TTL cache and one shared fetch per room, as steps of an asyncio scheduler, with cancellation |
| `TokenBucket`, `ExtProxy` | the token buckets of the extension proxy and the Retry-After hint |
| `SlidingWindow` | the four sliding-window limiters (logins, registrations, disposable nodes, webhooks) as one class with parameters |
| `Hostnames`, `PatternMeaning` | server names, the anchored patterns made from them, their decoding, and a small semantics of what a pattern accepts |
| `Toml`, `TomlRoundTrip`, `TomlDocument`, `FederationText`, `FederationConfig` | the TOML writer, a reader for the part of TOML v1.0.0 it needs, and the federation file with the administrator's allowlist update |
| `Stun`, `StunStream`, `XorAddress` | the STUN/TURN codec and stream framing of the relay check |
| `Membership`, `Ownership`, `MembershipChanges`, `MembershipTables`, `Remint` | every handler that changes a membership row, an owner or a ban, with the settings marks, the direct invitations and the kick records they depend on, and the re-mint of a place |
| `InviteSlots` | the uses of an invitation: reserve, complete, release, a redemption's read and write, edit |
| `VoteKick` | the vote-kick state machine and its comma-joined voter strings |
| `ChannelOrder` | channel positions and the order the sidebar shows |
| `TokenCache` | the bounded cache of checked access tokens |

State machines are given by a `Step` function; a lemma about `Run` speaks about every sequence
of actions whatever. The classes hold the tables the Python code updates in place; each method
is proved to make exactly the step, and to keep the invariant of all runs that is the class's
`Valid()`. Handlers are atomic transactions unless a row below
says otherwise. Clocks do not go backwards, floats are reals, and identifiers drawn by the
database or a random generator are parameters.

## Where the code and its documentation differ

- `decode_server_name_patterns` says that patterns with genuine metacharacters come back
  unchanged. A class escape such as `^\d\.io$` is shown as the host name `d.io`, which it does
  not accept, and `^d.io$` with its bare dot is shown as `d.io` although it accepts more.
  `DecodedNameIsFaithfulIff` gives the exact condition.
- The TOML writer escapes only the backslash and the quote. A foreign key whose string holds a
  control character, which TOML lets one write with an escape, makes the rewritten file
  unreadable; `WriteThenRead` gives the exact condition and
  `UpdateBreaksFileWithEscapedLineFeed` a file.
- Foreign list items that are not strings come back as strings (`CoercionIsHarmlessIff`).
- The re-mint says that the new owner is the caller. The caller is the current owner, and the
  new owner must be somebody else. A new owner who was a member loses their flags and display
  name, and the channels of the new place lose their extensions.
- The first person to register is meant to inherit the lobby the bot seeded. Seeding sets the
  mark `default_server_seeded` with the lobby, and first boot is over as soon as it is set, so
  the transfer is never made: `NobodyTakesOverTheLobby` for all runs, `LobbyChangesHandsIff` for
  its exact condition, `FirstRegistrantIsAPlainMember` for a run. The repository's own test of
  the transfer starts from a settings file with a lobby and no mark, which seeding never leaves.
  Were it made for the bot itself, the lobby would lose its owner (`StepKeepsOneOwnerIff`).
- "A banned user is not a member" and "the owner is never banned" do not hold: recorded kicks
  ban without removing the row and without sparing the owner. `BannedMemberArisesIff` and
  `OwnerBannedArisesIff` say exactly when, `EscalationBansTheOwnerInPlace` gives a run.
- An instance-wide ban is filed under the empty place identifier, and no way into a place asks
  for it (`InstanceBansKeepNobodyOut`). Lifting it lifts the user's bans of all places too.
- Two redemptions that overlap count as one use, and can let more people in than the limit
  (`ConservedThroughoutIff`, `OverlappingRedeemsLoseAUse`).
- A vote can stay open with all the yes votes it needs (`OverdueIff`).
- The suffix loop of an extension's channel name gives up before it tries the hundredth name.
- The host-name test also lets one trailing line feed through; the allowlist handler strips it
  first, so there the test is exact (`NormalNamesAreTestedExactly`).
- Awaiting the shared task passes one caller's cancellation on to others; `NotBegunIsCancelledIff`
  and `CallersAreCancelledOnlyOnRequest` say when.

## Model

| member | source | states |
|---|---|---|
| `SingleFlight.AtMostOneFetchPerRoom` | server/routers/voice.py:529-570 | in every reachable state, under any interleaving and cancellation, two unfinished fetches of one room are the same one, and it is the one registered |
| `SingleFlight.EntryOutlivesNoTask` | server/routers/voice.py:565-569 | an entry leaves the in-flight table only when the task it names is done; a clean-up removes no other task's entry |
| `SingleFlight.StaleEntriesNeverRan` | server/routers/voice.py:535-537 | a registered task that is done was cancelled before its first step, which is why the code asks `done()` |
| `SingleFlight.MissJoinsTheOneFetch` | server/routers/voice.py:535-570 | a caller that misses ends up awaiting the one unfinished fetch of its room, newly created exactly when there was none |
| `SingleFlight.CancellationIsShared` | server/routers/voice.py:537-570 | cancelling one of two callers sharing a fetch not yet begun hands the cancellation to the other |
| `SingleFlightCallers.CancellationReachesABystander` | server/routers/voice.py:535-570 | a run in which a caller nobody cancelled is handed a cancellation |
| `SingleFlightCallers.CallersAreCancelledOnlyOnRequest` | server/routers/voice.py:529-570 | over all runs, a caller is handed a cancellation only if it, or one awaiting the same task, was cancelled |
| `SingleFlightCallers.TasksAreCancelledOnlyOnRequest` | server/routers/voice.py:539-570 | over all runs, a task ends cancelled only if some caller awaiting that very task was cancelled |
| `SingleFlightCallers.NotBegunIsCancelledIff` | server/routers/voice.py:537-570 | a task not yet begun ends cancelled at its first step if and only if some caller awaiting it was cancelled |
| `SingleFlightCallers.StoppedListingMayEndAsFailure` | server/routers/voice.py:546-566 | why that is one-way later: a listing that was asked to stop may fail instead, and its callers receive the empty roster |
| `SingleFlightCallers.MissesAreNeverStale` | server/routers/voice.py:530-570 | a caller that missed receives a roster of its room fetched no earlier than it entered; or the empty one, and then its task failed; or a cancellation |
| `SingleFlight.HitsAreFresh` | server/routers/voice.py:530-533 | a hit is the roster of a successful fetch of that room completed less than one TTL ago |
| `SingleFlightCallers.CallersReceiveTheirRoom` | server/routers/voice.py:539-570 | over all runs, a caller receives a roster recorded for the room it asked for; the empty one, and then its task failed; or a cancellation, and then one awaiting that task was cancelled |
| `SingleFlightCallers.EveryWaiterIsHandedTheListing` | server/routers/voice.py:546-570 | when a fetch ends, every caller awaiting it is handed the very roster that was listed, which is also what a caller entering then hits; the empty roster if the listing or the close failed, or the cancellation, and then the cache is as before |
| `SingleFlightCallers.FirstStepOutcome` | server/routers/voice.py:539-545 | the empty roster for all if the client cannot be built, the cancellation if it was asked for before, and otherwise no outcome yet |
| `SingleFlightCallers.ReturnedIsFetchedOrFailed` | server/routers/voice.py:539-566 | over all runs, a task that returned a roster returned one recorded for its room, or it failed and the roster is empty |
| `SingleFlightCallers.CloseIsInterruptedOnlyAnew` | server/routers/voice.py:546-556 | a cancellation is delivered once: the close is interrupted only by a caller cancelled after the listing came back |
| `SingleFlightCallers.CancelledCallerIsTold` | server/routers/voice.py:535-570 | a caller cancelled after its task is done is handed the cancellation, alone; before, the task is asked to stop |
| `SingleFlight.OnlySuccessIsStored` | server/routers/voice.py:557-564 | only a successful listing whose client closed cleanly changes the cache, and is hit right after |
| `SingleFlight.FetchesAreSpaced` | server/routers/voice.py:524-570 | in every run, successful fetches of one room complete at least one TTL apart |
| `SingleFlight.UpstreamLoadIsBounded` | server/routers/voice.py:507-570 | so a period sees at most its length over the TTL, plus one |
| `SingleFlight.ParticipantTables.FetchRoomParticipantsCached` | server/routers/voice.py:529-570 | the code up to the first await makes the step of a caller entering and keeps the invariant of all runs |
| `SingleFlight.ParticipantTables.BeginFetch` | server/routers/voice.py:539-550 | the task's first step, or its cancellation before it |
| `SingleFlight.ParticipantTables.EndFetch` | server/routers/voice.py:548-566 | the rest of the task: the listed roster returned and stored for 5 s on success, the empty one on failure, cancellation let through, the cache untouched in both, the entry dropped in every case |
| `TokenBucket.TakeIsExact` | server/routers/ext_proxy.py:55-65 | a call is admitted exactly when, counted from every earlier call, the admissions since plus one stay within capacity plus refill |
| `TokenBucket.TakeKeepsSound` | server/routers/ext_proxy.py:55-65 | the two fields go on standing for the whole longer history |
| `TokenBucket.NoPeriodExceedsBudget` | server/routers/ext_proxy.py:47-65 | no period of any run admits more than capacity plus rate times its length |
| `TokenBucket.Bucket.Take` | server/routers/ext_proxy.py:55-65 | the answer is the rule over all calls so far, from the two fields alone |
| `ExtProxy.RetryIsLongEnoughIff` | server/routers/ext_proxy.py:393-399 | waiting the hinted time always finds a full token, if and only if the rate is at least 1 or divides 1 and the bucket can hold a token |
| `ExtProxy.EveryProviderRetryIsLongEnough` | server/routers/ext_proxy.py:70-83 | that is so for every configured provider and the default rate |
| `ExtProxy.RetryTooShortForOtherRates` | server/routers/ext_proxy.py:398 | and not for a rate of 0.3 |
| `ExtProxy.RateIs` | server/routers/ext_proxy.py:70-83 | the rates, bursts and hints in figures: 0.5 per second, 2.5 tokens and 2 s for five providers, 1 per second, 5 tokens and 1 s for all others |
| `ExtProxy.ProviderBudget` | server/routers/ext_proxy.py:70-94 | so no period lets more requests of a pair through than that burst plus that rate times its length |
| `ExtProxy.HintIs` | server/routers/ext_proxy.py:398 | the hint is the whole seconds one token takes, and at least one |
| `ExtProxy.Buckets.GetBucket` | server/routers/ext_proxy.py:85-94 | one bucket per extension and provider, made full on first use, all others untouched |
| `ExtProxy.Buckets.Request` | server/routers/ext_proxy.py:393-399 | a request is forwarded exactly when the rule, in those figures, over all earlier requests of that pair admits it, and refused with a hint of 2 s or 1 s otherwise; no other pair is affected |
| `SlidingWindow.LengthIsCount` | server/routers/matrix_proxy.py:76-87 | after trimming, the deque is shorter than the limit exactly when the naive count over the entire history is |
| `SlidingWindow.CallIsNaive` | server/routers/matrix_proxy.py:68-87 | one check decides by the naive rule and keeps the dictionary faithful to the history |
| `SlidingWindow.SweepKeepsFaithful` | server/routers/matrix_proxy.py:55-65 | a sweep, deleting keys or not, loses nothing a later decision depends on |
| `SlidingWindow.LimitersDecideAlike` | server/routers/nodes.py:53-105 | two limiters of the same limit and window, asked the same at the same times, have answered and will answer alike, however often each sweeps; and their deques agree on what has not expired |
| `SlidingWindow.NoWindowExceedsLimit` | server/routers/registration.py:54-81 | no closed period as long as the window holds more than the limit of admissions of one key |
| `SlidingWindow.ConfiguredLimits` | server/routers/matrix_proxy.py:45-46 | in figures: 30 logins in any 300 s, 5 registrations and 5 disposable nodes in any 900 s, 5 webhook calls in any 60 s |
| `SlidingWindow.Evict` | server/routers/webhooks.py:26-30 | the popleft loop drops exactly the expired front |
| `SlidingWindow.Limiter.Sweep` | server/routers/registration.py:35-51 | every key keeps what is not expired and no empty deque stays |
| `SlidingWindow.Limiter.Check` | server/routers/matrix_proxy.py:68-87 | the answer is "fewer than the limit of admissions of this key in the whole history are within the window" |
| `Hostnames.HostnameIff` | server/services/tuwunel_config.py:33-38 | a text is a host name if and only if it has at most 253 characters, a dot, letters or digits at both ends and beside every dot, only host-name characters, and no 64 in a row without a dot |
| `Hostnames.DecodePattern` | server/services/tuwunel_config.py:66-119 | decoding undoes the making of a pattern, for every host name |
| `Hostnames.DecodePatterns` | server/services/tuwunel_config.py:66-119 | a list of host names comes back identical and in order |
| `Hostnames.DecodeShowsPatternOrHostname` | server/services/tuwunel_config.py:98-119 | for any pattern the reader is shown the pattern itself or a valid host name |
| `Hostnames.DecodeServerNamePatterns` | server/services/tuwunel_config.py:98-119 | the loop decodes entry by entry and keeps the length |
| `Hostnames.HostnameIsNormal` | server/services/tuwunel_config.py:35-38 | a host name is unchanged by stripping and lower-casing |
| `PatternMeaning.PatternAcceptsOnlyItsName` | server/services/tuwunel_config.py:66-74 | the pattern of any name accepts exactly that one string |
| `PatternMeaning.PatternsAcceptExactlyTheNames` | server/services/tuwunel_config.py:66-74 | the patterns of a list of host names accept exactly the names on it |
| `PatternMeaning.DecodedNameIsFaithfulIff` | server/services/tuwunel_config.py:77-119 | a pattern shown as a host name accepts that name and nothing else, if and only if it has no bare dot and no escaped letter or digit |
| `PatternMeaning.BareDotIsMisread` | server/services/tuwunel_config.py:105-116 | a pattern with a bare dot is shown as a name and accepts another one too |
| `PatternMeaning.ClassEscapeIsMisread` | server/services/tuwunel_config.py:87-116 | a class escape is shown as a name its pattern does not accept |
| `TomlRoundTrip.ParseEscaped` | server/services/tuwunel_config.py:265-267 | an escaped string is read back as it was, if and only if it holds no control character |
| `TomlRoundTrip.ParseEmittedItems` | server/services/tuwunel_config.py:256-258 | an emitted list is read back as strings, or not at all |
| `TomlRoundTrip.ParseEmittedValue` | server/services/tuwunel_config.py:251-262 | every emitted value is read back up to coercion exactly when it is clean |
| `TomlDocument.EmitTable` | server/services/tuwunel_config.py:233-248 | the loops write the head, the managed keys present and then all others in code-point order, each once |
| `TomlDocument.KeyOrderListsTheKeys` | server/services/tuwunel_config.py:233-246 | the written order has every key of the table exactly once |
| `TomlDocument.ReadTable` | server/services/tuwunel_config.py:239-262 | the written lines of a table are read back as the table with list items as strings, or not at all if a value is not clean |
| `TomlDocument.RewritingIsIdempotent` | server/services/tuwunel_config.py:216-248 | emitting what was read back reproduces the text |
| `FederationText.EmitToml` | server/services/tuwunel_config.py:216-248 | the text with its comment lines, header and managed keys |
| `FederationText.WrittenFileReadsBack` | server/services/tuwunel_config.py:216-267 | the written file is readable exactly when every value is clean, and then holds the one table `global` with the values written |
| `FederationConfig.WriteThenRead` | server/services/tuwunel_config.py:137-206 | for a file the reader can speak for: a write is read back as the settings written; or the file becomes unreadable, exactly when a foreign value or a list holds a control character |
| `FederationConfig.AnyWrittenTableReads` | server/services/tuwunel_config.py:154-163 | what any clean file says, key by key: federation is on if its key is absent, a list is empty if its key is absent, a string lists its characters, a number in place of a list is an error |
| `FederationConfig.FirstUpdate` | server/services/tuwunel_config.py:137-206 | the first update of a deployment without a file leaves federation on, forbids nobody and allows exactly the names saved |
| `FederationConfig.FirstFile` | server/services/tuwunel_config.py:216-262 | the lines of such a file, with the backslash doubled |
| `FederationConfig.ForeignKeysSurvive` | server/services/tuwunel_config.py:175-198 | for such a file, every foreign key of `global` is there after a write, and no other, with its value up to coercion |
| `FederationConfig.CoercionIsHarmlessIff` | server/services/tuwunel_config.py:256-258 | coercion changes a value exactly when it is a list holding something other than strings |
| `FederationConfig.SavingUnchangedSettingsKeepsTheFile` | server/services/tuwunel_config.py:137-206 | writing back what was just read leaves the file character for character |
| `FederationConfig.NormalNamesAreTestedExactly` | server/routers/admin.py:923-930 | on the stripped, lower-cased entry the test accepts exactly host names |
| `FederationConfig.NothingRefusedIff` | server/routers/admin.py:921-940 | nothing is refused exactly when every entry is blank or a host name once normalised; the kept names are those |
| `FederationConfig.EverySpellingIsNormalised` | server/routers/admin.py:923-926 | white space around a host name and upper-case letters in it are normalised away, whatever the name |
| `FederationConfig.OneEntry` | server/routers/admin.py:923-930 | one entry is kept if it is a host name once normalised, passed over if blank, and refused as normalised otherwise |
| `FederationConfig.EntriesAreJudgedAlone` | server/routers/admin.py:921-930 | a list is judged entry by entry, in order |
| `FederationConfig.AllowlistRoundTrip` | server/routers/admin.py:921-953 | after an accepted update, readable exactly when what the file held is clean, the decoded allowlist is the names saved in order, the patterns accept exactly them, and the other settings stay |
| `FederationConfig.UpdateBreaksFileWithEscapedLineFeed` | server/services/tuwunel_config.py:258-267 | a readable file that an accepted update makes unreadable |
| `FederationConfig.ConfigFile.ReadFederation` | server/services/tuwunel_config.py:137-163 | without a file or a `global` table the defaults, federation on and both lists empty; of any clean file, what its keys say; of a file a write has left, exactly the settings written, or an error exactly when the write made it unreadable |
| `FederationConfig.ConfigFile.WriteFederation` | server/services/tuwunel_config.py:166-206 | the new text overlays the three managed keys on the old `global`, or holds just them if there is no file, it cannot be read or it has no `global`; refused, and the file as it was, if `global` is no table |
| `FederationConfig.ConfigFile.UpdateAllowlist` | server/routers/admin.py:917-953 | refused with the bad names, or with the read error, leaving the file as it was; or saved |
| `FederationConfig.CleanNames` | server/routers/admin.py:921-930 | the loop separates the normalised entries into kept and refused, in order |
| `Stun.ParsePacked` | scripts/turn_relay_smoke.py:86-104 | parsing any concatenation of encoded attributes returns exactly those attributes, despite padding |
| `Stun.ParsedIsBounded` | scripts/turn_relay_smoke.py:94-104 | any bytes give at most one attribute for every four of them, each fit to be encoded |
| `Stun.RepackedIff` | scripts/turn_relay_smoke.py:86-104 | encoding what was parsed gives the same bytes exactly for bodies of whole attributes with zero padding |
| `Stun.ParseAttrs` | scripts/turn_relay_smoke.py:94-104 | the loop computes the parse, and ends on every byte string |
| `Stun.PadTo4` | scripts/turn_relay_smoke.py:86-87 | the padding completes to a multiple of four |
| `Stun.UnauthenticatedIsWellFormed` | scripts/turn_relay_smoke.py:160-162 | the first request is one whole Allocate message of 28 bytes with the magic cookie, the identifier and REQUESTED-TRANSPORT for UDP |
| `Stun.AuthenticatedIsWellFormed` | scripts/turn_relay_smoke.py:165-187 | the request is built exactly when its attributes fit; its length counts MESSAGE-INTEGRITY, is a multiple of four and is what follows the header; it carries, index by index, the transport, the user, the realm, the nonce and the digest under MD5 of user, realm and password joined by colons; a receiver's check by section 15.4 of RFC 5389 passes |
| `StunStream.MessageIsNext` | scripts/turn_relay_smoke.py:151-157 | a message received from chunks is the one at the front of their bytes, and what is left is what follows it |
| `StunStream.ChunkingIsUnobservable` | scripts/turn_relay_smoke.py:141-157 | two ways of cutting the same bytes into chunks give the same messages and the same failure |
| `StunStream.SentMessagesAreReceived` | scripts/turn_relay_smoke.py:141-157 | any messages sent one after the other are received, and then whatever follows gives |
| `StunStream.NextMessageIsFramed` | scripts/turn_relay_smoke.py:151-157 | a message takes its header and the bytes its length says; failure is an early end or a wrong cookie and nothing else |
| `StunStream.RequestIsReceived` | scripts/turn_relay_smoke.py:165-187 | a built request is received with its transaction identifier and body, whatever follows |
| `StunStream.Socket.RecvExact` | scripts/turn_relay_smoke.py:141-148 | exactly the next bytes of the stream, or a failure when it ends before |
| `StunStream.Socket.RecvMessage` | scripts/turn_relay_smoke.py:151-157 | the next message of the stream, in terms of its bytes alone |
| `XorAddress.DecodeEncode` | scripts/turn_relay_smoke.py:115-138 | an address and port hidden as section 15.2 of RFC 5389 says are decoded, for both families |
| `XorAddress.DecodesIff` | scripts/turn_relay_smoke.py:115-138 | exactly which values decode, and which failure the others give |
| `XorAddress.DecodedDeterminesValue` | scripts/turn_relay_smoke.py:115-138 | what decodes to an address is its encoding, but for the first byte and what follows |
| `Ownership.EveryPlaceHasOneOwner` | server/models.py:10-111 | in every reachable state the only row with the role of owner, in each place, is that of the place's `owner_id` |
| `Ownership.OwnersNeverChange` | server/routers/registration.py:217-258 | in every reachable state, no request changes the owner of a place |
| `Ownership.NobodyTakesOverTheLobby` | server/routers/admin.py:58-73 | in every reachable state a lobby rules out first boot, so the take-over of the lobby is never made |
| `Ownership.FirstRegistrantIsAPlainMember` | server/main.py:461-536 | a run of seeding and one registration, after which the lobby is the bot's and the newcomer a plain member |
| `Ownership.LobbyChangesHandsIff` | server/routers/registration.py:217-258 | from any state, a registration that joins the lobby takes it over if and only if none of the three marks is set and the bot owns it |
| `Ownership.FirstBootHandsOverTheLobby` | server/routers/registration.py:217-258 | what that would do where the marks were cleared by hand: the newcomer's row is the owner's with every right, the bot's an admin's |
| `Ownership.OwnershipMovesOnlyOnFirstBoot` | server/routers/registration.py:219-246 | from any state, an owner changes only so, from the bot to the user who registers |
| `Ownership.StepKeepsOneOwnerIff` | server/routers/registration.py:240-258 | from any state with one owner per place, a step keeps that if and only if it is not the bot itself taking over its lobby |
| `MembershipChanges.BecomesMemberIff` | server/routers/servers.py:1002-1027 | over all requests, the guards under which somebody without a row gets one, and no others |
| `MembershipChanges.NewRowIs` | server/routers/servers.py:1024-1027 | over all requests, the exact row somebody gets who had none: the owner's, without rights, if a place is made for them; the carried one, an owner's as an admin's, by a re-mint; the owner's with every right by the take-over of the lobby; a plain member's by any other way in |
| `MembershipChanges.NewcomersHaveNoRights` | server/routers/servers.py:1002-1027 | in reachable states, whoever comes into a place that is there is a plain member with no right |
| `MembershipChanges.LosesRowIff` | server/routers/servers.py:925-1503 | over all requests, the guards under which a row goes away, and no others: leaving, an admin's kick or ban, the deletion of the place |
| `MembershipChanges.RowsGoOnlyByAuthority` | server/routers/servers.py:931-937 | with one owner per place, the owner's row goes away only with the place |
| `MembershipChanges.RoleChangesIff` | server/routers/servers.py:1329-1344 | in reachable states a role changes if and only if the owner changes it, and never to or from owner |
| `MembershipChanges.RightsChangeIff` | server/routers/moderation.py:191-205 | in reachable states each right changes if and only if an admin switches that one |
| `MembershipChanges.ForbiddenIff` | server/routers/servers.py:925-1503 | over all requests, who is told 403: exactly those without the rank or right asked for, kept out or banned, or registering where it is closed; and nothing changes |
| `MembershipChanges.BecomesBannedIff` | server/routers/moderation.py:397-446 | over all requests, a ban comes about by the ban handler, by a recorded kick that fills the limit within the window, or instance-wide, each under its guards |
| `MembershipChanges.NextKickBansIff` | server/routers/moderation.py:404-417 | a kick fills the limit exactly if the records of that user at that place no older than the window, with this one, are as many as the limit |
| `MembershipChanges.KicksAreRecorded` | server/routers/moderation.py:397-402 | each permitted kick, and each executed vote's, is filed once, at that place, against that user, at that time; no other request files or loses one |
| `MembershipChanges.BanIsLiftedIff` | server/routers/admin.py:1186-1198 | over all requests, a ban is lifted by an admin of the place, by an instance admin for all places at once, or with the place |
| `MembershipChanges.BannedMemberArisesIff` | server/routers/moderation.py:412-441 | a user becomes banned and a member if and only if a kick recorded on a member fills the limit, an instance-wide ban meets a row filed under no place, or a user banned before is let in by a request whose guards do not ask |
| `MembershipChanges.OwnerBannedArisesIff` | server/routers/servers.py:1448-1449 | the owner of a place becomes banned there if and only if the same escalation hits the owner, or a place is made for a user banned under its identifier |
| `MembershipChanges.BannedUsersEnterOnlyUnasked` | server/routers/servers.py:1007-1016 | a banned user gets in exactly under those guards, and not by joining or redeeming |
| `MembershipChanges.BanRemovesTheRow` | server/routers/servers.py:1443-1503 | a ban that succeeds leaves the ban and no row, and is never of the owner |
| `MembershipChanges.InstanceBansKeepNobodyOut` | server/routers/admin.py:1152-1182 | an instance-wide ban changes nobody's way into any place |
| `MembershipChanges.OffersMoveIff` | server/routers/direct_invites.py:82-141 | a direct invitation comes about by an admin, to somebody neither member nor banned, and goes exactly when it is declined, or accepted by somebody who is no member yet |
| `MembershipChanges.MarksMoveIff` | server/main.py:532-535 | the lobby is named exactly by the seeding that makes it, in the step that sets its mark; each mark is set by its own request, and none is ever cleared |
| `MembershipChanges.EscalationBansTheOwnerInPlace` | server/routers/moderation.py:385-446 | a run of three kicks within the default window after which the owner is banned and still the owner |
| `MembershipChanges.PlaceComesIff` | server/routers/servers.py:424-435 | over all requests, the guards under which a place comes into being, and whose it is |
| `MembershipChanges.NewPlaceIs` | server/routers/servers.py:1797-1806 | its settings: the lobby public, a new place as asked for, both with a limit of 3 kicks in 30 minutes; a re-minted place as the old one |
| `MembershipChanges.SettingsChangeIff` | server/routers/moderation.py:520-552 | visibility, limit and window of a place change if and only if an admin of it changes that one, within its range, and to what was asked |
| `MembershipChanges.PlaceGoesIff` | server/routers/servers.py:692-712 | a place goes away if and only if an admin of it deletes it |
| `MembershipChanges.RemintCompletesIff` | server/routers/servers.py:1716-1741 | a re-mint completes if and only if the owner hands an unencrypted place to somebody else under an identifier nobody has a row for |
| `MembershipChanges.OtherPlacesAreUntouched` | server/routers/servers.py:925-1528 | a request about one place changes no row, ban, offer or entry of another, and a refused one changes nothing |
| `MembershipTables.Directory.RegisterUser` | server/routers/registration.py:100-311 | gate, lobby join, invited join and first-boot mark as one transaction, first boot being read from the settings file; one owner per place is kept |
| `Remint.NewRosterHasEveryoneOnce` | server/routers/servers.py:1866-1895 | for any roster: each old user and the new owner exactly once, the new owner as the only owner |
| `Remint.EveryoneElseIsCarried` | server/routers/servers.py:1873-1895 | each earlier member keeps the row with its rights and display name, only that an owner becomes an admin |
| `Remint.CarriedRowIs` | server/routers/servers.py:1873-1894 | a carried row in full: user, rights and display name as before, the role too, only that an owner becomes an admin and no role a member's |
| `Remint.NewRosterInOrder` | server/routers/servers.py:1863-1895 | and the order |
| `Remint.MappingIsInjective` | server/routers/servers.py:1815-1849 | the channel identifier map is total, one-to-one and no larger |
| `Remint.RemintOwnership` | server/routers/servers.py:1745-1895 | both branches for an incomplete snapshot are unreachable; every channel keeps name, type and position under a new identifier and room; the roster is the one above and its count is right |
| `Remint.RehydrateChannels` | server/routers/servers.py:1822-1849 | the channel loop |
| `Remint.RehydrateMembers` | server/routers/servers.py:1863-1895 | the roster loop with its set of users seen |
| `Remint.RosterIsInherited` | server/routers/servers.py:1745-1895 | the roster built is the set of rows the membership table gains |
| `InviteSlots.SlotsAreConserved` | server/routers/registration.py:157-181 | in every run whose redemptions write in time, the use count is the uses consumed plus the slots reserved, between 0 and the limit |
| `InviteSlots.StepConservesIff` | server/routers/invites.py:275-412 | one step keeps that if and only if it is not a redemption writing out of time |
| `InviteSlots.ConservedThroughoutIff` | server/routers/invites.py:376-412 | a run keeps it all along if and only if every redemption in it writes in time: the count is the one it read, and below the limit |
| `InviteSlots.DriftIsWhatSlipped` | server/routers/invites.py:376-412 | what any run loses is exactly the sum of what was counted between the reads and the writes of its redemptions |
| `InviteSlots.UndisturbedRedeemIsTimely` | server/routers/invites.py:376-412 | a redemption is in time if nothing between its read and its write touches the count or the limit |
| `InviteSlots.StartsIff` | server/models.py:93-99 | somebody gets started on an invitation exactly if it is permanent, or has uses left and has not expired, and goes by what was read then |
| `InviteSlots.ExpiredStartsNobody` | server/models.py:93-99 | over any run without an edit, an expired invitation starts nobody |
| `InviteSlots.ProgressIs` | server/routers/registration.py:157-181 | a registration that did not read a permanent row takes a slot exactly if there is one, and is turned away otherwise |
| `InviteSlots.CountMoves` | server/routers/registration.py:157-181 | what each step does to the use count and to the number who came in |
| `InviteSlots.EditsAre` | server/routers/invites.py:275-287 | an edit is taken exactly if it leaves the limit at least at what is used, sets what it names, and nothing else changes limit, permanence or expiry |
| `InviteSlots.ReleaseUndoesReserve` | server/routers/registration.py:157-181 | whatever edits come between, a release undoes exactly its reservation |
| `InviteSlots.LateRedeemConservesIff` | server/routers/invites.py:409-412 | one write conserves the slots if and only if the count is still the one it read |
| `InviteSlots.OverlappingRedeemsLoseAUse` | server/routers/invites.py:376-412 | a run in which two people come in on an invitation with one use |
| `InviteSlots.ChangesThatCancelAreHarmless` | server/routers/registration.py:157-181 | a slot reserved and released between a read and its write does no harm |
| `InviteSlots.InviteToken.FinishRedemption` | server/routers/invites.py:409-425 | the row stays conserved and within bounds if and only if the write is in time |
| `InviteSlots.InviteToken.RedeemAtomically` | server/routers/invites.py:376-425 | with no await in between it always is: one use for a new member on a valid invitation that is not permanent |
| `VoteKick.VotersComeBackIff` | server/routers/moderation.py:297-311 | in whatever order they were joined, the voters come back from the string exactly when every identifier is non-empty and free of commas |
| `VoteKick.VotesAreFair` | server/routers/moderation.py:291-320 | over all runs: sides disjoint and without the target, failed exactly with a "no", passed or executed only with as many yes votes as needed, and one kick record for an executed vote, of its target at its server, and none for any other |
| `VoteKick.KicksAreFiledAgainstTheTarget` | server/routers/moderation.py:474-479 | over all runs, every kick record is that of an executed vote, at that vote's server and against its target |
| `VoteKick.VotesAreAsStarted` | server/routers/moderation.py:263-271 | over all runs, every vote is about the server and the member that its start named |
| `VoteKick.StartedVoteIs` | server/routers/moderation.py:263-271 | a new vote is about the member and server named, has its starter's yes and nobody's no, and the number given |
| `VoteKick.VoteMoves` | server/routers/moderation.py:290-340 | no step changes what a vote is about; its number changes exactly when one is set while it is open; its voters change only by a vote that counts |
| `VoteKick.ExecutedOnlyOnce` | server/routers/moderation.py:463-466 | executing again what is executed says so and records nothing |
| `VoteKick.OneActiveVotePerTarget` | server/routers/moderation.py:252-261 | two active votes about one member of one server are the same vote |
| `VoteKick.CastAddsOneVoter` | server/routers/moderation.py:290-320 | an accepted vote adds its voter to one side and decides by the new sides |
| `VoteKick.DecisionsAreFinal` | server/routers/moderation.py:463-473 | a decided vote never changes, but from passed to executed |
| `VoteKick.VoteOpensIff` | server/routers/moderation.py:240-274 | a vote is opened if and only if a member starts it about another member about whom none is open |
| `VoteKick.StatusMovesIff` | server/routers/moderation.py:290-320 | in reachable states a vote fails, passes or is executed exactly by an accepted "no", by the yes vote that completes it, or by executing a passed one while the server is there; none opens again |
| `VoteKick.OverdueIff` | server/routers/moderation.py:335-340 | a vote is open with all the yes votes it needs if and only if it was started for one voter, was just given a number it had reached, or was so before and neither voted on nor given a number |
| `VoteKick.EnoughYesVotesMayStayOpen` | server/routers/moderation.py:264-274 | the smallest run with such a vote |
| `ChannelOrder.PositionsStayDistinct` | server/routers/servers.py:484-642 | in every reachable state the positions of a place are pairwise different and not negative |
| `ChannelOrder.AcceptedIffPermutation` | server/routers/servers.py:608-633 | a reorder is accepted exactly for permutations of the channel identifiers |
| `ChannelOrder.ReorderedAsRequested` | server/routers/servers.py:634-642 | the channels are then shown in the order requested at positions 0 to n - 1, otherwise unchanged |
| `ChannelOrder.CreatedIsLast` | server/routers/servers.py:484-489 | a new channel is shown after all others |
| `ChannelOrder.NextPositionIs` | server/routers/servers.py:484-489 | its position is one more than the highest there is, and 0 in an empty place |
| `ChannelOrder.WelcomeIsFirst` | server/main.py:594-611 | the added welcome channel is shown first and the others keep their order |
| `ChannelOrder.WelcomeComesIff` | server/main.py:583-592 | it is added exactly where no channel is called welcome |
| `ChannelOrder.DeletedIsGone` | server/routers/servers.py:915-920 | deleting leaves the others as they were shown |
| `ChannelOrder.RenamedInPlace` | server/routers/servers.py:665-682 | renaming changes the one name where it is shown, and neither its kind nor its position nor any other channel |
| `ChannelOrder.RemintShowsTheSame` | server/routers/servers.py:1822-1849 | a re-minted place shows the same channels in the same order |
| `ChannelOrder.FreeName` | server/routers/servers.py:797-813 | the first free of the base name and its suffixes 2 to 99, or a refusal exactly when all are taken |
| `ChannelOrder.CandidateNames` | server/routers/servers.py:806-813 | how the names tried look |
| `ChannelOrder.ChannelTable.CreateChannel` | server/routers/servers.py:484-525 | one row more, shown last |
| `ChannelOrder.ChannelTable.StartExtension` | server/routers/servers.py:785-836 | one app row more, shown last, under the first free name; or no change, exactly when all are taken |
| `ChannelOrder.ChannelTable.DeleteChannel` | server/routers/servers.py:915-920 | one row less |
| `ChannelOrder.ChannelTable.EnsureLobbyWelcome` | server/main.py:583-611 | the loop shifts every channel by one and inserts the welcome channel at 0, unless there is one |
| `ChannelOrder.ChannelTable.ReorderChannels` | server/routers/servers.py:606-642 | the loop numbers the channels as requested and returns them as shown, or refuses and changes nothing |
| `TokenCache.CacheStaysSmall` | server/dependencies.py:65-76 | in every reachable state the cache holds at most 1000 entries |
| `TokenCache.HitsAreVouchedFor` | server/dependencies.py:39-44 | a hit is the user the homeserver gave for that token in a check begun less than 300 s before |
| `TokenCache.StoredIsFound` | server/dependencies.py:65-76 | making room never loses the entry being stored |
| `TokenCache.StoreKeepsTheRest` | server/dependencies.py:65-76 | over all runs, what a store costs the others: nothing below 1000 entries; in a full cache exactly what has expired; and only if all 1000 are alive a quarter, none of which outlasts one that stays |
| `TokenCache.TrimDropsAQuarter` | server/dependencies.py:71-74 | the trim drops exactly a quarter, rounded down |
| `TokenCache.SurvivorsOutlastTheEvicted` | server/dependencies.py:71-74 | every survivor of a trim expires no earlier than every evicted entry |
| `TokenCache.PurgeKeepsTheLiving` | server/dependencies.py:67-70 | a purge keeps exactly what has not expired |
| `TokenCache.TokenTable.Lookup` | server/dependencies.py:39-44 | a user is told if and only if there is an unexpired entry of that token and user |
| `TokenCache.TokenTable.Remember` | server/dependencies.py:65-76 | the loops make room and store |

## Left out

- FederationConfig.WriteThenRead: the reader knows comments, tables with bare keys, booleans, decimal integers, basic strings with the short escapes, and arrays of these. A file that uses more of TOML (sub-tables of `global`, floats, dates, quoted or dotted keys, inline tables, literal and multi-line strings, `\u` escapes, underscores in numbers, carriage returns) is outside the claim; `Known` says so. The code reads such files, and writes a sub-table back as one string.
- FederationConfig.ForeignKeysSurvive: the same files are outside it.
- TomlRoundTrip.ParseEmittedValue: the writer's fallback for values of other types is not modelled, because the reader yields none.
- Hostnames.HostnameIsNormal: lower-casing is modelled on ASCII and the Kelvin sign, the one other character that becomes a letter of a host name; a pattern's `$` means the end of the text, as in the homeserver's regular-expression library.
- PatternMeaning.DecodedNameIsFaithfulIff: a pattern with groups, alternatives, repetition or sets has no meaning here; such a pattern never decodes to a host name.
- Concurrent writes of the federation file: the read before the write is outside the lock, so nothing is claimed about them; each handler is one step.
- TokenBucket.Bucket.Take: rounding of floats is not modelled.
- ExtProxy.RetryIsLongEnoughIff: the division is of reals, and no other request comes in between.
- SlidingWindow.Limiter.Check: a clock that steps backwards is not modelled.
- MembershipTables.Directory.RedeemInvite: whether the invitation is valid is a parameter; its count is in `InviteSlots`.
- MembershipTables.Directory.RegisterUser: the room joins that follow, the rate limit, and the interleaving of writes to the settings file with other handlers are not modelled.
- MembershipTables.Directory.SeedDefaultServer: a crash between the commit and the write of the settings file is not modelled.
- VoteKick.VoteTable.ExecuteVoteKick: what a passed vote's kick record does to bans is in `Membership.ExecuteVoteStep`.
- VoteKick.VoteTable.CastVoteKick: the order in which a set of voters is iterated is a parameter.
- InviteSlots.InviteToken.RegistrationFailed: a slot is released here as a step of its own, although the code makes reservation and release within one database transaction.
- Remint.RemintOwnership: the ledger payload, soundboard file names and the other copied place settings are not modelled; the channel map relates identifiers rather than their decimal text.
- ChannelOrder.ChannelTable.CreateChannel: who may create, delete or reorder a channel is not modelled here; two creations at the same moment are one after the other.
- XorAddress.DecodeEncode: addresses are their bytes; the textual form is left out.
- Stun.AuthenticatedIsWellFormed: MD5 and HMAC are arbitrary functions, of a fixed output length where the code relies on it; texts are their UTF-8 bytes.
- SingleFlight.ParticipantTables.FetchRoomParticipantsCached: waking up after the await is the event `Resume`; the order in which the scheduler picks tasks is arbitrary, and no progress is claimed.
- TokenCache.TokenTable.Lookup: parsing the header and the homeserver's error answers are left out.
- HTTP, the database driver, Docker, SMTP, LiveKit and file-system calls are parameters or nondeterministic outcomes.
- The client, the native shell, migrations, previews, media proxy, e-mail, TOTP, bug reports, extension installation, the config linter, auth codes and usage statistics are not part of this model: single-branch rules next to the core.
