# Verification of the Hot Pursuit server emulator

This project models three parts of the repository in Dafny and proves what they are for.

**The lobby** (`hpserver/`). Connections log in, queue for a match, host or join a game, report their
peer-to-peer mesh, leave and disconnect. `LobbyModel` is the state the server's mutex protects, as a
value, with one function a handler; a step is a handler together with its notifications and the flush
that follows. `LobbyClient` is the other side: what a game client believes after each notification, and
which notifications it can take. `LobbyInvariant` is one invariant over all of it, `LobbyGames` to
`LobbySessionSteps` show that every step keeps it, `LobbyHistory` says what no step does, and
`LobbyRuns` and `LobbyOutcomes` state the results over whole runs; `LobbyReports`, `LobbyEffects` and
`LobbyMail` say what each handler does, and whom it tells what, in terms of the request alone. `LobbyObjects` and `LobbyServer` are
the program itself: `Session`, `LiveGame` and `Server` objects updated in place, with the source's loops,
each method proved to compute its function of the model; `Server.Handle` ties the two together, one
request at a time.

**The TDF codec** (`Fire2Encoder.go`, `Fire2Decoder.go`, `Fire2.go`). `TdfVarint`, `TdfTags`, `TdfEncoder`
and `TdfDecoder` are the format as functions on bytes, with the source's panics and failures kept apart;
`TdfRoundTrip`, `TdfReencode` and `TdfOrder` are the results, and `TdfWire` describes the bits; `TdfLoops` and `Fire2` run the source's loops
and prove that they compute the functions.

**Framing and the record layer** (`legacyfire/frame.go`, `legacytls/conn.go`). `LegacyFrame` covers
self-delimiting frames over a writer that may take any part of what it is offered. `Records` covers
sections 6.2.1 and 6.2.3.1 of RFC 2246 for a stream cipher, with keystream, hash and HMAC arbitrary functions of
fixed output sizes; `RecordMac` and `RecordRules` say what is authenticated and what is refused, and `RecordLayer` the connection object that does it in place.

Assumptions. GameManager commands come only from connections that have finished silentLogin; the source
does not check this, and `LobbyOutcomes.HostingNeedsLogin` proves that hosting keeps the invariant exactly
then. A handler, its notifications and its flush are one step, although the source sends after unlocking.
Ids are unbounded integers. Clocks are positive inputs. A connection is a fresh object when accepted.

The source's comment on SID in `hpserver/game.go:282-283` calls it the roster index; the code publishes the slot
map, which differs from the index after a removal, and the model follows the code.

## Model

| member | source | states |
|---|---|---|
| LobbyServer.Server.Handle | hpserver/server.go:692-757 | a request or the end of a connection, run on the objects, takes the lobby exactly one step of its transition system and keeps the invariant |
| LobbyRuns.NextKeeps | hpserver/server.go:203-218 | every enabled step of every handler keeps the whole invariant: registries, rosters, seats, queue and every client's conversation |
| LobbyRuns.RunsKeepInv | hpserver/server.go:633-655 | the invariant holds in every state of every run from an empty server |
| LobbyRuns.ReplicasAgree | hpserver/server.go:288-502 | in every state of every run, folding all frames ever sent to a member gives exactly its game's persona-to-slot map; anybody else believes itself in no game; no frame was one the client could not take |
| LobbyRuns.OneStateEach | hpserver/server.go:203-218 | every connection is idle, queued exactly once under its QueuedMatchID with GameID 0, or a member of exactly one registered game, the one its GameID names, with the pending game 0 or that one |
| LobbyRuns.GamesAreConsistent | hpserver/game.go:10-129 | in every state member personas are distinct and are the keys of every per-player table, the mesh lies inside the roster off the diagonal, the host is first and holds slot 0, the readiness cache is exact for its snapshot, and ensureMembershipState changes nothing |
| LobbyRuns.ReportRefreshes | hpserver/server.go:533-565 | a report that sets an edge leaves an exact readiness cache over the whole roster |
| LobbyReports.ReportSetsEdges | hpserver/server.go:533-558 | after a report the reporter's edge to a member has the status of the last target naming it; edges to members nobody named, other players' edges and edges to strangers are as before |
| LobbyReports.ReportCompletes | hpserver/server.go:560-610 | a report that names another member ends, at once, the pending admission of exactly the members it leaves with status-2 edges both ways with all others, and tells every member of each of them exactly once |
| LobbyReports.IdleReportIsSilent | hpserver/server.go:531-563 | a report that names no other member changes no seat and tells nobody anything |
| LobbyReports.StrangersReportNothing | hpserver/server.go:506-519 | a report on an unknown game or by a non-member changes nothing |
| LobbyRuns.DepartureRefreshes | hpserver/server.go:167-187 | so does the departure of anyone but the host |
| LobbyRuns.NextEvolves | hpserver/game.go:69-101 | in any step a member who stays keeps its slot, a game that gains a member stays within its capacity and gives a slot no higher than its former size, counters grow, no account is forgotten, and only updateMeshConnection sends completions and only queueMatch opens admissions |
| LobbyRuns.RunHistory | hpserver/server.go:86-129 | over any stretch of a run known users keep account and persona, and whatever is registered was registered before or has an id not yet handed out |
| LobbyRuns.IdsNeverReused | hpserver/server.go:384-385 | session, game and match ids out of use stay out of use |
| LobbyRuns.RegistryIsExact | hpserver/server.go:97-127 | sessions and activePersonas agree with the connections in both directions and are injective, every known persona is below nextUserID, and the collision loop's first candidate is fresh |
| LobbyRuns.LoginIdentity | hpserver/server.go:86-129 | a second login changes nothing; a first one gets the requested persona exactly when it is positive and not active (or happens to be the next one), otherwise one nobody ever had, a known user's account, and a new session id |
| LobbyRuns.RunsFit | hpserver/game.go:69-101 | in particular, in a run that never lowers a positive capacity every roster fits its game and its slots lie in 0..Capacity-1; a game without capacity has its lone creator in slot 0 |
| LobbyRuns.FitsExactly | hpserver/handlers.go:386-404 | from a state in which every roster fits, a step leaves every roster fitting exactly when it does not set a registered game's capacity to or below a slot in use; the member count follows by the pigeonhole |
| LobbyRuns.RunsFitExactly | hpserver/handlers.go:386-404 | over a run every roster fits its game at all times exactly when every capacity set is above the slots then in use |
| LobbyRuns.CompletionsAreEarned | hpserver/server.go:560-612 | a completion anybody is sent comes from a mesh report and is of a member whose admission was pending, is pending no more, and who has status-2 edges both ways with every other current member |
| LobbyRuns.OneCompletionEach | hpserver/server.go:571-576 | in any one conversation a client can take, two completions of a player are separated by that player's joining anew or by a setup that puts the client itself back in a lobby |
| LobbyRuns.AdmissionsCompleteOnce | hpserver/server.go:339-340 | over every run, two completions of a persona for a game are separated by a queueMatch step that admits the session completing later to that game anew: each matchmaking admission completes at most once |
| LobbyRuns.CompletionsAreSingle | hpserver/server.go:582-610 | so no two completion frames, to one client or to different ones, tell of one admission twice, but for each member hearing of it once in the step that completes it |
| LobbyRuns.AwaitsByMatching | hpserver/server.go:391-395 | a session comes to await its admission to a game in no step but a queueMatch, and was not awaiting it before |
| LobbyEffects.FinalizeEffect | hpserver/handlers.go:289-310 | finalizing ends the session's pending admission and tells it, and only it, the platform host of the game named, else pending, else current; with none of these nothing happens |
| LobbyEffects.FinalizedAdmissionsDoNotComplete | hpserver/handlers.go:289-310 | over every run, a session that finalized is completed only after a later matchmaking step admits it anew |
| LobbyRuns.MatchEquivalence | hpserver/server.go:56-72 | request compatibility is an equivalence on requests for two or more players and holds for no others |
| LobbyRuns.QueueIsAntichain | hpserver/server.go:364-382 | in every state the queue is in strictly increasing match ids, of different sessions, and no two entries could be paired |
| LobbyOutcomes.MatchIgnored | hpserver/server.go:296-308 | a request from a session in a game spends a match id and nothing else |
| LobbyEffects.SuitsIsCompatible | hpserver/game.go:131-151 | a game suits a request exactly if it is somebody else's, has room, tolerates no more players than the request, has its topology, and has the request's value for each of playlist, cartier, event and visibility the request names |
| LobbyEffects.AlikeIsCompatible | hpserver/server.go:56-72 | requests are alike exactly if they are for the same number of players, at least two, the same topology, and agree on presence and value of the four attributes |
| LobbyEffects.JoinsExactlySuiting | hpserver/server.go:318-362 | matchmaking puts a session into a registered game exactly if it is the one with the lowest id among those that suit the request |
| LobbyEffects.JoinsFirstSuiting | hpserver/server.go:318-362 | there the session is the last member, in the least free slot, within capacity; no other game, seat or request changes |
| LobbyEffects.PairsOldestAlike | hpserver/server.go:364-400 | where no game suits, the oldest alike request of another session is paired: its owner hosts a new game made to its request, both are seated there, and only their requests leave the queue |
| LobbyEffects.WaitsOtherwise | hpserver/server.go:372-379 | where neither exists, the request is appended and the session waits; nothing else changes |
| LobbyOutcomes.DisconnectIsComplete | hpserver/server.go:139-218 | after removeSession the session is in no registry, queue entry, roster or per-game table, and the other requests keep their order |
| LobbyOutcomes.DisconnectEndsHostedGame | hpserver/server.go:167-187 | a host's disconnection unregisters its game and frees every survivor, a member's leaves the rest of the roster and its slots; no other game changes |
| LobbyOutcomes.RemovalIsExact | hpserver/handlers.go:408-461 | removePlayer takes a member out exactly when caller and target are members and the caller is the target or the host; otherwise games, seats and queue stay |
| LobbyOutcomes.HostingBeforeLoginBreaksTables | hpserver/handlers.go:257-285 | every connection that hosts before it has logged in gets a game that is not in order, whose tables, once it logs in under whatever persona, do not match the roster |
| LobbyOutcomes.HostingNeedsLogin | hpserver/handlers.go:257-285 | resetDedicatedServer keeps the invariant exactly for connections that have logged in |
| LobbyEffects.HostingEffect | hpserver/handlers.go:257-285 | a session in no game gets a new game with the attributes, capacity and topology asked for, alone in slot 0, leaves the queue and is sent the setup; one in a game gets nothing |
| LobbyEffects.SetCapacityEffect | hpserver/handlers.go:386-404 | sets a registered game's capacity and nothing else; its members, or the sender if there is no such game, hear of it |
| LobbyEffects.SetGameAttrsEffect | hpserver/handlers.go:346-362 | replaces a registered game's attributes and nothing else; likewise heard |
| LobbyEffects.SetPlayerAttrsEffect | hpserver/server.go:244-286 | key by key, the request's attributes override the player's, for the player itself or the host; likewise heard; an unknown game is echoed, anything else ignored |
| LobbyEffects.BroadcastHeard | hpserver/server.go:220-242 | every member of the game, or only the sender if there is none, gets the frame once, and nobody else anything |
| LobbyMail.LoginEffect | hpserver/server.go:86-129 | the session takes the name asked for, else the user's own, else the default; it is told its persona and session id; no seat, game, request or other connection changes |
| LobbyMail.PersonaNames | hpserver/session.go:57-65 | the default name is Player, followed by the persona in decimal when it is above 1, and different for different personas above 1 |
| LobbyMail.JoiningIsTold | hpserver/server.go:454-502 | members hear of the newcomer's persona and session, then of its joining under its slot; the newcomer hears of every member in roster order, then of host and roster with slots; nobody else hears anything |
| LobbyMail.PairingIsTold | hpserver/server.go:402-420 | the two sessions of a pairing hear of each other, then get the setup, the older request's owner as host in slot 0, the other in slot 1 |
| LobbyMail.RemovalIsTold | hpserver/handlers.go:438-461 | everybody in the game hears of a permitted removal and, but for the leaver, of the game's end if the host left; a request about an unknown game is echoed; otherwise nobody hears anything |
| LobbyMail.DisconnectionIsTold | hpserver/server.go:189-201 | those who were in the game with a disconnected session hear of its removal and, if it was the host, of the game's end |
| LobbyMail.QuietDisconnection | hpserver/server.go:189-201 | a disconnection outside any game is heard of by nobody |
| LobbySessionSteps.AllowedTargetExact | hpserver/handlers.go:421-426 | a removal or attribute change has a target exactly when caller and target are members and the caller is the target or the host |
| LobbySessionSteps.PlayerAttrsGame | hpserver/server.go:244-286 | a permitted attribute change alters nothing but the target's attributes |
| LobbyQueueSteps.CancelIsDequeue | hpserver/server.go:424-452 | cancelling succeeds exactly when the id is that of the session's queued request, and is then the same as leaving the queue |
| LobbyGames.AddMemberSpec | hpserver/game.go:69-101 | addMember takes exactly newcomers to games with room, in the least unused slot, at most the former number of members, and changes nothing else |
| LobbyGames.SlotBound | hpserver/game.go:85-93 | the pigeonhole bound on the slot search |
| LobbyGames.JoinedKeeps | hpserver/game.go:95-99 | joining keeps tables, host slot and the exactness of the (now stale) readiness snapshot |
| LobbyGames.EnsureIsIdle | hpserver/game.go:33-67 | on consistent tables ensureMembershipState changes neither slots nor join times nor states |
| LobbyGames.MemberForExact | hpserver/game.go:153-163 | with distinct personas the lookup returns the member with that persona, and nil exactly when there is none |
| LobbyGames.RemoveKeeps | hpserver/game.go:103-129 | a member other than the host leaves: roster order, tables and host slot stay consistent and the rebuilt cache covers the roster |
| LobbyGames.RefreshIsExact | hpserver/game.go:165-198 | rebuilding the cache makes it exact over the whole roster |
| LobbyGames.MeshReportKeeps | hpserver/server.go:521-565 | a report changes only mesh and cache, keeps both inside the roster, and rebuilds the cache exactly when an edge was set |
| LobbySessionSteps.NextUserIsFresh | hpserver/server.go:97-104 | nextUserID is never a persona anybody has or had |
| LobbySessionSteps.PlayingExact | hpserver/server.go:296-300 | a session is found in the game its GameID names exactly when GameID is set |
| LobbySessionSteps.DisconnectIs | hpserver/server.go:139-181 | disconnecting is leaving the queue, leaving the game if in one, and being forgotten: the search for a leftover game never finds one |
| LobbyObjects.Session.FlushNotifications | hpserver/session.go:94-115 | what waited goes out in order after what was sent, or is dropped on a closed connection |
| LobbyObjects.Session.Notify | hpserver/session.go:81-92 | the frame is appended to what goes out, unless the connection is closed |
| LobbyObjects.Session.Enqueue | hpserver/session.go:117-135 | reports whether the frame was taken |
| LobbyObjects.LiveGame.constructor | hpserver/game.go:10-31 | a new game admits its members one by one |
| LobbyObjects.LiveGame.EnsureMembershipState | hpserver/game.go:33-67 | fills in missing slots, join times and states in roster order |
| LobbyObjects.LiveGame.AddMember | hpserver/game.go:69-101 | computes the model's addMember in place, returned slot and flag included |
| LobbyObjects.LeastFree | hpserver/game.go:85-93 | the slot search finds the least unused slot |
| LobbyObjects.LiveGame.RemoveMember | hpserver/game.go:103-129 | takes the first occurrence out of roster, tables and both directions of the mesh |
| LobbyObjects.LiveGame.SessionForPlayerID | hpserver/game.go:153-163 | finds the first member with the persona |
| LobbyObjects.LiveGame.MeshReadyForPlayer | hpserver/game.go:165-186 | true exactly if every other member has status-2 edges both ways with the player |
| LobbyObjects.LiveGame.RefreshMeshReadiness | hpserver/game.go:188-198 | rebuilds the cache member by member |
| LobbyObjects.LiveGame.Report | hpserver/server.go:523-565 | enters the caller's edges target by target, skipping non-members and itself, and rebuilds the cache if any was set |
| LobbyObjects.LiveGame.Setup | hpserver/game.go:200-263 | publishes host and roster with slots and changes nothing in a consistent game |
| LobbyObjects.LiveGame.Players | hpserver/game.go:242-247 | the published player list pairs each member with its slot, in roster order |
| LobbyServer.Server.Accept | hpserver/server.go:82-84 | a new connection is idle, unauthenticated and has been sent nothing |
| LobbyServer.Server.FreePersona | hpserver/server.go:97-104 | the collision loop finds the first persona nobody holds or held |
| LobbyServer.Server.Authenticate | hpserver/server.go:86-129 | takes exactly the model's login step on identity and registries |
| LobbyServer.Server.SilentLogin | hpserver/handlers.go:645-698 | the same, and the user's own notifications follow |
| LobbyServer.Server.DropRequests | hpserver/server.go:206-218 | backward deletion in place filters the session's requests out and keeps the order of the rest |
| LobbyServer.Server.CancelQueuedMatch | hpserver/server.go:424-452 | takes exactly the model's cancel step and reports it |
| LobbyServer.Server.QueueMatch | hpserver/server.go:288-422 | takes exactly the model's matchmaking step and returns the match id |
| LobbyServer.Server.JoinOpenGame | hpserver/server.go:320-337 | the loop over the games by id computes the model's scan |
| LobbyServer.Server.FindMatch | hpserver/server.go:364-370 | finds the oldest compatible request of another session |
| LobbyServer.Server.NotifyMatchedGame | hpserver/server.go:454-502 | existing members hear of the newcomer and its joining, the newcomer of every member and then the setup |
| LobbyServer.Server.PairUp | hpserver/server.go:381-420 | takes exactly the model's pairing step |
| LobbyServer.Server.UpdateMeshConnection | hpserver/server.go:504-612 | takes exactly the model's report-and-complete step |
| LobbyServer.Server.RemoveSession | hpserver/server.go:139-201 | takes exactly the model's disconnection step |
| LobbyServer.Server.ResetDedicatedServer | hpserver/handlers.go:257-285 | takes exactly the model's hosting step |
| LobbyServer.Server.FinalizeGameCreation | hpserver/handlers.go:289-310 | clears the pending admission and announces the named, pending or current game |
| LobbyServer.Server.SetPlayerCapacity | hpserver/handlers.go:386-404 | sets the capacity of a registered game and tells its members, or the sender |
| LobbyServer.Server.SetGameAttributes | hpserver/handlers.go:346-362 | replaces the attributes of a registered game and tells its members, or the sender |
| LobbyServer.Server.BroadcastPlayerAttributes | hpserver/server.go:244-286 | merges a member's attributes, asked for by itself or the host, and tells the members; echoes to the sender when the game is unknown; otherwise nothing changes |
| LobbyServer.Server.RemovePlayer | hpserver/handlers.go:408-461 | takes exactly the model's removal step |
| LobbyServer.Server.Broadcast | hpserver/server.go:220-242 | every member gets the frame once, or the sender if there are none |
| TdfVarint.RoundTrip | Fire2Encoder.go:254-278 | decoding an encoded int64, -2^63 included, gives it back and consumes exactly its bytes, whatever follows |
| TdfVarint.LengthBounds | Fire2Encoder.go:254-278 | an encoding has 1 to 10 bytes |
| TdfVarint.Shortest | Fire2Encoder.go:254-278 | its length is the least that fits the magnitude |
| TdfVarint.LastByteNonzero | Fire2Encoder.go:254-278 | an encoding of several bytes never ends in zero |
| TdfWire.IntegerBits | Fire2Encoder.go:254-278 | six bits of magnitude and the sign in the first byte, seven bits in each later one, the continuation bit on all but the last |
| TdfWire.TagBits | Fire2Encoder.go:233-243 | a tag's three bytes are its four six-bit codes, the first most significant |
| TdfWire.TagsIgnoreCase | Fire2Encoder.go:237-239 | lower-case letters are written as upper-case ones |
| TdfWire.FieldShapes | Fire2Encoder.go:92-187 | a field is its tag, its type's code and a body in that type's shape |
| TdfWire.ListShape | Fire2Encoder.go:118-135 | a list is its elements' type, their number and their bodies in order |
| TdfWire.CodesDecide | Fire2Decoder.go:33-64 | each type code yields its own kind of value; 11 reads as an integer, 12 as a variable, anything above 12 is refused |
| TdfWire.BadLengths | Fire2Decoder.go:113-119 | strings shorter than their terminator fail, negative blob lengths panic, lengths past the buffer fail |
| TdfWire.BadCounts | Fire2Decoder.go:127-180 | a negative list count panics, a negative map count reads as an empty map |
| TdfWire.StructEnds | Fire2Decoder.go:253-275 | a struct ends with its terminator or its buffer; one cut inside a field's head fails with what was read |
| TdfWire.UnterminatedVariables | Fire2Decoder.go:244-247 | a variable without its terminator reads the same |
| TdfVarint.MagnitudeBelowShift | Fire2Decoder.go:80-95 | the accumulator stays below the next shift, so the bitwise or is an addition |
| TdfTags.TagRoundTrip | Fire2Decoder.go:10-30 | decoding an encoded tag gives it back |
| TdfTags.FieldTagTopBit | Fire2Encoder.go:233-243 | a field's tag opens with a byte of at least 0x80 |
| TdfTags.TagOrder | Fire2Encoder.go:233-243 | packed tags compare exactly as the strings do |
| Ordering.SortedIsUnique | Fire2Logging.go:70-78 | a sorted listing of a key set is determined by the set |
| TdfOrder.FieldsInTagOrder | Fire2Encoder.go:75-90 | a struct's bytes are its nonempty fields in strictly increasing 24-bit tag order, each opening with a byte of at least 0x80, and a terminator below the root |
| TdfRoundTrip.ValueRoundTrip | Fire2Encoder.go:92-187 | every well-formed value, followed by anything, is read back normalised from exactly its own bytes |
| TdfRoundTrip.ItemRoundTrip | Fire2Decoder.go:139-150 | the armed-element lookahead takes an arm for an arm, and neither a tag nor an empty struct for one |
| TdfRoundTrip.PacketRoundTrip | Fire2Decoder.go:253-275 | readStruct undoes encodeStruct up to normalisation: nested, whatever follows, consuming exactly the encoding; at the root, consuming everything |
| TdfReencode.Reencode | Fire2Encoder.go:75-90 | encoding what was decoded gives the packet back byte for byte if and only if its typed lists are nonempty and none is a map's value |
| TdfReencode.LeafStays | Fire2Encoder.go:217-231 | the announced map value type survives decoding exactly for values that are not typed lists |
| TdfDecoder.ReadValue | Fire2Decoder.go:105-250 | terminates on every buffer and never consumes more than it has |
| TdfDecoder.ReadStruct | Fire2Decoder.go:253-275 | likewise for structs |
| TdfDecoder.ReadElement | Fire2Decoder.go:278-289 | likewise for elements |
| TdfLoops.EncodeVarsizeInteger | Fire2Encoder.go:254-278 | the loop computes the encoding |
| TdfLoops.DecodeVarsizeInteger | Fire2Decoder.go:75-102 | the loop computes value and count, on truncated and overlong input too |
| TdfLoops.EncodeTagBytes | Fire2Encoder.go:233-243 | the loop packs the characters |
| TdfLoops.DecodeTagBytes | Fire2Decoder.go:10-30 | the backward loop gives the characters before the first zero |
| TdfLoops.DecodeValue | Fire2Decoder.go:105-250 | dispatches on the type and computes ReadValue, panics and failures included |
| TdfLoops.DecodeString | Fire2Decoder.go:113-119 | a length below one or past the buffer fails, one past the integers' end panics, otherwise all but the terminator |
| TdfLoops.DecodeBlob | Fire2Decoder.go:182-189 | a negative length panics, one past the buffer fails |
| TdfLoops.DecodeUnion | Fire2Decoder.go:212-226 | an invalid member carries nothing, any other an element |
| TdfLoops.DecodeVariable | Fire2Decoder.go:228-247 | presence, id, element, and the terminator if it is there |
| TdfLoops.DecodeElement | Fire2Decoder.go:278-289 | tag, type and value |
| TdfLoops.DecodeStruct | Fire2Decoder.go:253-275 | the field loop computes ReadStruct, partial results included |
| TdfLoops.DecodeItems | Fire2Decoder.go:131-156 | the element loop with its lookahead computes ReadItems |
| TdfLoops.DecodeEntries | Fire2Decoder.go:167-180 | the entry loop computes ReadEntries |
| TdfLoops.WriteStruct | Fire2Encoder.go:75-90 | the loop over sorted tags computes EncodeStruct |
| TdfLoops.WriteBody | Fire2Encoder.go:92-187 | computes every value's body, running the loops of nested structs, lists and maps wherever they sit |
| TdfLoops.WriteItems | Fire2Encoder.go:122-134 | the element loop computes the items' bytes |
| TdfLoops.WriteMap | Fire2Encoder.go:137-149 | the loop over sorted keys computes a map's body |
| Fire2.FireRoundTrip | Fire2.go:62-133 | Fire2Decoder undoes EncodePacket: header with sizes, normalised payload and metadata, raw payload, and the error that ERRC or the message type reports |
| Fire2.ErrorsAreReported | Fire2.go:97-104 | the decoded packet has an error exactly if it is an error reply or its metadata carries an ERRC that is non-zero in its low 32 bits; the error has the header's component and those bits |
| Fire2.HeaderLayout | Fire2Encoder.go:288-298 | where each field of the header is, most significant byte first |
| Fire2.PacketLayout | Fire2Encoder.go:300-305 | header, metadata, payload, with their sizes in the header |
| Fire2.AnyContents | Fire2.go:88-114 | metadata that does not read keeps what was read, a payload that does not read is nil, the payload bytes are kept |
| Fire2.ShortBuffers | Fire2.go:62-91 | a short header gives no packet; metadata past the buffer panics |
| Fire2.Decode | Fire2.go:62-133 | popping field by field computes the parsed packet, short buffers and panics included |
| Fire2.EncodePacket | Fire2Encoder.go:280-305 | header, metadata and payload, in that order |
| Fire2.FillHeader | Fire2Encoder.go:288-298 | the header filled in place has every field in its bits |
| Fire2.BuildRawFrame | Fire2.go:148-159 | a header for the raw payload, then the payload |
| Fire2.RawFrameArrives | Fire2.go:148-159 | a raw frame decodes to its header and its payload bytes, or the decoder panics on the payload |
| LegacyFrame.HeaderRoundTrip | legacyfire/frame.go:12-41 | ParseHeader undoes MarshalBinary |
| LegacyFrame.HeaderIsBijective | legacyfire/frame.go:12-41 | and the other way round, on every 12 bytes |
| LegacyFrame.HeaderLayout | legacyfire/frame.go:12-24 | where each field of the header is, most significant byte first |
| LegacyFrame.MarshalBinary | legacyfire/frame.go:12-24 | the buffer filled in place is the header |
| LegacyFrame.Write | legacyfire/frame.go:74-101 | refuses payloads over 65535 bytes before sending; else sets the size and hands the writer exactly the frame, however little it takes at a time, or a prefix, which happens only if the writer fails or takes nothing |
| LegacyFrame.WriteFrames | hpserver/server.go:657-690 | frames written one after another to a writer that does not give out leave exactly the concatenation that FramesArrive reads back; otherwise whole frames and a prefix of the next |
| Transport.WriteFully | legacyfire/frame.go:83-97 | the shrinking-packet loop writes everything once and in order, and stops early only if the writer fails or takes nothing of what it is offered |
| LegacyFrame.Read | legacyfire/frame.go:43-72 | consumes exactly one frame and decodes its payload; short streams and panics included |
| LegacyFrame.AnswerArrives | legacyfire/frame.go:103-117 | a reply or error reply, written and read back, carries its request's component, command and id, and its own type, code and payload |
| LegacyFrame.FramesArrive | legacyfire/frame.go:43-101 | reading a concatenation of frames of any number and content gives back every header and payload and stops where they end; it crashes exactly when some payload makes the decoder panic |
| LegacyFrame.TdfArrives | legacyfire/frame.go:61-69 | a payload that is a nonempty encoding of well-formed fields arrives as the fields, normalised |
| Records.OpenSeal | legacytls/conn.go:355-452 | a sealed record opens to its plaintext on the state that sealed it, both ends move to the same state, and the record is within 18432 bytes |
| RecordMac.TlsMac | legacytls/conn.go:483-489 | whatever the HMAC, a TLS 1.0 record's MAC is that of its sequence number, type, version 3.1, length and fragment, in this order and width |
| RecordMac.Ssl3Mac | legacytls/conn.go:456-480 | whatever the hash, an SSL 3.0 record's MAC nests it over key, padding of the right length, and sequence number, type, length and fragment |
| RecordMac.ForgeryIsRefused | legacytls/conn.go:382-396 | no part can be left out: for every two records that differ in sequence number, type or plaintext there is a suite under which the one's MAC on the other is refused |
| RecordMac.RecordHeader | legacytls/conn.go:416-417 | a record is its type, version and length, most significant byte first, and its body |
| RecordMac.MessageHeader | legacytls/conn.go:491-502 | a handshake message is its type, its 24-bit length and its body |
| RecordRules.RecordsAreChecked | legacytls/conn.go:357-379 | a record of another version is refused but for an SSL 3.0 handshake record as the first, one over 18432 bytes is refused, one cut short ends the stream |
| RecordRules.ShortRecordsAreRefused | legacytls/conn.go:385-388 | an encrypted record shorter than a MAC is refused |
| RecordRules.OtherRecords | legacytls/conn.go:72-88 | an alert with description 0 closes, another is the peer's, any other type is unexpected |
| RecordRules.EmptyRecords | legacytls/conn.go:67-75 | an empty data record is passed over |
| Records.WriteLinks | legacytls/conn.go:94-123 | a Write of any size adds exactly its bytes to what is in flight |
| Records.ReadLinks | legacytls/conn.go:58-92 | a Read with something in flight never fails, delivers the next bytes, and at least one if asked for any |
| Records.StreamIsFaithful | legacytls/conn.go:58-123 | over any interleaving of Writes and Reads of any sizes what is delivered is a prefix of what was written, and with nothing in flight it is all of it and both ends agree on sequence number and keystream position |
| Records.StreamDrains | legacytls/conn.go:58-123 | after any such run, reads that each ask for at least a byte, as many as there are bytes undelivered, deliver everything and leave both ends in the same state |
| Records.FlightSplits | legacytls/conn.go:491-526 | a flight of handshake messages splits back into them |
| Records.SplitIsConcat | legacytls/conn.go:504-526 | whatever splits is the concatenation of its parts |
| RecordLayer.XORKeyStream | legacytls/conn.go:447-448 | the buffer is combined with the keystream in place |
| RecordLayer.Conn.WriteRawRecord | legacytls/conn.go:414-436 | the transport gets the record; a prefix only if it gives out |
| RecordLayer.Conn.WriteRecord | legacytls/conn.go:438-452 | MAC, encryption, next sequence number; the transport gets the record, a prefix only if it gives out |
| RecordLayer.Conn.Write | legacytls/conn.go:94-123 | the loop sends exactly the records of the stream and fails only if the transport gives out; then it has sent a prefix and counts the chunks sent whole |
| RecordLayer.Conn.ReadRecord | legacytls/conn.go:355-412 | opens one record in place, with every error case and the SSL 3.0 exception for the first |
| RecordLayer.Conn.Read | legacytls/conn.go:58-92 | takes records until there is something to deliver, closes on a close alert, and keeps what the buffer does not take |
| RecordLayer.SplitMessages | legacytls/conn.go:504-526 | the loop computes the split |
| RecordLayer.HandshakeMessage | legacytls/conn.go:491-502 | the buffer filled in place is the message |

## Left out

- Sockets, goroutines, timers, the notification delay, logging, the Autolog HTTP handler and `cmd/hpserver/main.go`; `outbound` is a sequence that never fills.
- Handlers that only acknowledge or return constants, and those that touch no modelled field (advanceGameState, setGameSettings, replayGame, updateNetworkInfo).
- Frames of the lobby appear as the facts they carry (persona, slot, game, roster); their other fields and their TDF bytes are not tied to `TdfEncoder`.
- `getMatchmakingCapacity` and `getMatchmakingTopology`: a request's capacity and topology are inputs.
- LobbyServer.Server.SetPlayerCapacity: the list's elements are integers; the source ignores a first element of another type.
- LobbyServer.Server.QueueMatch: attribute values are strings; the source compares values of any type and panics on uncomparable ones.
- LobbyServer.Server.RemoveSession: deletes from the registries after the roster instead of before it, inside the same critical section; the leftover search goes by id where the source ranges over the map.
- LobbyObjects.LiveGame.Setup: carries host and roster; the other fields of GAME are not modelled.
- Identifier arithmetic at 2^63 and sequence-number exhaustion of the counters.
- The Encoder builder (`Integer` to `EndStruct`, `coerce`): a packet's payload is given as a value, so sharing between the builder's maps is not modelled.
- TdfDecoder.ReadValue: a count of elements too large to allocate is not a panic in the model, and float map keys are compared by their bits.
- TdfEncoder.LeafType: for a map inside a map value Go's iteration order decides; the model takes the first key in sorted order. Well-formed values never get there.
- Fire2.Decode: slices have no capacity beyond their length, so metadata longer than the buffer always panics.
- `formatPayload`, `FindTagInt`, `BuildMetadata`.
- The TLS handshake's message exchange, key derivation (`prf`, `pHash`, `ssl3Generate`), certificates, and the bodies of RC4, MD5, SHA-1, HMAC and RSA.
