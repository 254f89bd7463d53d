# kerux room-event core in Dafny

This project models the room-event core of kerux, a Matrix homeserver, and
proves properties of the model. It covers four groups of code:

- **Authorisation and state resolution.** `auth_check_v1` (the room
  version 1 authorisation rules of the Matrix Server-Server API) is the
  function `Auth.AuthCheckV1` over a state map and an event store. The
  client-side pre-checks of `StorageExt::add_event` are in `AddEvent`.
  State resolution v2 (`StateResolver::resolve_v2`) is in `StateRes`,
  `ResOrder` and `AuthChain`. `resolve_v2` is a pure function
  `StateRes.Resolve` with a fuel bound on its recursion through prev
  events. The loops of the source are methods proved equal to their
  specification functions: the partition, auth chains, auth difference,
  the reverse topological power ordering, the mainline walk and sort, and
  the iterative auth checks.
- **Event-graph bookkeeping in the storage backends.** The in-memory store
  is the class `MemStore.MemStorage`. The sled store is the class
  `SledStore.SledStorage`, whose trees are `map` fields. The shared query
  filter `EventQuery::matches` is `Query.Matches`.
- **Event construction and identity.** `finalize`, `redact`, `event_id`
  and `to_client_format` of room version 4 are in `Events`. SHA-256,
  canonical JSON and unpadded URL-safe base64 are one function parameter
  `hash: Json -> string`. The proofs say which fields an event id does and
  does not depend on. The room-creation chain of `create_room` is
  `CreateRoom.CreateRoomEvents`, and the power-level defaults are in
  `RoomContent`.
- **Small parsers and mappings.** Matrix-ID handling is in `Mxid`. Bearer
  token extraction (section 2.1 of RFC 6750), login identifiers and the
  `kind=` dispatch of registration are in `ClientAuth`. The error-kind to
  HTTP status and errcode mapping is in `Errors`.

Storage lookups such as `get_pdu` and `get_content` read a map from event
id to stored PDU, passed in as an argument. A panic of the source
(`unwrap`, `expect`, `unimplemented!`, `assert!`) is an error value that
carries the panic message. The exception is where the source's own
contract is an unwrap of the caller's argument; there it is a `requires`.
Randomness, the clock and the database's I/O errors are parameters or are
left out. Module by module:

- `wrappers.dfy` (module `Wrappers`): `Option` and `Result`
- `json.dfy` (module `Json`): JSON values, as read by `content_as_json` and the hashes
- `mxid.dfy` (module `Mxid`): src/util/mxid.rs
- `room_content.dfy` (module `RoomContent`): src/events/room.rs
- `events.dfy` (module `Events`): src/events/room_version/v4.rs, src/events/pdu.rs
- `errors.dfy` (module `Errors`): src/error.rs
- `client_auth.dfy` (module `ClientAuth`): src/client_api/auth.rs
- `uuid.dfy` (module `Uuid`): the UUID text forms used by the tokens
- `query.dfy` (module `Query`): src/storage/mod.rs
- `state.dfy` (module `RoomState`): src/state/mod.rs (`State`)
- `auth.dfy` (module `Auth`): src/validate/auth.rs
- `res_order.dfy` (module `ResOrder`): src/state/mod.rs (`mainline_cmp` and the sort orders)
- `auth_chain.dfy` (module `AuthChain`): src/state/mod.rs (`auth_chains`, `auth_difference`)
- `state_res.dfy` (module `StateRes`): src/state/mod.rs (`resolve_v2` and its steps)
- `add_event.dfy` (module `AddEvent`): src/util/storage.rs
- `mem_storage.dfy` (module `MemStore`): src/storage/mem.rs
- `sled_storage.dfy` (module `SledStore`): src/storage/sled.rs
- `create_room.dfy` (module `CreateRoom`): src/client/room.rs

## Model

| member | source | states |
|---|---|---|
| Mxid.New | src/util/mxid.rs:4-6 | the id is `@`, the username, `:`, the domain, in that order and nothing else |
| Mxid.Username | src/util/mxid.rs:8-10 | the username never holds a `:` and never starts with `@` (all leading `@` are stripped) |
| Mxid.Domain | src/util/mxid.rs:12-14 | the domain is absent (the `unwrap` panics) exactly when the id has no `:`, and never holds a `:` |
| Mxid.UsernameOfNew | src/util/mxid.rs:4-10 | `username(new(u, d)) == u` for a `u` without `:` and not starting with `@` |
| Mxid.DomainOfNew | src/util/mxid.rs:4-6 | `domain(new(u, d)) == d` when neither part holds a `:` |
| Mxid.DomainDropsPort | src/util/mxid.rs:12-14 | a domain `host:port` comes back as `host` alone: the port is lost |
| RoomContent.ParseMembership | src/events/room.rs:128-136 | the snake_case names of the five memberships parse back to exactly their variant, and nothing else parses |
| RoomContent.ParseJoinRule | src/events/room.rs:27-34 | the snake_case names of the four join rules parse back to exactly their variant, and nothing else parses |
| RoomContent.ParseHistoryVisibility | src/events/room.rs:42-49 | each history visibility name parses to exactly its variant |
| RoomContent.ParseGuestAccess | src/events/room.rs:57-62 | each guest access name parses to exactly its variant |
| RoomContent.DefaultPowerLevels | src/events/room.rs:94-117 | ban, invite, kick, redact, state_default and users_default are 50, events_default is 0, the event and user maps are empty, notifications.room is 50 |
| Errors.StatusCode | src/error.rs:74-87 | the status is one of 400, 403, 404, 429, 500, 501, and each status holds for exactly its family of kinds |
| Errors.Errcode | src/error.rs:88-103 | every kind gets exactly one errcode; the not-found family shares `M_NOT_FOUND`, seven kinds share `M_UNKNOWN` |
| Errors.ErrorResponse | src/error.rs:104-110 | the response carries the status code and a JSON object with exactly `errcode` and `error` |
| Errors.ServerErrorsAreUnknown | src/error.rs:84-85 | every 5xx kind is reported as `M_UNKNOWN` |
| Errors.SpecificErrcodeFixesStatus | src/error.rs:77-103 | two errors with the same specific errcode have the same status |
| Errors.FromJsonError | src/error.rs:137-145 | a data-category JSON error becomes BadJson, any other becomes NotJson, with the message kept |
| Errors.FromUtf8Error | src/error.rs:115-125 | a UTF-8 error becomes NotJson with its message |
| Errors.FromJsonPayloadError | src/error.rs:127-135 | a deserialize failure converts as a JSON error; any other payload error becomes Unknown |
| Errors.BodyErrorsAreBadRequest | src/error.rs:115-145 | every request-body error ends up as a 400, and a deserialize failure as `M_BAD_JSON` or `M_NOT_JSON` |
| Errors.IntoError | src/error.rs:17-22 | the blanket conversion wraps the converted kind unchanged; an add-event error is a 500 |
| Events.GetType | src/events/room_version/v4.rs:12-13 | the serialised `type` of the flattened content names its typed variant and only that one; custom types are never one of the known names |
| Events.RedactContent | src/events/room_version/v4.rs:107 | redacting content keeps its type, a member event's membership and a create event's creator |
| Events.RedactContentIdempotent | src/events/room_version/v4.rs:107 | redacting content twice is redacting it once |
| Events.Finalize | src/events/room_version/v4.rs:67-88 | every field of the unhashed PDU is carried across unchanged and the signatures are an empty map |
| Events.FinalizeIgnoresUnsigned | src/events/room_version/v4.rs:19-20 | `unsigned` is skipped when hashing, so changing it leaves `hashes.sha256` as it was |
| Events.Redact | src/events/room_version/v4.rs:105-121 | the content is redacted, unsigned and redacts are cleared, and every other field, hashes and signatures included, is kept |
| Events.RedactIdempotent | src/events/room_version/v4.rs:105-121 | redacting a PDU twice is redacting it once |
| Events.EventId | src/events/room_version/v4.rs:123-134 | the id is `$` followed by the hash of the redacted PDU without signatures |
| Events.EventIdIgnoresUnhashedParts | src/events/room_version/v4.rs:123-134 | PDUs differing only in unsigned, redacts or signatures have the same id |
| Events.EventIdSeparatesGraphFields | src/events/room_version/v4.rs:123-134 | with a collision-free hash, PDUs differing in depth, prev_events or auth_events have different ids |
| Events.ToClientFormat | src/events/room_version/v4.rs:93-103 | content, sender, state_key, unsigned, redacts and origin_server_ts are kept; room_id and the timestamp are wrapped in `Some` |
| Query.IsState | src/storage/mod.rs:119-133 | `is_state` holds exactly when `is_timeline` does not: the two are exclusive and exhaustive |
| Query.Matches | src/storage/mod.rs:70-116 | a PDU matches iff (for a state query) it has a state key that is not excluded and is listed when a list is given, its sender and its type each pass their exclusion list and non-empty inclusion list, and its content holds every pair of `contains_json` |
| Query.ContentContains | src/storage/mod.rs:106-113 | the `contains_json` loop accepts exactly when every key of the pattern is in the content with an equal value |
| Query.ExclusionWins | src/storage/mod.rs:34-47 | a sender or type on an exclusion list is never matched, whatever the inclusion lists say |
| Query.StateQueryNeedsStateKey | src/storage/mod.rs:75-86 | a state query never matches an event without a state key |
| Query.StateEventQuery | src/storage/mod.rs:302-322 | the query `get_state_event` builds matches exactly the events with that type and state key |
| Query.LastMatch | src/storage/mod.rs:320 | `pop` on the matches gives the last matching position, and nothing after it matches; none exactly when nothing matches |
| Query.GetStateEvent | src/storage/mod.rs:302-322 | the result has the asked type and state key and is the latest such event of the timeline; none exactly when no event has them |
| Query.GetMembership | src/storage/mod.rs:225-250 | a membership is reported exactly when there is a member event about the user, and it is the membership of the latest one |
| ClientAuth.HeaderText | src/client_api/auth.rs:32 | `to_str` succeeds exactly on a header of visible ASCII bytes and gives back those characters |
| ClientAuth.TrimStartMatches | src/client_api/auth.rs:36 | every leading repetition of the prefix is removed: the result is a suffix that no longer starts with it |
| ClientAuth.Split | src/client_api/auth.rs:38 | the pieces hold no separator and joined back with it give the query string |
| ClientAuth.FindPrefixed | src/client_api/auth.rs:38 | the found pair is the first one with the prefix; none exactly when no pair has it |
| ClientAuth.ExtractAccessToken | src/client_api/auth.rs:29-49 | a header that is not text or lacks `Bearer ` is MissingToken; a header token is what follows the stripped `Bearer ` prefixes, and the call succeeds exactly when that text parses, UnknownToken otherwise; with no header, no query or no `access_token` pair is MissingToken, and the first such pair after `access_token=` succeeds exactly when it parses, UnknownToken otherwise; the only errors are MissingToken and UnknownToken |
| ClientAuth.HeaderWins | src/client_api/auth.rs:31-38 | with an Authorization header present, the query string makes no difference |
| ClientAuth.BearerHeader | src/client_api/auth.rs:31-37 | a `Bearer ` header yields exactly the UUID parse of the text after the prefix |
| ClientAuth.BearerTokenRoundTrip | src/client_api/auth.rs:31-37 | the header `Bearer ` plus a hyphenated token yields that token |
| ClientAuth.RepeatedBearerAccepted | src/client_api/auth.rs:36 | because all repetitions of the prefix are stripped, `Bearer Bearer <token>` is accepted too |
| ClientAuth.FirstQueryPairDecides | src/client_api/auth.rs:38-40 | the first `access_token` pair decides, whatever follows it |
| ClientAuth.QueryTokenRoundTrip | src/client_api/auth.rs:38-40 | `access_token=<hyphenated token>` as the first pair yields that token |
| ClientAuth.LongerNameShadowsToken | src/client_api/auth.rs:38-39 | a first pair named `access_tokens` is taken for the token pair and gives UnknownToken |
| ClientAuth.LoginUser | src/client_api/auth.rs:113-123 | non-user identifiers and a missing password are Unimplemented; a Matrix id becomes its localpart; any other text is used verbatim |
| ClientAuth.LoginFullIdIsLocalpart | src/client_api/auth.rs:113-120 | logging in as `@u:d` names the user `u` |
| ClientAuth.Login | src/client_api/auth.rs:105-144 | a user name no stored user has, or a password the stored hash refuses, is Forbidden and issues nothing; login succeeds exactly when `verify_password` accepts, and then a token is issued to the user, authenticates as that user, and comes back hyphenated with the user's Matrix id and the given or random device id |
| ClientAuth.RegisterKind | src/client_api/auth.rs:182-188 | only a first `kind=` pair of `kind=user` proceeds; `kind=guest` is Unimplemented, any other such pair InvalidParam of that pair, none MissingParam("kind") |
| ClientAuth.FirstKindPairDecides | src/client_api/auth.rs:183-185 | a first `kind=guest` pair is Unimplemented whatever follows it |
| Uuid.Hyphenated | src/client_api/auth.rs:136 | the hyphenated form has 36 characters, hyphens at positions 8, 13, 18, 23 and hex digits elsewhere |
| Uuid.Parse | src/client_api/auth.rs:36 | only 32-, 36- or 45-character text parses: 32 characters exactly when all are hex digits, which parse to themselves; 36 characters as the hyphenated form; 45 characters only after `urn:uuid:`, as the hyphenated form that follows |
| Uuid.ParseHyphenated | src/client_api/auth.rs:36 | parsing the hyphenated form gives the token back |
| Uuid.ParseUrn | src/client_api/auth.rs:36 | parsing the URN form `urn:uuid:` + hyphenated gives the token back |
| Uuid.HyphenatedInjective | src/storage/sled.rs:357 | different tokens have different hyphenated forms |
| Auth.GetPdu | src/validate/auth.rs:24 | a stored id gives its PDU; a missing one is the `expect` panic |
| Auth.GetContent | src/state/mod.rs:27-34 | an empty entry gives none; a filled one gives the content of the event it names, which has the asked type, and any other outcome panics |
| Auth.MembershipOf | src/validate/auth.rs:71-72 | the membership comes from the user's member entry exactly when reading that entry succeeds and finds one |
| Auth.AuthEventKeys | src/validate/auth.rs:22-26 | the map of auth events exists iff every auth event is stored and is a state event, and its keys are exactly their (type, state key) pairs |
| Auth.RoomIdDomain | src/validate/auth.rs:14 | the text after the first `:` of the room id; none exactly when there is no `:` |
| Auth.Verdict | src/validate/auth.rs:5 | the boolean result read as a two-valued status: Pass exactly for true |
| Auth.LevelsInForce | src/validate/auth.rs:41-43 | a state without a create entry panics; otherwise the levels are the state's power levels or the creator-derived defaults |
| Auth.AuthCheckV1 | src/validate/auth.rs:5-313 | a create event is judged by the create rule alone; any other verdict needs every auth event stored and state, and a Pass needs the create event among them |
| Auth.GetContentSound | src/state/mod.rs:27-34 | on a state whose entries name stored events of their own type, reading an entry never panics and finds that event's content |
| Auth.Membership | src/validate/auth.rs:71-72 | on such a state, a user's membership is the one their member entry records |
| Auth.JoinRuleOf | src/validate/auth.rs:80-81 | on such a state, the join rule is the one its join-rules entry records, if any |
| Auth.LevelsOf | src/validate/auth.rs:41-43 | the levels in force are the state's power-levels content when there is one, else the creator-derived defaults |
| Auth.PreparedDispatch | src/validate/auth.rs:22-45 | past the preliminary rules, a member event gets the membership rules' verdict and any other event the general rules' verdict, under the levels in force |
| Auth.CreateRule | src/validate/auth.rs:10-20 | a create event passes iff it has no prev events and the sender's domain is the room id's domain |
| Auth.NoCreateRejected | src/validate/auth.rs:28-30 | a non-create event whose auth events hold no create entry fails |
| Auth.JoinMembershipRule | src/validate/auth.rs:47-91 | a join for someone else fails; on top of the create event alone only the creator passes; otherwise a banned sender fails, and the join passes iff the room is public, or invite-only with the sender joined or invited |
| Auth.InviteMembershipRule | src/validate/auth.rs:92-119 | an invite passes iff the sender is joined, the target is neither joined nor banned, and the sender has the invite level |
| Auth.SelfLeaveRule | src/validate/auth.rs:120-131 | leaving oneself passes iff one is joined or invited |
| Auth.KickRule | src/validate/auth.rs:133-159 | removing someone else passes iff the sender is joined, has the ban level when the target is banned, has the kick level, and is strictly above the target |
| Auth.BanRule | src/validate/auth.rs:160-180 | a ban passes iff the sender is joined, has the ban level and is strictly above the target |
| Auth.OtherEventRule | src/validate/auth.rs:185-210 | any other event passes only from a joined sender at the level its type requires, with a state key starting with `@` equal to the sender |
| Auth.PowerLevelsRule | src/validate/auth.rs:212-298 | with no power-levels entry in the state the event passes; otherwise it passes iff no threshold or entry the sender is not entitled to is added, changed or removed |
| Auth.RedactionRule | src/validate/auth.rs:300-310 | a redaction that passes the general rules passes iff the sender has the redact level |
| Auth.NoSelfPromotion | src/validate/auth.rs:271-281 | no one can raise their own level above what they hold |
| Auth.NoChangingPeers | src/validate/auth.rs:283-287 | no one can change the level of another user standing at their own level |
| Auth.UnchangedLevelsAllowed | src/validate/auth.rs:212-297 | re-sending the levels in force is always allowed |
| AddEvent.RoomPowerLevels | src/util/storage.rs:61-74 | the levels and their event id come from the current power-levels event when there is one, else from the creator-derived defaults with no id; RoomNotFound exactly when the room has neither event |
| AddEvent.ValidateMemberEvent | src/util/storage.rs:120-202 | a missing or non-Matrix-id state key is InvalidEvent; a join for someone else is InvalidEvent, the banned get UserBanned, the joined and invited pass, others need a public room or get UserNotInvited; leave, ban and invite need the sender joined (else UserNotInRoom), and kicking someone else, banning and inviting need the kick, ban and invite level (else InsufficientPowerLevel) |
| AddEvent.CheckEvent | src/util/storage.rs:57-100 | a room without levels is RoomNotFound; member events get the member rules; other events need the sender joined (else UserNotInRoom) and at the event's level (else InsufficientPowerLevel); the auth events are the power-levels event id when there is one, else none |
| AddEvent.AddEvent | src/util/storage.rs:57-103 | an unknown room and a rejected event leave the store unchanged; an accepted event is appended by `add_event_unchecked` with the chosen auth events and its id is returned |
| RoomState.Key | src/state/mod.rs:18-20 | the key is the (event type, state key) pair |
| RoomState.EntryOf | src/state/mod.rs:38 | the entry a state event occupies is its type with its state key |
| RoomState.WithEvent | src/state/mod.rs:36-41 | the event's own entry now names its id, the other entries are unchanged, and no other entry appears |
| RoomState.WithEventIdempotent | src/state/mod.rs:36-41 | inserting the same event twice is inserting it once |
| RoomState.WithEventCommutes | src/state/mod.rs:36-41 | events for different entries can be inserted in either order |
| RoomState.State.constructor | src/state/mod.rs:66-70 | a state holds its room id and the entries it is given |
| RoomState.State.Get | src/state/mod.rs:22-25 | an entry's id when the key is present; none exactly when it is absent |
| RoomState.State.InsertEvent | src/state/mod.rs:36-41 | the entries become `WithEvent` of the old ones, so `get` of the event's key then gives its id |
| ResOrder.MainlineCmp | src/state/mod.rs:422-441 | a panic exactly on a full tie of position, timestamp and id; otherwise never Equal |
| ResOrder.MainlineCmpIsKeyOrder | src/state/mod.rs:422-441 | `mainline_cmp` is the order of the key (position descending, then timestamp, then id): Less and Greater exactly when one key is smaller, a panic exactly on equal keys |
| ResOrder.SortSet | src/state/mod.rs:238 | the sorted list holds every id of the set once, in strictly ascending key order |
| AuthChain.Reach | src/state/mod.rs:258-274 | the ids reachable from the inputs through one or more auth-event hops |
| AuthChain.Visit | src/state/mod.rs:263-270 | one visit collects exactly the popped event's auth events and queues exactly those not collected before |
| AuthChain.PathsExtend | src/state/mod.rs:263-270 | a newly collected auth event gets a walk from the inputs: the walk to the visited event plus one hop |
| AuthChain.AuthChains | src/state/mod.rs:258-274 | the worklist walk succeeds iff every event it meets is stored, and then returns exactly the ids reachable in one or more hops; otherwise the `expect` panic |
| AuthChain.UnionAll | src/state/mod.rs:294 | the fold of unions holds exactly the ids in some set |
| AuthChain.IntersectAll | src/state/mod.rs:286-293 | the fold of intersections from the first set holds exactly the ids in every set |
| AuthChain.ChainsOf | src/state/mod.rs:281-284 | the i-th chain is the auth chain of the i-th event |
| AuthChain.AuthDifferenceSpec | src/state/mod.rs:276-297 | one event has an empty auth difference; for two or more it exists iff every event's chain is stored |
| AuthChain.AuthDifferenceMembers | src/state/mod.rs:276-297 | an id is in the auth difference iff it is in some event's auth chain and missing from another's |
| AuthChain.CollectChains | src/state/mod.rs:281-284 | the loop collects the auth chain of every event in order, and fails with the walk's error as soon as one chain meets a missing event |
| AuthChain.AuthDifference | src/state/mod.rs:276-297 | the method computes `AuthDifferenceSpec`, the empty list being the `assert_ne!` failure |
| StateRes.PowerEventByType | src/state/mod.rs:388-396 | a power event is exactly a power-levels or join-rules event, or a leave or ban whose state key is not the sender |
| StateRes.AuthTypesForEvent | src/state/mod.rs:398-420 | a create event needs no auth entries; every other event needs exactly the create, sender-member and power-levels entries, plus for a member event its target's member entry and, exactly for join or invite, the join rules; nothing else is read; a member event without a state key panics |
| StateRes.AuthCheckReadsOnlyAuthTypes | src/state/mod.rs:365-379 | two states that agree on an event's auth types give the same auth verdict, which is why the frankenstate only has to fill those entries |
| StateRes.MemberCheckReadsOnlyAuthTypes | src/validate/auth.rs:44-183 | the membership rules give the same verdict on two states that agree on the sender's and the target's membership and, for a join, on the join rules |
| StateRes.Unconflicted | src/state/mod.rs:132-141 | an entry is unconflicted exactly when the branch states hold one event id for it, and it maps to that id |
| StateRes.Conflicted | src/state/mod.rs:132-141 | the conflicted set holds exactly the ids of entries on which the branch states hold two or more ids |
| StateRes.AgreeingBranchesUnconflicted | src/state/mod.rs:123-137 | an entry on which every branch holding it agrees is unconflicted, with that id |
| StateRes.DisagreeingBranchesConflict | src/state/mod.rs:123-140 | two branches disagreeing on an entry make it conflicted, and both ids join the conflicted set |
| StateRes.AddBranch | src/state/mod.rs:125-130 | adding one branch state to the state set adds each of its ids under its entry and keeps the rest |
| StateRes.BuildStateSet | src/state/mod.rs:123-131 | the loop builds, for every entry, the set of ids the branch states hold for it |
| StateRes.PartitionMatches | src/state/mod.rs:132-141 | splitting the state set by set size gives exactly the unconflicted map and conflicted set |
| StateRes.PartitionStates | src/state/mod.rs:123-141 | step 1's loops compute the unconflicted map and the conflicted set |
| StateRes.TheOnlyId | src/state/mod.rs:136 | taking the element of a one-element set gives its only id |
| StateRes.StoredAuthEvents | src/state/mod.rs:355-363 | the fetched auth events are exactly the stored ones among the ids; missing ones are skipped |
| StateRes.FirstWithKey | src/state/mod.rs:369-371 | the fallback is an auth event with the wanted entry, and none is found only when no auth event has that entry |
| StateRes.Frankenstate | src/state/mod.rs:365-376 | the frankenstate keeps every entry of the state and adds, for each auth type missing from it, the first auth event with that entry |
| StateRes.FillFromAuthEvents | src/state/mod.rs:365-376 | the fill loop computes the frankenstate |
| StateRes.AuthCheckStep | src/state/mod.rs:378-381 | one iterative check leaves the state as it was or inserts the event |
| StateRes.StepKeepsEntriesFrom | src/state/mod.rs:353-382 | after each step every entry of the state is either the starting one or the entry of one of the checked events |
| StateRes.IterativeAuthChecksSpec | src/state/mod.rs:348-385 | every entry of the result comes from the starting state or from one of the checked events |
| StateRes.StateHoldingAuthTypesDecides | src/state/mod.rs:365-381 | when the state already holds every auth type, a pass inserts the event and a fail leaves the state unchanged |
| StateRes.IterativeAuthChecks | src/state/mod.rs:348-385 | the loop returns exactly the specification's result, a panic or error included |
| StateRes.IterativeFailureSticks | src/state/mod.rs:353-363 | once a prefix of the events fails, the whole run fails with the same error |
| StateRes.PassedAuthState | src/state/mod.rs:174-183 | every auth event must be stored, and every entry of the built state is that of an auth event that passed auth |
| StateRes.ReplayIgnoresVerdict | src/state/mod.rs:185-187 | step 2 records a power event's entry whatever the auth verdict; only an error stops it |
| StateRes.ReplayFailureSticks | src/state/mod.rs:170-189 | once a prefix of the power events fails, step 2 fails |
| StateRes.Replay | src/state/mod.rs:165-189 | the step-2 loop succeeds exactly when the specification does, with the same partial state |
| StateRes.ReplayEvent | src/state/mod.rs:171-187 | one pass of the step-2 loop is exactly one step of the specification: a missing event fails, a non-state event changes nothing, a rejected check's error propagates |
| StateRes.CollectPassedAuth | src/state/mod.rs:173-183 | the frankenstate loop builds exactly the passed-auth state of the auth events, with the same panic on a missing auth event |
| StateRes.PassedAuthFailureSticks | src/state/mod.rs:178-183 | once a prefix of the auth events fails, building the passed-auth state fails with the same error |
| StateRes.PowerLevelsParent | src/state/mod.rs:194-206 | the parent is an auth event that is a power-levels event, and there is none exactly when every auth event is stored and none is power levels |
| StateRes.MainlineFrom | src/state/mod.rs:208-216 | every mainline element is a power-levels event and the power-levels parent of the one before; the walk ends where an event has no parent |
| StateRes.MainlineStep | src/state/mod.rs:213-216 | one step of the walk moves the parent into the mainline prefix and continues from it |
| StateRes.WalkMainline | src/state/mod.rs:208-216 | the loop returns the mainline: the starting event, then its chain of power-levels parents |
| StateRes.FirstIndex | src/state/mod.rs:223 | the index found is the first position holding the id |
| StateRes.ClosestMainline | src/state/mod.rs:218-232 | the result is a mainline position or the maximum value; an event on the mainline gets its first position; the maximum only for an event off the mainline |
| StateRes.ParentOf | src/state/mod.rs:213 | a parent found is a stored power-levels event; an event missing from the store fails with the `Option::unwrap` panic |
| StateRes.MainlineFromFuelOut | src/state/mod.rs:213-216 | the walk runs out of fuel only after as many parent hops as the fuel allows |
| StateRes.MainlineFailsOnCycle | src/state/mod.rs:213-216 | "power-levels cycle" happens only when the parents from the start revisit an event, where the source loops forever |
| StateRes.ClosestMainlineFailsOnCycle | src/state/mod.rs:221-232 | "power-levels cycle" happens only when the parents from the event revisit an event off the mainline, where the source loops forever |
| StateRes.ClosestMainlineOf | src/state/mod.rs:221-232 | the inner loop computes the closest mainline position |
| StateRes.MainlineIndexes | src/state/mod.rs:218-236 | every conflicted event gets its closest mainline position, and the walk fails exactly when one of them fails |
| StateRes.ComputeMainlineIndexes | src/state/mod.rs:219-236 | the loop over the conflicted set computes the same positions, or fails exactly when the specification does |
| StateRes.PlacementsComplete | src/state/mod.rs:219-236 | positions found for exactly the conflicted events, each its closest mainline position, are the specification's positions |
| StateRes.MainlineKeys | src/state/mod.rs:238 | every conflicted event gets a sort key |
| StateRes.SortedUnique | src/state/mod.rs:238 | two strictly ascending orders of the same events are equal, so the sorted order does not depend on the hash set's order |
| StateRes.LeastByMainline | src/state/mod.rs:422-441 | the pick is the least event under the mainline comparison, and the panic happens exactly when two events share a key |
| StateRes.SelectStep | src/state/mod.rs:238 | taking the least remaining event keeps the output strictly ascending and below every remaining event |
| StateRes.SelectDone | src/state/mod.rs:238 | once nothing remains the keys are distinct and the output is the sorted order |
| StateRes.SortByMainline | src/state/mod.rs:238 | the sort succeeds exactly when no two conflicted events share a key, and then gives them in ascending key order |
| StateRes.Candidates | src/state/mod.rs:309-317 | the candidates are among the remaining events |
| StateRes.LevelCode | src/state/mod.rs:326-328 | a missing power level sorts below every level, and a present one keeps its value |
| StateRes.CandidateKeys | src/state/mod.rs:325-340 | every candidate gets a key and no two candidates share one |
| StateRes.EventIdsOf | src/state/mod.rs:342 | the emitted ids are the stored events' own ids, in order |
| StateRes.TopoStepEnumerates | src/state/mod.rs:308-343 | emitting the candidates, then an ordering of the others, lists every event once |
| StateRes.TopoStepCitersFirst | src/state/mod.rs:308-343 | emitting the candidates first keeps every citing event ahead of the events it cites |
| StateRes.TopoOrder | src/state/mod.rs:299-346 | the corrected ordering lists every event once, and an event comes after every event that cites it as an auth event |
| StateRes.TopoOrderFailsOnCycle | src/state/mod.rs:306-345 | the corrected ordering fails only with "auth_events cycle", and only when a non-empty set of the events has each member cited by another member, so no event is left to place next |
| StateRes.LeastCandidate | src/state/mod.rs:325-340 | the pick is the least candidate under the comparison closure |
| StateRes.SortCandidates | src/state/mod.rs:325-340 | the sort gives the candidates in ascending key order |
| StateRes.LoadEvents | src/state/mod.rs:300-304 | loading succeeds exactly when every event is stored |
| StateRes.FindCandidates | src/state/mod.rs:309-317 | the nested loops gather exactly the events no remaining event cites |
| StateRes.TopoUnfold | src/state/mod.rs:308-343 | one pass of the corrected loop emits the sorted candidates and continues on the rest |
| StateRes.TopoProgressStep | src/state/mod.rs:308-343 | the corrected pass keeps the loop invariant |
| StateRes.ReverseTopologicalPowerOrdering | src/state/mod.rs:299-346 | the corrected ordering method returns exactly the ordering specification |
| StateRes.OrderStoredEvents | src/state/mod.rs:306-345 | the corrected loop over stored events succeeds iff the ordering specification does, returns the ids of that ordering, and otherwise fails with the specification's error |
| StateRes.TopoProgressStart | src/state/mod.rs:306-307 | before the first pass nothing is emitted and the whole ordering is still ahead |
| StateRes.PassOutput | src/state/mod.rs:342 | one pass emits one id per candidate |
| StateRes.Repeat | src/state/mod.rs:342 | n copies of a non-empty pass output hold at least n ids |
| StateRes.AsWrittenNeverFinishes | src/state/mod.rs:308-343 | as written, after any number of passes the event map is still the whole input and the output has grown by one more copy of the candidates |
| StateRes.IterateKeepsEvents | src/state/mod.rs:308-343 | a pass that keeps its events and appends the same output does so on every one of n passes |
| StateRes.PowerEvents | src/state/mod.rs:151-157 | the power events are exactly the events of the full conflicted set that are power events |
| StateRes.StateEventsOf | src/state/mod.rs:243-246 | step 4 iterates only events that carry a state key |
| StateRes.PowerStage | src/state/mod.rs:143-189 | the events left for step 3 are stored events |
| StateRes.ResolveEach | src/state/mod.rs:110-116 | one branch state per event |
| StateRes.ResolveEachFailureSticks | src/state/mod.rs:110-116 | a failing prefix makes the branch states fail |
| StateRes.ResolveKeepsAgreedEntries | src/state/mod.rs:251-253 | an entry on which every branch holding it agrees is in the resolved state, unchanged |
| StateRes.ResolveEachAt | src/state/mod.rs:110-116 | the i-th branch state is the i-th event resolved on its own |
| StateRes.ResolveOneEvent | src/state/mod.rs:79-91 | one event gives the state before it, with its entry set to it exactly when it passed auth and has a state key |
| StateRes.FindPowerEvents | src/state/mod.rs:151-157 | the loop succeeds exactly when every event is stored and then gives the power events |
| StateRes.MergeUnconflicted | src/state/mod.rs:251-253 | step 5 writes every unconflicted entry over the resolved state |
| StateRes.RunPowerStage | src/state/mod.rs:143-189 | steps 1 and 2 as run agree with the specification |
| StateRes.RunMainlineStage | src/state/mod.rs:191-247 | steps 3 and 4 as run agree with the specification |
| StateRes.ResolveConflictsOf | src/state/mod.rs:118-255 | the steps after the branch states agree with the specification |
| StateRes.ResolveBranches | src/state/mod.rs:110-116 | the scratch loop agrees with resolving each event on its own |
| StateRes.ResolveEachSnoc | src/state/mod.rs:110-116 | one more event of the scratch loop succeeds iff its own resolution does, and appends that state |
| StateRes.ResolveOne | src/state/mod.rs:79-92 | the one-event path agrees with the specification |
| StateRes.ResolveOneFails | src/state/mod.rs:80-81 | a missing event, or a failure resolving its prev events, makes the one-event path fail |
| StateRes.ResolveOneUnfold | src/state/mod.rs:79-91 | the one-event path is the state of the prev events, plus the event when it passed auth and is a state event |
| StateRes.ResolveMany | src/state/mod.rs:94-255 | the several-event path agrees with the specification |
| StateRes.ResolveManyFails | src/state/mod.rs:110-116 | a failing branch makes the several-event path fail |
| StateRes.ResolveManyUnfold | src/state/mod.rs:94-255 | for two or more events, the result is the conflict resolution of their branch states |
| StateRes.ResolveV2 | src/state/mod.rs:65-256 | resolve_v2 succeeds exactly when the specification does, with the same state; no events give the empty state |
| MemStore.AddPdu | src/storage/mem.rs:212-225 | a create PDU installs a fresh room holding just itself, discarding any room with that id; any other PDU is appended to its room, and an unknown room is RoomNotFound |
| MemStore.AddPdusStopsAtFailure | src/storage/mem.rs:211-226 | after the first failure nothing further is stored, and everything stored before it stays |
| MemStore.AddPdusKeepsRoomsNonEmpty | src/storage/mem.rs:211-226 | storing a batch never leaves a room without events |
| MemStore.MaxDepth | src/storage/mem.rs:234 | the greatest depth of the room: no event is deeper and some event is that deep |
| MemStore.IdsAtDepth | src/storage/mem.rs:235-238 | the ids are exactly those of the room's events at that depth |
| MemStore.NextPdu | src/storage/mem.rs:239-263 | the new PDU is one deeper than the deepest event, its prev events are exactly the ids at the greatest depth, the event's fields are carried over, the origin is the sender's domain and the auth events are the ones given |
| MemStore.FilterMatches | src/storage/mem.rs:294-297 | the result holds exactly the events of the slice that the query matches |
| MemStore.FilterMatchesAppend | src/storage/mem.rs:294-297 | filtering keeps timeline order: it distributes over concatenation |
| MemStore.InclusiveRange | src/storage/mem.rs:293 | `get(from..=to)` exists exactly when `to` is inside the room and `from <= to + 1`, and is then the slice from..=to |
| MemStore.MemStorage.constructor | src/storage/mem.rs:76-86 | the store starts with no rooms, users, tokens or transaction ids |
| MemStore.MemStorage.FindUser | src/storage/mem.rs:183 | the position of the first user with that name; none exactly when no user has it |
| MemStore.MemStorage.VerifyPassword | src/storage/mem.rs:123-138 | accepted exactly when a user has the name and the hash check of the first such user says yes; an unknown user or a check error is a refusal |
| MemStore.MemStorage.CreateUser | src/storage/mem.rs:105-121 | appends the user with an empty profile, without checking for an existing name, and changes nothing else |
| MemStore.MemStorage.CreateAccessToken | src/storage/mem.rs:140-149 | the token now maps to the user, after which `try_auth` of it gives that user |
| MemStore.MemStorage.DeleteAccessToken | src/storage/mem.rs:151-155 | the token is gone, after which `try_auth` of it gives nothing |
| MemStore.MemStorage.DeleteAllAccessTokens | src/storage/mem.rs:157-165 | an unknown token changes nothing; otherwise exactly the tokens of the same user are removed and every other token keeps its user |
| MemStore.MemStorage.TryAuth | src/storage/mem.rs:167-170 | the user the token maps to, none exactly for an unknown token |
| MemStore.MemStorage.RecordTxn | src/storage/mem.rs:172-176 | true iff the id was not yet recorded for the token; afterwards it is |
| MemStore.MemStorage.GetProfile | src/storage/mem.rs:178-185 | the profile of the first user with that name; none exactly when there is no such user |
| MemStore.MemStorage.SetAvatarUrl | src/storage/mem.rs:187-196 | an absent user is UserNotFound and changes nothing; otherwise only the first matching user's avatar changes |
| MemStore.MemStorage.SetDisplayName | src/storage/mem.rs:198-207 | an absent user is UserNotFound and changes nothing; otherwise only the first matching user's display name changes |
| MemStore.MemStorage.AddPdus | src/storage/mem.rs:209-228 | the rooms after the call and the error are those of storing the PDUs one by one and stopping at the first failure |
| MemStore.MemStorage.AddEventUnchecked | src/storage/mem.rs:230-270 | an unknown room is RoomNotFound and changes nothing; otherwise the next PDU is appended to the room's events and its id returned, other rooms untouched |
| MemStore.MemStorage.QueryPdus | src/storage/mem.rs:272-312 | an unknown room is RoomNotFound; otherwise the matching events at positions from..=to in order, `to` defaulting to the last position, nothing for a range outside the room, and `to` returned as progress |
| SledStore.TryInsertValue | src/storage/sled.rs:75-86 | the insert happens exactly when the key is absent; an existing value is kept and every other key is untouched |
| SledStore.OverwriteValue | src/storage/sled.rs:88-96 | the key takes the new value, the flag says whether it was present, and every other key is untouched |
| SledStore.TryInsertFirstWins | src/storage/sled.rs:75-86 | of two insertions under one fresh key the first value stays |
| SledStore.OverwriteLastWins | src/storage/sled.rs:88-96 | of two overwrites under one key the last value stays |
| SledStore.TxnNameInjective | src/storage/sled.rs:357 | distinct (token, transaction id) pairs give distinct transaction names |
| SledStore.IndexOfChar | src/storage/sled.rs:423 | the split finds the first `~` of a key |
| SledStore.SecondFieldOfHeadlessKey | src/storage/sled.rs:423 | splitting a headless key at `~` gives back the event id when neither id holds `~` |
| SledStore.MaxKey | src/storage/sled.rs:393 | the last key of the ordering tree is its largest |
| SledStore.NextIndex | src/storage/sled.rs:392-404 | the corrected next ordering index is fresh, above every used index, below 2^32, and 0 for an empty tree |
| SledStore.AsWrittenCasSpinsOnEmptyTree | src/storage/sled.rs:392-404 | as written, the compare-and-swap loop on an empty ordering tree never writes and never exits, however many rounds it runs |
| SledStore.BigEndian | src/storage/sled.rs:245-246 | the big-endian encoding has the given width and byte-sized digits |
| SledStore.BigEndianWide | src/storage/sled.rs:245-246 | widening a big-endian number prepends zero bytes |
| SledStore.BigEndianNonZero | src/storage/sled.rs:394-396 | a non-zero index has a non-zero byte |
| SledStore.ZerosFirst | src/storage/sled.rs:245-248 | a key starting with more zero bytes sorts before one with a non-zero byte in that place |
| SledStore.PrefixFirst | src/storage/sled.rs:245-248 | a proper prefix sorts first |
| SledStore.AsWrittenRangeIsEmpty | src/storage/sled.rs:245-248 | as written, an 8-byte range bound never brackets a 4-byte ordering key, so every bounded range is empty |
| SledStore.HeadlessKeyInjective | src/storage/sled.rs:407-410 | a room's headless keys for distinct event ids are distinct |
| SledStore.StorePdu | src/storage/sled.rs:388-411 | storing a PDU inserts its record unless present, gives it a fresh ordering index, removes its prev events from the headless set, adds it, and records the room; an overflow panics |
| SledStore.StorePduKeepsValid | src/storage/sled.rs:388-411 | storing a PDU keeps the graph invariant |
| SledStore.StorePdusKeepsValid | src/storage/sled.rs:387-414 | storing any sequence of PDUs keeps the graph invariant |
| SledStore.StorePdusStep | src/storage/sled.rs:388-412 | the loop stores the PDUs one after the other |
| SledStore.StorePdusPanicEnds | src/storage/sled.rs:388-412 | a failure ends the loop, and the later PDUs are not stored |
| SledStore.StorePdusStopsAtPanic | src/storage/sled.rs:388-412 | once a prefix fails, nothing after it changes the state |
| SledStore.RangeMatches | src/storage/sled.rs:236-272 | the result holds exactly the stored PDUs at the ordering indices of the range that the query matches |
| SledStore.GetEvents | src/storage/sled.rs:236-272 | the corrected loop over the numeric range returns the matching PDUs in index order |
| SledStore.SledStorage.constructor | src/storage/sled.rs:186-200 | a new store is empty and valid |
| SledStore.SledStorage.CreateUser | src/storage/sled.rs:277-291 | a taken username is refused and leaves the users as they were; otherwise the user is added with the hash and an empty profile |
| SledStore.SledStorage.VerifyPassword | src/storage/sled.rs:293-304 | a password is accepted exactly when the user exists and the hash check says yes; an error is a no |
| SledStore.SledStorage.CreateAccessToken | src/storage/sled.rs:306-319 | an unknown user is refused; otherwise the token is issued and, when fresh, authenticates as that user |
| SledStore.SledStorage.DeleteAccessToken | src/storage/sled.rs:321-324 | the token is removed and no longer authenticates |
| SledStore.SledStorage.DeleteAllAccessTokens | src/storage/sled.rs:326-346 | an unknown token changes nothing; otherwise every token of the same user is removed and every other token is kept |
| SledStore.SledStorage.TryAuth | src/storage/sled.rs:348-354 | a token authenticates exactly when it is stored, as its user |
| SledStore.SledStorage.RecordTxn | src/storage/sled.rs:356-360 | the transaction is new exactly when its name was not recorded, and it is recorded afterwards |
| SledStore.SledStorage.GetProfile | src/storage/sled.rs:362-365 | a profile exists exactly for a known user |
| SledStore.SledStorage.SetAvatarUrl | src/storage/sled.rs:367-375 | an unknown user is refused; otherwise only that user's avatar changes |
| SledStore.SledStorage.SetDisplayName | src/storage/sled.rs:377-385 | an unknown user is refused; otherwise only that user's display name changes |
| SledStore.SledStorage.GetUserAccountData | src/storage/sled.rs:547-556 | an unknown user is refused; otherwise the user's account data comes back |
| SledStore.SledStorage.LastIndex | src/storage/sled.rs:393 | the last ordering key is absent exactly for an empty tree, and otherwise the largest |
| SledStore.SledStorage.AddPdu | src/storage/sled.rs:388-411 | one PDU is stored as the corrected specification says, with the next free ordering index, and the invariant holds |
| SledStore.SledStorage.AddPdus | src/storage/sled.rs:387-414 | the loop stores the PDUs as the specification says, stopping at the first failure |
| SledStore.SledStorage.GetPrevEvents | src/storage/sled.rs:416-430 | the room's forward extremities are exactly the events in its headless set, with a depth of -1 |
| SledStore.SledStorage.QueryPdus | src/storage/sled.rs:432-460 | an empty ordering tree is an unknown room; a missing upper bound panics; otherwise the matching PDUs at indices from..=to come back in index order with `to` as the marker |
| SledStore.SledStorage.GetRooms | src/storage/sled.rs:462-468 | the rooms listed are exactly the recorded ones |
| SledStore.SledStorage.GetPdu | src/storage/sled.rs:470-474 | a PDU is found exactly when its record is stored |
| SledStore.SledStorage.GetBatch | src/storage/sled.rs:558-560 | a batch is found exactly when it is stored |
| SledStore.SledStorage.SetBatch | src/storage/sled.rs:562-564 | the batch is overwritten and read back |
| SledStore.PrevEventsAfterStore | src/storage/sled.rs:405-410 | after storing, the new event is a forward extremity and its prev events are not |
| SledStore.DepthKeyAbsent | src/storage/sled.rs:417 | the room id itself is never a headless key, so the depth read always falls back to -1 |
| CreateRoom.EffectivePreset | src/client/room.rs:159-162 | a requested preset is used; otherwise a private room gets the private-chat preset and a public room the public-chat preset |
| CreateRoom.PresetSettings | src/client/room.rs:163-166 | both private presets give invite-only, shared history and guests allowed; the public preset gives public, shared history and guests forbidden |
| CreateRoom.PresetJoinRule | src/client/room.rs:157-167 | the room is public exactly when the effective preset is the public one |
| CreateRoom.RoomContents | src/client/room.rs:90-301 | the room opens with its create event by the creator, then the creator's join carrying their profile and the direct flag, then the power levels |
| CreateRoom.ContentsAfterCreate | src/client/room.rs:117-301 | after the create event come the creator's join and the power levels, then the preset events, the initial state, the name, the topic and the invites |
| CreateRoom.InitialStateContents | src/client/room.rs:218-236 | each initial state event keeps its content and state key, in order |
| CreateRoom.InviteContents | src/client/room.rs:278-301 | each invitee gets an invite membership with no profile and the direct flag, keyed by the invitee |
| CreateRoom.ContentsOf | src/client/room.rs:211-216 | one content per event |
| CreateRoom.PushKeepsChain | src/client/room.rs:218-236 | appending the next event keeps the chain linked and appends its content |
| CreateRoom.CreateEvent | src/client/room.rs:102-115 | the create event alone is a linked chain: depth 0, no parents, no auth events |
| CreateRoom.CreateRoomEvents | src/client/room.rs:80-303 | a room version other than 4 is refused; a missing profile panics; otherwise the events form a linked chain whose contents are the room's contents in order |
| CreateRoom.ChainAuthEvents | src/client/room.rs:112-231 | the first three events have no auth events, and every later one cites the power levels event |
| CreateRoom.ChainParents | src/client/room.rs:134-229 | every event after the first cites the one before it as its only parent, one level deeper |

## Left out

- The `StateResolver` cache (src/state/mod.rs:46, 73-77, 90, 99-107) is shared mutable state behind a lock. `resolve_v2` is modelled uncached, so every call computes afresh, which gives the same result whenever the cache holds what it claims.
- StateRes.Resolve: the recursion through prev events carries a `fuel` bound, and running out of fuel is an error. The source recurses without a bound, so the model says nothing about event graphs deeper than the fuel given.
- `get_sender_power_level` (src/state/mod.rs:321) is not part of this model; it is a parameter `senderLevel` from event id to an optional level.
- The candidate sort of `reverse_topological_power_ordering` ends on the computed event id; two distinct stored events with the same computed id are left in the hash map's order. The model breaks that tie by the event's key in the set.
- Step 2 of `resolve_v2` (src/state/mod.rs:185-187) discards the auth verdict and records every power event. The model keeps that behaviour (`StateRes.ReplayIgnoresVerdict`); it is not a claimed finding, since the algorithm's intent cannot be read from the code alone.
- SHA-256, canonical JSON and base64 are not modelled; they are one function parameter `hash`. Signing (Ed25519) is not part of this model.
- `EventContent::redact`, `get_type`, `content_as_json`, `PowerLevels::get_user_level`, `get_event_level` and `no_event_default_levels` are not part of this model's sources. They are defined after the m.room.power_levels rules and the redaction algorithm of the Matrix Client-Server API, and the results about them depend on that reading.
- The parser behind `MatrixId::try_from` is not part of this model's sources; `Mxid.ParseMatrixId` reads an id as `@localpart:domain`.
- Database I/O errors, serialisation errors and `?` on storage calls are not modelled, except where a missing record leads to a panic or a typed error.
- Typing notifications and other ephemeral state (src/storage/mem.rs:373-442, src/storage/sled.rs:166-181, 476-545) depend on the wall clock and are left out.
- The `wait` branches of `query_pdus` (src/storage/mem.rs:300-311, src/storage/sled.rs:449-459) block on a channel or a watcher and are left out. Only the non-waiting path is modelled.
- Concurrency: the sled compare-and-swap retry, the mutex around the room ordering trees and the broadcast channels are left out. Each operation runs alone.
- The sled trees are `map` fields. Their byte encoding (bincode) is not modelled, except for the ordering keys, where it is what finding 3 is about.
- The 32-bit ordering index of sled `add_pdus` is modelled with an explicit bound of 2^32; going past it is the add overflow that panics.
- SledStore.SledStorage.GetPrevEvents: the order of the ids is not stated (a set of ids), because the tree's key order is not modelled.
- SledStore.SledStorage.GetPrevEvents: the depth read at src/storage/sled.rs:417 uses a key no code writes, so it is always -1 (`SledStore.DepthKeyAbsent`).
- SledStore.SledStorage.QueryPdus: a `None` upper bound reaches `to.unwrap()` (src/storage/sled.rs:271) and panics; the model returns that panic.
- `Mxid.Domain` returns the text between the first and second `:`, so a domain with a port loses the port, as the source does.
- `UsernameTaken` (src/storage/sled.rs:289) is not one of the `ErrorKind` variants of src/error.rs; the sled store's error type has it as its own variant.
- `auth_check_v1` is declared to return `bool` (src/validate/auth.rs:5), while its callers compare the result with `AuthStatus::Pass`. It is modelled as returning the two-valued `AuthStatus`.
- AddEvent.RoomPowerLevels: the event id it returns for the current power-levels event is the event's content hash `hashes.sha256`. That is the id `get_event` gives an event (src/storage/mem.rs:367). The source reads `event_id` of the state event it gets back, which its room version 4 `to_client_format` (src/events/room_version/v4.rs:93-103) never sets.
- StateRes.MainlineFrom, StateRes.ClosestMainline and StateRes.TopoOrder: where the power-levels parents of events, or the auth_events citations, form a cycle, the source's loops (src/state/mod.rs:213-216, 221-232, 306-345) never end. The model returns the error "power-levels cycle" or "auth_events cycle" instead. `StateRes.MainlineFailsOnCycle`, `StateRes.ClosestMainlineFailsOnCycle` and `StateRes.TopoOrderFailsOnCycle` prove that these errors come only from such a cycle.
- Query.Matches: the contains_json pattern is typed as a JSON object. The source's `expect("contains_json must be an object")` (src/storage/mod.rs:107) on any other JSON value is therefore not modelled. Every query the source builds passes no pattern or an object literal (src/storage/mod.rs:270-277).
- `create_room` (src/client/room.rs:102-301) builds the older `UnhashedPdu` of src/events/mod.rs with JSON content. The model builds the room version 4 event from typed content, and each initial state event carries typed content.
- Password hashing (argon2), UUID and room-id generation and the clock are parameters: a verifier function, the token, the room id and `now`.
- `Display` texts of errors are not modelled; only the kind, status and errcode are.
- AddEvent.ValidateMemberEvent: requires that the membership is not `Knock`, because the source reaches `unimplemented!()` there (src/util/storage.rs:199).
- AddEvent.CheckEvent: requires that a member event is not a knock, for the same reason.
- AddEvent.AddEvent: requires a room id and a sender with a domain, which the source unwraps, and no knock.
- MemStore.MemStorage.CreateUser: requires a password hash, which the source unwraps.
- MemStore.MemStorage.AddEventUnchecked: requires a room id and a sender with a domain, which the source unwraps.
- RoomState.State.InsertEvent: requires a state key, which the source unwraps.
- `get_event`, `get_memberships_by_user` and the other storage reads outside the named operations are not part of this model.
- The linear test at src/state/mod.rs:623-632 is not restated as a concrete example; `StateRes.ResolveOneEvent` states the general rule it checks.

## Findings

| source | as written | input that shows it | evidently intended | confidence | as-written member | corrected member |
|---|---|---|---|---|---|---|
| src/state/mod.rs:299-346 | the loop `while events.len() > 0` emits the candidates each pass but never removes them from `events` | any non-empty set of power events | each pass removes the candidates it emitted, so the loop ends with every event emitted once | not executed | StateRes.AsWrittenNeverFinishes | StateRes.ReverseTopologicalPowerOrdering |
| src/storage/sled.rs:392-404 | the compare-and-swap loop only writes when `ordering_tree.last()` is `Some` | the first PDU of any room, when its ordering tree is empty | an empty tree gives the first event index 0 | not executed | SledStore.AsWrittenCasSpinsOnEmptyTree | SledStore.SledStorage.AddPdu |
| src/storage/sled.rs:245-248 | the range bounds are 8-byte `usize` big-endian values, while the ordering keys are 4-byte `u32` values | any bounded query on a 64-bit target, such as from 0 to 5 over indices 0 to 5 | the range holds the indices from..=to | not executed | SledStore.AsWrittenRangeIsEmpty | SledStore.SledStorage.QueryPdus |
