/**
 * The checks a client-sent event passes before it is appended
 * (src/util/storage.rs): the power levels in force, the membership rules for
 * m.room.member events, the join-and-level rule for everything else, and the
 * auth events the new PDU cites.
 */
module AddEvent {
  import opened Wrappers
  import opened Json
  import opened RoomContent
  import opened Events
  import opened Query
  import Mxid
  import MemStore

  datatype AddEventError =
    | UserNotInRoom
    | UserBanned
    | UserNotInvited
    | RoomNotFound
    | InvalidPowerLevels(reason: string)
    | InvalidCreate(reason: string)
    | InvalidJoinRules(reason: string)
    | InsufficientPowerLevel
    | InvalidEvent(reason: string)
    | DbError(error: MemStore.StorageError)

  /**
   * The power levels in force in a room and the id of the event that set
   * them: the current m.room.power_levels event if there is one, otherwise
   * the defaults derived from the creator of the m.room.create event, and
   * RoomNotFound when there is neither.
   */
  function RoomPowerLevels(events: seq<PduV4>): (r: Result<(PowerLevels, Option<string>), AddEventError>)
    ensures GetStateEvent(events, PowerLevelsType, "").Some? ==>
      var pl := GetStateEvent(events, PowerLevelsType, "").value;
      r == Success((pl.eventContent.levels, Some(pl.hashes.sha256)))
    ensures GetStateEvent(events, PowerLevelsType, "").None? ==>
      match GetStateEvent(events, CreateType, "")
      case None => r == Failure(RoomNotFound)
      case Some(c) => r == Success((NoEventDefaultLevels(c.eventContent.creator), None))
    ensures r.Failure? <==> GetStateEvent(events, PowerLevelsType, "").None? && GetStateEvent(events, CreateType, "").None?
  {
    match GetStateEvent(events, PowerLevelsType, "")
    case Some(pl) => Success((pl.eventContent.levels, Some(pl.hashes.sha256)))
    case None =>
      match GetStateEvent(events, CreateType, "")
      case None => Failure(RoomNotFound)
      case Some(c) => Success((NoEventDefaultLevels(c.eventContent.creator), None))
  }

  /** Whether the room's current join rule is public; a room without m.room.join_rules is not. */
  predicate IsPublic(events: seq<PduV4>) {
    var jr := GetStateEvent(events, JoinRulesType, "");
    jr.Some? && jr.value.eventContent.joinRule == Public
  }

  /**
   * `validate_member_event`. The target is the state key, which must be
   * present and a Matrix id. Joining is only for oneself, is refused to the
   * banned, free to the joined and invited, and otherwise needs a public room.
   * Leaving, banning and inviting need the sender to be joined; making
   * someone else leave needs the kick level, banning the ban level and
   * inviting the invite level. Knock is unimplemented in the source (a panic).
   */
  function ValidateMemberEvent(events: seq<PduV4>, event: Event, levels: PowerLevels): (r: Result<(), AddEventError>)
    requires event.eventContent.Member? && event.eventContent.membership != Knock
    ensures event.stateKey.None? || Mxid.ParseMatrixId(event.stateKey.value).None? ==>
      r.Failure? && r.error.InvalidEvent?
    ensures event.eventContent.membership == Join && r.Success? ==>
      event.stateKey == Some(event.sender) &&
      (GetMembership(events, event.sender) in {Some(Join), Some(Invite)} || IsPublic(events))
    ensures (event.eventContent.membership == Join && event.stateKey == Some(event.sender) &&
             Mxid.ParseMatrixId(event.sender).Some?) ==>
      (GetMembership(events, event.sender) == Some(Ban) ==> r == Failure(UserBanned)) &&
      (GetMembership(events, event.sender) in {Some(Join), Some(Invite)} ==> r == Success(())) &&
      (GetMembership(events, event.sender) !in {Some(Join), Some(Invite), Some(Ban)} ==>
        r == if IsPublic(events) then Success(()) else Failure(UserNotInvited))
    ensures event.eventContent.membership == Join && event.stateKey.Some? && event.stateKey != Some(event.sender) ==>
      r.Failure? && r.error.InvalidEvent?
    ensures (event.eventContent.membership in {Leave, Ban, Invite} && GetMembership(events, event.sender) != Some(Join) &&
             event.stateKey.Some? && Mxid.ParseMatrixId(event.stateKey.value).Some?) ==>
      r == Failure(UserNotInRoom)
    ensures event.eventContent.membership == Leave && r.Success? ==>
      event.stateKey == Some(event.sender) || UserLevel(levels, event.sender) >= levels.kick
    ensures event.eventContent.membership == Ban && r.Success? ==>
      GetMembership(events, event.sender) == Some(Join) && UserLevel(levels, event.sender) >= levels.ban
    ensures event.eventContent.membership == Invite && r.Success? ==>
      GetMembership(events, event.sender) == Some(Join) && UserLevel(levels, event.sender) >= levels.invite
  {
    var senderMembership := GetMembership(events, event.sender);
    if event.stateKey.None? then Failure(InvalidEvent("no state key in m.room.member event"))
    else if Mxid.ParseMatrixId(event.stateKey.value).None? then Failure(InvalidEvent("invalid matrix id"))
    else
      var affectedUser := Mxid.ParseMatrixId(event.stateKey.value).value;
      var prevMembership := GetMembership(events, affectedUser);
      var userLevel := UserLevel(levels, event.sender);
      match event.eventContent.membership
      case Join =>
        if affectedUser != event.sender then
          Failure(InvalidEvent("user tried to set someone else's membership to join"))
        else if prevMembership == Some(Join) || prevMembership == Some(Invite) then Success(())
        else if prevMembership == Some(Ban) then Failure(UserBanned)
        else if !IsPublic(events) then Failure(UserNotInvited)
        else Success(())
      case Leave =>
        if senderMembership != Some(Join) then Failure(UserNotInRoom)
        else if event.stateKey != Some(event.sender) && userLevel < levels.kick then
          Failure(InsufficientPowerLevel)
        else Success(())
      case Ban =>
        if senderMembership != Some(Join) then Failure(UserNotInRoom)
        else if userLevel < levels.ban then Failure(InsufficientPowerLevel)
        else Success(())
      case Invite =>
        if senderMembership != Some(Join) then Failure(UserNotInRoom)
        else if userLevel < levels.invite then Failure(InsufficientPowerLevel)
        else Success(())
  }

  /**
   * The checks of `add_event` on a room's events. Success carries the auth
   * events of the new PDU: the power-levels event when the room has one,
   * otherwise none.
   */
  function CheckEvent(events: seq<PduV4>, event: Event): (r: Result<seq<string>, AddEventError>)
    requires event.eventContent.Member? ==> event.eventContent.membership != Knock
    ensures RoomPowerLevels(events).Failure? ==> r == Failure(RoomNotFound)
    ensures r.Success? ==>
      var (levels, plId) := RoomPowerLevels(events).value;
      r.value == (if plId.Some? then [plId.value] else []) &&
      (event.eventContent.Member? ==> ValidateMemberEvent(events, event, levels).Success?)
    ensures RoomPowerLevels(events).Success? && event.eventContent.Member? ==>
      (r.Success? <==> ValidateMemberEvent(events, event, RoomPowerLevels(events).value.0).Success?)
    ensures RoomPowerLevels(events).Success? && !event.eventContent.Member? ==>
      var levels := RoomPowerLevels(events).value.0;
      var needed := EventLevel(levels, GetType(event.eventContent), event.stateKey.Some?);
      (GetMembership(events, event.sender) != Some(Join) ==> r == Failure(UserNotInRoom)) &&
      (GetMembership(events, event.sender) == Some(Join) && UserLevel(levels, event.sender) < needed ==>
        r == Failure(InsufficientPowerLevel)) &&
      (r.Success? <==> GetMembership(events, event.sender) == Some(Join) && UserLevel(levels, event.sender) >= needed)
  {
    var (levels, plId) :- RoomPowerLevels(events);
    var checked: Result<(), AddEventError> :=
      if event.eventContent.Member? then ValidateMemberEvent(events, event, levels)
      else if GetMembership(events, event.sender) != Some(Join) then Failure(UserNotInRoom)
      else if UserLevel(levels, event.sender) < EventLevel(levels, GetType(event.eventContent), event.stateKey.Some?) then
        Failure(InsufficientPowerLevel)
      else Success(());
    if checked.Failure? then Failure(checked.error)
    else Success(if plId.Some? then [plId.value] else [])
  }

  /**
   * `add_event` against the in-memory store: an unknown room is a storage
   * RoomNotFound; a rejected event leaves the store as it was; an accepted one
   * is appended by `add_event_unchecked` with the auth events `CheckEvent`
   * chose, and its id is returned.
   */
  method AddEvent(store: MemStore.MemStorage, hash: Json -> string, event: Event, now: int)
    returns (r: Result<string, AddEventError>)
    requires store.Valid()
    requires event.roomId.Some? && Mxid.Domain(event.sender).Some?
    requires event.eventContent.Member? ==> event.eventContent.membership != Knock
    modifies store
    ensures store.Valid()
    ensures event.roomId.value !in old(store.rooms) ==>
      r == Failure(DbError(MemStore.RoomNotFound)) && store.rooms == old(store.rooms)
    ensures event.roomId.value in old(store.rooms) ==>
      var id := event.roomId.value;
      var events := old(store.rooms)[id].events;
      match CheckEvent(events, event)
      case Failure(e) => r == Failure(e) && store.rooms == old(store.rooms)
      case Success(authEvents) =>
        var pdu := MemStore.NextPdu(hash, events, event, authEvents, now);
        r == Success(EventId(hash, pdu)) && store.rooms == old(store.rooms)[id := MemStore.Room(events + [pdu])]
    ensures store.users == old(store.users) && store.accessTokens == old(store.accessTokens)
    ensures store.txnIds == old(store.txnIds)
  {
    var id := event.roomId.value;
    if id !in store.rooms {
      return Failure(DbError(MemStore.RoomNotFound));
    }
    var checked := CheckEvent(store.rooms[id].events, event);
    if checked.Failure? {
      return Failure(checked.error);
    }
    var added := store.AddEventUnchecked(hash, event, checked.value, now);
    match added {
      case Success(eventId) =>
        r := Success(eventId);
      case Failure(e) =>
        r := Failure(DbError(e));
    }
  }
}
