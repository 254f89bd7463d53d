/**
 * The authorization rules for room version 1 of the Matrix server-server
 * API, as `auth_check_v1` applies them (src/validate/auth.rs). The storage
 * the check reads events from is a map from event id to stored PDU, and each
 * panic of the source (a missing event, a state entry of the wrong type, a
 * missing target) is a Failure carrying its message.
 */
module Auth {
  import opened Wrappers
  import opened RoomContent
  import opened Events
  import opened RoomState
  import Mxid

  /** The PDUs of the room, by id. */
  type Db = map<string, StoredPdu>

  const AliasesType := "m.room.aliases"
  const ThirdPartyInviteType := "m.room.third_party_invite"

  /** `get_pdu(..).expect(message)`. */
  function GetPdu(db: Db, id: string, message: string): (r: Result<StoredPdu, string>)
    ensures r.Success? <==> id in db
    ensures r.Success? ==> r.value == db[id]
  {
    if id in db then Success(db[id]) else Failure(message)
  }

  /**
   * `State::get_content`: the content of the event holding a state entry,
   * None when the entry is empty. An entry naming a missing event, or an
   * event whose content is of another type, is a panic.
   */
  function GetContent(db: Db, state: StateMap, eventType: string, stateKey: string): (r: Result<Option<EventContent>, string>)
    ensures Key(eventType, stateKey) !in state ==> r == Success(None)
    ensures r.Success? && r.value.Some? ==>
      Key(eventType, stateKey) in state && state[Key(eventType, stateKey)] in db &&
      db[state[Key(eventType, stateKey)]].inner.eventContent == r.value.value &&
      GetType(r.value.value) == eventType
  {
    if Key(eventType, stateKey) !in state then Success(None)
    else
      var event :- GetPdu(db, state[Key(eventType, stateKey)], "event in state doesn't exist");
      if GetType(event.inner.eventContent) != eventType then Failure("state event of the wrong type")
      else Success(Some(event.inner.eventContent))
  }

  /** The membership the state records for a user, if any. */
  function MembershipOf(db: Db, state: StateMap, user: string): (r: Result<Option<Membership>, string>)
    ensures r.Success? <==> GetContent(db, state, MemberType, user).Success?
    ensures r.Success? ==> (r.value.Some? <==> GetContent(db, state, MemberType, user).value.Some?)
    ensures r.Success? && r.value.Some? ==>
      var content := GetContent(db, state, MemberType, user).value.value;
      content.Member? && content.membership == r.value.value
  {
    var content :- GetContent(db, state, MemberType, user);
    Success(if content.Some? then Some(content.value.membership) else None)
  }

  /**
   * The (type, state key) entries of a PDU's auth events. An auth event
   * that is missing, or is not a state event, is a panic.
   */
  function AuthEventKeys(db: Db, ids: seq<string>): (r: Result<set<StateKey>, string>)
    ensures r.Success? <==> forall i :: 0 <= i < |ids| ==> ids[i] in db && db[ids[i]].inner.stateKey.Some?
    ensures r.Success? ==> forall k :: k in r.value <==>
      exists i :: 0 <= i < |ids| && ids[i] in db && db[ids[i]].inner.stateKey.Some? && EntryOf(db[ids[i]].inner) == k
  {
    if |ids| == 0 then Success({})
    else
      var event :- GetPdu(db, ids[0], "auth event doesn't exist");
      if event.inner.stateKey.None? then Failure("auth event isn't state")
      else
        var rest :- AuthEventKeys(db, ids[1..]);
        assert forall i :: 1 <= i < |ids| ==> ids[i] == ids[1..][i - 1];
        Success({EntryOf(event.inner)} + rest)
  }

  /** The text after the first ':' of a room id, None when it has no ':'. */
  function RoomIdDomain(roomId: string): (r: Option<string>)
    ensures r.None? <==> ':' !in roomId
    ensures r.Some? ==> exists i :: 0 <= i < |roomId| && roomId[i] == ':' && ':' !in roomId[..i] && r.value == roomId[i + 1..]
  {
    match Mxid.IndexOf(roomId, ':')
    case None => None
    case Some(i) => Some(roomId[i + 1..])
  }

  /** A threshold may change only when neither its old nor its new value is above the sender's level. */
  predicate ThresholdChangeAllowed(old_: U32, new_: U32, level: U32) {
    old_ == new_ || (old_ <= level && new_ <= level)
  }

  /** An added or changed entry must not be above the sender's level, old or new; a removed one must not have been. */
  predicate LevelMapChangeAllowed(old_: map<string, U32>, new_: map<string, U32>, level: U32) {
    (forall k :: k in new_ && (k !in old_ || old_[k] != new_[k]) ==> new_[k] <= level && (k in old_ ==> old_[k] <= level)) &&
    (forall k :: k in old_ && k !in new_ ==> old_[k] <= level)
  }

  /** As for events, and a change to another user whose old level equals the sender's is refused. */
  predicate UsersChangeAllowed(old_: map<string, U32>, new_: map<string, U32>, level: U32, sender: string) {
    LevelMapChangeAllowed(old_, new_, level) &&
    forall k :: k in new_ && k in old_ && old_[k] != new_[k] && k != sender ==> old_[k] != level
  }

  /** The power-levels rule: which changes a sender may make to the levels in force. */
  predicate PowerLevelsChangeAllowed(old_: PowerLevels, new_: PowerLevels, sender: string) {
    var level := UserLevel(old_, sender);
    ThresholdChangeAllowed(old_.ban, new_.ban, level) &&
    ThresholdChangeAllowed(old_.invite, new_.invite, level) &&
    ThresholdChangeAllowed(old_.kick, new_.kick, level) &&
    ThresholdChangeAllowed(old_.redact, new_.redact, level) &&
    ThresholdChangeAllowed(old_.eventsDefault, new_.eventsDefault, level) &&
    ThresholdChangeAllowed(old_.stateDefault, new_.stateDefault, level) &&
    ThresholdChangeAllowed(old_.usersDefault, new_.usersDefault, level) &&
    LevelMapChangeAllowed(old_.events, new_.events, level) &&
    UsersChangeAllowed(old_.users, new_.users, level, sender)
  }

  function Verdict(b: bool): (s: AuthStatus)
    ensures s == Pass <==> b
  {
    if b then Pass else Fail
  }

  /** A create event: no prev events, and the sender's domain is the room id's. */
  function CreateCheck(pdu: PduV4): (r: Result<AuthStatus, string>)
  {
    if |pdu.prevEvents| > 0 then Success(Fail)
    else match RoomIdDomain(pdu.roomId)
      case None => Failure("invalid room id")
      case Some(roomDomain) =>
        match Mxid.Domain(pdu.sender)
        case None => Failure("invalid sender")
        case Some(d) => Success(Verdict(d == roomDomain))
  }

  /** The membership rules, for an m.room.member event under the given levels. */
  function MemberCheck(db: Db, pdu: PduV4, state: StateMap, levels: PowerLevels): (r: Result<AuthStatus, string>)
    requires pdu.eventContent.Member?
  {
    var sender := pdu.sender;
    var senderLevel := UserLevel(levels, sender);
    match pdu.eventContent.membership
    case Join =>
      if pdu.stateKey != Some(sender) then Success(Fail)
      else if |pdu.prevEvents| == 1 then
        var prev :- GetPdu(db, pdu.prevEvents[0], "prev_event doesn't exist");
        if !prev.inner.eventContent.Create? then Failure("oh no")
        else Success(Verdict(sender == prev.inner.eventContent.creator))
      else
        var membership :- MembershipOf(db, state, sender);
        if membership == Some(Ban) then Success(Fail)
        else
          var rules :- GetContent(db, state, JoinRulesType, "");
          var joinRule := if rules.Some? then Some(rules.value.joinRule) else None;
          if joinRule == Some(InviteRule) && (membership == Some(Join) || membership == Some(Invite)) then Success(Pass)
          else Success(Verdict(joinRule == Some(Public)))
    case Invite =>
      var senderMembership :- MembershipOf(db, state, sender);
      if senderMembership != Some(Join) then Success(Fail)
      else if pdu.stateKey.None? then Failure("invitation has no target")
      else
        var target :- MembershipOf(db, state, pdu.stateKey.value);
        if target == Some(Join) || target == Some(Ban) then Success(Fail)
        else Success(Verdict(senderLevel >= levels.invite))
    case Leave =>
      var senderMembership :- MembershipOf(db, state, sender);
      if pdu.stateKey == Some(sender) then
        Success(Verdict(senderMembership == Some(Join) || senderMembership == Some(Invite)))
      else if senderMembership != Some(Join) then Success(Fail)
      else if pdu.stateKey.None? then Failure("kick has no target")
      else
        var targetId := pdu.stateKey.value;
        var target :- MembershipOf(db, state, targetId);
        if target == Some(Ban) && senderLevel < levels.ban then Success(Fail)
        else if Mxid.ParseMatrixId(targetId).None? then Failure("target not valid matrix id")
        else Success(Verdict(senderLevel >= levels.kick && senderLevel > UserLevel(levels, targetId)))
    case Ban =>
      var senderMembership :- MembershipOf(db, state, sender);
      if senderMembership != Some(Join) then Success(Fail)
      else if pdu.stateKey.None? then Failure("ban has no target")
      else if Mxid.ParseMatrixId(pdu.stateKey.value).None? then Failure("target not valid matrix id")
      else Success(Verdict(senderLevel >= levels.ban && senderLevel > UserLevel(levels, pdu.stateKey.value)))
    case Knock => Success(Fail)
  }

  /** The rules for every other event: membership, levels, user-owned state keys, power levels, redactions. */
  function OtherCheck(db: Db, pdu: PduV4, state: StateMap, levels: PowerLevels): (r: Result<AuthStatus, string>)
  {
    var senderMembership :- MembershipOf(db, state, pdu.sender);
    var level := UserLevel(levels, pdu.sender);
    var eventType := GetType(pdu.eventContent);
    if senderMembership != Some(Join) then Success(Fail)
    else if eventType == ThirdPartyInviteType then Success(Verdict(level >= levels.invite))
    else if level < EventLevel(levels, eventType, pdu.stateKey.Some?) then Success(Fail)
    else if pdu.stateKey.Some? && |pdu.stateKey.value| > 0 && pdu.stateKey.value[0] == '@' && pdu.stateKey.value != pdu.sender then
      Success(Fail)
    else if pdu.eventContent.PowerLevelsContent? then
      if Key(PowerLevelsType, "") !in state then Success(Pass)
      else Success(Verdict(PowerLevelsChangeAllowed(levels, pdu.eventContent.levels, pdu.sender)))
    else if pdu.eventContent.Redaction? then Success(Verdict(level >= levels.redact))
    else Success(Pass)
  }

  /**
   * The levels the rules apply: the state's power-levels content, or the
   * defaults derived from the creator. A state without a create event is a
   * panic.
   */
  function LevelsInForce(db: Db, state: StateMap): (r: Result<PowerLevels, string>)
    ensures Key(CreateType, "") !in state ==> r.Failure?
  {
    var create :- GetContent(db, state, CreateType, "");
    if create.None? then Failure("no m.room.create in state")
    else
      var powerLevels :- GetContent(db, state, PowerLevelsType, "");
      Success(if powerLevels.Some? then powerLevels.value.levels else NoEventDefaultLevels(create.value.creator))
  }

  /** `auth_check_v1`. */
  function AuthCheckV1(db: Db, pdu: PduV4, state: StateMap): (r: Result<AuthStatus, string>)
    ensures pdu.eventContent.Create? ==> r == CreateCheck(pdu)
    ensures !pdu.eventContent.Create? && r.Success? ==> AuthEventKeys(db, pdu.authEvents).Success?
    ensures !pdu.eventContent.Create? && r == Success(Pass) ==> Key(CreateType, "") in AuthEventKeys(db, pdu.authEvents).value
  {
    if pdu.eventContent.Create? then CreateCheck(pdu)
    else
      var keys :- AuthEventKeys(db, pdu.authEvents);
      if Key(CreateType, "") !in keys then Success(Fail)
      else if GetType(pdu.eventContent) == AliasesType && pdu.stateKey.None? then Success(Fail)
      else
        var levels :- LevelsInForce(db, state);
        if pdu.eventContent.Member? then MemberCheck(db, pdu, state, levels)
        else OtherCheck(db, pdu, state, levels)
  }

  // ---------------------------------------------------------------------
  // The rules, stated on a well-formed state.

  /** Every entry of the state names a stored event of the entry's own type. */
  ghost predicate SoundState(db: Db, state: StateMap) {
    forall k :: k in state ==> state[k] in db && GetType(db[state[k]].inner.eventContent) == k.0
  }

  /** On a sound state, reading an entry never panics, and finds the entry's event. */
  lemma GetContentSound(db: Db, state: StateMap, eventType: string, stateKey: string)
    requires SoundState(db, state)
    ensures GetContent(db, state, eventType, stateKey).Success?
    ensures Key(eventType, stateKey) in state ==>
      GetContent(db, state, eventType, stateKey) == Success(Some(db[state[Key(eventType, stateKey)]].inner.eventContent))
  {
  }

  /** The membership a sound state gives a user. */
  function Membership(db: Db, state: StateMap, user: string): (m: Option<Membership>)
    requires SoundState(db, state)
    ensures MembershipOf(db, state, user) == Success(m)
  {
    GetContentSound(db, state, MemberType, user);
    if Key(MemberType, user) in state then Some(db[state[Key(MemberType, user)]].inner.eventContent.membership) else None
  }

  /** The join rule a sound state records, if any. */
  function JoinRuleOf(db: Db, state: StateMap): (j: Option<JoinRule>)
    requires SoundState(db, state)
    ensures GetContent(db, state, JoinRulesType, "").Success?
    ensures j.Some? <==> GetContent(db, state, JoinRulesType, "").value.Some?
    ensures j.Some? ==> j.value == GetContent(db, state, JoinRulesType, "").value.value.joinRule
  {
    GetContentSound(db, state, JoinRulesType, "");
    if Key(JoinRulesType, "") in state then Some(db[state[Key(JoinRulesType, "")]].inner.eventContent.joinRule) else None
  }

  /**
   * The levels in force: the state's power-levels content, or the
   * creator-derived defaults when the state has none.
   */
  function LevelsOf(db: Db, state: StateMap): (p: PowerLevels)
    requires SoundState(db, state) && Key(CreateType, "") in state
    ensures Key(PowerLevelsType, "") in state ==> p == db[state[Key(PowerLevelsType, "")]].inner.eventContent.levels
    ensures Key(PowerLevelsType, "") !in state ==>
      p == NoEventDefaultLevels(db[state[Key(CreateType, "")]].inner.eventContent.creator)
  {
    if Key(PowerLevelsType, "") in state then db[state[Key(PowerLevelsType, "")]].inner.eventContent.levels
    else NoEventDefaultLevels(db[state[Key(CreateType, "")]].inner.eventContent.creator)
  }

  /**
   * A non-create event past the preliminary rules: its auth events are
   * stored state events including the room's create event, and the state it
   * is checked against is sound and holds the create event.
   */
  ghost predicate Prepared(db: Db, pdu: PduV4, state: StateMap) {
    !pdu.eventContent.Create? &&
    AuthEventKeys(db, pdu.authEvents).Success? && Key(CreateType, "") in AuthEventKeys(db, pdu.authEvents).value &&
    !(GetType(pdu.eventContent) == AliasesType && pdu.stateKey.None?) &&
    SoundState(db, state) && Key(CreateType, "") in state
  }

  /** Past the preliminary rules, the verdict is the member rules' or the other rules' under the levels in force. */
  lemma PreparedDispatch(db: Db, pdu: PduV4, state: StateMap)
    requires Prepared(db, pdu, state)
    ensures pdu.eventContent.Member? ==> AuthCheckV1(db, pdu, state) == MemberCheck(db, pdu, state, LevelsOf(db, state))
    ensures !pdu.eventContent.Member? ==> AuthCheckV1(db, pdu, state) == OtherCheck(db, pdu, state, LevelsOf(db, state))
  {
    GetContentSound(db, state, CreateType, "");
    GetContentSound(db, state, PowerLevelsType, "");
    assert LevelsInForce(db, state) == Success(LevelsOf(db, state));
  }

  /** A create event is accepted iff it has no prev events and its sender's domain is the room id's. */
  lemma CreateRule(db: Db, pdu: PduV4, state: StateMap)
    requires pdu.eventContent.Create?
    ensures AuthCheckV1(db, pdu, state) == Success(Pass) <==>
      |pdu.prevEvents| == 0 && RoomIdDomain(pdu.roomId).Some? && Mxid.Domain(pdu.sender) == RoomIdDomain(pdu.roomId)
    ensures |pdu.prevEvents| > 0 ==> AuthCheckV1(db, pdu, state) == Success(Fail)
  {
  }

  /** A non-create event whose auth events do not include the create event is rejected. */
  lemma NoCreateRejected(db: Db, pdu: PduV4, state: StateMap)
    requires !pdu.eventContent.Create? && AuthEventKeys(db, pdu.authEvents).Success?
    requires Key(CreateType, "") !in AuthEventKeys(db, pdu.authEvents).value
    ensures AuthCheckV1(db, pdu, state) == Success(Fail)
  {
  }

  /**
   * The join rule: only for oneself; on top of the create event alone only
   * the creator; otherwise never when banned, and then iff the room is
   * public, or invite-only with the sender already joined or invited.
   */
  lemma JoinMembershipRule(db: Db, pdu: PduV4, state: StateMap)
    requires Prepared(db, pdu, state) && pdu.eventContent.Member? && pdu.eventContent.membership == Join
    ensures pdu.stateKey != Some(pdu.sender) ==> AuthCheckV1(db, pdu, state) == Success(Fail)
    ensures (pdu.stateKey == Some(pdu.sender) && |pdu.prevEvents| == 1 && pdu.prevEvents[0] in db &&
             db[pdu.prevEvents[0]].inner.eventContent.Create?) ==>
      AuthCheckV1(db, pdu, state) == Success(Verdict(pdu.sender == db[pdu.prevEvents[0]].inner.eventContent.creator))
    ensures pdu.stateKey == Some(pdu.sender) && |pdu.prevEvents| != 1 ==>
      var m := Membership(db, state, pdu.sender);
      var j := JoinRuleOf(db, state);
      AuthCheckV1(db, pdu, state) ==
        Success(Verdict(m != Some(Ban) && (j == Some(Public) || (j == Some(InviteRule) && m in {Some(Join), Some(Invite)}))))
  {
    PreparedDispatch(db, pdu, state);
    var m := Membership(db, state, pdu.sender);
    var j := JoinRuleOf(db, state);
  }

  /** An invite is accepted iff the sender is joined, the target neither joined nor banned, and the sender has the invite level. */
  lemma InviteMembershipRule(db: Db, pdu: PduV4, state: StateMap)
    requires Prepared(db, pdu, state) && pdu.eventContent.Member? && pdu.eventContent.membership == Invite
    requires pdu.stateKey.Some?
    ensures AuthCheckV1(db, pdu, state) == Success(Verdict(
      Membership(db, state, pdu.sender) == Some(Join) &&
      Membership(db, state, pdu.stateKey.value) !in {Some(Join), Some(Ban)} &&
      UserLevel(LevelsOf(db, state), pdu.sender) >= LevelsOf(db, state).invite))
  {
    PreparedDispatch(db, pdu, state);
    var _ := Membership(db, state, pdu.sender);
    var _ := Membership(db, state, pdu.stateKey.value);
  }

  /** Leaving of one's own accord is accepted iff one is joined or invited. */
  lemma SelfLeaveRule(db: Db, pdu: PduV4, state: StateMap)
    requires Prepared(db, pdu, state) && pdu.eventContent.Member? && pdu.eventContent.membership == Leave
    requires pdu.stateKey == Some(pdu.sender)
    ensures AuthCheckV1(db, pdu, state) ==
      Success(Verdict(Membership(db, state, pdu.sender) in {Some(Join), Some(Invite)}))
  {
    PreparedDispatch(db, pdu, state);
    var _ := Membership(db, state, pdu.sender);
  }

  /**
   * Kicking someone else needs the sender joined, at the kick level and
   * strictly above the target; undoing a ban this way also needs the ban level.
   */
  lemma KickRule(db: Db, pdu: PduV4, state: StateMap)
    requires Prepared(db, pdu, state) && pdu.eventContent.Member? && pdu.eventContent.membership == Leave
    requires pdu.stateKey.Some? && pdu.stateKey.value != pdu.sender && Mxid.ParseMatrixId(pdu.stateKey.value).Some?
    ensures
      var levels := LevelsOf(db, state);
      var senderLevel := UserLevel(levels, pdu.sender);
      AuthCheckV1(db, pdu, state) == Success(Verdict(
        Membership(db, state, pdu.sender) == Some(Join) &&
        (Membership(db, state, pdu.stateKey.value) == Some(Ban) ==> senderLevel >= levels.ban) &&
        senderLevel >= levels.kick && senderLevel > UserLevel(levels, pdu.stateKey.value)))
  {
    PreparedDispatch(db, pdu, state);
    var _ := Membership(db, state, pdu.sender);
    var _ := Membership(db, state, pdu.stateKey.value);
  }

  /** A ban needs the sender joined, at the ban level and strictly above the target. */
  lemma BanRule(db: Db, pdu: PduV4, state: StateMap)
    requires Prepared(db, pdu, state) && pdu.eventContent.Member? && pdu.eventContent.membership == Ban
    requires pdu.stateKey.Some? && Mxid.ParseMatrixId(pdu.stateKey.value).Some?
    ensures
      var levels := LevelsOf(db, state);
      var senderLevel := UserLevel(levels, pdu.sender);
      AuthCheckV1(db, pdu, state) == Success(Verdict(
        Membership(db, state, pdu.sender) == Some(Join) &&
        senderLevel >= levels.ban && senderLevel > UserLevel(levels, pdu.stateKey.value)))
  {
    PreparedDispatch(db, pdu, state);
    var _ := Membership(db, state, pdu.sender);
  }

  /**
   * Any other event is accepted only from a joined sender at the level the
   * event type requires, and a state key that starts with '@' must be the
   * sender's own.
   */
  lemma OtherEventRule(db: Db, pdu: PduV4, state: StateMap)
    requires Prepared(db, pdu, state) && !pdu.eventContent.Member?
    requires GetType(pdu.eventContent) != ThirdPartyInviteType
    ensures AuthCheckV1(db, pdu, state).Success?
    ensures AuthCheckV1(db, pdu, state) == Success(Pass) ==>
      var levels := LevelsOf(db, state);
      Membership(db, state, pdu.sender) == Some(Join) &&
      UserLevel(levels, pdu.sender) >= EventLevel(levels, GetType(pdu.eventContent), pdu.stateKey.Some?) &&
      (pdu.stateKey.Some? && |pdu.stateKey.value| > 0 && pdu.stateKey.value[0] == '@' ==> pdu.stateKey.value == pdu.sender)
  {
    PreparedDispatch(db, pdu, state);
    var _ := Membership(db, state, pdu.sender);
  }

  /**
   * A power-levels event that passes the generic rules is accepted when the
   * state has no power-levels entry, and otherwise iff the change is allowed.
   */
  lemma PowerLevelsRule(db: Db, pdu: PduV4, state: StateMap)
    requires Prepared(db, pdu, state) && pdu.eventContent.PowerLevelsContent?
    requires pdu.stateKey == Some("")
    requires Membership(db, state, pdu.sender) == Some(Join)
    requires UserLevel(LevelsOf(db, state), pdu.sender) >= EventLevel(LevelsOf(db, state), PowerLevelsType, true)
    ensures Key(PowerLevelsType, "") !in state ==> AuthCheckV1(db, pdu, state) == Success(Pass)
    ensures Key(PowerLevelsType, "") in state ==>
      AuthCheckV1(db, pdu, state) == Success(Verdict(PowerLevelsChangeAllowed(LevelsOf(db, state), pdu.eventContent.levels, pdu.sender)))
  {
    PreparedDispatch(db, pdu, state);
  }

  /** A redaction from a joined sender at the event level is accepted iff the sender has the redact level. */
  lemma RedactionRule(db: Db, pdu: PduV4, state: StateMap)
    requires Prepared(db, pdu, state) && pdu.eventContent.Redaction? && pdu.stateKey.None?
    requires Membership(db, state, pdu.sender) == Some(Join)
    requires UserLevel(LevelsOf(db, state), pdu.sender) >= EventLevel(LevelsOf(db, state), RedactionType, false)
    ensures AuthCheckV1(db, pdu, state) ==
      Success(Verdict(UserLevel(LevelsOf(db, state), pdu.sender) >= LevelsOf(db, state).redact))
  {
    PreparedDispatch(db, pdu, state);
  }

  /** No one can raise their own level above the level they hold. */
  lemma NoSelfPromotion(old_: PowerLevels, new_: PowerLevels, sender: string)
    requires sender in new_.users && (sender !in old_.users || old_.users[sender] != new_.users[sender])
    requires new_.users[sender] > UserLevel(old_, sender)
    ensures !PowerLevelsChangeAllowed(old_, new_, sender)
  {
  }

  /** No one can change the level of another user who stands at their own level. */
  lemma NoChangingPeers(old_: PowerLevels, new_: PowerLevels, sender: string, peer: string)
    requires peer != sender && peer in old_.users && peer in new_.users && old_.users[peer] != new_.users[peer]
    requires old_.users[peer] == UserLevel(old_, sender)
    ensures !PowerLevelsChangeAllowed(old_, new_, sender)
  {
  }

  /** Re-sending the levels in force is always allowed. */
  lemma UnchangedLevelsAllowed(levels: PowerLevels, sender: string)
    ensures PowerLevelsChangeAllowed(levels, levels, sender)
  {
  }
}
