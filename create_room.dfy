/**
 * Room creation (src/client/room.rs): the chain of events that opens a new
 * room. Each event sits one deeper than the one before and names it as its
 * only prev event; after the first three, every event is authorised by the
 * power-levels event.
 *
 * The random room id, the clock, the caller's profile lookup and the
 * content hash are parameters.
 */
module CreateRoom {
  import opened Wrappers
  import opened Json
  import opened Events
  import RoomContent
  import Mxid

  datatype RoomVisibility = PublicRoom | PrivateRoom

  datatype Preset = PrivateChat | TrustedPrivateChat | PublicChat

  /** An `initial_state` entry, with its content already in typed form. */
  datatype StateEvent = StateEvent(content: EventContent, stateKey: string)

  datatype CreateRoomRequest = CreateRoomRequest(
    visibility: RoomVisibility,
    name: Option<string>,
    topic: Option<string>,
    invite: Option<seq<string>>,
    roomVersion: Option<string>,
    creationContent: Option<map<string, Json>>,
    initialState: Option<seq<StateEvent>>,
    preset: Option<Preset>,
    isDirect: Option<bool>,
    powerLevelContentOverride: Option<RoomContent.PowerLevels>)

  datatype UserProfile = UserProfile(avatarUrl: Option<string>, displayName: Option<string>)

  datatype CreateRoomError = UnsupportedRoomVersion | Panic(message: string)

  /** The preset in force: the requested one, else the one the visibility implies. */
  function EffectivePreset(req: CreateRoomRequest): (p: Preset)
    ensures req.preset.Some? ==> p == req.preset.value
    ensures req.preset.None? && req.visibility == PrivateRoom ==> p == PrivateChat
    ensures req.preset.None? && req.visibility == PublicRoom ==> p == PublicChat
  {
    match req.preset
    case Some(p) => p
    case None => if req.visibility == PrivateRoom then PrivateChat else PublicChat
  }

  /** The join rule, history visibility and guest access a preset sets up. */
  function PresetSettings(p: Preset): (s: (RoomContent.JoinRule, RoomContent.HistoryVisibilityType, RoomContent.GuestAccessType))
    ensures p != PublicChat ==> s == (RoomContent.InviteRule, RoomContent.Shared, RoomContent.CanJoin)
    ensures p == PublicChat ==> s == (RoomContent.Public, RoomContent.Shared, RoomContent.Forbidden)
  {
    match p
    case PrivateChat => (RoomContent.InviteRule, RoomContent.Shared, RoomContent.CanJoin)
    case TrustedPrivateChat => (RoomContent.InviteRule, RoomContent.Shared, RoomContent.CanJoin)
    case PublicChat => (RoomContent.Public, RoomContent.Shared, RoomContent.Forbidden)
  }

  /** A public room can be joined by anyone; the private presets need an invite. */
  lemma PresetJoinRule(req: CreateRoomRequest)
    ensures PresetSettings(EffectivePreset(req)).0 == RoomContent.Public <==>
      (req.preset == Some(PublicChat) || (req.preset.None? && req.visibility == PublicRoom))
  {
  }

  /** What every event of the new room shares. */
  datatype Header = Header(roomId: string, sender: Mxid.MatrixId, origin: string, now: int)

  /**
   * The content and state key of every event the room opens with, in order:
   * create, the creator's join, power levels, join rules, history visibility,
   * guest access, the initial state, the name, the topic, and one invite per
   * invitee.
   */
  function RoomContents(req: CreateRoomRequest, userId: Mxid.MatrixId, profile: UserProfile): (s: seq<(EventContent, string)>)
    ensures |s| >= 6
    ensures s[0].0.Create? && s[0].0.creator == userId && s[0].1 == ""
    ensures s[1] == (Member(profile.avatarUrl, profile.displayName, RoomContent.Join, req.isDirect.GetOr(false)), userId)
    ensures s[2].0.PowerLevelsContent? && s[2].1 == ""
  {
    [(Create(userId, Some(req.roomVersion.GetOr("4")), req.creationContent.GetOr(map[])), "")]
    + ContentsAfterCreate(req, userId, profile)
  }

  /** Everything `RoomContents` lists after the create event. */
  function ContentsAfterCreate(req: CreateRoomRequest, userId: Mxid.MatrixId, profile: UserProfile): (s: seq<(EventContent, string)>)
    ensures |s| >= 5
    ensures s[0] == (Member(profile.avatarUrl, profile.displayName, RoomContent.Join, req.isDirect.GetOr(false)), userId)
    ensures s[1].0.PowerLevelsContent? && s[1].1 == ""
  {
    var isDirect := req.isDirect.GetOr(false);
    var (joinRule, history, guest) := PresetSettings(EffectivePreset(req));
    [ (Member(profile.avatarUrl, profile.displayName, RoomContent.Join, isDirect), userId),
      (PowerLevelsContent(req.powerLevelContentOverride.GetOr(RoomContent.DefaultPowerLevels())), ""),
      (JoinRules(joinRule), ""),
      (HistoryVisibility(history), ""),
      (GuestAccess(guest), "") ]
    + InitialStateContents(req.initialState.GetOr([]))
    + (if req.name.Some? then [(Name(req.name.value), "")] else [])
    + (if req.topic.Some? then [(Topic(req.topic.value), "")] else [])
    + InviteContents(req.invite.GetOr([]), isDirect)
  }

  function InitialStateContents(events: seq<StateEvent>): (s: seq<(EventContent, string)>)
    ensures |s| == |events|
    ensures forall i :: 0 <= i < |events| ==> s[i] == (events[i].content, events[i].stateKey)
  {
    seq(|events|, i requires 0 <= i < |events| => (events[i].content, events[i].stateKey))
  }

  /** One invite member event per invitee, with the invitee as state key. */
  function InviteContents(invitees: seq<string>, isDirect: bool): (s: seq<(EventContent, string)>)
    ensures |s| == |invitees|
    ensures forall i :: 0 <= i < |invitees| ==> s[i] == (Member(None, None, RoomContent.Invite, isDirect), invitees[i])
  {
    seq(|invitees|, i requires 0 <= i < |invitees| => (Member(None, None, RoomContent.Invite, isDirect), invitees[i]))
  }

  /**
   * Event `i` of the chain: finalized from its own fields, with the room's
   * header, depth `i`, the event before it as its only prev event (none for
   * the create event), and the power-levels event as its only auth event
   * from position 3 on.
   */
  ghost predicate Linked(hash: Json -> string, events: seq<PduV4>, i: nat, h: Header)
    requires i < |events|
  {
    var e := events[i];
    && e == Finalize(hash, Unhashed(e))
    && e.roomId == h.roomId && e.sender == h.sender && e.origin == h.origin && e.originServerTs == h.now
    && e.unsigned.None? && e.redacts.None? && e.stateKey.Some?
    && e.depth == i
    && e.prevEvents == (if i == 0 then [] else [events[i - 1].hashes.sha256])
    && e.authEvents == (if i < 3 then [] else [events[2].hashes.sha256])
  }

  ghost predicate RoomChain(hash: Json -> string, events: seq<PduV4>, h: Header) {
    forall i :: 0 <= i < |events| ==> Linked(hash, events, i, h)
  }

  /** The contents and state keys of a chain, in order. */
  function ContentsOf(events: seq<PduV4>): (s: seq<(EventContent, string)>)
    ensures |s| == |events|
  {
    seq(|events|, i requires 0 <= i < |events| =>
      (events[i].eventContent, if events[i].stateKey.Some? then events[i].stateKey.value else ""))
  }

  /** The next event of the chain, as each `events.push` builds it. */
  function NextEvent(hash: Json -> string, events: seq<PduV4>, h: Header, content: EventContent, stateKey: string): (e: PduV4)
    requires |events| > 0
  {
    Finalize(hash, UnhashedPdu(content, h.roomId, h.sender, Some(stateKey), None, None, h.origin, h.now,
      [events[|events| - 1].hashes.sha256], |events|,
      if |events| < 3 then [] else [events[2].hashes.sha256]))
  }

  /** Pushing the next event keeps the chain and adds its content at the end. */
  lemma PushKeepsChain(hash: Json -> string, events: seq<PduV4>, h: Header, content: EventContent, stateKey: string)
    requires |events| > 0 && RoomChain(hash, events, h)
    ensures RoomChain(hash, events + [NextEvent(hash, events, h, content, stateKey)], h)
    ensures ContentsOf(events + [NextEvent(hash, events, h, content, stateKey)]) == ContentsOf(events) + [(content, stateKey)]
  {
    var e := NextEvent(hash, events, h, content, stateKey);
    var after := events + [e];
    forall i | 0 <= i < |after|
      ensures Linked(hash, after, i, h)
    {
      if i < |events| {
        assert Linked(hash, events, i, h);
        assert after[i] == events[i];
        assert i > 0 ==> after[i - 1] == events[i - 1];
        assert i >= 3 ==> after[2] == events[2];
      } else {
        assert after[i] == e && after[i - 1] == events[|events| - 1];
        assert |events| >= 3 ==> after[2] == events[2];
      }
    }
  }

  /** The first event: the create event, at depth 0 with no prev or auth events. */
  function CreateEvent(hash: Json -> string, h: Header, content: EventContent): (e: PduV4)
    ensures RoomChain(hash, [e], h)
  {
    Finalize(hash, UnhashedPdu(content, h.roomId, h.sender, Some(""), None, None, h.origin, h.now, [], 0, []))
  }

  /**
   * `create_room` from the room-version check up to the `add_pdus` call:
   * an unsupported room version is refused before anything is built, a
   * caller without a profile is the `unwrap` that panics, and otherwise the
   * events form a chain carrying `RoomContents` in order.
   */
  method CreateRoomEvents(hash: Json -> string, req: CreateRoomRequest, userId: Mxid.MatrixId, domain: string,
      roomId: string, now: int, profile: Option<UserProfile>) returns (r: Result<seq<PduV4>, CreateRoomError>)
    ensures req.roomVersion.GetOr("4") != "4" ==> r == Failure(UnsupportedRoomVersion)
    ensures req.roomVersion.GetOr("4") == "4" && profile.None? ==> r.Failure? && r.error.Panic?
    ensures req.roomVersion.GetOr("4") == "4" && profile.Some? ==>
      r.Success? && RoomChain(hash, r.value, Header(roomId, userId, domain, now))
      && ContentsOf(r.value) == RoomContents(req, userId, profile.value)
  {
    var roomVersion := req.roomVersion.GetOr("4");
    if roomVersion != "4" {
      return Failure(UnsupportedRoomVersion);
    }
    if profile.None? {
      return Failure(Panic("called `Option::unwrap()` on a `None` value"));
    }
    var h := Header(roomId, userId, domain, now);
    ghost var want := RoomContents(req, userId, profile.value);
    var events := [CreateEvent(hash, h, Create(userId, Some(roomVersion), req.creationContent.GetOr(map[])))];
    // The creator's join, the power levels, the three preset events, the
    // initial state, the name, the topic and the invites, pushed in turn.
    var tail := ContentsAfterCreate(req, userId, profile.value);
    assert want == want[..1] + tail;
    for i := 0 to |tail|
      invariant |events| == i + 1
      invariant RoomChain(hash, events, h)
      invariant ContentsOf(events) == want[..i + 1]
    {
      PushKeepsChain(hash, events, h, tail[i].0, tail[i].1);
      assert want[..i + 2] == want[..i + 1] + [tail[i]];
      events := events + [NextEvent(hash, events, h, tail[i].0, tail[i].1)];
    }
    assert want[..|tail| + 1] == want;
    r := Success(events);
  }

  /** The power-levels event authorises every event after it, and nothing authorises the first three. */
  lemma ChainAuthEvents(hash: Json -> string, events: seq<PduV4>, h: Header, i: nat)
    requires RoomChain(hash, events, h) && i < |events|
    ensures i < 3 ==> events[i].authEvents == []
    ensures i >= 3 ==> events[i].authEvents == [events[2].hashes.sha256] && events[2].depth == 2
  {
    assert Linked(hash, events, i, h);
    if i >= 3 {
      assert Linked(hash, events, 2, h);
    }
  }

  /** Every event of the chain is the child of the one before it: its prev events name exactly that one. */
  lemma ChainParents(hash: Json -> string, events: seq<PduV4>, h: Header, i: nat)
    requires RoomChain(hash, events, h) && 0 < i < |events|
    ensures events[i].prevEvents == [events[i - 1].hashes.sha256]
    ensures events[i].depth == events[i - 1].depth + 1
  {
    assert Linked(hash, events, i, h);
    assert Linked(hash, events, i - 1, h);
  }
}
