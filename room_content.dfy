/**
 * Typed contents of the room state events (src/events/room.rs): the
 * enumerations with their snake_case wire names, and the power-level table.
 */
module RoomContent {
  import opened Wrappers

  /** The unsigned 32-bit integers the power-level table is made of. */
  type U32 = x: nat | x < 0x1_0000_0000

  datatype Membership = Invite | Join | Knock | Leave | Ban
  datatype JoinRule = Public | KnockRule | InviteRule | Private
  datatype HistoryVisibilityType = Invited | Joined | Shared | WorldReadable
  datatype GuestAccessType = CanJoin | Forbidden

  function MembershipName(m: Membership): string {
    match m
    case Invite => "invite"
    case Join => "join"
    case Knock => "knock"
    case Leave => "leave"
    case Ban => "ban"
  }

  /** Deserialising a membership name: exactly the five snake_case names are accepted. */
  function ParseMembership(s: string): (r: Option<Membership>)
    ensures r.Some? ==> MembershipName(r.value) == s
    ensures forall m :: MembershipName(m) == s ==> r == Some(m)
  {
    if s == "invite" then Some(Invite)
    else if s == "join" then Some(Join)
    else if s == "knock" then Some(Knock)
    else if s == "leave" then Some(Leave)
    else if s == "ban" then Some(Ban)
    else None
  }

  function JoinRuleName(j: JoinRule): string {
    match j
    case Public => "public"
    case KnockRule => "knock"
    case InviteRule => "invite"
    case Private => "private"
  }

  function ParseJoinRule(s: string): (r: Option<JoinRule>)
    ensures r.Some? ==> JoinRuleName(r.value) == s
    ensures forall j :: JoinRuleName(j) == s ==> r == Some(j)
  {
    if s == "public" then Some(Public)
    else if s == "knock" then Some(KnockRule)
    else if s == "invite" then Some(InviteRule)
    else if s == "private" then Some(Private)
    else None
  }

  function HistoryVisibilityName(h: HistoryVisibilityType): string {
    match h
    case Invited => "invited"
    case Joined => "joined"
    case Shared => "shared"
    case WorldReadable => "world_readable"
  }

  function ParseHistoryVisibility(s: string): (r: Option<HistoryVisibilityType>)
    ensures r.Some? ==> HistoryVisibilityName(r.value) == s
    ensures forall h :: HistoryVisibilityName(h) == s ==> r == Some(h)
  {
    if s == "invited" then Some(Invited)
    else if s == "joined" then Some(Joined)
    else if s == "shared" then Some(Shared)
    else if s == "world_readable" then Some(WorldReadable)
    else None
  }

  function GuestAccessName(g: GuestAccessType): string {
    match g
    case CanJoin => "can_join"
    case Forbidden => "forbidden"
  }

  function ParseGuestAccess(s: string): (r: Option<GuestAccessType>)
    ensures r.Some? ==> GuestAccessName(r.value) == s
    ensures forall g :: GuestAccessName(g) == s ==> r == Some(g)
  {
    if s == "can_join" then Some(CanJoin)
    else if s == "forbidden" then Some(Forbidden)
    else None
  }

  /** The content of m.room.power_levels. */
  datatype PowerLevels = PowerLevels(
    ban: U32,
    events: map<string, U32>,
    eventsDefault: U32,
    invite: U32,
    kick: U32,
    redact: U32,
    stateDefault: U32,
    users: map<string, U32>,
    usersDefault: U32,
    notificationsRoom: U32)

  /** `PowerLevels::default()`, which create_room sends when no override is given. */
  function DefaultPowerLevels(): (p: PowerLevels)
    ensures p.events == map[] && p.users == map[]
    ensures p.ban == p.invite == p.kick == p.redact == p.stateDefault == p.usersDefault == 50
    ensures p.eventsDefault == 0 && p.notificationsRoom == 50
  {
    PowerLevels(50, map[], 0, 50, 50, 50, 50, map[], 50, 50)
  }

  /**
   * The level of a user: the users entry if there is one, else users_default.
   * (The getter is not part of this model's sources; it follows the
   * m.room.power_levels rules of the Matrix client-server API.)
   */
  function UserLevel(p: PowerLevels, user: string): (l: U32)
    ensures user in p.users ==> l == p.users[user]
    ensures user !in p.users ==> l == p.usersDefault
  {
    if user in p.users then p.users[user] else p.usersDefault
  }

  /**
   * The level needed to send an event of type `eventType`: the events entry,
   * else state_default for a state event and events_default otherwise.
   */
  function EventLevel(p: PowerLevels, eventType: string, isState: bool): (l: U32)
    ensures eventType in p.events ==> l == p.events[eventType]
    ensures eventType !in p.events && isState ==> l == p.stateDefault
    ensures eventType !in p.events && !isState ==> l == p.eventsDefault
  {
    if eventType in p.events then p.events[eventType]
    else if isState then p.stateDefault
    else p.eventsDefault
  }

  /**
   * The levels in force when a room has no m.room.power_levels event: the
   * creator at 100, everyone else at 0, state events at 0. (Per the Matrix
   * client-server API; the defining code is not part of this model.)
   */
  function NoEventDefaultLevels(creator: string): (p: PowerLevels)
    ensures UserLevel(p, creator) == 100
    ensures forall u :: u != creator ==> UserLevel(p, u) == 0
    ensures forall t, s :: EventLevel(p, t, s) == 0
  {
    PowerLevels(50, map[], 0, 50, 50, 50, 0, map[creator := 100], 0, 50)
  }
}
