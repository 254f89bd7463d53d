/**
 * Room events of room version 4 (src/events/room_version/v4.rs), the typed
 * contents they carry, and the stored form with its authorisation status
 * (src/events/pdu.rs).
 *
 * SHA-256, canonical JSON and URL-safe unpadded base64 (section 5 of
 * RFC 4648) are outside the model: every operation that hashes takes
 * `hash`, standing for "base64 of the SHA-256 of the canonical text of
 * this JSON value", as a parameter, so the proofs hold for every such
 * function.
 */
module Events {
  import opened Wrappers
  import opened Json
  import opened RoomContent
  import Mxid

  const CreateType := "m.room.create"
  const MemberType := "m.room.member"
  const PowerLevelsType := "m.room.power_levels"
  const JoinRulesType := "m.room.join_rules"
  const HistoryVisibilityEventType := "m.room.history_visibility"
  const GuestAccessEventType := "m.room.guest_access"
  const NameType := "m.room.name"
  const TopicType := "m.room.topic"
  const RedactionType := "m.room.redaction"

  /** The event types that deserialise into a typed content. */
  const KnownTypes: set<string> := {CreateType, MemberType, PowerLevelsType, JoinRulesType,
    HistoryVisibilityEventType, GuestAccessEventType, NameType, TopicType, RedactionType}

  /** Any other event type: its content stays raw JSON. */
  type CustomType = t: string | t !in KnownTypes witness "m.room.aliases"

  datatype EventContent =
    | Create(creator: string, roomVersion: Option<string>, extra: map<string, Json>)
    | Member(avatarUrl: Option<string>, displayName: Option<string>, membership: Membership, isDirect: bool)
    | PowerLevelsContent(levels: PowerLevels)
    | JoinRules(joinRule: JoinRule)
    | HistoryVisibility(visibility: HistoryVisibilityType)
    | GuestAccess(access: GuestAccessType)
    | Name(name: string)
    | Topic(topic: string)
    | Redaction(reason: Option<string>)
    | Custom(eventType: CustomType, content: map<string, Json>)

  /** The "type" key of an event: determined by, and determining, the typed variant. */
  function GetType(c: EventContent): (t: string)
    ensures t == CreateType <==> c.Create?
    ensures t == MemberType <==> c.Member?
    ensures t == PowerLevelsType <==> c.PowerLevelsContent?
    ensures t == JoinRulesType <==> c.JoinRules?
    ensures t == RedactionType <==> c.Redaction?
    ensures t in KnownTypes <==> !c.Custom?
  {
    match c
    case Create(_, _, _) => CreateType
    case Member(_, _, _, _) => MemberType
    case PowerLevelsContent(_) => PowerLevelsType
    case JoinRules(_) => JoinRulesType
    case HistoryVisibility(_) => HistoryVisibilityEventType
    case GuestAccess(_) => GuestAccessEventType
    case Name(_) => NameType
    case Topic(_) => TopicType
    case Redaction(_) => RedactionType
    case Custom(t, _) => t
  }

  /** The "content" object of an event, as serde renders the typed content. */
  function ContentJson(c: EventContent): map<string, Json> {
    match c
    case Create(creator, v, extra) =>
      extra["creator" := JStr(creator)]["room_version" := OptStr(v)]
    case Member(a, d, m, direct) =>
      map["avatar_url" := OptStr(a), "displayname" := OptStr(d),
          "membership" := JStr(MembershipName(m)), "is_direct" := JBool(direct)]
    case PowerLevelsContent(p) =>
      map["ban" := JInt(p.ban), "events" := IntMap(p.events), "events_default" := JInt(p.eventsDefault),
          "invite" := JInt(p.invite), "kick" := JInt(p.kick), "redact" := JInt(p.redact),
          "state_default" := JInt(p.stateDefault), "users" := IntMap(p.users),
          "users_default" := JInt(p.usersDefault),
          "notifications" := JObj(map["room" := JInt(p.notificationsRoom)])]
    case JoinRules(j) => map["join_rule" := JStr(JoinRuleName(j))]
    case HistoryVisibility(h) => map["history_visibility" := JStr(HistoryVisibilityName(h))]
    case GuestAccess(g) => map["guest_access" := JStr(GuestAccessName(g))]
    case Name(n) => map["name" := JStr(n)]
    case Topic(t) => map["topic" := JStr(t)]
    case Redaction(r) => if r.Some? then map["reason" := JStr(r.value)] else map[]
    case Custom(_, content) => content
  }

  /**
   * Content redaction. The defining code is not part of this model; it keeps
   * what the redaction algorithm of room versions 1 to 5 keeps, as far as a
   * typed content can hold it: the creator of a create event, the membership
   * of a member event, the join rule, the history visibility, the whole
   * power-level table and the "aliases" key of m.room.aliases; every other
   * field is emptied.
   */
  function RedactContent(c: EventContent): (r: EventContent)
    ensures GetType(r) == GetType(c)
    ensures c.Member? ==> r.membership == c.membership
    ensures c.Create? ==> r.creator == c.creator
  {
    match c
    case Create(creator, _, _) => Create(creator, None, map[])
    case Member(_, _, m, _) => Member(None, None, m, false)
    case PowerLevelsContent(_) => c
    case JoinRules(_) => c
    case HistoryVisibility(_) => c
    case GuestAccess(_) => c
    case Name(_) => Name("")
    case Topic(_) => Topic("")
    case Redaction(_) => Redaction(None)
    case Custom(t, content) =>
      if t == "m.room.aliases" && "aliases" in content then Custom(t, map["aliases" := content["aliases"]])
      else Custom(t, map[])
  }

  /** Redacting twice is redacting once. */
  lemma RedactContentIdempotent(c: EventContent)
    ensures RedactContent(RedactContent(c)) == RedactContent(c)
  {
  }

  datatype EventHash = EventHash(sha256: string)

  /** A PDU before its content hash is known. */
  datatype UnhashedPdu = UnhashedPdu(
    eventContent: EventContent,
    roomId: string,
    sender: Mxid.MatrixId,
    stateKey: Option<string>,
    unsigned: Option<Json>,
    redacts: Option<string>,
    origin: string,
    originServerTs: int,
    prevEvents: seq<string>,
    depth: int,
    authEvents: seq<string>)

  /** A complete room-version-4 PDU. */
  datatype PduV4 = PduV4(
    eventContent: EventContent,
    roomId: string,
    sender: Mxid.MatrixId,
    stateKey: Option<string>,
    unsigned: Option<Json>,
    redacts: Option<string>,
    origin: string,
    originServerTs: int,
    prevEvents: seq<string>,
    depth: int,
    authEvents: seq<string>,
    hashes: EventHash,
    signatures: Option<map<string, Json>>)

  /** The event as clients see it. */
  datatype Event = Event(
    eventContent: EventContent,
    roomId: Option<string>,
    sender: Mxid.MatrixId,
    stateKey: Option<string>,
    unsigned: Option<Json>,
    redacts: Option<string>,
    originServerTs: Option<int>)

  datatype AuthStatus = Pass | Fail

  /** A PDU as the storage keeps it, with the outcome of its authorisation. */
  datatype StoredPdu = StoredPdu(inner: PduV4, authStatus: AuthStatus) {
    predicate DidPassAuth() {
      authStatus == Pass
    }

    /** The id the state maps hold: the content hash. */
    function EventId(): string {
      inner.hashes.sha256
    }
  }

  function PutOpt(m: map<string, Json>, key: string, v: Option<Json>): map<string, Json> {
    if v.Some? then m[key := v.value] else m
  }

  function OptStrJson(o: Option<string>): Option<Json> {
    if o.Some? then Some(JStr(o.value)) else None
  }

  /** The serialisation of an unhashed PDU: `unsigned` is skipped, absent options are omitted. */
  function UnhashedJson(u: UnhashedPdu): Json {
    var base := map[
      "type" := JStr(GetType(u.eventContent)), "content" := JObj(ContentJson(u.eventContent)),
      "room_id" := JStr(u.roomId), "sender" := JStr(u.sender), "origin" := JStr(u.origin),
      "origin_server_ts" := JInt(u.originServerTs), "prev_events" := StrArray(u.prevEvents),
      "depth" := JInt(u.depth), "auth_events" := StrArray(u.authEvents)];
    JObj(PutOpt(PutOpt(base, "state_key", OptStrJson(u.stateKey)), "redacts", OptStrJson(u.redacts)))
  }

  /** The serialisation of a PDU: every absent option is omitted. */
  function PduJson(p: PduV4): Json {
    var base := map[
      "type" := JStr(GetType(p.eventContent)), "content" := JObj(ContentJson(p.eventContent)),
      "room_id" := JStr(p.roomId), "sender" := JStr(p.sender), "origin" := JStr(p.origin),
      "origin_server_ts" := JInt(p.originServerTs), "prev_events" := StrArray(p.prevEvents),
      "depth" := JInt(p.depth), "auth_events" := StrArray(p.authEvents),
      "hashes" := JObj(map["sha256" := JStr(p.hashes.sha256)])];
    var sigs := if p.signatures.Some? then Some(JObj(p.signatures.value)) else None;
    JObj(PutOpt(PutOpt(PutOpt(PutOpt(base, "state_key", OptStrJson(p.stateKey)),
      "unsigned", p.unsigned), "redacts", OptStrJson(p.redacts)), "signatures", sigs))
  }

  /** Forgetting the hash and the signatures of a PDU. */
  function Unhashed(p: PduV4): UnhashedPdu {
    UnhashedPdu(p.eventContent, p.roomId, p.sender, p.stateKey, p.unsigned, p.redacts,
      p.origin, p.originServerTs, p.prevEvents, p.depth, p.authEvents)
  }

  /**
   * `UnhashedPdu::finalize`: every field carried across, the content hash of
   * the serialised unhashed PDU added, and an empty signature map.
   */
  function Finalize(hash: Json -> string, u: UnhashedPdu): (p: PduV4)
    ensures Unhashed(p) == u
    ensures p.signatures == Some(map[])
  {
    PduV4(u.eventContent, u.roomId, u.sender, u.stateKey, u.unsigned, u.redacts,
      u.origin, u.originServerTs, u.prevEvents, u.depth, u.authEvents,
      EventHash(hash(UnhashedJson(u))), Some(map[]))
  }

  /** The content hash does not see `unsigned`. */
  lemma FinalizeIgnoresUnsigned(hash: Json -> string, u: UnhashedPdu, x: Option<Json>)
    ensures Finalize(hash, u.(unsigned := x)).hashes == Finalize(hash, u).hashes
  {
    assert UnhashedJson(u.(unsigned := x)) == UnhashedJson(u);
  }

  /**
   * `PduV4::redact`: content redacted, unsigned and redacts cleared, every
   * other field (hashes and signatures included) kept.
   */
  function Redact(p: PduV4): (r: PduV4)
    ensures r.eventContent == RedactContent(p.eventContent)
    ensures r.unsigned.None? && r.redacts.None?
    ensures r.(eventContent := p.eventContent, unsigned := p.unsigned, redacts := p.redacts) == p
  {
    p.(eventContent := RedactContent(p.eventContent), unsigned := None, redacts := None)
  }

  lemma RedactIdempotent(p: PduV4)
    ensures Redact(Redact(p)) == Redact(p)
  {
    RedactContentIdempotent(p.eventContent);
  }

  /** What the event id is computed from: the redacted PDU without signatures. */
  function IdForm(p: PduV4): PduV4 {
    Redact(p).(signatures := None)
  }

  /** `PduV4::event_id`: '$' followed by the reference hash of the id form. */
  function EventId(hash: Json -> string, p: PduV4): (id: string)
    ensures |id| > 0 && id[0] == '$'
    ensures id[1..] == hash(PduJson(IdForm(p)))
  {
    "$" + hash(PduJson(IdForm(p)))
  }

  /** PDUs with the same id form have the same id, whatever their unsigned, redacts and signatures. */
  lemma EventIdIgnoresUnhashedParts(hash: Json -> string, p: PduV4,
      unsigned: Option<Json>, redacts: Option<string>, signatures: Option<map<string, Json>>)
    ensures EventId(hash, p.(unsigned := unsigned, redacts := redacts, signatures := signatures))
         == EventId(hash, p)
  {
    assert IdForm(p.(unsigned := unsigned, redacts := redacts, signatures := signatures)) == IdForm(p);
  }

  /** A hash function without collisions. */
  ghost predicate CollisionFree(hash: Json -> string) {
    forall a: Json, b: Json :: hash(a) == hash(b) ==> a == b
  }

  /** With a collision-free hash, the id separates PDUs that differ in depth, prev_events or auth_events. */
  lemma EventIdSeparatesGraphFields(hash: Json -> string, p: PduV4, q: PduV4)
    requires CollisionFree(hash)
    requires p.depth != q.depth || p.prevEvents != q.prevEvents || p.authEvents != q.authEvents
    ensures EventId(hash, p) != EventId(hash, q)
  {
    var jp := PduJson(IdForm(p));
    var jq := PduJson(IdForm(q));
    if p.depth != q.depth {
      assert jp.fields["depth"] != jq.fields["depth"];
    } else if p.prevEvents != q.prevEvents {
      StrArrayInjective(p.prevEvents, q.prevEvents);
      assert jp.fields["prev_events"] != jq.fields["prev_events"];
    } else {
      StrArrayInjective(p.authEvents, q.authEvents);
      assert jp.fields["auth_events"] != jq.fields["auth_events"];
    }
    assert EventId(hash, p)[1..] != EventId(hash, q)[1..];
  }

  lemma StrArrayInjective(xs: seq<string>, ys: seq<string>)
    requires xs != ys
    ensures StrArray(xs) != StrArray(ys)
  {
    if |xs| == |ys| {
      var i :| 0 <= i < |xs| && xs[i] != ys[i];
      assert StrArray(xs).items[i] != StrArray(ys).items[i];
    }
  }

  /** `PduV4::to_client_format`. */
  function ToClientFormat(p: PduV4): (e: Event)
    ensures e.eventContent == p.eventContent && e.sender == p.sender && e.stateKey == p.stateKey
    ensures e.unsigned == p.unsigned && e.redacts == p.redacts
    ensures e.roomId == Some(p.roomId) && e.originServerTs == Some(p.originServerTs)
  {
    Event(p.eventContent, Some(p.roomId), p.sender, p.stateKey, p.unsigned, p.redacts, Some(p.originServerTs))
  }
}
