/**
 * Event queries against a room's timeline (src/storage/mod.rs): the filter
 * every backend applies, and the state lookups the storage trait derives
 * from it by taking the last match.
 */
module Query {
  import opened Wrappers
  import opened Json
  import opened RoomContent
  import opened Events
  import Mxid

  datatype QueryType =
    | Timeline(from: nat, to: Option<nat>)
    | State(at: Option<nat>, stateKeys: seq<string>, notStateKeys: seq<string>)

  datatype EventQuery = EventQuery(
    queryType: QueryType,
    roomId: string,
    senders: seq<Mxid.MatrixId>,
    notSenders: seq<Mxid.MatrixId>,
    types: seq<string>,
    notTypes: seq<string>,
    containsJson: Option<map<string, Json>>)

  /** What a sync batch remembers: the index reached in each joined room, and the invites already seen. */
  datatype Batch = Batch(rooms: map<string, nat>, invites: set<string>)

  predicate IsTimeline(t: QueryType) {
    match t
    case Timeline(_, _) => true
    case _ => false
  }

  /** The two kinds of query exclude each other and cover every query. */
  predicate IsState(t: QueryType)
    ensures IsState(t) <==> !IsTimeline(t)
  {
    match t
    case State(_, _, _) => true
    case _ => false
  }

  /** An include list admits everything when empty; an exclude list always wins. */
  predicate Admits<T(==)>(allowed: seq<T>, denied: seq<T>, x: T) {
    x !in denied && (|allowed| == 0 || x in allowed)
  }

  /** Every key of the pattern is present in the content with an equal value. */
  predicate ContainsAll(content: map<string, Json>, pattern: map<string, Json>) {
    forall k :: k in pattern ==> k in content && content[k] == pattern[k]
  }

  /**
   * `EventQuery::matches`: a state query needs a state key that its lists
   * admit; the sender and the type must be admitted by theirs; a
   * contains_json pattern must be contained in the content.
   */
  predicate Matches(q: EventQuery, pdu: PduV4)
    ensures Matches(q, pdu) <==>
      (q.queryType.State? ==>
        pdu.stateKey.Some? && Admits(q.queryType.stateKeys, q.queryType.notStateKeys, pdu.stateKey.value))
      && Admits(q.senders, q.notSenders, pdu.sender)
      && Admits(q.types, q.notTypes, GetType(pdu.eventContent))
      && (q.containsJson.Some? ==> ContainsAll(ContentJson(pdu.eventContent), q.containsJson.value))
  {
    if q.queryType.State? && pdu.stateKey.None? then false
    else if q.queryType.State? && pdu.stateKey.value in q.queryType.notStateKeys then false
    else if q.queryType.State? && |q.queryType.stateKeys| != 0
      && pdu.stateKey.value !in q.queryType.stateKeys then false
    else if pdu.sender in q.notSenders then false
    else if |q.senders| != 0 && pdu.sender !in q.senders then false
    else if GetType(pdu.eventContent) in q.notTypes then false
    else if |q.types| != 0 && GetType(pdu.eventContent) !in q.types then false
    else if q.containsJson.Some? then ContentContains(ContentJson(pdu.eventContent), q.containsJson.value)
    else true
  }

  /** The loop over the pattern's entries, stopping at the first one the content lacks. */
  predicate ContentContains(content: map<string, Json>, pattern: map<string, Json>)
    ensures ContentContains(content, pattern) <==> ContainsAll(content, pattern)
    decreases |pattern|
  {
    if |pattern| == 0 then true
    else
      var k :| k in pattern;
      if k !in content || content[k] != pattern[k] then false
      else
        var rest := pattern - {k};
        assert rest.Keys == pattern.Keys - {k};
        ContentContains(content, rest)
  }

  /** Exclusion wins: a sender or a type on an exclude list never matches, whatever the include list says. */
  lemma ExclusionWins(q: EventQuery, pdu: PduV4)
    requires pdu.sender in q.notSenders || GetType(pdu.eventContent) in q.notTypes
    ensures !Matches(q, pdu)
  {
  }

  /** A state query never matches an event without a state key. */
  lemma StateQueryNeedsStateKey(q: EventQuery, pdu: PduV4)
    requires q.queryType.State? && pdu.stateKey.None?
    ensures !Matches(q, pdu)
  {
  }

  /** The query behind `get_state_event(room, type, key)`. */
  function StateEventQuery(roomId: string, eventType: string, stateKey: string): (q: EventQuery)
    ensures forall pdu :: Matches(q, pdu) <==> IsStateEntry(pdu, eventType, stateKey)
  {
    EventQuery(State(None, [stateKey], []), roomId, [], [], [eventType], [], None)
  }

  predicate IsStateEntry(pdu: PduV4, eventType: string, stateKey: string) {
    pdu.stateKey == Some(stateKey) && GetType(pdu.eventContent) == eventType
  }

  /** The last position of the timeline whose event matches, as `pop` on the query result gives. */
  function LastMatch(events: seq<PduV4>, q: EventQuery): (r: Option<nat>)
    ensures r.Some? ==> r.value < |events| && Matches(q, events[r.value])
    ensures r.Some? ==> forall j :: r.value < j < |events| ==> !Matches(q, events[j])
    ensures r.None? <==> forall j :: 0 <= j < |events| ==> !Matches(q, events[j])
  {
    if |events| == 0 then None
    else if Matches(q, events[|events| - 1]) then Some(|events| - 1)
    else LastMatch(events[..|events| - 1], q)
  }

  /**
   * `Storage::get_state_event`: the latest event of the room with this type
   * and state key, if any.
   */
  function GetStateEvent(events: seq<PduV4>, eventType: string, stateKey: string): (r: Option<PduV4>)
    ensures r.Some? ==> r.value.stateKey == Some(stateKey) && GetType(r.value.eventContent) == eventType
    ensures r.Some? ==>
      exists i :: 0 <= i < |events| && events[i] == r.value &&
        forall j :: i < j < |events| ==> !IsStateEntry(events[j], eventType, stateKey)
    ensures r.None? <==> forall j :: 0 <= j < |events| ==> !IsStateEntry(events[j], eventType, stateKey)
  {
    var q := StateEventQuery("", eventType, stateKey);
    match LastMatch(events, q)
    case None => None
    case Some(i) => Some(events[i])
  }

  /** `Storage::get_membership`: the membership of the latest member event about the user. */
  function GetMembership(events: seq<PduV4>, user: Mxid.MatrixId): (r: Option<Membership>)
    ensures r.Some? <==> GetStateEvent(events, MemberType, user).Some?
    ensures r.Some? ==> r.value == GetStateEvent(events, MemberType, user).value.eventContent.membership
  {
    match GetStateEvent(events, MemberType, user)
    case None => None
    case Some(e) => Some(e.eventContent.membership)
  }
}
