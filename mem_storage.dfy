/**
 * The in-memory storage backend (src/storage/mem.rs): rooms as growing
 * event vectors, a user list, and the access-token and transaction tables,
 * all updated in place.
 */
module MemStore {
  import opened Wrappers
  import opened Json
  import opened Events
  import opened Query
  import Mxid
  import Uuid

  datatype StorageError = UserNotFound | RoomNotFound | AccessTokenNotFound

  /** A room: its events in the order they were stored. */
  datatype Room = Room(events: seq<PduV4>)

  datatype UserProfile = UserProfile(avatarUrl: Option<string>, displayName: Option<string>)

  datatype User = User(username: string, passwordHash: string, profile: UserProfile,
    accountData: map<string, Json>)

  /** Storing one PDU: a create event installs a fresh room; the PDU is then appended to its room. */
  function AddPdu(rooms: map<string, Room>, pdu: PduV4): (r: Result<map<string, Room>, StorageError>)
    ensures pdu.eventContent.Create? ==> r == Success(rooms[pdu.roomId := Room([pdu])])
    ensures !pdu.eventContent.Create? && pdu.roomId !in rooms ==> r == Failure(RoomNotFound)
    ensures !pdu.eventContent.Create? && pdu.roomId in rooms ==>
      r == Success(rooms[pdu.roomId := Room(rooms[pdu.roomId].events + [pdu])])
  {
    var installed := if pdu.eventContent.Create? then rooms[pdu.roomId := Room([])] else rooms;
    if pdu.roomId !in installed then Failure(RoomNotFound)
    else
      var after := installed[pdu.roomId := Room(installed[pdu.roomId].events + [pdu])];
      assert pdu.eventContent.Create? ==> installed[pdu.roomId].events + [pdu] == [pdu];
      assert pdu.eventContent.Create? ==> after == rooms[pdu.roomId := Room([pdu])];
      Success(after)
  }

  /**
   * Storing a batch: the rooms after each PDU in turn, stopping at the first
   * failure with everything stored before it kept.
   */
  function AddPdusSpec(rooms: map<string, Room>, pdus: seq<PduV4>): (map<string, Room>, Option<StorageError>)
  {
    if |pdus| == 0 then (rooms, None)
    else
      var (before, err) := AddPdusSpec(rooms, pdus[..|pdus| - 1]);
      if err.Some? then (before, err)
      else match AddPdu(before, pdus[|pdus| - 1])
        case Success(after) => (after, None)
        case Failure(e) => (before, Some(e))
  }

  /** Once a batch has failed, later PDUs change nothing: the PDUs stored before the failure stay. */
  lemma {:induction false} AddPdusStopsAtFailure(rooms: map<string, Room>, done: seq<PduV4>, rest: seq<PduV4>)
    requires AddPdusSpec(rooms, done).1.Some?
    ensures AddPdusSpec(rooms, done + rest) == AddPdusSpec(rooms, done)
    decreases |rest|
  {
    if |rest| > 0 {
      var front := rest[..|rest| - 1];
      assert (done + rest)[..|done + rest| - 1] == done + front;
      AddPdusStopsAtFailure(rooms, done, front);
    } else {
      assert done + rest == done;
    }
  }

  /** Every room holds at least one event (its create event). */
  ghost predicate RoomsNonEmpty(rooms: map<string, Room>) {
    forall id :: id in rooms ==> |rooms[id].events| > 0
  }

  lemma {:induction false} AddPdusKeepsRoomsNonEmpty(rooms: map<string, Room>, pdus: seq<PduV4>)
    requires RoomsNonEmpty(rooms)
    ensures RoomsNonEmpty(AddPdusSpec(rooms, pdus).0)
  {
    if |pdus| > 0 {
      AddPdusKeepsRoomsNonEmpty(rooms, pdus[..|pdus| - 1]);
    }
  }

  /** The greatest depth in a non-empty room. */
  function MaxDepth(events: seq<PduV4>): (d: int)
    requires |events| > 0
    ensures forall i :: 0 <= i < |events| ==> events[i].depth <= d
    ensures exists i :: 0 <= i < |events| && events[i].depth == d
  {
    if |events| == 1 then events[0].depth
    else
      var rest := MaxDepth(events[1..]);
      assert forall i :: 1 <= i < |events| ==> events[i] == events[1..][i - 1];
      if events[0].depth >= rest then events[0].depth else rest
  }

  /** The ids, in timeline order, of the events at depth `d`. */
  function IdsAtDepth(hash: Json -> string, events: seq<PduV4>, d: int): (ids: seq<string>)
    ensures forall x :: x in ids <==>
      (exists i :: 0 <= i < |events| && events[i].depth == d && EventId(hash, events[i]) == x)
    ensures |ids| <= |events|
  {
    if |events| == 0 then []
    else
      var rest := IdsAtDepth(hash, events[..|events| - 1], d);
      assert forall i :: 0 <= i < |events| - 1 ==> events[i] == events[..|events| - 1][i];
      var last := events[|events| - 1];
      if last.depth == d then rest + [EventId(hash, last)] else rest
  }

  /**
   * The PDU `add_event_unchecked` builds for `event` on top of a room's
   * events: one deeper than the deepest of them, with every event at that
   * greatest depth as a prev event, the sender's domain as origin and `now`
   * as its timestamp; everything else comes from the event.
   */
  function NextPdu(hash: Json -> string, events: seq<PduV4>, event: Event, authEvents: seq<string>, now: int): (p: PduV4)
    requires |events| > 0 && event.roomId.Some? && Mxid.Domain(event.sender).Some?
    ensures forall i :: 0 <= i < |events| ==> events[i].depth < p.depth
    ensures exists i :: 0 <= i < |events| && events[i].depth == p.depth - 1
    ensures forall x :: x in p.prevEvents <==>
      (exists i :: 0 <= i < |events| && events[i].depth == p.depth - 1 && EventId(hash, events[i]) == x)
    ensures p.eventContent == event.eventContent && p.roomId == event.roomId.value && p.sender == event.sender
    ensures p.stateKey == event.stateKey && p.unsigned == event.unsigned && p.redacts == event.redacts
    ensures p.origin == Mxid.Domain(event.sender).value && p.originServerTs == now && p.authEvents == authEvents
  {
    var depth := MaxDepth(events);
    Finalize(hash, UnhashedPdu(event.eventContent, event.roomId.value, event.sender, event.stateKey,
      event.unsigned, event.redacts, Mxid.Domain(event.sender).value, now,
      IdsAtDepth(hash, events, depth), depth + 1, authEvents))
  }

  /** The events of a slice that a query matches, in order. */
  function FilterMatches(events: seq<PduV4>, q: EventQuery): (r: seq<PduV4>)
    ensures |r| <= |events|
    ensures forall e :: e in r <==> e in events && Matches(q, e)
  {
    if |events| == 0 then []
    else
      var rest := FilterMatches(events[..|events| - 1], q);
      assert events == events[..|events| - 1] + [events[|events| - 1]];
      if Matches(q, events[|events| - 1]) then rest + [events[|events| - 1]] else rest
  }

  /** Filtering keeps the timeline order: it distributes over concatenation. */
  lemma {:induction false} FilterMatchesAppend(a: seq<PduV4>, b: seq<PduV4>, q: EventQuery)
    ensures FilterMatches(a + b, q) == FilterMatches(a, q) + FilterMatches(b, q)
    decreases |b|
  {
    if |b| == 0 {
      assert a + b == a;
    } else {
      var front := b[..|b| - 1];
      assert (a + b)[..|a + b| - 1] == a + front;
      FilterMatchesAppend(a, front, q);
    }
  }

  /**
   * `slice.get(from..=to)`: the elements from `from` to `to` inclusive when
   * `to` is inside the slice and `from` is at most one past it, else nothing.
   */
  function InclusiveRange(events: seq<PduV4>, from: nat, to: nat): (r: Option<seq<PduV4>>)
    ensures r.Some? <==> to < |events| && from <= to + 1
    ensures r.Some? ==> r.value == events[from..to + 1]
  {
    if to < |events| && from <= to + 1 then Some(events[from..to + 1]) else None
  }

  class MemStorage {
    var rooms: map<string, Room>
    var users: seq<User>
    var accessTokens: map<Uuid.Uuid, string>
    var txnIds: map<Uuid.Uuid, set<string>>

    ghost predicate Valid()
      reads this
    {
      RoomsNonEmpty(rooms)
    }

    constructor()
      ensures Valid()
      ensures rooms == map[] && users == [] && accessTokens == map[] && txnIds == map[]
    {
      rooms := map[];
      users := [];
      accessTokens := map[];
      txnIds := map[];
    }

    /** The first user with this name. */
    function FindUser(username: string): (i: Option<nat>)
      reads this
      ensures i.Some? ==> i.value < |users| && users[i.value].username == username
      ensures i.Some? ==> forall j :: 0 <= j < i.value ==> users[j].username != username
      ensures i.None? ==> forall j :: 0 <= j < |users| ==> users[j].username != username
    {
      FirstUser(users, username)
    }

    /**
     * `verify_password`: `verify` is argon2's check of a password against a
     * stored hash, None standing for its error. An unknown user, a failed
     * check and an erroring check are all a refusal.
     */
    function VerifyPassword(username: string, password: string, verify: (string, string) -> Option<bool>): (ok: bool)
      reads this
      ensures ok <==> FindUser(username).Some? && verify(users[FindUser(username).value].passwordHash, password) == Some(true)
      ensures (forall j :: 0 <= j < |users| ==> users[j].username != username) ==> !ok
    {
      match FindUser(username)
      case None => false
      case Some(i) =>
        match verify(users[i].passwordHash, password)
        case Some(true) => true
        case Some(false) => false
        case None => false
    }

    /** `create_user`: appends, with no check for an existing name. The source unwraps the hash. */
    method CreateUser(username: string, passwordHash: Option<string>)
      requires passwordHash.Some?
      modifies this
      ensures users == old(users) + [User(username, passwordHash.value, UserProfile(None, None), map[])]
      ensures rooms == old(rooms) && accessTokens == old(accessTokens) && txnIds == old(txnIds)
    {
      users := users + [User(username, passwordHash.value, UserProfile(None, None), map[])];
    }

    /** `create_access_token`: `token` is the fresh random UUID. */
    method CreateAccessToken(username: string, token: Uuid.Uuid) returns (t: Uuid.Uuid)
      modifies this
      ensures t == token && accessTokens == old(accessTokens)[token := username]
      ensures TryAuth(t) == Some(username)
      ensures rooms == old(rooms) && users == old(users) && txnIds == old(txnIds)
    {
      accessTokens := accessTokens[token := username];
      t := token;
    }

    method DeleteAccessToken(token: Uuid.Uuid)
      modifies this
      ensures accessTokens == old(accessTokens) - {token}
      ensures TryAuth(token) == None
      ensures rooms == old(rooms) && users == old(users) && txnIds == old(txnIds)
    {
      accessTokens := accessTokens - {token};
    }

    /**
     * `delete_all_access_tokens`: every token of the same user goes, every
     * other token stays; an unknown token changes nothing.
     */
    method DeleteAllAccessTokens(token: Uuid.Uuid)
      modifies this
      ensures token !in old(accessTokens) ==> accessTokens == old(accessTokens)
      ensures token in old(accessTokens) ==>
        (forall t :: t in accessTokens <==> t in old(accessTokens) && old(accessTokens)[t] != old(accessTokens)[token])
      ensures forall t :: t in accessTokens ==> accessTokens[t] == old(accessTokens)[t]
      ensures rooms == old(rooms) && users == old(users) && txnIds == old(txnIds)
    {
      if token in accessTokens {
        var username := accessTokens[token];
        accessTokens := map t | t in accessTokens && accessTokens[t] != username :: accessTokens[t];
      }
    }

    function TryAuth(token: Uuid.Uuid): (r: Option<string>)
      reads this
      ensures r.Some? <==> token in accessTokens
      ensures r.Some? ==> r.value == accessTokens[token]
    {
      if token in accessTokens then Some(accessTokens[token]) else None
    }

    /** `record_txn`: true iff the id was new for this token; it is recorded either way. */
    method RecordTxn(token: Uuid.Uuid, txnId: string) returns (isNew: bool)
      modifies this
      ensures isNew <==> !(token in old(txnIds) && txnId in old(txnIds)[token])
      ensures token in txnIds && txnId in txnIds[token]
      ensures txnIds == old(txnIds)[token := (if token in old(txnIds) then old(txnIds)[token] else {}) + {txnId}]
      ensures rooms == old(rooms) && users == old(users) && accessTokens == old(accessTokens)
    {
      var set_ := if token in txnIds then txnIds[token] else {};
      isNew := txnId !in set_;
      txnIds := txnIds[token := set_ + {txnId}];
    }

    function GetProfile(username: string): (r: Option<UserProfile>)
      reads this
      ensures r.Some? <==> FindUser(username).Some?
      ensures r.Some? ==> r.value == users[FindUser(username).value].profile
    {
      match FindUser(username)
      case None => None
      case Some(i) => Some(users[i].profile)
    }

    /** `set_avatar_url`: only the first matching user's avatar changes. */
    method SetAvatarUrl(username: string, avatarUrl: string) returns (r: Result<(), StorageError>)
      modifies this
      ensures old(FindUser(username)).None? ==> r == Failure(UserNotFound) && users == old(users)
      ensures old(FindUser(username)).Some? ==> r.Success?
      ensures old(FindUser(username)).Some? ==>
        var i := old(FindUser(username)).value;
        users == old(users)[i := old(users)[i].(profile := old(users)[i].profile.(avatarUrl := Some(avatarUrl)))]
      ensures rooms == old(rooms) && accessTokens == old(accessTokens) && txnIds == old(txnIds)
    {
      match FindUser(username)
      case None =>
        r := Failure(UserNotFound);
      case Some(i) =>
        var u := users[i];
        users := users[i := u.(profile := u.profile.(avatarUrl := Some(avatarUrl)))];
        r := Success(());
    }

    /** `set_display_name`: only the first matching user's display name changes. */
    method SetDisplayName(username: string, displayName: string) returns (r: Result<(), StorageError>)
      modifies this
      ensures old(FindUser(username)).None? ==> r == Failure(UserNotFound) && users == old(users)
      ensures old(FindUser(username)).Some? ==> r.Success?
      ensures old(FindUser(username)).Some? ==>
        var i := old(FindUser(username)).value;
        users == old(users)[i := old(users)[i].(profile := old(users)[i].profile.(displayName := Some(displayName)))]
      ensures rooms == old(rooms) && accessTokens == old(accessTokens) && txnIds == old(txnIds)
    {
      match FindUser(username)
      case None =>
        r := Failure(UserNotFound);
      case Some(i) =>
        var u := users[i];
        users := users[i := u.(profile := u.profile.(displayName := Some(displayName)))];
        r := Success(());
    }

    /** `add_pdus`: stores the batch in order, stopping at the first PDU whose room is unknown. */
    method AddPdus(pdus: seq<PduV4>) returns (r: Result<(), StorageError>)
      requires Valid()
      modifies this
      ensures Valid()
      ensures (rooms, if r.Failure? then Some(r.error) else None) == AddPdusSpec(old(rooms), pdus)
      ensures users == old(users) && accessTokens == old(accessTokens) && txnIds == old(txnIds)
    {
      var i := 0;
      while i < |pdus|
        invariant 0 <= i <= |pdus|
        invariant AddPdusSpec(old(rooms), pdus[..i]) == (rooms, None)
        invariant users == old(users) && accessTokens == old(accessTokens) && txnIds == old(txnIds)
      {
        assert pdus[..i + 1][..i] == pdus[..i];
        var pdu := pdus[i];
        if pdu.eventContent.Create? {
          rooms := rooms[pdu.roomId := Room([])];
        }
        if pdu.roomId !in rooms {
          AddPdusStopsAtFailure(old(rooms), pdus[..i + 1], pdus[i + 1..]);
          assert pdus[..i + 1] + pdus[i + 1..] == pdus;
          AddPdusKeepsRoomsNonEmpty(old(rooms), pdus);
          return Failure(RoomNotFound);
        }
        rooms := rooms[pdu.roomId := Room(rooms[pdu.roomId].events + [pdu])];
        i := i + 1;
      }
      assert pdus[..i] == pdus;
      AddPdusKeepsRoomsNonEmpty(old(rooms), pdus);
      r := Success(());
    }

    /** `add_event_unchecked`: appends `NextPdu` to the event's room and returns its event id. */
    method AddEventUnchecked(hash: Json -> string, event: Event, authEvents: seq<string>, now: int)
      returns (r: Result<string, StorageError>)
      requires Valid()
      requires event.roomId.Some? && Mxid.Domain(event.sender).Some?
      modifies this
      ensures Valid()
      ensures event.roomId.value !in old(rooms) ==> r == Failure(RoomNotFound) && rooms == old(rooms)
      ensures event.roomId.value in old(rooms) ==>
        var id := event.roomId.value;
        var pdu := NextPdu(hash, old(rooms)[id].events, event, authEvents, now);
        rooms == old(rooms)[id := Room(old(rooms)[id].events + [pdu])] && r == Success(EventId(hash, pdu))
      ensures users == old(users) && accessTokens == old(accessTokens) && txnIds == old(txnIds)
    {
      var id := event.roomId.value;
      if id !in rooms {
        return Failure(RoomNotFound);
      }
      var room := rooms[id];
      var pdu := NextPdu(hash, room.events, event, authEvents, now);
      var eventId := EventId(hash, pdu);
      rooms := rooms[id := Room(room.events + [pdu])];
      r := Success(eventId);
    }

    /**
     * `query_pdus` without waiting: the matching events at positions
     * from..=to in order (a state query reads from 0; `to` defaults to the
     * last position), nothing for a range outside the room, and `to` as the
     * progress marker.
     */
    method QueryPdus(q: EventQuery) returns (r: Result<(seq<PduV4>, nat), StorageError>)
      requires Valid()
      ensures q.roomId !in rooms ==> r == Failure(RoomNotFound)
      ensures q.roomId in rooms ==>
        var events := rooms[q.roomId].events;
        var from := if q.queryType.Timeline? then q.queryType.from else 0;
        var bound := if q.queryType.Timeline? then q.queryType.to else q.queryType.at;
        var to := if bound.Some? then bound.value else |events| - 1;
        r.Success? && r.value.1 == to &&
        r.value.0 == (match InclusiveRange(events, from, to)
                      case Some(slice) => FilterMatches(slice, q)
                      case None => [])
    {
      var from: nat, to: Option<nat>;
      match q.queryType {
        case Timeline(f, t) =>
          from, to := f, t;
        case State(at, _, _) =>
          from, to := 0, at;
      }
      if q.roomId !in rooms {
        return Failure(RoomNotFound);
      }
      var room := rooms[q.roomId];
      if to.None? {
        to := Some(|room.events| - 1);
      }
      var ret: seq<PduV4> := [];
      match InclusiveRange(room.events, from, to.value) {
        case Some(slice) =>
          ret := ret + FilterMatches(slice, q);
        case None =>
      }
      r := Success((ret, to.value));
    }
  }

  function FirstUser(users: seq<User>, username: string): (i: Option<nat>)
    ensures i.Some? ==> i.value < |users| && users[i.value].username == username
    ensures i.Some? ==> forall j :: 0 <= j < i.value ==> users[j].username != username
    ensures i.None? ==> forall j :: 0 <= j < |users| ==> users[j].username != username
  {
    if |users| == 0 then None
    else if users[0].username == username then Some(0)
    else match FirstUser(users[1..], username)
      case None => None
      case Some(k) => Some(k + 1)
  }
}
