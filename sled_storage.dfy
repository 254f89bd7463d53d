/**
 * The sled storage backend (src/storage/sled.rs): key-value trees updated in
 * place. Events are stored under `room_event`, each room has an ordering
 * tree from a 32-bit index to an event id, and the forward extremities of
 * every room are kept as `room~event` keys of the headless-events tree.
 */
module SledStore {
  import opened Wrappers
  import opened Json
  import opened Events
  import opened Query
  import Uuid

  datatype SledError =
    | UsernameTaken
    | UserNotFound
    | RoomNotFound
    | DbError(message: string)
    | Panic(message: string)

  datatype UserProfile = UserProfile(avatarUrl: Option<string>, displayName: Option<string>)

  datatype User = User(passwordHash: string, profile: UserProfile, accountData: map<string, Json>)

  datatype AccessTokenData = AccessTokenData(username: string, deviceId: string)

  /** The first index past the largest a 32-bit ordering key can hold. */
  const OrderingLimit: nat := 0x1_0000_0000

  // ---------------------------------------------------------------------
  // TreeExt: conditional and unconditional insertion into a tree
  // ---------------------------------------------------------------------

  /**
   * `try_insert_value`: stores the value only when the key is absent, and
   * says whether it did.
   */
  function TryInsertValue<K(==,!new), V>(tree: map<K, V>, key: K, value: V): (r: (bool, map<K, V>))
    ensures r.0 <==> key !in tree
    ensures key in r.1 && r.1[key] == (if r.0 then value else tree[key])
    ensures forall k :: k != key ==> (k in r.1 <==> k in tree)
    ensures forall k :: k != key && k in tree ==> r.1[k] == tree[k]
  {
    if key in tree then (false, tree) else (true, tree[key := value])
  }

  /** `overwrite_value`: always stores the value, and says whether the key was there before. */
  function OverwriteValue<K(==,!new), V>(tree: map<K, V>, key: K, value: V): (r: (bool, map<K, V>))
    ensures r.0 <==> key in tree
    ensures key in r.1 && r.1[key] == value
    ensures forall k :: k != key ==> (k in r.1 <==> k in tree)
    ensures forall k :: k != key && k in tree ==> r.1[k] == tree[k]
  {
    (key in tree, tree[key := value])
  }

  /** The first conditional insert under a key wins: a second one reports failure and keeps the first value. */
  lemma TryInsertFirstWins<K(!new), V>(tree: map<K, V>, key: K, first: V, second: V)
    requires key !in tree
    ensures TryInsertValue(tree, key, first).0
    ensures TryInsertValue(TryInsertValue(tree, key, first).1, key, second)
      == (false, tree[key := first])
  {
  }

  /** Overwriting twice is overwriting once with the later value, the second reporting a hit. */
  lemma OverwriteLastWins<K(!new), V>(tree: map<K, V>, key: K, first: V, second: V)
    ensures OverwriteValue(OverwriteValue(tree, key, first).1, key, second)
      == (true, tree[key := second])
  {
    assert tree[key := first][key := second] == tree[key := second];
  }

  // ---------------------------------------------------------------------
  // Keys
  // ---------------------------------------------------------------------

  /** The events-tree key of an event: `room_id` + "_" + `event_id`. */
  function EventKey(roomId: string, eventId: string): string {
    roomId + "_" + eventId
  }

  /** The headless-events key of an event: `room_id` + "~" + `event_id`. */
  function HeadlessKey(roomId: string, eventId: string): (k: string)
    ensures '~' in k
  {
    var key := roomId + "~" + eventId;
    assert key[|roomId|] == '~';
    key
  }

  /** The transaction-tree name: the hyphenated token, "_" and the transaction id. */
  function TxnName(token: Uuid.Uuid, txnId: string): string {
    Uuid.Hyphenated(token) + "_" + txnId
  }

  /** Transaction names never collide: the hyphenated token has a fixed width. */
  lemma TxnNameInjective(t1: Uuid.Uuid, x1: string, t2: Uuid.Uuid, x2: string)
    requires TxnName(t1, x1) == TxnName(t2, x2)
    ensures t1 == t2 && x1 == x2
  {
    var n1, n2 := TxnName(t1, x1), TxnName(t2, x2);
    assert Uuid.Hyphenated(t1) == n1[..36] == n2[..36] == Uuid.Hyphenated(t2);
    Uuid.HyphenatedInjective(t1, t2);
    assert x1 == n1[37..] == n2[37..] == x2;
  }

  /** The position of the first `c` in `s`. */
  function IndexOfChar(s: string, c: char): (r: Option<nat>)
    ensures r.Some? ==> r.value < |s| && s[r.value] == c
    ensures r.Some? ==> forall t :: 0 <= t < r.value ==> s[t] != c
    ensures r.None? ==> c !in s
  {
    if |s| == 0 then None
    else if s[0] == c then Some(0)
    else match IndexOfChar(s[1..], c)
      case None => None
      case Some(i) => Some(i + 1)
  }

  /** `split('~').nth(1)`: the text between the first '~' and the next one (or the end). */
  function SecondField(k: string): string
    requires '~' in k
  {
    var i := IndexOfChar(k, '~').value;
    var rest := k[i + 1..];
    match IndexOfChar(rest, '~')
    case None => rest
    case Some(j) => rest[..j]
  }

  /** A headless key of a room and an event without '~' gives back the event id. */
  lemma SecondFieldOfHeadlessKey(roomId: string, eventId: string)
    requires '~' !in roomId && '~' !in eventId
    ensures SecondField(HeadlessKey(roomId, eventId)) == eventId
  {
    var k := HeadlessKey(roomId, eventId);
    var i := IndexOfChar(k, '~').value;
    assert forall t :: 0 <= t < |roomId| ==> k[t] == roomId[t];
    assert k[|roomId|] == '~';
    assert i == |roomId|;
    assert k[i + 1..] == eventId;
  }

  predicate HasPrefix(s: string, prefix: string) {
    |prefix| <= |s| && s[..|prefix|] == prefix
  }

  /** Whether `k` is a headless key of the room: it starts with the room id and '~'. */
  predicate InRoom(k: string, roomId: string)
    ensures InRoom(k, roomId) ==> '~' in k
  {
    var p := roomId + "~";
    assert HasPrefix(k, p) ==> k[|roomId|] == p[|roomId|];
    HasPrefix(k, p)
  }

  /** The event ids `get_prev_events` reads from the headless keys with the room's prefix. */
  ghost function PrevEventIds(headless: set<string>, roomId: string): set<string> {
    set k | k in headless && InRoom(k, roomId) :: SecondField(k)
  }

  // ---------------------------------------------------------------------
  // The ordering index
  // ---------------------------------------------------------------------

  /** The largest key of a non-empty set: what `Tree::last` returns for the ordering tree. */
  ghost function MaxKey(keys: set<nat>): (m: nat)
    requires keys != {}
    ensures m in keys && forall x :: x in keys ==> x <= m
    decreases keys
  {
    var k :| k in keys;
    var others := keys - {k};
    assert forall x :: x in keys ==> x == k || x in others;
    if others == {} then k
    else
      var rest := MaxKey(others);
      if k <= rest then rest else k
  }

  /**
   * The index a new event receives: one past the last one, and 0 in an
   * empty tree. Going past the 32-bit range is the add overflow that panics.
   */
  ghost function NextIndex(ordering: map<nat, string>): (r: Result<nat, SledError>)
    ensures r.Success? ==> r.value < OrderingLimit && r.value !in ordering
    ensures r.Success? ==> forall i :: i in ordering ==> i < r.value
    ensures ordering == map[] ==> r == Success(0)
  {
    if ordering == map[] then Success(0)
    else
      var last := MaxKey(ordering.Keys);
      if last + 1 >= OrderingLimit then Failure(Panic("attempt to add with overflow"))
      else Success(last + 1)
  }

  /**
   * One pass of the `'cas` loop as written: with a last key it claims the
   * index after it, but an empty tree yields no attempt at all.
   */
  function AsWrittenCasAttempt(ordering: map<nat, string>, last: Option<nat>, eventId: string): (r: Option<map<nat, string>>)
  {
    match last
    case None => None
    case Some(k) => if k + 1 in ordering then None else Some(ordering[k + 1 := eventId])
  }

  /** The ordering tree after `n` passes of the loop as written, and whether it has exited. */
  function AsWrittenCasLoop(ordering: map<nat, string>, last: Option<nat>, eventId: string, n: nat): (r: (map<nat, string>, bool))
  {
    if n == 0 then (ordering, false)
    else match AsWrittenCasAttempt(ordering, last, eventId)
      case Some(after) => (after, true)
      case None => AsWrittenCasLoop(ordering, last, eventId, n - 1)
  }

  /** On the first event of a room the loop as written never exits and never stores an index. */
  lemma {:induction false} AsWrittenCasSpinsOnEmptyTree(eventId: string, n: nat)
    ensures AsWrittenCasLoop(map[], None, eventId, n) == (map[], false)
  {
    if n > 0 {
      AsWrittenCasSpinsOnEmptyTree(eventId, n - 1);
    }
  }

  // ---------------------------------------------------------------------
  // The ordering range as written: 8-byte bounds against 4-byte keys
  // ---------------------------------------------------------------------

  /** The big-endian encoding of `n` in `width` bytes (`to_be_bytes`). */
  function BigEndian(n: nat, width: nat): (b: seq<nat>)
    ensures |b| == width
    ensures forall i :: 0 <= i < width ==> b[i] < 256
  {
    if width == 0 then [] else BigEndian(n / 256, width - 1) + [n % 256]
  }

  /** Byte-string order, the order sled keeps its keys in: a proper prefix comes first. */
  predicate LexLess(a: seq<nat>, b: seq<nat>)
    decreases |a|
  {
    if |a| == 0 then |b| > 0
    else if |b| == 0 then false
    else a[0] < b[0] || (a[0] == b[0] && LexLess(a[1..], b[1..]))
  }

  function Pow256(k: nat): (p: nat)
    ensures p > 0
  {
    if k == 0 then 1 else 256 * Pow256(k - 1)
  }

  function Zeros(k: nat): (z: seq<nat>)
    ensures |z| == k && forall i :: 0 <= i < k ==> z[i] == 0
  {
    seq(k, _ => 0)
  }

  /** A number that fits in `k` bytes, written in `k + m` bytes, starts with `m` zero bytes. */
  lemma {:induction false} BigEndianWide(n: nat, k: nat, m: nat)
    requires n < Pow256(k)
    ensures BigEndian(n, k + m) == Zeros(m) + BigEndian(n, k)
    decreases k
  {
    if k == 0 {
      assert n == 0;
      BigEndianOfZero(m);
    } else {
      BigEndianWide(n / 256, k - 1, m);
    }
  }

  lemma {:induction false} BigEndianOfZero(m: nat)
    ensures BigEndian(0, m) == Zeros(m)
  {
    if m > 0 {
      BigEndianOfZero(m - 1);
    }
  }

  /** A positive number that fits in `k` bytes has a non-zero byte. */
  lemma {:induction false} BigEndianNonZero(n: nat, k: nat)
    requires 0 < n < Pow256(k)
    ensures HasNonZero(BigEndian(n, k))
    decreases k
  {
    if n % 256 == 0 {
      BigEndianNonZero(n / 256, k - 1);
      var j :| 0 <= j < k - 1 && BigEndian(n / 256, k - 1)[j] != 0;
      assert BigEndian(n, k)[j] != 0;
    } else {
      assert BigEndian(n, k)[k - 1] != 0;
    }
  }

  predicate HasNonZero(b: seq<nat>) {
    exists j :: 0 <= j < |b| && b[j] != 0
  }

  /** Zero bytes come before any non-zero string of the same width, whatever follows them. */
  lemma {:induction false} ZerosFirst(m: nat, rest: seq<nat>, b: seq<nat>)
    requires |b| == m && HasNonZero(b)
    ensures LexLess(Zeros(m) + rest, b)
    decreases m
  {
    if b[0] == 0 {
      var j :| 0 <= j < m && b[j] != 0;
      assert b[1..][j - 1] != 0;
      ZerosFirst(m - 1, rest, b[1..]);
      assert (Zeros(m) + rest)[1..] == Zeros(m - 1) + rest;
    }
  }

  /** A proper prefix comes first. */
  lemma {:induction false} PrefixFirst(a: seq<nat>, b: seq<nat>)
    requires |b| > 0
    ensures LexLess(a, a + b)
    decreases |a|
  {
    if |a| > 0 {
      assert (a + b)[1..] == a[1..] + b;
      PrefixFirst(a[1..], b);
    }
  }

  /**
   * `range(from.to_be_bytes()..=to.to_be_bytes())` over the 4-byte ordering
   * keys, as written for a 64-bit `usize`: which keys the range yields.
   */
  predicate AsWrittenInRange(index: nat, from: nat, to: nat) {
    !LexLess(BigEndian(index, 4), BigEndian(from, 8)) && !LexLess(BigEndian(to, 8), BigEndian(index, 4))
  }

  /**
   * No 32-bit index lies in any range the queries ask for: index 0 sorts
   * before every 8-byte bound and every other index after it.
   */
  lemma AsWrittenRangeIsEmpty(index: nat, from: nat, to: nat)
    requires index < OrderingLimit && from < OrderingLimit && to < OrderingLimit
    ensures !AsWrittenInRange(index, from, to)
  {
    assert Pow256(4) == OrderingLimit;
    if index == 0 {
      BigEndianWide(from, 4, 4);
      BigEndianWide(0, 4, 4);
      BigEndianOfZero(4);
      assert BigEndian(from, 8) == Zeros(4) + BigEndian(from, 4);
      PrefixFirst(Zeros(4), BigEndian(from, 4));
    } else {
      BigEndianWide(to, 4, 4);
      BigEndianNonZero(index, 4);
      ZerosFirst(4, BigEndian(to, 4), BigEndian(index, 4));
    }
  }

  // ---------------------------------------------------------------------
  // The event graph kept by add_pdus
  // ---------------------------------------------------------------------

  /** The trees `add_pdus` writes. */
  datatype EventGraph = EventGraph(
    events: map<string, StoredPdu>,
    rooms: set<string>,
    orderings: map<string, map<nat, string>>,
    headless: set<string>)

  function RoomOrdering(orderings: map<string, map<nat, string>>, roomId: string): map<nat, string> {
    if roomId in orderings then orderings[roomId] else map[]
  }

  /** Within one room, distinct events have distinct headless keys. */
  lemma HeadlessKeyInjective(roomId: string)
    ensures forall a, b :: HeadlessKey(roomId, a) == HeadlessKey(roomId, b) ==> a == b
  {
    forall a, b | HeadlessKey(roomId, a) == HeadlessKey(roomId, b)
      ensures a == b
    {
      assert HeadlessKey(roomId, a)[|roomId| + 1..] == a;
      assert HeadlessKey(roomId, b)[|roomId| + 1..] == b;
    }
  }

  /** The headless keys of a room for a list of event ids. */
  function HeadlessKeys(roomId: string, ids: seq<string>): set<string> {
    set id | id in ids :: HeadlessKey(roomId, id)
  }

  /** Every headless key holds a '~', and every ordered event of a room is stored under its room's key. */
  ghost predicate GraphValid(g: EventGraph) {
    (forall k :: k in g.headless ==> '~' in k)
    && (forall r, i :: r in g.orderings && i in g.orderings[r] ==> i < OrderingLimit)
    && (forall r, i :: r in g.orderings && i in g.orderings[r] ==> EventKey(r, g.orderings[r][i]) in g.events)
  }

  /**
   * Storing one PDU (corrected so that the first event of a room gets index
   * 0): the record is inserted unless its key exists, the event takes the
   * next ordering index, its prev events leave the headless set and it joins
   * it, and the room is recorded. An index overflow panics after the record
   * is written.
   */
  ghost function StorePdu(g: EventGraph, pdu: StoredPdu): (r: (EventGraph, Option<SledError>))
    ensures r.1.None? ==>
      var room, id := pdu.inner.roomId, pdu.EventId();
      && EventKey(room, id) in r.0.events
      && (EventKey(room, id) in g.events ==> r.0.events == g.events)
      && (EventKey(room, id) !in g.events ==> r.0.events[EventKey(room, id)] == pdu)
      && HeadlessKey(room, id) in r.0.headless
      && (forall p :: p in pdu.inner.prevEvents && p != id ==> HeadlessKey(room, p) !in r.0.headless)
      && (forall k :: k != HeadlessKey(room, id) && k !in HeadlessKeys(room, pdu.inner.prevEvents) ==>
            (k in r.0.headless <==> k in g.headless))
      && r.0.rooms == g.rooms + {room}
      && (exists i: nat :: RoomOrdering(r.0.orderings, room) == RoomOrdering(g.orderings, room)[i := id]
            && i !in RoomOrdering(g.orderings, room)
            && forall j :: j in RoomOrdering(g.orderings, room) ==> j < i)
      && (forall other :: other != room ==> RoomOrdering(r.0.orderings, other) == RoomOrdering(g.orderings, other))
    ensures r.1.Some? ==> r.0 == g.(events := TryInsertValue(g.events, EventKey(pdu.inner.roomId, pdu.EventId()), pdu).1)
  {
    var room, id := pdu.inner.roomId, pdu.EventId();
    var events := TryInsertValue(g.events, EventKey(room, id), pdu).1;
    var ordering := RoomOrdering(g.orderings, room);
    match NextIndex(ordering)
    case Failure(e) => (g.(events := events), Some(e))
    case Success(i) =>
      var after := EventGraph(events, g.rooms + {room}, g.orderings[room := ordering[i := id]],
        (g.headless - HeadlessKeys(room, pdu.inner.prevEvents)) + {HeadlessKey(room, id)});
      assert RoomOrdering(after.orderings, room) == ordering[i := id];
      HeadlessKeyInjective(room);
      (after, None)
  }

  /** Storing a PDU keeps the graph valid. */
  lemma StorePduKeepsValid(g: EventGraph, pdu: StoredPdu)
    requires GraphValid(g)
    ensures GraphValid(StorePdu(g, pdu).0)
  {
    var r := StorePdu(g, pdu).0;
    var room, id := pdu.inner.roomId, pdu.EventId();
    if StorePdu(g, pdu).1.None? {
      var ordering := RoomOrdering(g.orderings, room);
      var i := NextIndex(ordering).value;
      assert r.orderings == g.orderings[room := ordering[i := id]];
      forall rm, j | rm in r.orderings && j in r.orderings[rm]
        ensures j < OrderingLimit && EventKey(rm, r.orderings[rm][j]) in r.events
      {
        if rm == room && j != i {
          assert j in ordering;
        }
      }
    }
  }

  /** `add_pdus`: each PDU in turn, stopping at the first panic with everything before it kept. */
  ghost function StorePdus(g: EventGraph, pdus: seq<StoredPdu>): (EventGraph, Option<SledError>)
  {
    if |pdus| == 0 then (g, None)
    else
      var (before, err) := StorePdus(g, pdus[..|pdus| - 1]);
      if err.Some? then (before, err) else StorePdu(before, pdus[|pdus| - 1])
  }

  lemma {:induction false} StorePdusKeepsValid(g: EventGraph, pdus: seq<StoredPdu>)
    requires GraphValid(g)
    ensures GraphValid(StorePdus(g, pdus).0)
  {
    if |pdus| > 0 {
      StorePdusKeepsValid(g, pdus[..|pdus| - 1]);
      StorePduKeepsValid(StorePdus(g, pdus[..|pdus| - 1]).0, pdus[|pdus| - 1]);
    }
  }

  lemma StorePdusStep(g: EventGraph, pdus: seq<StoredPdu>, i: nat)
    requires i < |pdus| && StorePdus(g, pdus[..i]).1.None?
    ensures StorePdus(g, pdus[..i + 1]) == StorePdu(StorePdus(g, pdus[..i]).0, pdus[i])
  {
    assert pdus[..i + 1][..i] == pdus[..i];
  }

  /** A panic at position `i` is the outcome of the whole batch. */
  lemma StorePdusPanicEnds(g: EventGraph, pdus: seq<StoredPdu>, i: nat)
    requires i < |pdus| && StorePdus(g, pdus[..i + 1]).1.Some?
    ensures StorePdus(g, pdus) == StorePdus(g, pdus[..i + 1])
  {
    StorePdusStopsAtPanic(g, pdus[..i + 1], pdus[i + 1..]);
    assert pdus[..i + 1] + pdus[i + 1..] == pdus;
  }

  /** Once a batch has panicked, the later PDUs change nothing. */
  lemma {:induction false} StorePdusStopsAtPanic(g: EventGraph, done: seq<StoredPdu>, rest: seq<StoredPdu>)
    requires StorePdus(g, done).1.Some?
    ensures StorePdus(g, done + rest) == StorePdus(g, done)
    decreases |rest|
  {
    if |rest| > 0 {
      var front := rest[..|rest| - 1];
      assert (done + rest)[..|done + rest| - 1] == done + front;
      StorePdusStopsAtPanic(g, done, front);
    } else {
      assert done + rest == done;
    }
  }

  /** The stored PDUs at ordering indices `from` up to (not including) `hi` that the query matches, in index order. */
  function RangeMatches(events: map<string, StoredPdu>, roomId: string, ordering: map<nat, string>,
      q: EventQuery, from: nat, hi: nat): (r: seq<StoredPdu>)
    requires forall i :: i in ordering ==> EventKey(roomId, ordering[i]) in events
    ensures forall p :: p in r <==>
      exists i :: from <= i < hi && i in ordering && p == events[EventKey(roomId, ordering[i])] && Matches(q, p.inner)
    decreases hi
  {
    if hi <= from then []
    else
      var rest := RangeMatches(events, roomId, ordering, q, from, hi - 1);
      var last := hi - 1;
      if last in ordering && Matches(q, events[EventKey(roomId, ordering[last])].inner)
      then rest + [events[EventKey(roomId, ordering[last])]]
      else rest
  }

  /**
   * `get_events` over the ordering indices from..=upper: the stored PDU of
   * each present index, in index order, kept when the query matches it.
   */
  method GetEvents(events: map<string, StoredPdu>, roomId: string, ordering: map<nat, string>,
      q: EventQuery, from: nat, upper: nat) returns (ret: seq<StoredPdu>)
    requires forall i :: i in ordering ==> EventKey(roomId, ordering[i]) in events
    ensures ret == RangeMatches(events, roomId, ordering, q, from, upper + 1)
  {
    ret := [];
    var i := from;
    while i <= upper
      invariant from <= i && (i <= upper + 1 || i == from)
      invariant ret == RangeMatches(events, roomId, ordering, q, from, i)
      decreases upper + 1 - i
    {
      if i in ordering {
        var pdu := events[EventKey(roomId, ordering[i])];
        if Matches(q, pdu.inner) {
          ret := ret + [pdu];
        }
      }
      i := i + 1;
    }
    if i == from {
      assert RangeMatches(events, roomId, ordering, q, from, upper + 1) == [];
    }
  }

  // ---------------------------------------------------------------------
  // The storage handle
  // ---------------------------------------------------------------------

  class SledStorage {
    var events: map<string, StoredPdu>
    var rooms: set<string>
    var users: map<string, User>
    var accessTokens: map<Uuid.Uuid, AccessTokenData>
    var txnIds: set<string>
    var batches: map<string, Batch>
    var orderings: map<string, map<nat, string>>
    var headless: set<string>

    ghost function Graph(): EventGraph
      reads this
    {
      EventGraph(events, rooms, orderings, headless)
    }

    ghost predicate Valid()
      reads this
    {
      GraphValid(Graph())
    }

    /** `SledStorage::new` on a fresh database: every tree empty. */
    constructor()
      ensures Valid()
      ensures events == map[] && rooms == {} && users == map[] && accessTokens == map[]
      ensures txnIds == {} && batches == map[] && orderings == map[] && headless == {}
    {
      events, rooms, users, accessTokens := map[], {}, map[], map[];
      txnIds, batches, orderings, headless := {}, map[], map[], {};
    }

    /** `create_user`: the password hash is computed by the caller (argon2 with a random salt). */
    method CreateUser(username: string, passwordHash: string) returns (r: Result<(), SledError>)
      modifies this
      ensures r.Failure? <==> username in old(users)
      ensures r.Failure? ==> r.error == UsernameTaken && users == old(users)
      ensures r.Success? ==> users == old(users)[username := User(passwordHash, UserProfile(None, None), map[])]
      ensures Graph() == old(Graph()) && accessTokens == old(accessTokens) && txnIds == old(txnIds)
      ensures batches == old(batches)
    {
      var (inserted, after) := TryInsertValue(users, username, User(passwordHash, UserProfile(None, None), map[]));
      users := after;
      if inserted {
        r := Success(());
      } else {
        r := Failure(UsernameTaken);
      }
    }

    /**
     * `verify_password`: `verify` is argon2's check of a password against a
     * stored hash, `None` when the hash cannot be read.
     */
    function VerifyPassword(username: string, password: string, verify: (string, string) -> Option<bool>): (ok: bool)
      reads this
      ensures ok <==> username in users && verify(users[username].passwordHash, password) == Some(true)
    {
      if username in users then
        match verify(users[username].passwordHash, password)
        case Some(b) => b
        case None => false
      else false
    }

    /**
     * `create_access_token`: `token` is the fresh random UUID. An unknown user
     * is refused; a token already taken keeps its owner.
     */
    method CreateAccessToken(username: string, deviceId: string, token: Uuid.Uuid) returns (r: Result<Uuid.Uuid, SledError>)
      modifies this
      ensures username !in old(users) ==> r == Failure(UserNotFound) && accessTokens == old(accessTokens)
      ensures username in old(users) ==>
        r == Success(token) && accessTokens == TryInsertValue(old(accessTokens), token, AccessTokenData(username, deviceId)).1
      ensures username in old(users) && token !in old(accessTokens) ==> TryAuth(token) == Some(username)
      ensures Graph() == old(Graph()) && users == old(users) && txnIds == old(txnIds) && batches == old(batches)
    {
      if username !in users {
        return Failure(UserNotFound);
      }
      var (_, tokens) := TryInsertValue(accessTokens, token, AccessTokenData(username, deviceId));
      accessTokens := tokens;
      r := Success(token);
    }

    method DeleteAccessToken(token: Uuid.Uuid)
      modifies this
      ensures accessTokens == old(accessTokens) - {token}
      ensures TryAuth(token) == None
      ensures Graph() == old(Graph()) && users == old(users) && txnIds == old(txnIds) && batches == old(batches)
    {
      accessTokens := accessTokens - {token};
    }

    /**
     * `delete_all_access_tokens`: collects every token of the same user in a
     * first pass and removes them in a second; an unknown token changes nothing.
     */
    method DeleteAllAccessTokens(token: Uuid.Uuid)
      modifies this
      ensures token !in old(accessTokens) ==> accessTokens == old(accessTokens)
      ensures token in old(accessTokens) ==>
        forall t :: t in accessTokens <==>
          t in old(accessTokens) && old(accessTokens)[t].username != old(accessTokens)[token].username
      ensures forall t :: t in accessTokens ==> t in old(accessTokens) && accessTokens[t] == old(accessTokens)[t]
      ensures Graph() == old(Graph()) && users == old(users) && txnIds == old(txnIds) && batches == old(batches)
    {
      if token !in accessTokens {
        return;
      }
      var username := accessTokens[token].username;
      var toDelete: seq<Uuid.Uuid> := [];
      var remaining := accessTokens.Keys;
      while remaining != {}
        invariant remaining <= accessTokens.Keys && accessTokens == old(accessTokens)
        invariant forall t :: t in toDelete <==>
          t in accessTokens && t !in remaining && accessTokens[t].username == username
        decreases remaining
      {
        var t :| t in remaining;
        if accessTokens[t].username == username {
          toDelete := toDelete + [t];
        }
        remaining := remaining - {t};
      }
      for i := 0 to |toDelete|
        invariant forall t :: t in accessTokens <==> t in old(accessTokens) && t !in toDelete[..i]
        invariant forall t :: t in accessTokens ==> accessTokens[t] == old(accessTokens)[t]
        invariant Graph() == old(Graph()) && users == old(users) && txnIds == old(txnIds) && batches == old(batches)
      {
        assert toDelete[..i + 1] == toDelete[..i] + [toDelete[i]];
        accessTokens := accessTokens - {toDelete[i]};
      }
      assert toDelete[..|toDelete|] == toDelete;
    }

    function TryAuth(token: Uuid.Uuid): (r: Option<string>)
      reads this
      ensures r.Some? <==> token in accessTokens
      ensures r.Some? ==> r.value == accessTokens[token].username
    {
      if token in accessTokens then Some(accessTokens[token].username) else None
    }

    /** `record_txn`: true iff the (token, transaction id) name was new; it is recorded either way. */
    method RecordTxn(token: Uuid.Uuid, txnId: string) returns (isNew: bool)
      modifies this
      ensures isNew <==> TxnName(token, txnId) !in old(txnIds)
      ensures txnIds == old(txnIds) + {TxnName(token, txnId)}
      ensures Graph() == old(Graph()) && users == old(users) && accessTokens == old(accessTokens)
      ensures batches == old(batches)
    {
      var name := TxnName(token, txnId);
      isNew := name !in txnIds;
      txnIds := txnIds + {name};
    }

    function GetProfile(username: string): (r: Option<UserProfile>)
      reads this
      ensures r.Some? <==> username in users
      ensures r.Some? ==> r.value == users[username].profile
    {
      if username in users then Some(users[username].profile) else None
    }

    /** `set_avatar_url`: reads the user, changes the avatar and overwrites the record. */
    method SetAvatarUrl(username: string, avatarUrl: string) returns (r: Result<(), SledError>)
      modifies this
      ensures username !in old(users) ==> r == Failure(UserNotFound) && users == old(users)
      ensures username in old(users) ==> r.Success?
      ensures username in old(users) ==>
        users == old(users)[username := old(users)[username].(profile := old(users)[username].profile.(avatarUrl := Some(avatarUrl)))]
      ensures Graph() == old(Graph()) && accessTokens == old(accessTokens) && txnIds == old(txnIds)
      ensures batches == old(batches)
    {
      if username !in users {
        return Failure(UserNotFound);
      }
      var user := users[username];
      user := user.(profile := user.profile.(avatarUrl := Some(avatarUrl)));
      var (_, after) := OverwriteValue(users, username, user);
      users := after;
      r := Success(());
    }

    /** `set_display_name`: reads the user, changes the display name and overwrites the record. */
    method SetDisplayName(username: string, displayName: string) returns (r: Result<(), SledError>)
      modifies this
      ensures username !in old(users) ==> r == Failure(UserNotFound) && users == old(users)
      ensures username in old(users) ==> r.Success?
      ensures username in old(users) ==>
        users == old(users)[username := old(users)[username].(profile := old(users)[username].profile.(displayName := Some(displayName)))]
      ensures Graph() == old(Graph()) && accessTokens == old(accessTokens) && txnIds == old(txnIds)
      ensures batches == old(batches)
    {
      if username !in users {
        return Failure(UserNotFound);
      }
      var user := users[username];
      user := user.(profile := user.profile.(displayName := Some(displayName)));
      var (_, after) := OverwriteValue(users, username, user);
      users := after;
      r := Success(());
    }

    /** `get_user_account_data`. */
    function GetUserAccountData(username: string): (r: Result<map<string, Json>, SledError>)
      reads this
      ensures r.Failure? <==> username !in users
      ensures r.Failure? ==> r.error == UserNotFound
      ensures r.Success? ==> r.value == users[username].accountData
    {
      if username in users then Success(users[username].accountData) else Failure(UserNotFound)
    }

    /** The largest index of an ordering tree, found by a pass over its keys. */
    static method LastIndex(ordering: map<nat, string>) returns (last: Option<nat>)
      ensures last.None? <==> ordering == map[]
      ensures last.Some? ==> last.value == MaxKey(ordering.Keys)
    {
      last := None;
      var remaining := ordering.Keys;
      while remaining != {}
        invariant remaining <= ordering.Keys
        invariant last.None? <==> remaining == ordering.Keys
        invariant last.Some? ==> last.value in ordering && forall k :: k in ordering && k !in remaining ==> k <= last.value
        decreases remaining
      {
        var k :| k in remaining;
        if last.None? || last.value < k {
          last := Some(k);
        }
        remaining := remaining - {k};
      }
      if ordering != map[] {
        var m := MaxKey(ordering.Keys);
        assert m <= last.value && last.value <= m;
      }
    }

    /** Stores one PDU: the record, its ordering index, the headless set and the room list. */
    method AddPdu(pdu: StoredPdu) returns (err: Option<SledError>)
      requires Valid()
      modifies this
      ensures (Graph(), err) == StorePdu(old(Graph()), pdu)
      ensures Valid()
      ensures users == old(users) && accessTokens == old(accessTokens) && txnIds == old(txnIds)
      ensures batches == old(batches)
    {
      ghost var g := Graph();
      var room, id := pdu.inner.roomId, pdu.EventId();
      var (_, stored) := TryInsertValue(events, EventKey(room, id), pdu);
      events := stored;
      var ordering := RoomOrdering(orderings, room);
      // The 'cas loop: claim the index after the last one; only a concurrent
      // writer could make the compare-and-swap fail.
      var last := LastIndex(ordering);
      var index: nat := if last.None? then 0 else last.value + 1;
      assert NextIndex(ordering) == if index >= OrderingLimit then Failure(Panic("attempt to add with overflow")) else Success(index);
      if index >= OrderingLimit {
        StorePduKeepsValid(g, pdu);
        return Some(Panic("attempt to add with overflow"));
      }
      orderings := orderings[room := ordering[index := id]];
      var prevs := pdu.inner.prevEvents;
      for i := 0 to |prevs|
        invariant headless == g.headless - HeadlessKeys(room, prevs[..i])
        invariant events == stored && orderings == g.orderings[room := ordering[index := id]] && rooms == g.rooms
        invariant users == old(users) && accessTokens == old(accessTokens) && txnIds == old(txnIds)
        invariant batches == old(batches)
      {
        assert prevs[..i + 1] == prevs[..i] + [prevs[i]];
        headless := headless - {HeadlessKey(room, prevs[i])};
      }
      assert prevs[..|prevs|] == prevs;
      headless := headless + {HeadlessKey(room, id)};
      rooms := rooms + {room};
      err := None;
      StorePduKeepsValid(g, pdu);
    }

    /** `add_pdus`: stores each PDU in turn; a panic ends the batch with the earlier PDUs kept. */
    method AddPdus(pdus: seq<StoredPdu>) returns (err: Option<SledError>)
      requires Valid()
      modifies this
      ensures (Graph(), err) == StorePdus(old(Graph()), pdus)
      ensures Valid()
      ensures users == old(users) && accessTokens == old(accessTokens) && txnIds == old(txnIds)
      ensures batches == old(batches)
    {
      ghost var g := Graph();
      for i := 0 to |pdus|
        invariant Valid()
        invariant StorePdus(g, pdus[..i]) == (Graph(), None)
        invariant users == old(users) && accessTokens == old(accessTokens) && txnIds == old(txnIds)
        invariant batches == old(batches)
      {
        StorePdusStep(g, pdus, i);
        var e := AddPdu(pdus[i]);
        if e.Some? {
          StorePdusPanicEnds(g, pdus, i);
          return e;
        }
      }
      assert pdus[..|pdus|] == pdus;
      err := None;
    }

    /**
     * `get_prev_events`: the event ids of the room's headless keys, and the
     * depth read from the key `room_id` itself. That key holds the empty
     * value when present, which does not decode as a number.
     */
    method GetPrevEvents(roomId: string) returns (r: Result<(seq<string>, int), SledError>)
      requires Valid()
      ensures roomId in headless ==> r == Failure(DbError("unexpected end of input"))
      ensures roomId !in headless ==> r.Success? && r.value.1 == -1
      ensures r.Success? ==> forall x :: x in r.value.0 <==> x in PrevEventIds(headless, roomId)
    {
      if roomId in headless {
        return Failure(DbError("unexpected end of input"));
      }
      var ids: seq<string> := [];
      var remaining := headless;
      while remaining != {}
        invariant remaining <= headless
        invariant forall x :: x in ids <==>
          x in (set k | k in headless && k !in remaining && InRoom(k, roomId) :: SecondField(k))
        decreases remaining
      {
        var k :| k in remaining;
        if InRoom(k, roomId) {
          assert k[|roomId|] == '~';
          ids := ids + [SecondField(k)];
        }
        remaining := remaining - {k};
      }
      r := Success((ids, -1));
    }

    /**
     * `query_pdus` without waiting, over the ordering indices (as the
     * intended numeric range): an empty ordering tree is an unknown room,
     * a missing upper bound panics when it is unwrapped, and otherwise the
     * matching stored PDUs at indices from..=to come back in index order
     * with `to` as the progress marker.
     */
    method QueryPdus(q: EventQuery) returns (r: Result<(seq<StoredPdu>, nat), SledError>)
      requires Valid()
      ensures RoomOrdering(orderings, q.roomId) == map[] ==> r == Failure(RoomNotFound)
      ensures RoomOrdering(orderings, q.roomId) != map[] ==>
        var from := if q.queryType.Timeline? then q.queryType.from else 0;
        var upper := if q.queryType.Timeline? then q.queryType.to else q.queryType.at;
        (upper.None? ==> r == Failure(Panic("called `Option::unwrap()` on a `None` value")))
        && (upper.Some? ==> r == Success((RangeMatches(events, q.roomId, RoomOrdering(orderings, q.roomId), q, from, upper.value + 1), upper.value)))
    {
      var ordering := RoomOrdering(orderings, q.roomId);
      if ordering == map[] {
        return Failure(RoomNotFound);
      }
      var from: nat, upper: Option<nat>;
      match q.queryType {
        case Timeline(f, t) =>
          from, upper := f, t;
        case State(at, _, _) =>
          from, upper := 0, at;
      }
      if upper.None? {
        return Failure(Panic("called `Option::unwrap()` on a `None` value"));
      }
      assert forall i :: i in ordering ==> EventKey(q.roomId, ordering[i]) in events;
      var ret := GetEvents(events, q.roomId, ordering, q, from, upper.value);
      r := Success((ret, upper.value));
    }

    /** `get_rooms`: every room that has stored a PDU. */
    function GetRooms(): (r: set<string>)
      reads this
      ensures forall room :: room in r <==> room in rooms
    {
      rooms
    }

    /** `get_pdu`: the record stored under the room and event id. */
    function GetPdu(roomId: string, eventId: string): (r: Option<StoredPdu>)
      reads this
      ensures r.Some? <==> EventKey(roomId, eventId) in events
      ensures r.Some? ==> r.value == events[EventKey(roomId, eventId)]
    {
      if EventKey(roomId, eventId) in events then Some(events[EventKey(roomId, eventId)]) else None
    }

    function GetBatch(id: string): (r: Option<Batch>)
      reads this
      ensures r.Some? <==> id in batches
      ensures r.Some? ==> r.value == batches[id]
    {
      if id in batches then Some(batches[id]) else None
    }

    method SetBatch(id: string, batch: Batch)
      modifies this
      ensures batches == OverwriteValue(old(batches), id, batch).1
      ensures GetBatch(id) == Some(batch)
      ensures Graph() == old(Graph()) && users == old(users) && accessTokens == old(accessTokens)
      ensures txnIds == old(txnIds)
    {
      var (_, after) := OverwriteValue(batches, id, batch);
      batches := after;
    }
  }

  /** After a PDU is stored, the room's prev events are exactly the new extremity and the ones it did not cite. */
  lemma PrevEventsAfterStore(g: EventGraph, pdu: StoredPdu, eventId: string)
    requires StorePdu(g, pdu).1.None?
    requires '~' !in pdu.inner.roomId && '~' !in eventId
    ensures eventId == pdu.EventId() ==> eventId in PrevEventIds(StorePdu(g, pdu).0.headless, pdu.inner.roomId)
    ensures eventId != pdu.EventId() && eventId in pdu.inner.prevEvents ==>
      HeadlessKey(pdu.inner.roomId, eventId) !in StorePdu(g, pdu).0.headless
  {
    var room := pdu.inner.roomId;
    if eventId == pdu.EventId() {
      SecondFieldOfHeadlessKey(room, eventId);
      var k := HeadlessKey(room, eventId);
      assert InRoom(k, room);
    }
  }

  /** A headless key of the room names one of the ids `get_prev_events` returns. */
  lemma HeadlessKeyIsPrevEvent(headless: set<string>, roomId: string, eventId: string)
    requires '~' !in roomId && '~' !in eventId
    requires HeadlessKey(roomId, eventId) in headless
    ensures eventId in PrevEventIds(headless, roomId)
  {
    SecondFieldOfHeadlessKey(roomId, eventId);
    assert InRoom(HeadlessKey(roomId, eventId), roomId);
  }

  /** In a valid graph the depth key `room_id` is never present for a room id without '~'. */
  lemma DepthKeyAbsent(g: EventGraph, roomId: string)
    requires GraphValid(g) && '~' !in roomId
    ensures roomId !in g.headless
  {
  }
}
