/**
 * A room state (src/state/mod.rs, `State`): the map from
 * (event type, state key) to the id of the event holding that entry.
 */
module RoomState {
  import opened Wrappers
  import opened Events

  type StateKey = (string, string)

  type StateMap = map<StateKey, string>

  /** `State::key`. */
  function Key(eventType: string, stateKey: string): (k: StateKey)
    ensures k.0 == eventType && k.1 == stateKey
  {
    (eventType, stateKey)
  }

  /** The entry a state event occupies: its type and its state key. */
  function EntryOf(pdu: PduV4): (k: StateKey)
    requires pdu.stateKey.Some?
    ensures k == Key(GetType(pdu.eventContent), pdu.stateKey.value)
  {
    (GetType(pdu.eventContent), pdu.stateKey.value)
  }

  /** The id a state map records for a PDU: its content hash. */
  function StateId(pdu: PduV4): string {
    pdu.hashes.sha256
  }

  /**
   * The state after `insert_event`: the event's own entry now names it and
   * every other entry is as it was.
   */
  function WithEvent(m: StateMap, pdu: PduV4): (r: StateMap)
    requires pdu.stateKey.Some?
    ensures EntryOf(pdu) in r && r[EntryOf(pdu)] == StateId(pdu)
    ensures r.Keys == m.Keys + {EntryOf(pdu)}
    ensures forall k :: k in m && k != EntryOf(pdu) ==> r[k] == m[k]
  {
    m[EntryOf(pdu) := StateId(pdu)]
  }

  /** Inserting the same event twice is inserting it once. */
  lemma WithEventIdempotent(m: StateMap, pdu: PduV4)
    requires pdu.stateKey.Some?
    ensures WithEvent(WithEvent(m, pdu), pdu) == WithEvent(m, pdu)
  {
  }

  /** Events for different entries can be inserted in either order. */
  lemma WithEventCommutes(m: StateMap, p: PduV4, q: PduV4)
    requires p.stateKey.Some? && q.stateKey.Some? && EntryOf(p) != EntryOf(q)
    ensures WithEvent(WithEvent(m, p), q) == WithEvent(WithEvent(m, q), p)
  {
  }

  class State {
    var roomId: string
    var entries: StateMap

    constructor(roomId: string, m: StateMap)
      ensures this.roomId == roomId && entries == m
    {
      this.roomId := roomId;
      entries := m;
    }

    /** `State::get`. */
    function Get(eventType: string, stateKey: string): (r: Option<string>)
      reads this
      ensures r.Some? <==> Key(eventType, stateKey) in entries
      ensures r.Some? ==> r.value == entries[Key(eventType, stateKey)]
    {
      if Key(eventType, stateKey) in entries then Some(entries[Key(eventType, stateKey)]) else None
    }

    /**
     * `State::insert_event`: sets the event's (type, state key) entry to
     * its id; the source unwraps the state key, so the event must have one.
     */
    method InsertEvent(pdu: PduV4)
      requires pdu.stateKey.Some?
      modifies this
      ensures entries == WithEvent(old(entries), pdu)
      ensures Get(GetType(pdu.eventContent), pdu.stateKey.value) == Some(StateId(pdu))
      ensures roomId == old(roomId)
    {
      entries := entries[(GetType(pdu.eventContent), pdu.stateKey.value) := pdu.hashes.sha256];
    }
  }
}
