/**
 * State resolution, version 2 (src/state/mod.rs, `StateResolver`): the
 * partition of branch states into unconflicted and conflicted entries,
 * power events, the reverse topological power ordering, the mainline
 * ordering and the iterative auth checks. The storage is a map from event id
 * to stored PDU; the resolver's cache is not modelled.
 */
module StateRes {
  import opened Wrappers
  import opened RoomContent
  import opened Events
  import opened RoomState
  import opened ResOrder
  import AuthChain
  import Auth

  type Db = map<string, StoredPdu>

  // ---------------------------------------------------------------------
  // Power events and auth types

  /** `is_power_event`. */
  predicate IsPowerEvent(pdu: PduV4) {
    match pdu.eventContent
    case PowerLevelsContent(_) => true
    case JoinRules(_) => true
    case Member(_, _, membership, _) => (membership == Leave || membership == Ban) && pdu.stateKey != Some(pdu.sender)
    case _ => false
  }

  /**
   * Power events, by event type: power levels, join rules, and memberships
   * that remove or ban someone other than the sender.
   */
  lemma PowerEventByType(pdu: PduV4)
    ensures IsPowerEvent(pdu) <==>
      GetType(pdu.eventContent) == PowerLevelsType || GetType(pdu.eventContent) == JoinRulesType ||
      (GetType(pdu.eventContent) == MemberType && pdu.eventContent.membership in {Leave, Ban} &&
       pdu.stateKey != Some(pdu.sender))
  {
  }

  /**
   * `auth_types_for_event`: the state entries the auth rules read for an
   * event. A member event without a state key is a panic.
   */
  function AuthTypesForEvent(pdu: PduV4): (r: Result<set<StateKey>, string>)
    ensures r.Failure? <==> pdu.eventContent.Member? && pdu.stateKey.None?
    ensures pdu.eventContent.Create? ==> r == Success({})
    ensures r.Success? && !pdu.eventContent.Create? ==>
      Key(CreateType, "") in r.value && Key(MemberType, pdu.sender) in r.value && Key(PowerLevelsType, "") in r.value
    ensures r.Success? && pdu.eventContent.Member? ==> Key(MemberType, pdu.stateKey.value) in r.value
    ensures r.Success? && pdu.eventContent.Member? ==>
      (Key(JoinRulesType, "") in r.value <==> pdu.eventContent.membership in {Join, Invite})
    ensures r.Success? ==> forall k :: k in r.value ==> k.0 in {CreateType, MemberType, PowerLevelsType, JoinRulesType}
    ensures r.Success? && !pdu.eventContent.Create? ==>
      r.value == {Key(CreateType, ""), Key(MemberType, pdu.sender), Key(PowerLevelsType, "")} +
        (if pdu.eventContent.Member? then
           {Key(MemberType, pdu.stateKey.value)} +
           (if pdu.eventContent.membership in {Join, Invite} then {Key(JoinRulesType, "")} else {})
         else {})
  {
    if GetType(pdu.eventContent) == CreateType then Success({})
    else
      var base := {Key(CreateType, ""), Key(MemberType, pdu.sender), Key(PowerLevelsType, "")};
      if pdu.eventContent.Member? then
        if pdu.stateKey.None? then Failure("called `Option::unwrap()` on a `None` value")
        else
          var withTarget := base + {Key(MemberType, pdu.stateKey.value)};
          if pdu.eventContent.membership == Join || pdu.eventContent.membership == Invite then
            Success(withTarget + {Key(JoinRulesType, "")})
          else Success(withTarget)
      else Success(base)
  }

  /** Two states that agree on every entry of `keys`. */
  predicate AgreeOn(s1: StateMap, s2: StateMap, keys: set<StateKey>) {
    forall k :: k in keys ==> (k in s1 <==> k in s2) && (k in s1 ==> s1[k] == s2[k])
  }

  lemma GetContentAgrees(db: Auth.Db, s1: StateMap, s2: StateMap, keys: set<StateKey>, eventType: string, stateKey: string)
    requires AgreeOn(s1, s2, keys) && Key(eventType, stateKey) in keys
    ensures Auth.GetContent(db, s1, eventType, stateKey) == Auth.GetContent(db, s2, eventType, stateKey)
  {
  }

  /** The membership rules read only the sender's and the target's membership and, for a join, the join rules. */
  lemma MemberCheckReadsOnlyAuthTypes(db: Auth.Db, pdu: PduV4, s1: StateMap, s2: StateMap, levels: PowerLevels)
    requires pdu.eventContent.Member? && pdu.stateKey.Some?
    requires Auth.GetContent(db, s1, MemberType, pdu.sender) == Auth.GetContent(db, s2, MemberType, pdu.sender)
    requires Auth.GetContent(db, s1, MemberType, pdu.stateKey.value) == Auth.GetContent(db, s2, MemberType, pdu.stateKey.value)
    requires pdu.eventContent.membership == Join ==>
      Auth.GetContent(db, s1, JoinRulesType, "") == Auth.GetContent(db, s2, JoinRulesType, "")
    ensures Auth.MemberCheck(db, pdu, s1, levels) == Auth.MemberCheck(db, pdu, s2, levels)
  {
    assert Auth.MembershipOf(db, s1, pdu.sender) == Auth.MembershipOf(db, s2, pdu.sender);
    assert Auth.MembershipOf(db, s1, pdu.stateKey.value) == Auth.MembershipOf(db, s2, pdu.stateKey.value);
  }

  /**
   * The auth rules read only the entries `auth_types_for_event` names: two
   * states that agree on those give every event the same verdict.
   */
  lemma AuthCheckReadsOnlyAuthTypes(db: Auth.Db, pdu: PduV4, s1: StateMap, s2: StateMap)
    requires AuthTypesForEvent(pdu).Success?
    requires AgreeOn(s1, s2, AuthTypesForEvent(pdu).value)
    ensures Auth.AuthCheckV1(db, pdu, s1) == Auth.AuthCheckV1(db, pdu, s2)
  {
    var keys := AuthTypesForEvent(pdu).value;
    if !pdu.eventContent.Create? {
      GetContentAgrees(db, s1, s2, keys, CreateType, "");
      GetContentAgrees(db, s1, s2, keys, PowerLevelsType, "");
      GetContentAgrees(db, s1, s2, keys, MemberType, pdu.sender);
      assert Auth.LevelsInForce(db, s1) == Auth.LevelsInForce(db, s2);
      var levels1 := Auth.LevelsInForce(db, s1);
      if pdu.eventContent.Member? {
        GetContentAgrees(db, s1, s2, keys, MemberType, pdu.stateKey.value);
        if pdu.eventContent.membership == Join {
          GetContentAgrees(db, s1, s2, keys, JoinRulesType, "");
        }
        if levels1.Success? {
          MemberCheckReadsOnlyAuthTypes(db, pdu, s1, s2, levels1.value);
        }
      } else if levels1.Success? {
        assert Auth.OtherCheck(db, pdu, s1, levels1.value) == Auth.OtherCheck(db, pdu, s2, levels1.value);
      }
    }
  }

  // ---------------------------------------------------------------------
  // Step 1: the partition of the branch states

  /** Every entry some branch state holds. */
  ghost function AllKeys(states: seq<StateMap>): set<StateKey> {
    set i, k | 0 <= i < |states| && k in states[i].Keys :: k
  }

  /** The distinct ids the branch states record for an entry. */
  ghost function IdsAt(states: seq<StateMap>, k: StateKey): (ids: set<string>)
    ensures ids != {} ==> k in AllKeys(states)
  {
    var ids := set i | 0 <= i < |states| && k in states[i] :: states[i][k];
    assert ids != {} ==> k in AllKeys(states) by {
      if ids != {} {
        var x :| x in ids;
        var i :| 0 <= i < |states| && k in states[i] && states[i][k] == x;
        assert k in states[i].Keys;
      }
    }
    ids
  }

  ghost function TheOnly(ids: set<string>): (x: string)
    requires |ids| == 1
    ensures ids == {x}
  {
    var x :| x in ids;
    assert |ids - {x}| == 0;
    x
  }

  /**
   * The unconflicted entries: those for which the branches record exactly
   * one distinct id, with that id. A branch that lacks the entry does not
   * make it conflicted.
   */
  ghost function Unconflicted(states: seq<StateMap>): (u: StateMap)
    ensures forall k :: k in u <==> |IdsAt(states, k)| == 1
    ensures forall k :: k in u ==> IdsAt(states, k) == {u[k]}
  {
    map k | k in AllKeys(states) && |IdsAt(states, k)| == 1 :: TheOnly(IdsAt(states, k))
  }

  /** The conflicted set: every id of every entry for which the branches record two or more ids. */
  ghost function Conflicted(states: seq<StateMap>): (c: set<string>)
    ensures forall id :: id in c <==> exists k :: |IdsAt(states, k)| >= 2 && id in IdsAt(states, k)
  {
    set k, id | k in AllKeys(states) && id in IdsAt(states, k) && |IdsAt(states, k)| >= 2 :: id
  }

  /** Branches that agree on an entry, where they hold it at all, leave it unconflicted with their common id. */
  lemma AgreeingBranchesUnconflicted(states: seq<StateMap>, k: StateKey, i: nat, x: string)
    requires i < |states| && k in states[i]
    requires forall j :: 0 <= j < |states| && k in states[j] ==> states[j][k] == x
    ensures k in Unconflicted(states) && Unconflicted(states)[k] == x
  {
    assert IdsAt(states, k) == {x};
  }

  /** Two branches that disagree on an entry make it conflicted, with both ids. */
  lemma DisagreeingBranchesConflict(states: seq<StateMap>, k: StateKey, i: nat, j: nat)
    requires i < |states| && j < |states| && k in states[i] && k in states[j]
    requires states[i][k] != states[j][k]
    ensures k !in Unconflicted(states)
    ensures states[i][k] in Conflicted(states) && states[j][k] in Conflicted(states)
  {
    var ids := IdsAt(states, k);
    assert {states[i][k], states[j][k]} <= ids;
    assert |{states[i][k], states[j][k]}| == 2;
    SubsetCard({states[i][k], states[j][k]}, ids);
  }

  lemma SubsetCard<T>(a: set<T>, b: set<T>)
    requires a <= b
    ensures |a| <= |b|
  {
    assert b == a + (b - a);
  }

  lemma IdsAtPrefix(states: seq<StateMap>, i: nat, k: StateKey)
    requires i < |states|
    ensures IdsAt(states[..i + 1], k) == IdsAt(states[..i], k) + (if k in states[i] then {states[i][k]} else {})
  {
    var front := states[..i];
    var next := states[..i + 1];
    forall x | x in IdsAt(next, k)
      ensures x in IdsAt(front, k) + (if k in states[i] then {states[i][k]} else {})
    {
      var j :| 0 <= j < |next| && k in next[j] && next[j][k] == x;
      if j < i {
        assert front[j] == next[j];
      }
    }
    forall x | x in IdsAt(front, k)
      ensures x in IdsAt(next, k)
    {
      var j :| 0 <= j < |front| && k in front[j] && front[j][k] == x;
      assert next[j] == front[j];
    }
    if k in states[i] {
      assert next[i] == states[i];
    }
  }

  /** The ids each branch state gives each entry, as `state_set` collects them. */
  ghost predicate IsStateSet(stateSet: map<StateKey, set<string>>, states: seq<StateMap>) {
    (forall k :: k in stateSet <==> IdsAt(states, k) != {}) &&
    (forall k :: k in stateSet ==> stateSet[k] == IdsAt(states, k))
  }

  /** One branch state's entries added to the collected id sets. */
  method AddBranch(stateSet: map<StateKey, set<string>>, entries: StateMap) returns (r: map<StateKey, set<string>>)
    ensures forall k :: k in r <==> k in stateSet || k in entries
    ensures forall k :: k in r ==>
      r[k] == (if k in stateSet then stateSet[k] else {}) + (if k in entries then {entries[k]} else {})
  {
    r := stateSet;
    var keys := entries.Keys;
    while keys != {}
      invariant keys <= entries.Keys
      invariant forall k :: k in r <==> k in stateSet || (k in entries && k !in keys)
      invariant forall k :: k in r ==>
        r[k] == (if k in stateSet then stateSet[k] else {}) + (if k in entries && k !in keys then {entries[k]} else {})
      decreases keys
    {
      var k :| k in keys;
      var ids := if k in r then r[k] else {};
      r := r[k := ids + {entries[k]}];
      keys := keys - {k};
    }
  }

  /** The first loop of step 1: every branch state's entries collected per entry. */
  method BuildStateSet(states: seq<StateMap>) returns (stateSet: map<StateKey, set<string>>)
    ensures IsStateSet(stateSet, states)
  {
    stateSet := map[];
    for i := 0 to |states|
      invariant IsStateSet(stateSet, states[..i])
    {
      stateSet := AddBranch(stateSet, states[i]);
      forall k ensures IdsAt(states[..i + 1], k) == IdsAt(states[..i], k) + (if k in states[i] then {states[i][k]} else {}) {
        IdsAtPrefix(states, i, k);
      }
    }
    assert states[..|states|] == states;
  }

  /**
   * The partition as the resolver builds it: a map from each entry to the
   * set of ids the branches give it, then one pass that files each entry
   * as unconflicted or its ids as conflicted.
   */
  method PartitionStates(states: seq<StateMap>) returns (unconflicted: StateMap, conflicted: set<string>)
    ensures unconflicted == Unconflicted(states)
    ensures conflicted == Conflicted(states)
  {
    var stateSet := BuildStateSet(states);
    unconflicted, conflicted := map[], {};
    var remaining := stateSet.Keys;
    while remaining != {}
      invariant remaining <= stateSet.Keys
      invariant forall k :: k in unconflicted <==> k in stateSet && k !in remaining && |stateSet[k]| == 1
      invariant forall k :: k in unconflicted ==> stateSet[k] == {unconflicted[k]}
      invariant forall id :: id in conflicted <==>
        exists k :: k in stateSet && k !in remaining && |stateSet[k]| != 1 && id in stateSet[k]
      decreases remaining
    {
      var k :| k in remaining;
      var ids := stateSet[k];
      if |ids| == 1 {
        var id := TheOnlyId(ids);
        unconflicted := unconflicted[k := id];
      } else {
        conflicted := conflicted + ids;
      }
      remaining := remaining - {k};
    }
    PartitionMatches(states, stateSet, unconflicted, conflicted);
  }

  lemma PartitionMatches(states: seq<StateMap>, stateSet: map<StateKey, set<string>>, unconflicted: StateMap, conflicted: set<string>)
    requires IsStateSet(stateSet, states)
    requires forall k :: k in unconflicted <==> k in stateSet && |stateSet[k]| == 1
    requires forall k :: k in unconflicted ==> stateSet[k] == {unconflicted[k]}
    requires forall id :: id in conflicted <==> exists k :: k in stateSet && |stateSet[k]| != 1 && id in stateSet[k]
    ensures unconflicted == Unconflicted(states)
    ensures conflicted == Conflicted(states)
  {
    assert unconflicted.Keys == Unconflicted(states).Keys;
    forall id ensures id in conflicted <==> id in Conflicted(states) {
      if id in Conflicted(states) {
        var k :| |IdsAt(states, k)| >= 2 && id in IdsAt(states, k);
        assert k in stateSet && |stateSet[k]| != 1;
      }
    }
  }

  /** The single id of a one-element set (`into_iter().next().unwrap()`). */
  method TheOnlyId(ids: set<string>) returns (x: string)
    requires |ids| == 1
    ensures ids == {x}
  {
    x :| x in ids;
    assert |ids - {x}| == 0;
  }

  // ---------------------------------------------------------------------
  // Steps 2 and 4: the auth checks against a state

  /** The auth events of an event that the storage holds, in order; missing ones are skipped. */
  function StoredAuthEvents(db: Db, ids: seq<string>): (r: seq<StoredPdu>)
    ensures forall p :: p in r <==> exists i :: 0 <= i < |ids| && ids[i] in db && db[ids[i]] == p
  {
    if |ids| == 0 then []
    else
      var front := StoredAuthEvents(db, ids[..|ids| - 1]);
      assert forall i :: 0 <= i < |ids| - 1 ==> ids[..|ids| - 1][i] == ids[i];
      front + (if ids[|ids| - 1] in db then [db[ids[|ids| - 1]]] else [])
  }

  /** The first fetched auth event holding the entry `k`. */
  function FirstWithKey(authPdus: seq<StoredPdu>, k: StateKey): (r: Option<StoredPdu>)
    ensures r.Some? ==> r.value in authPdus && r.value.inner.stateKey.Some? && EntryOf(r.value.inner) == k
    ensures r.None? ==> forall p :: p in authPdus ==> !(p.inner.stateKey.Some? && EntryOf(p.inner) == k)
  {
    if |authPdus| == 0 then None
    else if GetType(authPdus[0].inner.eventContent) == k.0 && authPdus[0].inner.stateKey == Some(k.1) then Some(authPdus[0])
    else FirstWithKey(authPdus[1..], k)
  }

  /**
   * The state the auth rules are run against: the current state, with the
   * fetched auth events filling the entries of `types` it lacks.
   */
  function Frankenstate(state: StateMap, types: set<StateKey>, authPdus: seq<StoredPdu>): (f: StateMap)
    ensures forall k :: k in state ==> k in f && f[k] == state[k]
    ensures forall k :: k in f && k !in state ==>
      k in types && FirstWithKey(authPdus, k).Some? && f[k] == StateId(FirstWithKey(authPdus, k).value.inner)
    ensures forall k :: k in types && FirstWithKey(authPdus, k).Some? ==> k in f
  {
    var fallback := map k | k in types && k !in state && FirstWithKey(authPdus, k).Some? ::
      StateId(FirstWithKey(authPdus, k).value.inner);
    fallback + state
  }

  /** One iterative auth check: the event enters the state iff it passes the rules against the frankenstate. */
  function AuthCheckStep(db: Db, state: StateMap, event: PduV4): (r: Result<StateMap, string>)
    requires event.stateKey.Some?
    ensures r.Success? ==> r.value == state || r.value == WithEvent(state, event)
  {
    var types := AuthTypesForEvent(event).value;
    var franken := Frankenstate(state, types, StoredAuthEvents(db, event.authEvents));
    var status :- Auth.AuthCheckV1(db, event, franken);
    Success(if status == Pass then WithEvent(state, event) else state)
  }

  ghost predicate AllState(events: seq<PduV4>) {
    forall i :: 0 <= i < |events| ==> events[i].stateKey.Some?
  }

  /**
   * Every entry of `m` is the entry `state` had, or names one of `events`;
   * and no entry of `state` is lost.
   */
  ghost predicate EntriesFrom(state: StateMap, events: seq<PduV4>, m: StateMap)
    requires AllState(events)
  {
    state.Keys <= m.Keys &&
    forall k :: k in m ==>
      (k in state && m[k] == state[k]) ||
      exists i :: 0 <= i < |events| && EntryOf(events[i]) == k && m[k] == StateId(events[i])
  }

  lemma StepKeepsEntriesFrom(state: StateMap, events: seq<PduV4>, s: StateMap, r: StateMap)
    requires |events| > 0 && AllState(events)
    requires EntriesFrom(state, events[..|events| - 1], s)
    requires r == s || r == WithEvent(s, events[|events| - 1])
    ensures EntriesFrom(state, events, r)
  {
    var front := events[..|events| - 1];
    forall k | k in r
      ensures (k in state && r[k] == state[k]) ||
        exists i :: 0 <= i < |events| && EntryOf(events[i]) == k && r[k] == StateId(events[i])
    {
      if r != s && k == EntryOf(events[|events| - 1]) {
      } else {
        assert k in s && r[k] == s[k];
        if !(k in state && s[k] == state[k]) {
          var i :| 0 <= i < |front| && EntryOf(front[i]) == k && s[k] == StateId(front[i]);
          assert front[i] == events[i];
        }
      }
    }
  }

  /**
   * `iterative_auth_checks` as a fold over the events: the state only ever
   * gains entries, and every entry it ends with is either the entry it
   * started with or names one of the events checked.
   */
  ghost function IterativeAuthChecksSpec(db: Db, state: StateMap, events: seq<PduV4>): (r: Result<StateMap, string>)
    requires AllState(events)
    ensures r.Success? ==> EntriesFrom(state, events, r.value)
  {
    if |events| == 0 then Success(state)
    else
      var front := events[..|events| - 1];
      var last := events[|events| - 1];
      var s :- IterativeAuthChecksSpec(db, state, front);
      var r := AuthCheckStep(db, s, last);
      assert r.Success? ==> EntriesFrom(state, events, r.value) by {
        if r.Success? {
          StepKeepsEntriesFrom(state, events, s, r.value);
        }
      }
      r
  }

  /**
   * When the state already holds every entry the rules read, the fetched
   * auth events make no difference: the event enters iff it passes the
   * rules against the state itself.
   */
  lemma StateHoldingAuthTypesDecides(db: Db, state: StateMap, event: PduV4)
    requires event.stateKey.Some? && AuthTypesForEvent(event).Success?
    requires AuthTypesForEvent(event).value <= state.Keys
    ensures Auth.AuthCheckV1(db, event, state) == Success(Pass) ==> AuthCheckStep(db, state, event) == Success(WithEvent(state, event))
    ensures Auth.AuthCheckV1(db, event, state) == Success(Fail) ==> AuthCheckStep(db, state, event) == Success(state)
  {
    var types := AuthTypesForEvent(event).value;
    var franken := Frankenstate(state, types, StoredAuthEvents(db, event.authEvents));
    assert franken == state;
  }

  /** The fallback entries the resolver adds to a copy of the state, one auth type at a time. */
  method FillFromAuthEvents(state: StateMap, types: set<StateKey>, authPdus: seq<StoredPdu>) returns (franken: StateMap)
    ensures franken == Frankenstate(state, types, authPdus)
  {
    franken := state;
    var remaining := types;
    while remaining != {}
      invariant remaining <= types
      invariant forall k :: k in state ==> k in franken && franken[k] == state[k]
      invariant forall k :: k in franken && k !in state ==>
        k in types && k !in remaining && FirstWithKey(authPdus, k).Some? && franken[k] == StateId(FirstWithKey(authPdus, k).value.inner)
      invariant forall k :: k in types && k !in remaining && FirstWithKey(authPdus, k).Some? ==> k in franken
      decreases remaining
    {
      var k :| k in remaining;
      if k !in franken {
        var fallback := FirstWithKey(authPdus, k);
        if fallback.Some? {
          franken := WithEvent(franken, fallback.value.inner);
        }
      }
      remaining := remaining - {k};
    }
    var f := Frankenstate(state, types, authPdus);
    assert franken.Keys == f.Keys;
  }

  /** `iterative_auth_checks`: each event is checked against the state built so far, and admitted if it passes. */
  method IterativeAuthChecks(db: Db, state: StateMap, events: seq<PduV4>) returns (r: Result<StateMap, string>)
    requires AllState(events)
    ensures r == IterativeAuthChecksSpec(db, state, events)
  {
    var current := state;
    for i := 0 to |events|
      invariant IterativeAuthChecksSpec(db, state, events[..i]) == Success(current)
    {
      var event := events[i];
      assert events[..i + 1][..i] == events[..i];
      var authPdus: seq<StoredPdu> := [];
      for j := 0 to |event.authEvents|
        invariant authPdus == StoredAuthEvents(db, event.authEvents[..j])
      {
        assert event.authEvents[..j + 1][..j] == event.authEvents[..j];
        if event.authEvents[j] in db {
          authPdus := authPdus + [db[event.authEvents[j]]];
        }
      }
      assert event.authEvents[..|event.authEvents|] == event.authEvents;
      var types := AuthTypesForEvent(event).value;
      var franken := FillFromAuthEvents(current, types, authPdus);
      var status := Auth.AuthCheckV1(db, event, franken);
      assert IterativeAuthChecksSpec(db, state, events[..i + 1]) == AuthCheckStep(db, current, event);
      if status.Failure? {
        IterativeFailureSticks(db, state, events, i + 1);
        return Failure(status.error);
      }
      if status.value == Pass {
        current := WithEvent(current, event);
      }
    }
    assert events[..|events|] == events;
    return Success(current);
  }

  /** Once a check panics, the whole run has panicked. */
  lemma {:induction false} IterativeFailureSticks(db: Db, state: StateMap, events: seq<PduV4>, n: nat)
    requires AllState(events) && n <= |events|
    requires IterativeAuthChecksSpec(db, state, events[..n]).Failure?
    ensures IterativeAuthChecksSpec(db, state, events) == IterativeAuthChecksSpec(db, state, events[..n])
    decreases |events| - n
  {
    if n == |events| {
      assert events[..n] == events;
    } else {
      var front := events[..|events| - 1];
      assert front[..n] == events[..n];
      IterativeFailureSticks(db, state, front, n);
    }
  }

  /**
   * The auth events of a power event as step 2 reads them: every one must
   * be stored, and those that passed auth are inserted into a fresh state
   * (an inserted one without a state key is a panic).
   */
  function PassedAuthState(db: Db, ids: seq<string>): (r: Result<StateMap, string>)
    ensures r.Success? ==> forall i :: 0 <= i < |ids| ==> ids[i] in db
    ensures r.Success? ==> forall k :: k in r.value ==>
      exists i :: 0 <= i < |ids| && db[ids[i]].DidPassAuth() && db[ids[i]].inner.stateKey.Some? &&
        EntryOf(db[ids[i]].inner) == k && r.value[k] == StateId(db[ids[i]].inner)
  {
    if |ids| == 0 then Success(map[])
    else
      var front := ids[..|ids| - 1];
      var s :- PassedAuthState(db, front);
      var event :- Auth.GetPdu(db, ids[|ids| - 1], "called `Option::unwrap()` on a `None` value");
      assert forall i :: 0 <= i < |front| ==> front[i] == ids[i];
      if !event.DidPassAuth() then Success(s)
      else if event.inner.stateKey.None? then Failure("called `Option::unwrap()` on a `None` value")
      else Success(WithEvent(s, event.inner))
  }

  /**
   * One event of step 2: a stored state event is run through the rules
   * against its passed auth events overlaid with the partial state, and its
   * entry is then set to its id whatever the verdict; only a panic stops it.
   */
  function ReplayStep(db: Db, partial: StateMap, id: string): (r: Result<StateMap, string>)
  {
    var event :- Auth.GetPdu(db, id, "event not found");
    if event.inner.stateKey.None? then Success(partial)
    else
      var authState :- PassedAuthState(db, event.inner.authEvents);
      var _ :- Auth.AuthCheckV1(db, event.inner, authState + partial);
      Success(partial[EntryOf(event.inner) := id])
  }

  /** Step 2 always records a stored power event's entry, even when the rules reject the event. */
  lemma ReplayIgnoresVerdict(db: Db, partial: StateMap, id: string)
    requires id in db && db[id].inner.stateKey.Some?
    requires ReplayStep(db, partial, id).Success?
    ensures ReplayStep(db, partial, id).value == partial[EntryOf(db[id].inner) := id]
  {
  }

  /** Step 2 over the ordered power events. */
  ghost function ReplaySpec(db: Db, partial: StateMap, ids: seq<string>): (r: Result<StateMap, string>)
  {
    if |ids| == 0 then Success(partial)
    else
      var s :- ReplaySpec(db, partial, ids[..|ids| - 1]);
      ReplayStep(db, s, ids[|ids| - 1])
  }

  lemma {:induction false} ReplayFailureSticks(db: Db, partial: StateMap, ids: seq<string>, n: nat)
    requires n <= |ids| && ReplaySpec(db, partial, ids[..n]).Failure?
    ensures ReplaySpec(db, partial, ids).Failure?
    decreases |ids| - n
  {
    if n == |ids| {
      assert ids[..n] == ids;
    } else {
      var front := ids[..|ids| - 1];
      assert front[..n] == ids[..n];
      ReplayFailureSticks(db, partial, front, n);
    }
  }

  /** The step-2 loop of `resolve_v2`. */
  method Replay(db: Db, partial: StateMap, ids: seq<string>) returns (r: Result<StateMap, string>)
    ensures r.Success? <==> ReplaySpec(db, partial, ids).Success?
    ensures r.Success? ==> r.value == ReplaySpec(db, partial, ids).value
  {
    var current := partial;
    for i := 0 to |ids|
      invariant ReplaySpec(db, partial, ids[..i]) == Success(current)
    {
      var step := ReplayEvent(db, current, ids[i]);
      ReplaySnoc(db, partial, ids, i, current);
      if step.Failure? {
        ReplayFailureSticks(db, partial, ids, i + 1);
        return Failure(step.error);
      }
      current := step.value;
    }
    assert ids[..|ids|] == ids;
    return Success(current);
  }

  /** One more event of step 2: the replay of the longer prefix is one step from the shorter's state. */
  lemma ReplaySnoc(db: Db, partial: StateMap, ids: seq<string>, i: nat, current: StateMap)
    requires i < |ids| && ReplaySpec(db, partial, ids[..i]) == Success(current)
    ensures ReplaySpec(db, partial, ids[..i + 1]) == ReplayStep(db, current, ids[i])
  {
    assert ids[..i + 1][..i] == ids[..i];
  }

  /** The body of the step-2 loop for one event. */
  method ReplayEvent(db: Db, current: StateMap, id: string) returns (r: Result<StateMap, string>)
    ensures r == ReplayStep(db, current, id)
  {
    if id !in db {
      return Failure("event not found");
    }
    var event := db[id];
    if event.inner.stateKey.None? {
      return Success(current);
    }
    var authState := CollectPassedAuth(db, event.inner.authEvents);
    if authState.Failure? {
      return Failure(authState.error);
    }
    var verdict := Auth.AuthCheckV1(db, event.inner, authState.value + current);
    if verdict.Failure? {
      return Failure(verdict.error);
    }
    return Success(current[EntryOf(event.inner) := id]);
  }

  /** The inner loop of step 2: the passed auth events of one event, inserted into a fresh state. */
  method CollectPassedAuth(db: Db, authIds: seq<string>) returns (r: Result<StateMap, string>)
    ensures r == PassedAuthState(db, authIds)
  {
    var authState: StateMap := map[];
    for j := 0 to |authIds|
      invariant PassedAuthState(db, authIds[..j]) == Success(authState)
    {
      assert authIds[..j + 1][..j] == authIds[..j];
      if authIds[j] !in db {
        PassedAuthFailureSticks(db, authIds, j + 1);
        return Failure("called `Option::unwrap()` on a `None` value");
      }
      var authEvent := db[authIds[j]];
      if authEvent.DidPassAuth() {
        if authEvent.inner.stateKey.None? {
          PassedAuthFailureSticks(db, authIds, j + 1);
          return Failure("called `Option::unwrap()` on a `None` value");
        }
        authState := WithEvent(authState, authEvent.inner);
      }
    }
    assert authIds[..|authIds|] == authIds;
    return Success(authState);
  }

  lemma {:induction false} PassedAuthFailureSticks(db: Db, ids: seq<string>, n: nat)
    requires n <= |ids| && PassedAuthState(db, ids[..n]).Failure?
    ensures PassedAuthState(db, ids) == PassedAuthState(db, ids[..n])
    decreases |ids| - n
  {
    if n == |ids| {
      assert ids[..n] == ids;
    } else {
      var front := ids[..|ids| - 1];
      assert front[..n] == ids[..n];
      PassedAuthFailureSticks(db, front, n);
    }
  }

  // ---------------------------------------------------------------------
  // Step 3: the mainline

  predicate IsPowerLevelsEvent(db: Db, id: string) {
    id in db && db[id].inner.eventContent.PowerLevelsContent?
  }

  /**
   * `get_power_levels`: the first of the auth events that is a
   * power-levels event; a missing auth event met before it is a panic.
   */
  function PowerLevelsParent(db: Db, authIds: seq<string>): (r: Result<Option<string>, string>)
    ensures r.Success? && r.value.Some? ==> r.value.value in authIds && IsPowerLevelsEvent(db, r.value.value)
    ensures r.Failure? ==> r.error == "called `Option::unwrap()` on a `None` value"
    ensures r == Success(None) <==> forall i :: 0 <= i < |authIds| ==> authIds[i] in db && !IsPowerLevelsEvent(db, authIds[i])
  {
    if |authIds| == 0 then Success(None)
    else
      var event :- Auth.GetPdu(db, authIds[0], "called `Option::unwrap()` on a `None` value");
      if event.inner.eventContent.PowerLevelsContent? then Success(Some(authIds[0]))
      else
        var r := PowerLevelsParent(db, authIds[1..]);
        assert forall i :: 1 <= i < |authIds| ==> authIds[i] == authIds[1..][i - 1];
        r
  }

  /** The power-levels parent of a stored event. */
  function ParentOf(db: Db, id: string): (r: Result<Option<string>, string>)
    ensures r.Success? && r.value.Some? ==> IsPowerLevelsEvent(db, r.value.value)
    ensures r.Failure? ==> r.error == "called `Option::unwrap()` on a `None` value"
  {
    var event :- Auth.GetPdu(db, id, "called `Option::unwrap()` on a `None` value");
    PowerLevelsParent(db, event.inner.authEvents)
  }

  /**
   * The mainline below `current`: its power-levels parent, that one's, and
   * so on; each element is the power-levels parent of the one before. The
   * walk is bounded by `fuel`.
   */
  function MainlineFrom(db: Db, current: string, fuel: nat): (r: Result<seq<string>, string>)
    ensures r.Success? ==> forall i :: 0 <= i < |r.value| ==> IsPowerLevelsEvent(db, r.value[i])
    ensures r.Success? && |r.value| > 0 ==> ParentOf(db, current) == Success(Some(r.value[0]))
    ensures r.Success? ==> forall i :: 0 < i < |r.value| ==> ParentOf(db, r.value[i - 1]) == Success(Some(r.value[i]))
    ensures r.Success? && |r.value| == 0 ==> ParentOf(db, current) == Success(None)
    decreases fuel
  {
    if fuel == 0 then Failure("power-levels cycle")
    else
      var parent :- ParentOf(db, current);
      if parent.None? then Success([])
      else
        var rest :- MainlineFrom(db, parent.value, fuel - 1);
        Success([parent.value] + rest)
  }

  /** The mainline from the resolved power levels: the starting event, then the events below it. */
  function Mainline(db: Db, start: string): Result<seq<string>, string> {
    var rest :- MainlineFrom(db, start, |db| + 1);
    Success([start] + rest)
  }

  function Prepend(prefix: seq<string>, r: Result<seq<string>, string>): Result<seq<string>, string> {
    if r.Success? then Success(prefix + r.value) else r
  }

  lemma PrependTwice(a: seq<string>, b: seq<string>, r: Result<seq<string>, string>)
    ensures Prepend(a, Prepend(b, r)) == Prepend(a + b, r)
  {
    if r.Success? {
      assert a + (b + r.value) == (a + b) + r.value;
    }
  }

  /** The mainline loop of `resolve_v2`: follow power-levels parents until there is none. */
  /** One step of the walk: the parent joins the prefix and the walk continues from it. */
  lemma MainlineStep(db: Db, mainline: seq<string>, current: string, next: string, f: nat)
    requires ParentOf(db, current) == Success(Some(next))
    ensures Prepend(mainline, MainlineFrom(db, current, f + 1))
      == Prepend(mainline + [next], MainlineFrom(db, next, f))
  {
    PrependTwice(mainline, [next], MainlineFrom(db, next, f));
  }

  /** The walk stops at an event whose parent lookup fails or that has no parent. */
  lemma MainlineEnds(db: Db, mainline: seq<string>, current: string, f: nat)
    requires ParentOf(db, current).Failure? || ParentOf(db, current) == Success(None)
    ensures ParentOf(db, current).Failure? ==>
      Prepend(mainline, MainlineFrom(db, current, f + 1)) == Failure(ParentOf(db, current).error)
    ensures ParentOf(db, current).Success? ==> Prepend(mainline, MainlineFrom(db, current, f + 1)) == Success(mainline)
  {
    if ParentOf(db, current).Success? {
      assert MainlineFrom(db, current, f + 1) == Success([]);
      assert mainline + [] == mainline;
    }
  }

  method WalkMainline(db: Db, start: string) returns (r: Result<seq<string>, string>)
    ensures r == Mainline(db, start)
  {
    ghost var whole := Mainline(db, start);
    var mainline := [start];
    var current := start;
    var fuel: nat := |db| + 1;
    while true
      invariant whole == Prepend(mainline, MainlineFrom(db, current, fuel))
      decreases fuel
    {
      if fuel == 0 {
        return Failure("power-levels cycle");
      }
      var f: nat := fuel - 1;
      var parent := ParentOf(db, current);
      if parent.Failure? || parent.value.None? {
        MainlineEnds(db, mainline, current, f);
        if parent.Failure? {
          return Failure(parent.error);
        }
        return Success(mainline);
      }
      var next := parent.value.value;
      MainlineStep(db, mainline, current, next, f);
      mainline := mainline + [next];
      current := next;
      fuel := f;
    }
  }

  /** `usize::MAX`, the position given to an event whose power-levels ancestry misses the mainline. */
  const NoMainline: nat := 0xFFFF_FFFF_FFFF_FFFF

  /** The first position of `x` in `s`. */
  function FirstIndex(s: seq<string>, x: string): (i: nat)
    requires x in s
    ensures i < |s| && s[i] == x
    ensures forall j :: 0 <= j < i ==> s[j] != x
  {
    if s[0] == x then 0 else 1 + FirstIndex(s[1..], x)
  }

  /**
   * The closest mainline position of `current`: its first position in the
   * mainline if it is on it, otherwise that of its power-levels parent, and
   * `NoMainline` once an ancestor has no parent. Bounded by `fuel`.
   */
  function ClosestMainline(db: Db, mainline: seq<string>, current: string, fuel: nat): (r: Result<nat, string>)
    ensures r.Success? ==> r.value < |mainline| || r.value == NoMainline
    ensures fuel > 0 && current in mainline ==> r == Success(FirstIndex(mainline, current))
    ensures r == Success(NoMainline) && |mainline| <= NoMainline ==> current !in mainline
    decreases fuel
  {
    if fuel == 0 then Failure("power-levels cycle")
    else if current in mainline then Success(FirstIndex(mainline, current))
    else
      var parent :- ParentOf(db, current);
      if parent.None? then Success(NoMainline)
      else ClosestMainline(db, mainline, parent.value, fuel - 1)
  }

  /** The inner loop of step 3 for one conflicted event. */
  method ClosestMainlineOf(db: Db, mainline: seq<string>, id: string) returns (r: Result<nat, string>)
    ensures r == ClosestMainline(db, mainline, id, |db| + 1)
  {
    var current := id;
    var fuel: nat := |db| + 1;
    while true
      invariant ClosestMainline(db, mainline, id, |db| + 1) == ClosestMainline(db, mainline, current, fuel)
      decreases fuel
    {
      if fuel == 0 {
        return Failure("power-levels cycle");
      }
      var i := 0;
      while i < |mainline| && mainline[i] != current
        invariant 0 <= i <= |mainline|
        invariant forall j :: 0 <= j < i ==> mainline[j] != current
      {
        i := i + 1;
      }
      if i < |mainline| {
        return Success(i);
      }
      var parent := ParentOf(db, current);
      if parent.Failure? {
        return Failure(parent.error);
      }
      if parent.value.None? {
        return Success(NoMainline);
      }
      current := parent.value.value;
      fuel := fuel - 1;
    }
  }

  /** Each element of `p` after the first is the power-levels parent of the one before. */
  ghost predicate ParentWalk(db: Db, p: seq<string>) {
    forall i :: 0 <= i < |p| - 1 ==> ParentOf(db, p[i]) == Success(Some(p[i + 1]))
  }

  /** A walk prefixed by the event whose parent starts it. */
  lemma ParentWalkCons(db: Db, current: string, q: seq<string>)
    requires |q| > 0 && ParentOf(db, current) == Success(Some(q[0])) && ParentWalk(db, q)
    ensures ParentWalk(db, [current] + q)
  {
    var p := [current] + q;
    forall i | 0 <= i < |p| - 1 ensures ParentOf(db, p[i]) == Success(Some(p[i + 1])) {
      if i > 0 {
        assert p[i] == q[i - 1] && p[i + 1] == q[i];
      }
    }
  }

  /** A sequence longer than the set its elements come from repeats an element. */
  lemma {:induction false} Pigeonhole(s: seq<string>, keys: set<string>)
    requires forall k :: 0 <= k < |s| ==> s[k] in keys
    requires |s| > |keys|
    ensures exists i, j :: 0 <= i < j < |s| && s[i] == s[j]
    decreases |s|
  {
    var x := s[|s| - 1];
    var front := s[..|s| - 1];
    if x in front {
      var i :| 0 <= i < |front| && front[i] == x;
      assert s[i] == s[|s| - 1];
    } else {
      forall k | 0 <= k < |front| ensures front[k] in keys - {x} {
        assert front[k] == s[k];
      }
      Pigeonhole(front, keys - {x});
      var i, j :| 0 <= i < j < |front| && front[i] == front[j];
      assert s[i] == s[j];
    }
  }

  /** A parent walk of more hops than there are stored events visits some event twice. */
  lemma WalkRepeats(db: Db, p: seq<string>)
    requires ParentWalk(db, p) && |p| >= |db| + 2
    ensures exists i, j :: 0 < i < j < |p| && p[i] == p[j]
  {
    var tail := p[1..];
    forall k | 0 <= k < |tail| ensures tail[k] in db.Keys {
      assert ParentOf(db, p[k]) == Success(Some(p[k + 1]));
    }
    assert |db.Keys| == |db|;
    Pigeonhole(tail, db.Keys);
    var i, j :| 0 <= i < j < |tail| && tail[i] == tail[j];
    assert p[i + 1] == p[j + 1];
  }

  /** The first `n` power-levels parent hops from `current`, cut short where a hop fails or ends. */
  ghost function ParentChain(db: Db, current: string, n: nat): (p: seq<string>)
    ensures |p| > 0 && p[0] == current
    decreases n
  {
    if n == 0 then [current]
    else match ParentOf(db, current)
      case Success(Some(next)) => [current] + ParentChain(db, next, n - 1)
      case _ => [current]
  }

  /** The mainline walk runs out of fuel only after `fuel` parent hops. */
  lemma {:induction false} MainlineFromFuelOut(db: Db, current: string, fuel: nat)
    requires MainlineFrom(db, current, fuel) == Failure("power-levels cycle")
    ensures ParentWalk(db, ParentChain(db, current, fuel)) && |ParentChain(db, current, fuel)| == fuel + 1
    decreases fuel
  {
    if fuel == 0 {
      assert ParentWalk(db, [current]);
    } else {
      var next := ParentOf(db, current).value.value;
      MainlineSteps(db, current, next, fuel - 1);
      MainlineFromFuelOut(db, next, fuel - 1);
      ParentWalkCons(db, current, ParentChain(db, next, fuel - 1));
    }
  }

  lemma MainlineSteps(db: Db, current: string, next: string, f: nat)
    requires MainlineFrom(db, current, f + 1) == Failure("power-levels cycle")
    requires next == ParentOf(db, current).value.value
    ensures ParentOf(db, current) == Success(Some(next))
    ensures MainlineFrom(db, next, f) == Failure("power-levels cycle")
  {
  }

  /**
   * The mainline walk of `Mainline` fails with "power-levels cycle" only when
   * the power-levels parents from the start revisit an event, where the
   * loop of src/state/mod.rs:213-216 would never end.
   */
  lemma MainlineFailsOnCycle(db: Db, start: string)
    requires Mainline(db, start) == Failure("power-levels cycle")
    ensures exists p, i, j :: 0 < i < j < |p| && ParentWalk(db, p) && p[0] == start && p[i] == p[j]
  {
    MainlineFromFuelOut(db, start, |db| + 1);
    var p := ParentChain(db, start, |db| + 1);
    WalkRepeats(db, p);
    var i, j :| 0 < i < j < |p| && p[i] == p[j];
    assert ParentWalk(db, p) && p[0] == start;
  }

  /** No element of the walk but the last is on the mainline. */
  ghost predicate OffMainline(p: seq<string>, mainline: seq<string>) {
    forall k :: 0 <= k < |p| - 1 ==> p[k] !in mainline
  }

  /** The closest-mainline walk runs out of fuel only after `fuel` parent hops off the mainline. */
  lemma {:induction false} ClosestMainlineFuelOut(db: Db, mainline: seq<string>, current: string, fuel: nat)
    requires ClosestMainline(db, mainline, current, fuel) == Failure("power-levels cycle")
    ensures ParentWalk(db, ParentChain(db, current, fuel)) && |ParentChain(db, current, fuel)| == fuel + 1
    ensures OffMainline(ParentChain(db, current, fuel), mainline)
    decreases fuel
  {
    if fuel == 0 {
      assert ParentWalk(db, [current]);
    } else {
      var next := ParentOf(db, current).value.value;
      MainlineStepsOff(db, mainline, current, next, fuel - 1);
      ClosestMainlineFuelOut(db, mainline, next, fuel - 1);
      var q := ParentChain(db, next, fuel - 1);
      ParentWalkCons(db, current, q);
      var p := [current] + q;
      forall k | 0 <= k < |p| - 1 ensures p[k] !in mainline {
        if k > 0 {
          assert p[k] == q[k - 1];
        }
      }
    }
  }

  lemma MainlineStepsOff(db: Db, mainline: seq<string>, current: string, next: string, f: nat)
    requires ClosestMainline(db, mainline, current, f + 1) == Failure("power-levels cycle")
    requires next == ParentOf(db, current).value.value
    ensures current !in mainline && ParentOf(db, current) == Success(Some(next))
    ensures ClosestMainline(db, mainline, next, f) == Failure("power-levels cycle")
  {
  }

  /**
   * The closest-mainline walk fails with "power-levels cycle" only when the
   * power-levels parents from the event revisit an event before reaching
   * the mainline, where the loop of src/state/mod.rs:221-232 would never end.
   */
  lemma ClosestMainlineFailsOnCycle(db: Db, mainline: seq<string>, id: string)
    requires ClosestMainline(db, mainline, id, |db| + 1) == Failure("power-levels cycle")
    ensures exists p, i, j :: 0 < i < j < |p| && ParentWalk(db, p) && p[0] == id && p[i] == p[j] && p[i] !in mainline
  {
    ClosestMainlineFuelOut(db, mainline, id, |db| + 1);
    var p := ParentChain(db, id, |db| + 1);
    WalkRepeats(db, p);
    var i, j :| 0 < i < j < |p| && p[i] == p[j];
    assert p[i] !in mainline;
    assert ParentWalk(db, p) && p[0] == id;
  }

  /** Every event of `ids` has a closest mainline position. */
  ghost predicate AllPlaced(db: Db, mainline: seq<string>, ids: set<string>) {
    forall id :: id in ids ==> ClosestMainline(db, mainline, id, |db| + 1).Success?
  }

  /** The closest mainline position of every event of `ids`, if none of the walks panics. */
  ghost function MainlineIndexes(db: Db, mainline: seq<string>, ids: set<string>): (r: Result<map<string, nat>, string>)
    ensures r.Success? <==> AllPlaced(db, mainline, ids)
    ensures r.Success? ==> r.value.Keys == ids
    ensures r.Success? ==> forall id :: id in ids ==> ClosestMainline(db, mainline, id, |db| + 1) == Success(r.value[id])
  {
    if AllPlaced(db, mainline, ids) then
      Success(map id | id in ids :: ClosestMainline(db, mainline, id, |db| + 1).value)
    else
      Failure("power-levels walk failed")
  }

  /** `idx` holds the closest mainline position of each of its events. */
  ghost predicate Placements(db: Db, mainline: seq<string>, idx: map<string, nat>) {
    forall id :: id in idx ==> ClosestMainline(db, mainline, id, |db| + 1) == Success(idx[id])
  }

  lemma PlacementsAdd(db: Db, mainline: seq<string>, idx: map<string, nat>, id: string, i: nat)
    requires Placements(db, mainline, idx) && ClosestMainline(db, mainline, id, |db| + 1) == Success(i)
    ensures Placements(db, mainline, idx[id := i])
  {
  }

  /** Positions found for exactly the events of `ids` are the ones the specification gives. */
  lemma PlacementsComplete(db: Db, mainline: seq<string>, ids: set<string>, idx: map<string, nat>)
    requires idx.Keys == ids && Placements(db, mainline, idx)
    ensures MainlineIndexes(db, mainline, ids) == Success(idx)
  {
    assert AllPlaced(db, mainline, ids) by {
      forall id | id in ids ensures ClosestMainline(db, mainline, id, |db| + 1).Success? {
        assert id in idx;
      }
    }
    assert MainlineIndexes(db, mainline, ids).value == idx;
  }

  /** The step-3 loop computing every conflicted event's closest mainline position. */
  method ComputeMainlineIndexes(db: Db, mainline: seq<string>, ids: set<string>) returns (r: Result<map<string, nat>, string>)
    ensures r.Success? <==> MainlineIndexes(db, mainline, ids).Success?
    ensures r.Success? ==> r.value == MainlineIndexes(db, mainline, ids).value
  {
    var idx: map<string, nat> := map[];
    var remaining := ids;
    while remaining != {}
      invariant remaining <= ids
      invariant idx.Keys == ids - remaining
      invariant Placements(db, mainline, idx)
      decreases remaining
    {
      var id :| id in remaining;
      var c := ClosestMainlineOf(db, mainline, id);
      if c.Failure? {
        assert !ClosestMainline(db, mainline, id, |db| + 1).Success?;
        assert !AllPlaced(db, mainline, ids);
        return Failure(c.error);
      }
      PlacementsAdd(db, mainline, idx, id, c.value);
      idx := idx[id := c.value];
      remaining := remaining - {id};
    }
    PlacementsComplete(db, mainline, ids, idx);
    return Success(idx);
  }


  /** The sort keys of the conflicted events, from their closest mainline positions. */
  function MainlineKeys(db: Db, ids: set<string>, idx: map<string, nat>): (key: map<string, SortKey>)
    requires ids <= db.Keys && ids <= idx.Keys
    ensures key.Keys == ids
  {
    map id | id in ids :: MainlineKey((db[id], idx[id]))
  }

  /** A sequence whose keys strictly ascend. */
  ghost predicate StrictlySorted(s: seq<string>, key: map<string, SortKey>)
    requires forall i :: 0 <= i < |s| ==> s[i] in key
  {
    forall i, j :: 0 <= i < j < |s| ==> KeyLess(key[s[i]], key[s[j]])
  }

  /** Two strictly ascending sequences of the same ids are equal: the sorted order is unique. */
  lemma {:induction false} SortedUnique(a: seq<string>, b: seq<string>, key: map<string, SortKey>)
    requires forall x :: x in a ==> x in key
    requires forall x :: x in a <==> x in b
    requires StrictlySorted(a, key) && StrictlySorted(b, key)
    ensures a == b
    decreases |a|
  {
    if |a| > 0 {
      assert a[0] in b;
    }
    if |b| > 0 {
      assert b[0] in a;
    }
    if |a| > 0 && |b| > 0 {
      var s := set x | x in a;
      assert IsLeast(a[0], s, key) by {
        forall y | y in s && y != a[0] ensures KeyLess(key[a[0]], key[y]) {
          var j :| 0 <= j < |a| && a[j] == y;
        }
      }
      assert IsLeast(b[0], s, key) by {
        forall y | y in s && y != b[0] ensures KeyLess(key[b[0]], key[y]) {
          var j :| 0 <= j < |b| && b[j] == y;
        }
      }
      LeastUnique(a[0], b[0], s, key);
      forall x ensures x in a[1..] <==> x in b[1..] {
        if x in a[1..] {
          var j :| 0 <= j < |a[1..]| && a[1..][j] == x;
          assert KeyLess(key[a[0]], key[a[j + 1]]);
          CmpKeyEqual(key[a[0]], key[x]);
          assert x in a && x in b;
          var k :| 0 <= k < |b| && b[k] == x;
          assert k != 0;
          assert b[1..][k - 1] == x;
        }
        if x in b[1..] {
          var j :| 0 <= j < |b[1..]| && b[1..][j] == x;
          assert KeyLess(key[b[0]], key[b[j + 1]]);
          CmpKeyEqual(key[b[0]], key[x]);
          assert x in b && x in a;
          var k :| 0 <= k < |a| && a[k] == x;
          assert k != 0;
          assert a[1..][k - 1] == x;
        }
      }
      SortedUnique(a[1..], b[1..], key);
      assert a == [a[0]] + a[1..];
      assert b == [b[0]] + b[1..];
    }
  }

  /**
   * One pass of the selection that stands in for `sort_by(mainline_cmp)`:
   * the least event of `remaining` under `mainline_cmp`, or the panic when
   * the comparison meets two events with the same key.
   */
  method LeastByMainline(db: Db, remaining: set<string>, idx: map<string, nat>, ghost key: map<string, SortKey>) returns (r: Result<string, string>)
    requires remaining != {} && remaining <= db.Keys && remaining <= idx.Keys
    requires forall y :: y in remaining ==> y in key && key[y] == MainlineKey((db[y], idx[y]))
    ensures r.Success? ==> IsLeast(r.value, remaining, key)
    ensures r.Failure? ==> !KeysDistinct(remaining, key) && r.error == "oh come on now"
  {
    var best :| best in remaining;
    var rest := remaining - {best};
    while rest != {}
      invariant rest <= remaining && best in remaining && best !in rest
      invariant forall y :: y in remaining && y !in rest && y != best ==> KeyLess(key[best], key[y])
      decreases rest
    {
      var y :| y in rest;
      var c := MainlineCmp((db[y], idx[y]), (db[best], idx[best]));
      MainlineCmpIsKeyOrder((db[y], idx[y]), (db[best], idx[best]));
      if c.Failure? {
        assert key[y] == key[best];
        return Failure(c.error);
      }
      if c.value == Less {
        forall z | z in remaining && z !in rest - {y} && z != y
          ensures KeyLess(key[y], key[z])
        {
          if z != best {
            CmpKeyTrans(key[y], key[best], key[z]);
          }
        }
        best := y;
      }
      rest := rest - {y};
    }
    return Success(best);
  }

  /**
   * `events_with_closest_mainlines.sort_by(mainline_cmp)`: the conflicted
   * events in ascending key order, or the panic exactly when two of them
   * share a key.
   */
  /** The invariant of the selection: `out` holds the ids already taken, strictly ascending and below every remaining one. */
  ghost predicate Selected(out: seq<string>, remaining: set<string>, ids: set<string>, key: map<string, SortKey>)
    requires ids <= key.Keys
  {
    remaining <= ids &&
    (forall x :: x in out ==> x in ids && x !in remaining) &&
    (forall x :: x in ids ==> x in out || x in remaining) &&
    StrictlySorted(out, key) &&
    (forall i, y :: 0 <= i < |out| && y in remaining ==> KeyLess(key[out[i]], key[y]))
  }

  lemma SelectStep(out: seq<string>, remaining: set<string>, ids: set<string>, key: map<string, SortKey>, m: string)
    requires ids <= key.Keys && Selected(out, remaining, ids, key)
    requires IsLeast(m, remaining, key)
    ensures Selected(out + [m], remaining - {m}, ids, key)
  {
    var out' := out + [m];
    forall i, j | 0 <= i < j < |out'| ensures KeyLess(key[out'[i]], key[out'[j]]) {
      if j < |out| {
        assert out'[i] == out[i] && out'[j] == out[j];
      }
    }
  }

  lemma SelectDone(out: seq<string>, ids: set<string>, key: map<string, SortKey>)
    requires ids <= key.Keys && Selected(out, {}, ids, key)
    ensures KeysDistinct(ids, key)
    ensures out == SortSet(ids, key)
  {
    forall x, y | x in ids && y in ids && x != y ensures key[x] != key[y] {
      var i :| 0 <= i < |out| && out[i] == x;
      var j :| 0 <= j < |out| && out[j] == y;
      if i < j {
        CmpKeyEqual(key[x], key[y]);
      } else {
        CmpKeyEqual(key[y], key[x]);
      }
    }
    SortedUnique(out, SortSet(ids, key), key);
  }

  /**
   * `events_with_closest_mainlines.sort_by(mainline_cmp)`: the conflicted
   * events in ascending key order, or the panic exactly when two of them
   * share a key.
   */
  method SortByMainline(db: Db, ids: set<string>, idx: map<string, nat>) returns (r: Result<seq<string>, string>)
    requires ids <= db.Keys && ids <= idx.Keys
    ensures r.Success? <==> KeysDistinct(ids, MainlineKeys(db, ids, idx))
    ensures r.Success? ==> r.value == SortSet(ids, MainlineKeys(db, ids, idx))
  {
    ghost var key := MainlineKeys(db, ids, idx);
    var out: seq<string> := [];
    var remaining := ids;
    while remaining != {}
      invariant Selected(out, remaining, ids, key)
      decreases remaining
    {
      var least := LeastByMainline(db, remaining, idx, key);
      if least.Failure? {
        return Failure(least.error);
      }
      SelectStep(out, remaining, ids, key, least.value);
      out := out + [least.value];
      remaining := remaining - {least.value};
    }
    SelectDone(out, ids, key);
    return Success(out);
  }

  // ---------------------------------------------------------------------
  // Step 1, continued: the reverse topological power ordering

  /** No event of `events` cites `x` as an auth event. */
  predicate Uncited(db: Db, events: set<string>, x: string)
    requires events <= db.Keys
  {
    forall y :: y in events ==> x !in db[y].inner.authEvents
  }

  /** The events of `events` that no event of `events` cites as an auth event. */
  function Candidates(db: Db, events: set<string>): (c: set<string>)
    requires events <= db.Keys
    ensures c <= events
  {
    set x | x in events && Uncited(db, events, x)
  }

  /** The sender's power level as the candidate sort reads it: a missing level sorts below every level. */
  function LevelCode(level: Option<U32>): (code: int)
    ensures level.None? <==> code < 0
    ensures level.Some? ==> code == level.value as int
  {
    if level.None? then -1 else level.value as int
  }

  /**
   * The sort key of a candidate: the sender's power level, the origin
   * timestamp and the event id, as the comparison closure orders them, with
   * the event's id in the set last, standing for the hash map's order among
   * events the closure finds equal.
   */
  function CandidateKey(db: Db, senderLevel: string -> Option<U32>, id: string): SortKey
    requires id in db
  {
    SortKey(LevelCode(senderLevel(db[id].EventId())), db[id].inner.originServerTs, db[id].EventId(), id)
  }

  function CandidateKeys(db: Db, ids: set<string>, senderLevel: string -> Option<U32>): (key: map<string, SortKey>)
    requires ids <= db.Keys
    ensures key.Keys == ids
    ensures KeysDistinct(ids, key)
  {
    map id | id in ids :: CandidateKey(db, senderLevel, id)
  }

  /** The stored events' own ids, in order. */
  function EventIdsOf(db: Db, ids: seq<string>): (r: seq<string>)
    requires forall i :: 0 <= i < |ids| ==> ids[i] in db
    ensures |r| == |ids|
    ensures forall i :: 0 <= i < |ids| ==> r[i] == db[ids[i]].EventId()
  {
    if |ids| == 0 then [] else [db[ids[0]].EventId()] + EventIdsOf(db, ids[1..])
  }

  lemma EventIdsOfConcat(db: Db, a: seq<string>, b: seq<string>)
    requires forall i :: 0 <= i < |a| ==> a[i] in db
    requires forall i :: 0 <= i < |b| ==> b[i] in db
    ensures EventIdsOf(db, a + b) == EventIdsOf(db, a) + EventIdsOf(db, b)
  {
    assert forall i :: 0 <= i < |a + b| ==> (a + b)[i] in db;
  }

  /** `r` lists every event of `events` exactly once. */
  ghost predicate Enumerates(r: seq<string>, events: set<string>) {
    |r| == |events| && forall x :: x in r <==> x in events
  }

  /** In `r`, an event comes after every event that cites it as an auth event. */
  ghost predicate CitersFirst(db: Db, r: seq<string>) {
    forall i, j :: 0 <= i < |r| && 0 <= j < |r| && r[j] in db && r[i] in db[r[j]].inner.authEvents ==> j < i
  }

  /** Emitting the candidates before an ordering of the other events enumerates all of them. */
  lemma TopoStepEnumerates(events: set<string>, c: set<string>, first: seq<string>, rest: seq<string>)
    requires c <= events
    requires Enumerates(first, c) && Enumerates(rest, events - c)
    ensures Enumerates(first + rest, events)
  {
    assert events == (events - c) + c;
  }

  /** Emitting the candidates first keeps every citing event ahead of the events it cites. */
  lemma TopoStepCitersFirst(db: Db, events: set<string>, first: seq<string>, rest: seq<string>)
    requires events <= db.Keys
    requires forall x :: x in first ==> x in Candidates(db, events)
    requires forall x :: x in rest ==> x in events
    requires CitersFirst(db, rest)
    ensures CitersFirst(db, first + rest)
  {
    var r := first + rest;
    forall k | 0 <= k < |r| ensures r[k] in events {
      if k < |first| {
        assert r[k] == first[k] && first[k] in first;
      } else {
        assert r[k] == rest[k - |first|] && rest[k - |first|] in rest;
      }
    }
    forall k | 0 <= k < |first| ensures Uncited(db, events, r[k]) {
      assert r[k] == first[k] && first[k] in first;
    }
    forall i, j | 0 <= i < |r| && 0 <= j < |r| && r[j] in db && r[i] in db[r[j]].inner.authEvents ensures j < i {
      if |first| <= i && |first| <= j {
        assert r[i] == rest[i - |first|] && r[j] == rest[j - |first|];
      }
    }
  }

  /**
   * The corrected ordering: repeatedly take the events no remaining event
   * cites, sorted by candidate key, and remove them. The result holds every
   * event once, and an event comes after every event citing it as an auth
   * event; an auth-event cycle among the events is an error.
   */
  ghost function TopoOrder(db: Db, events: set<string>, senderLevel: string -> Option<U32>): (r: Result<seq<string>, string>)
    requires events <= db.Keys
    ensures r.Success? ==> Enumerates(r.value, events) && CitersFirst(db, r.value)
    decreases events
  {
    if events == {} then Success([])
    else
      var c := Candidates(db, events);
      if c == {} then Failure("auth_events cycle")
      else
        var rest :- TopoOrder(db, events - c, senderLevel);
        var first := SortSet(c, CandidateKeys(db, c, senderLevel));
        TopoStepEnumerates(events, c, first, rest);
        TopoStepCitersFirst(db, events, first, rest);
        Success(first + rest)
  }

  /** Every event of `s` is cited in the auth_events of another event of `s`: a cycle of citations, or part of one. */
  ghost predicate CitedWithin(db: Db, s: set<string>)
    requires s <= db.Keys
  {
    forall x :: x in s ==> exists y :: y in s && x in db[y].inner.authEvents
  }

  /**
   * The ordering fails only when some events cite one another round in a
   * circle, where the source's loop in src/state/mod.rs:306-345 would find
   * no next event and never end.
   */
  lemma {:induction false} TopoOrderFailsOnCycle(db: Db, events: set<string>, senderLevel: string -> Option<U32>)
    requires events <= db.Keys && TopoOrder(db, events, senderLevel).Failure?
    ensures TopoOrder(db, events, senderLevel).error == "auth_events cycle"
    ensures exists s :: s <= events && s != {} && CitedWithin(db, s)
    decreases events
  {
    var c := Candidates(db, events);
    if c == {} {
      forall x | x in events ensures exists y :: y in events && x in db[y].inner.authEvents {
        assert x !in c;
        assert !Uncited(db, events, x);
      }
      assert CitedWithin(db, events);
    } else {
      TopoOrderFailsOnCycle(db, events - c, senderLevel);
    }
  }

  /** `reverse_topological_power_ordering`, corrected: every event must be stored, and the result is the events' own ids. */
  ghost function ReverseTopoSpec(db: Db, eventIds: set<string>, senderLevel: string -> Option<U32>): (r: Result<seq<string>, string>)
  {
    if !(eventIds <= db.Keys) then Failure("event not found")
    else
      var order :- TopoOrder(db, eventIds, senderLevel);
      Success(EventIdsOf(db, order))
  }

  /** The least candidate of `remaining` under the comparison closure. */
  method LeastCandidate(db: Db, remaining: set<string>, senderLevel: string -> Option<U32>, ghost key: map<string, SortKey>) returns (m: string)
    requires remaining != {} && remaining <= db.Keys
    requires forall y :: y in remaining ==> y in key && key[y] == CandidateKey(db, senderLevel, y)
    ensures IsLeast(m, remaining, key)
  {
    m :| m in remaining;
    var rest := remaining - {m};
    while rest != {}
      invariant rest <= remaining && m in remaining && m !in rest
      invariant forall y :: y in remaining && y !in rest && y != m ==> KeyLess(key[m], key[y])
      decreases rest
    {
      var y :| y in rest;
      CmpKeyEqual(key[y], key[m]);
      if CmpKey(CandidateKey(db, senderLevel, y), CandidateKey(db, senderLevel, m)) == Less {
        forall z | z in remaining && z !in rest - {y} && z != y
          ensures KeyLess(key[y], key[z])
        {
          if z != m {
            CmpKeyTrans(key[y], key[m], key[z]);
          }
        }
        m := y;
      } else {
        CmpKeyFlip(key[y], key[m]);
      }
      rest := rest - {y};
    }
  }

  /** `candidates.sort_by(..)`: the candidates in ascending key order. */
  method SortCandidates(db: Db, candidates: set<string>, senderLevel: string -> Option<U32>) returns (sorted: seq<string>)
    requires candidates <= db.Keys
    ensures sorted == SortSet(candidates, CandidateKeys(db, candidates, senderLevel))
  {
    ghost var key := CandidateKeys(db, candidates, senderLevel);
    sorted := [];
    var remaining := candidates;
    while remaining != {}
      invariant Selected(sorted, remaining, candidates, key)
      decreases remaining
    {
      var m := LeastCandidate(db, remaining, senderLevel, key);
      SelectStep(sorted, remaining, candidates, key, m);
      sorted := sorted + [m];
      remaining := remaining - {m};
    }
    SelectDone(sorted, candidates, key);
  }

  /** The load loop: every event of the set must be stored. */
  method LoadEvents(db: Db, eventIds: set<string>) returns (ok: bool)
    ensures ok <==> eventIds <= db.Keys
  {
    var toLoad := eventIds;
    while toLoad != {}
      invariant toLoad <= eventIds && eventIds - toLoad <= db.Keys
      decreases toLoad
    {
      var id :| id in toLoad;
      if id !in db {
        return false;
      }
      toLoad := toLoad - {id};
    }
    return true;
  }

  /** The nested loops gathering the events with no parents in the graph. */
  method FindCandidates(db: Db, events: set<string>) returns (candidates: set<string>)
    requires events <= db.Keys
    ensures candidates == Candidates(db, events)
  {
    candidates := {};
    var outer := events;
    while outer != {}
      invariant outer <= events
      invariant forall x :: x in candidates <==> x in events - outer && Uncited(db, events, x)
      decreases outer
    {
      var id1 :| id1 in outer;
      var cited := false;
      var inner := events;
      while inner != {} && !cited
        invariant inner <= events
        invariant cited <==> exists y :: y in events - inner && id1 in db[y].inner.authEvents
        decreases inner
      {
        var id2 :| id2 in inner;
        if id1 in db[id2].inner.authEvents {
          cited := true;
        }
        inner := inner - {id2};
      }
      if !cited {
        candidates := candidates + {id1};
      }
      outer := outer - {id1};
    }
    assert candidates == Candidates(db, events);
  }

  /** One pass of the corrected loop: the sorted candidates, then the ordering of the others. */
  lemma TopoUnfold(db: Db, events: set<string>, senderLevel: string -> Option<U32>)
    requires events <= db.Keys && Candidates(db, events) != {}
    ensures TopoOrder(db, events, senderLevel)
      == Prepend(SortSet(Candidates(db, events), CandidateKeys(db, Candidates(db, events), senderLevel)),
                 TopoOrder(db, events - Candidates(db, events), senderLevel))
  {
    var c := Candidates(db, events);
    var rest := TopoOrder(db, events - c, senderLevel);
    if rest.Success? {
      assert TopoOrder(db, events, senderLevel) == Success(SortSet(c, CandidateKeys(db, c, senderLevel)) + rest.value);
    } else {
      assert TopoOrder(db, events, senderLevel) == Failure(rest.error);
    }
  }

  /** The corrected loop's invariant: `order` has been emitted and `events` remain. */
  ghost predicate TopoProgress(db: Db, eventIds: set<string>, senderLevel: string -> Option<U32>, events: set<string>, order: seq<string>)
    requires eventIds <= db.Keys
  {
    events <= eventIds &&
    (forall i :: 0 <= i < |order| ==> order[i] in db) &&
    TopoOrder(db, eventIds, senderLevel) == Prepend(order, TopoOrder(db, events, senderLevel))
  }

  lemma TopoProgressStep(db: Db, eventIds: set<string>, senderLevel: string -> Option<U32>, events: set<string>, order: seq<string>, sorted: seq<string>)
    requires eventIds <= db.Keys && TopoProgress(db, eventIds, senderLevel, events, order)
    requires Candidates(db, events) != {}
    requires sorted == SortSet(Candidates(db, events), CandidateKeys(db, Candidates(db, events), senderLevel))
    ensures TopoProgress(db, eventIds, senderLevel, events - Candidates(db, events), order + sorted)
  {
    TopoUnfold(db, events, senderLevel);
    PrependTwice(order, sorted, TopoOrder(db, events - Candidates(db, events), senderLevel));
  }

  /** Nothing emitted yet: the whole ordering is still ahead. */
  lemma TopoProgressStart(db: Db, eventIds: set<string>, senderLevel: string -> Option<U32>)
    requires eventIds <= db.Keys
    ensures TopoProgress(db, eventIds, senderLevel, eventIds, [])
  {
    if TopoOrder(db, eventIds, senderLevel).Success? {
      assert [] + TopoOrder(db, eventIds, senderLevel).value == TopoOrder(db, eventIds, senderLevel).value;
    }
  }

  /** The loop of the corrected ordering over stored events: each pass emits the sorted candidates and removes them. */
  method OrderStoredEvents(db: Db, eventIds: set<string>, senderLevel: string -> Option<U32>) returns (r: Result<seq<string>, string>)
    requires eventIds <= db.Keys
    ensures r.Success? <==> TopoOrder(db, eventIds, senderLevel).Success?
    ensures r.Success? ==> r.value == EventIdsOf(db, TopoOrder(db, eventIds, senderLevel).value)
    ensures r.Failure? ==> r == TopoOrder(db, eventIds, senderLevel)
  {
    var events := eventIds;
    var ret: seq<string> := [];
    ghost var order: seq<string> := [];
    TopoProgressStart(db, eventIds, senderLevel);
    while events != {}
      invariant TopoProgress(db, eventIds, senderLevel, events, order)
      invariant ret == EventIdsOf(db, order)
      decreases events
    {
      var candidates := FindCandidates(db, events);
      if candidates == {} {
        return Failure("auth_events cycle");
      }
      var sorted := SortCandidates(db, candidates, senderLevel);
      TopoProgressStep(db, eventIds, senderLevel, events, order, sorted);
      EventIdsOfConcat(db, order, sorted);
      ret := ret + EventIdsOf(db, sorted);
      order := order + sorted;
      events := events - candidates;
    }
    assert order + [] == order;
    return Success(ret);
  }

  /**
   * `reverse_topological_power_ordering`, corrected so that each pass
   * removes the candidates it emits (see `AsWrittenNeverFinishes`).
   */
  method ReverseTopologicalPowerOrdering(db: Db, eventIds: set<string>, senderLevel: string -> Option<U32>) returns (r: Result<seq<string>, string>)
    ensures r == ReverseTopoSpec(db, eventIds, senderLevel)
  {
    var loaded := LoadEvents(db, eventIds);
    if !loaded {
      return Failure("event not found");
    }
    r := OrderStoredEvents(db, eventIds, senderLevel);
  }

  /** The ids one pass emits: the candidates of `events`, sorted. */
  ghost function PassOutput(db: Db, events: set<string>, senderLevel: string -> Option<U32>): (out: seq<string>)
    requires events <= db.Keys
    ensures |out| == |Candidates(db, events)|
  {
    var c := Candidates(db, events);
    EventIdsOf(db, SortSet(c, CandidateKeys(db, c, senderLevel)))
  }

  /**
   * One pass of the loop of `reverse_topological_power_ordering` as
   * written: the candidates are emitted, but `events` is left as it was.
   */
  ghost function AsWrittenPass(db: Db, events: set<string>, ret: seq<string>, senderLevel: string -> Option<U32>): (set<string>, seq<string>)
    requires events <= db.Keys
  {
    (events, ret + PassOutput(db, events, senderLevel))
  }

  /** The loop state of `reverse_topological_power_ordering`: the events left and the ids emitted. */
  type LoopState = (set<string>, seq<string>)

  /** The as-written pass as a step on loop states (every state it meets has only stored events). */
  ghost function AsWrittenStep(db: Db, senderLevel: string -> Option<U32>): LoopState -> LoopState {
    (p: LoopState) => if p.0 <= db.Keys then AsWrittenPass(db, p.0, p.1, senderLevel) else p
  }

  /** `n` steps of `step` from `state`. */
  ghost function Iterate(step: LoopState -> LoopState, state: LoopState, n: nat): LoopState
    decreases n
  {
    if n == 0 then state else Iterate(step, step(state), n - 1)
  }

  /** `n` passes of the loop as written. */
  ghost function AsWrittenPasses(db: Db, events: set<string>, ret: seq<string>, senderLevel: string -> Option<U32>, n: nat): LoopState
  {
    Iterate(AsWrittenStep(db, senderLevel), (events, ret), n)
  }

  /** `n` copies of `s`, one after the other. */
  function Repeat(s: seq<string>, n: nat): (r: seq<string>)
    ensures |s| > 0 ==> |r| >= n
  {
    if n == 0 then [] else s + Repeat(s, n - 1)
  }

  /** One more copy of `out` after `ret` is `ret + out` followed by the copies. */
  lemma RepeatAppend(ret: seq<string>, out: seq<string>, m: nat)
    ensures (ret + out) + Repeat(out, m) == ret + Repeat(out, m + 1)
  {
    assert Repeat(out, m + 1) == out + Repeat(out, m);
  }

  /** A step that keeps `events` and appends `out` does so on every pass: after `n` passes, `n` copies. */
  lemma {:induction false} IterateKeepsEvents(step: LoopState -> LoopState, events: set<string>, ret: seq<string>, out: seq<string>, n: nat)
    requires forall r :: step((events, r)) == (events, r + out)
    ensures Iterate(step, (events, ret), n) == (events, ret + Repeat(out, n))
    decreases n
  {
    if n == 0 {
      assert ret + [] == ret;
    } else {
      var m: nat := n - 1;
      assert Iterate(step, (events, ret), m + 1) == Iterate(step, (events, ret + out), m);
      IterateKeepsEvents(step, events, ret + out, out, m);
      RepeatAppend(ret, out, m);
    }
  }

  /**
   * As written, the loop never ends on a non-empty input: after any number
   * of passes `events` is still the whole input, so the loop condition
   * still holds, and the output is the same sorted candidates once per pass.
   */
  lemma AsWrittenNeverFinishes(db: Db, events: set<string>, ret: seq<string>, senderLevel: string -> Option<U32>, n: nat)
    requires events <= db.Keys && events != {}
    ensures AsWrittenPasses(db, events, ret, senderLevel, n).0 == events
    ensures AsWrittenPasses(db, events, ret, senderLevel, n).1 == ret + Repeat(PassOutput(db, events, senderLevel), n)
  {
    var out := PassOutput(db, events, senderLevel);
    var step := AsWrittenStep(db, senderLevel);
    forall r ensures step((events, r)) == (events, r + out) {
      assert step((events, r)) == AsWrittenPass(db, events, r, senderLevel);
    }
    IterateKeepsEvents(step, events, ret, out, n);
  }

  // ---------------------------------------------------------------------
  // resolve_v2

  /** Two outcomes agree on success, and on the value when they succeed. */
  predicate SameOutcome<T(==)>(r: Result<T, string>, s: Result<T, string>) {
    (r.Success? <==> s.Success?) && (r.Success? ==> r.value == s.value)
  }

  /** The power events of the full conflicted set. */
  ghost function PowerEvents(db: Db, full: set<string>): (power: set<string>)
    requires full <= db.Keys
    ensures power <= full
    ensures forall x :: x in full ==> (x in power <==> IsPowerEvent(db[x].inner))
  {
    set x | x in full && IsPowerEvent(db[x].inner)
  }

  /** The sorted events that carry a state key, as the step-4 iterator yields them. */
  function StateEventsOf(db: Db, ids: seq<string>): (r: seq<PduV4>)
    requires forall i :: 0 <= i < |ids| ==> ids[i] in db
    ensures AllState(r)
    ensures |r| <= |ids|
  {
    if |ids| == 0 then []
    else
      var rest := StateEventsOf(db, ids[1..]);
      if db[ids[0]].inner.stateKey.Some? then [db[ids[0]].inner] + rest else rest
  }

  /**
   * Steps 1 and 2 of `resolve_v2` once the branch states are known: the
   * partition, the full conflicted set, and the power events replayed in
   * reverse topological order over the unconflicted entries. The result is
   * the partial state and the conflicted events that are not power events.
   */
  ghost function PowerStage(db: Db, events: seq<string>, scratch: seq<StateMap>, senderLevel: string -> Option<U32>): (r: Result<(StateMap, set<string>), string>)
    ensures r.Success? ==> r.value.1 <= db.Keys
  {
    var difference :- AuthChain.AuthDifferenceSpec(db, events);
    var full := Conflicted(scratch) + difference;
    if !(full <= db.Keys) then Failure("called `Option::unwrap()` on a `None` value")
    else
      var power := PowerEvents(db, full);
      var order :- ReverseTopoSpec(db, power, senderLevel);
      var partial :- ReplaySpec(db, Unconflicted(scratch), order);
      Success((partial, full - power))
  }

  /**
   * Steps 3 and 4: the mainline from the partial state's power levels, and
   * the other conflicted events checked in mainline order on top of the
   * partial state.
   */
  ghost function MainlineStage(db: Db, partial: StateMap, rest: set<string>): (r: Result<StateMap, string>)
    requires rest <= db.Keys
  {
    if Key(PowerLevelsType, "") !in partial then Failure("oh no")
    else
      var mainline :- Mainline(db, partial[Key(PowerLevelsType, "")]);
      var idx :- MainlineIndexes(db, mainline, rest);
      var key := MainlineKeys(db, rest, idx);
      if !KeysDistinct(rest, key) then Failure("oh come on now")
      else IterativeAuthChecksSpec(db, partial, StateEventsOf(db, SortSet(rest, key)))
  }

  /** Steps 1 to 5: the two stages, then the unconflicted entries laid on top. */
  ghost function ResolveConflicts(db: Db, events: seq<string>, scratch: seq<StateMap>, senderLevel: string -> Option<U32>): Result<StateMap, string>
  {
    var stage :- PowerStage(db, events, scratch, senderLevel);
    var resolved :- MainlineStage(db, stage.0, stage.1);
    Success(resolved + Unconflicted(scratch))
  }

  /**
   * `resolve_v2`: no events give the empty state; one event gives the
   * state before it (the resolution of its prev events) with the event
   * itself added when it passed auth and is a state event; several events
   * are resolved one by one and the branch states merged. The recursion
   * through prev events is bounded by `fuel`.
   */
  ghost function Resolve(db: Db, events: seq<string>, senderLevel: string -> Option<U32>, fuel: nat): (r: Result<StateMap, string>)
    decreases fuel, 0, 0
  {
    if |events| == 0 then Success(map[])
    else if fuel == 0 then Failure("resolution depth exhausted")
    else if |events| == 1 then
      var event :- Auth.GetPdu(db, events[0], "called `Option::unwrap()` on a `None` value");
      var before :- Resolve(db, event.inner.prevEvents, senderLevel, fuel - 1);
      Success(if event.DidPassAuth() && event.inner.stateKey.Some? then WithEvent(before, event.inner) else before)
    else
      var scratch :- ResolveEach(db, events, senderLevel, fuel - 1);
      ResolveConflicts(db, events, scratch, senderLevel)
  }

  /** The branch states: each event resolved on its own. */
  ghost function ResolveEach(db: Db, events: seq<string>, senderLevel: string -> Option<U32>, fuel: nat): (r: Result<seq<StateMap>, string>)
    ensures r.Success? ==> |r.value| == |events|
    decreases fuel, 1, |events|
  {
    if |events| == 0 then Success([])
    else
      var front :- ResolveEach(db, events[..|events| - 1], senderLevel, fuel);
      var state :- Resolve(db, [events[|events| - 1]], senderLevel, fuel);
      Success(front + [state])
  }

  lemma {:induction false} ResolveEachFailureSticks(db: Db, events: seq<string>, senderLevel: string -> Option<U32>, fuel: nat, n: nat)
    requires n <= |events| && ResolveEach(db, events[..n], senderLevel, fuel).Failure?
    ensures ResolveEach(db, events, senderLevel, fuel).Failure?
    decreases |events| - n
  {
    if n == |events| {
      assert events[..n] == events;
    } else {
      var front := events[..|events| - 1];
      assert front[..n] == events[..n];
      ResolveEachFailureSticks(db, front, senderLevel, fuel, n);
    }
  }

  /**
   * Whatever the conflicts, an entry that some branch state holds and on
   * which every branch state holding it agrees is in the result, unchanged.
   */
  lemma ResolveKeepsAgreedEntries(db: Db, events: seq<string>, senderLevel: string -> Option<U32>, fuel: nat,
                                  scratch: seq<StateMap>, i: nat, k: StateKey)
    requires |events| >= 2 && fuel > 0
    requires ResolveEach(db, events, senderLevel, fuel - 1) == Success(scratch)
    requires i < |scratch| && k in scratch[i]
    requires forall j :: 0 <= j < |scratch| && k in scratch[j] ==> scratch[j][k] == scratch[i][k]
    requires Resolve(db, events, senderLevel, fuel).Success?
    ensures k in Resolve(db, events, senderLevel, fuel).value
    ensures Resolve(db, events, senderLevel, fuel).value[k] == scratch[i][k]
  {
    assert Resolve(db, events, senderLevel, fuel) == ResolveConflicts(db, events, scratch, senderLevel);
    AgreeingBranchesUnconflicted(scratch, k, i, scratch[i][k]);
    var stage := PowerStage(db, events, scratch, senderLevel).value;
    var resolved := MainlineStage(db, stage.0, stage.1).value;
    assert Resolve(db, events, senderLevel, fuel).value == resolved + Unconflicted(scratch);
  }

  /** The branch states are the events resolved one by one, in order. */
  lemma {:induction false} ResolveEachAt(db: Db, events: seq<string>, senderLevel: string -> Option<U32>, fuel: nat)
    requires ResolveEach(db, events, senderLevel, fuel).Success?
    ensures forall i :: 0 <= i < |events| ==> Resolve(db, [events[i]], senderLevel, fuel) == Success(ResolveEach(db, events, senderLevel, fuel).value[i])
    decreases |events|
  {
    if |events| > 0 {
      var front := events[..|events| - 1];
      var last := events[|events| - 1];
      var whole := ResolveEach(db, events, senderLevel, fuel).value;
      var before := ResolveEach(db, front, senderLevel, fuel).value;
      assert whole == before + [Resolve(db, [last], senderLevel, fuel).value];
      ResolveEachAt(db, front, senderLevel, fuel);
      forall i | 0 <= i < |events|
        ensures Resolve(db, [events[i]], senderLevel, fuel) == Success(whole[i])
      {
        if i < |front| {
          assert front[i] == events[i] && whole[i] == before[i];
        }
      }
    }
  }

  /**
   * One event on top of its history: a state event that passed auth takes
   * its entry, every other entry is the one before it; any other event
   * leaves the state before it as it is.
   */
  lemma ResolveOneEvent(db: Db, id: string, senderLevel: string -> Option<U32>, fuel: nat)
    requires fuel > 0 && id in db
    requires Resolve(db, db[id].inner.prevEvents, senderLevel, fuel - 1).Success?
    ensures var before := Resolve(db, db[id].inner.prevEvents, senderLevel, fuel - 1).value;
      var r := Resolve(db, [id], senderLevel, fuel);
      r.Success? &&
      (db[id].DidPassAuth() && db[id].inner.stateKey.Some? ==>
        r.value[EntryOf(db[id].inner)] == db[id].EventId() &&
        r.value.Keys == before.Keys + {EntryOf(db[id].inner)} &&
        forall k :: k in before && k != EntryOf(db[id].inner) ==> r.value[k] == before[k]) &&
      (!(db[id].DidPassAuth() && db[id].inner.stateKey.Some?) ==> r.value == before)
  {
  }

  /** The loop gathering the power events of the full conflicted set; every event of it must be stored. */
  method FindPowerEvents(db: Db, full: set<string>) returns (r: Result<set<string>, string>)
    ensures r.Success? <==> full <= db.Keys
    ensures r.Success? ==> r.value == PowerEvents(db, full)
  {
    var power: set<string> := {};
    var remaining := full;
    while remaining != {}
      invariant remaining <= full && full - remaining <= db.Keys
      invariant power == PowerEvents(db, full - remaining)
      decreases remaining
    {
      var id :| id in remaining;
      if id !in db {
        return Failure("called `Option::unwrap()` on a `None` value");
      }
      if IsPowerEvent(db[id].inner) {
        power := power + {id};
      }
      remaining := remaining - {id};
    }
    assert full - remaining == full;
    return Success(power);
  }

  /** Step 5: every unconflicted entry is written over the resolved state. */
  method MergeUnconflicted(resolved: StateMap, unconflicted: StateMap) returns (r: StateMap)
    ensures r == resolved + unconflicted
  {
    r := resolved;
    var remaining := unconflicted.Keys;
    while remaining != {}
      invariant remaining <= unconflicted.Keys
      invariant r.Keys == resolved.Keys + (unconflicted.Keys - remaining)
      invariant forall k :: k in unconflicted && k !in remaining ==> r[k] == unconflicted[k]
      invariant forall k :: k in resolved && (k !in unconflicted || k in remaining) ==> r[k] == resolved[k]
      decreases remaining
    {
      var k :| k in remaining;
      r := r[k := unconflicted[k]];
      remaining := remaining - {k};
    }
    assert r == resolved + unconflicted;
  }

  /** Steps 1 and 2 as `resolve_v2` runs them. */
  method RunPowerStage(db: Db, events: seq<string>, scratch: seq<StateMap>, senderLevel: string -> Option<U32>, unconflicted: StateMap, conflicted: set<string>)
    returns (r: Result<(StateMap, set<string>), string>)
    requires unconflicted == Unconflicted(scratch) && conflicted == Conflicted(scratch)
    ensures SameOutcome(r, PowerStage(db, events, scratch, senderLevel))
  {
    var difference :- AuthChain.AuthDifference(db, events);
    var full := conflicted + difference;
    var power :- FindPowerEvents(db, full);
    var order :- ReverseTopologicalPowerOrdering(db, power, senderLevel);
    var partial :- Replay(db, unconflicted, order);
    return Success((partial, full - power));
  }

  /** Steps 3 and 4 as `resolve_v2` runs them. */
  method RunMainlineStage(db: Db, partial: StateMap, rest: set<string>) returns (r: Result<StateMap, string>)
    requires rest <= db.Keys
    ensures SameOutcome(r, MainlineStage(db, partial, rest))
  {
    if Key(PowerLevelsType, "") !in partial {
      return Failure("oh no");
    }
    var mainline :- WalkMainline(db, partial[Key(PowerLevelsType, "")]);
    var idx :- ComputeMainlineIndexes(db, mainline, rest);
    var sorted :- SortByMainline(db, rest, idx);
    r := IterativeAuthChecks(db, partial, StateEventsOf(db, sorted));
  }

  /** The steps after the branch states are known, as `resolve_v2` runs them. */
  method ResolveConflictsOf(db: Db, events: seq<string>, scratch: seq<StateMap>, senderLevel: string -> Option<U32>) returns (r: Result<StateMap, string>)
    ensures SameOutcome(r, ResolveConflicts(db, events, scratch, senderLevel))
  {
    var unconflicted, conflicted := PartitionStates(scratch);
    var stage :- RunPowerStage(db, events, scratch, senderLevel, unconflicted, conflicted);
    var resolved :- RunMainlineStage(db, stage.0, stage.1);
    var merged := MergeUnconflicted(resolved, unconflicted);
    return Success(merged);
  }

  /** One more event of the scratch loop: its resolution on its own is appended to the branch states. */
  lemma ResolveEachSnoc(db: Db, events: seq<string>, senderLevel: string -> Option<U32>, fuel: nat, i: nat, scratch: seq<StateMap>)
    requires i < |events| && ResolveEach(db, events[..i], senderLevel, fuel) == Success(scratch)
    ensures ResolveEach(db, events[..i + 1], senderLevel, fuel).Success? <==> Resolve(db, [events[i]], senderLevel, fuel).Success?
    ensures Resolve(db, [events[i]], senderLevel, fuel).Success? ==>
      ResolveEach(db, events[..i + 1], senderLevel, fuel) == Success(scratch + [Resolve(db, [events[i]], senderLevel, fuel).value])
  {
    assert events[..i + 1][..i] == events[..i];
    assert events[..i + 1][i] == events[i];
  }

  /** The scratch loop: each event resolved on its own, in order. */
  method ResolveBranches(db: Db, events: seq<string>, senderLevel: string -> Option<U32>, fuel: nat) returns (r: Result<seq<StateMap>, string>)
    ensures SameOutcome(r, ResolveEach(db, events, senderLevel, fuel))
    decreases fuel, 2
  {
    var scratch: seq<StateMap> := [];
    for i := 0 to |events|
      invariant ResolveEach(db, events[..i], senderLevel, fuel) == Success(scratch)
    {
      var state := ResolveV2(db, [events[i]], senderLevel, fuel);
      ResolveEachSnoc(db, events, senderLevel, fuel, i, scratch);
      if state.Failure? {
        ResolveEachFailureSticks(db, events, senderLevel, fuel, i + 1);
        return Failure(state.error);
      }
      scratch := scratch + [state.value];
    }
    assert events[..|events|] == events;
    return Success(scratch);
  }

  /** The single-event path of `resolve_v2`. */
  method ResolveOne(db: Db, id: string, senderLevel: string -> Option<U32>, fuel: nat) returns (r: Result<StateMap, string>)
    requires fuel > 0
    ensures SameOutcome(r, Resolve(db, [id], senderLevel, fuel))
    decreases fuel, 0
  {
    var f: nat := fuel - 1;
    if id !in db {
      ResolveOneFails(db, id, senderLevel, f);
      return Failure("called `Option::unwrap()` on a `None` value");
    }
    var event := db[id];
    var before := ResolveV2(db, event.inner.prevEvents, senderLevel, f);
    if before.Failure? {
      ResolveOneFails(db, id, senderLevel, f);
      return Failure(before.error);
    }
    ResolveOneUnfold(db, id, senderLevel, f, before.value);
    if event.DidPassAuth() && event.inner.stateKey.Some? {
      return Success(WithEvent(before.value, event.inner));
    }
    return Success(before.value);
  }

  lemma ResolveOneFails(db: Db, id: string, senderLevel: string -> Option<U32>, f: nat)
    requires id !in db || Resolve(db, db[id].inner.prevEvents, senderLevel, f).Failure?
    ensures Resolve(db, [id], senderLevel, f + 1).Failure?
  {
  }

  lemma ResolveOneUnfold(db: Db, id: string, senderLevel: string -> Option<U32>, f: nat, before: StateMap)
    requires id in db
    requires Resolve(db, db[id].inner.prevEvents, senderLevel, f).Success?
    requires Resolve(db, db[id].inner.prevEvents, senderLevel, f).value == before
    ensures Resolve(db, [id], senderLevel, f + 1)
      == Success(if db[id].DidPassAuth() && db[id].inner.stateKey.Some? then WithEvent(before, db[id].inner) else before)
  {
  }

  /** The path of `resolve_v2` for two or more events. */
  method ResolveMany(db: Db, events: seq<string>, senderLevel: string -> Option<U32>, fuel: nat) returns (r: Result<StateMap, string>)
    requires fuel > 0 && |events| >= 2
    ensures SameOutcome(r, Resolve(db, events, senderLevel, fuel))
    decreases fuel, 0
  {
    var f: nat := fuel - 1;
    var scratch := ResolveBranches(db, events, senderLevel, f);
    if scratch.Failure? {
      ResolveManyFails(db, events, senderLevel, f);
      return Failure(scratch.error);
    }
    ResolveManyUnfold(db, events, senderLevel, f, scratch.value);
    r := ResolveConflictsOf(db, events, scratch.value, senderLevel);
  }

  lemma ResolveManyFails(db: Db, events: seq<string>, senderLevel: string -> Option<U32>, f: nat)
    requires |events| >= 2
    requires ResolveEach(db, events, senderLevel, f).Failure?
    ensures Resolve(db, events, senderLevel, f + 1).Failure?
  {
  }

  /** For two or more events, resolution is the conflict resolution of the branch states. */
  lemma ResolveManyUnfold(db: Db, events: seq<string>, senderLevel: string -> Option<U32>, f: nat, scratch: seq<StateMap>)
    requires |events| >= 2
    requires ResolveEach(db, events, senderLevel, f).Success?
    requires ResolveEach(db, events, senderLevel, f).value == scratch
    ensures Resolve(db, events, senderLevel, f + 1) == ResolveConflicts(db, events, scratch, senderLevel)
  {
  }

  /**
   * `resolve_v2`: succeeds exactly when the specification does, with the
   * same state; the cache is not modelled, so every call computes afresh.
   */
  method ResolveV2(db: Db, events: seq<string>, senderLevel: string -> Option<U32>, fuel: nat) returns (r: Result<StateMap, string>)
    ensures r.Success? <==> Resolve(db, events, senderLevel, fuel).Success?
    ensures r.Success? ==> r.value == Resolve(db, events, senderLevel, fuel).value
    ensures |events| == 0 ==> r == Success(map[])
    decreases fuel, 1
  {
    if |events| == 0 {
      r := Success(map[]);
    } else if fuel == 0 {
      r := Failure("resolution depth exhausted");
    } else if |events| == 1 {
      r := ResolveOne(db, events[0], senderLevel, fuel);
      assert [events[0]] == events;
    } else {
      r := ResolveMany(db, events, senderLevel, fuel);
    }
  }
}
