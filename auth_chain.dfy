/**
 * Auth chains and the auth difference of state resolution
 * (src/state/mod.rs, `auth_chains` and `auth_difference`). The storage is a
 * map from event id to stored PDU.
 */
module AuthChain {
  import opened Wrappers
  import opened Events

  type Db = map<string, StoredPdu>

  /** Every id some stored event cites as an auth event. */
  ghost function AllAuthIds(db: Db): set<string> {
    set id, a | id in db && a in db[id].inner.authEvents :: a
  }

  /** A walk of one or more auth-event hops that starts at one of `ids`. */
  ghost predicate IsAuthPath(db: Db, ids: seq<string>, p: seq<string>) {
    |p| >= 2 && p[0] in ids &&
    forall k :: 0 <= k < |p| - 1 ==> p[k] in db && p[k + 1] in db[p[k]].inner.authEvents
  }

  ghost predicate Reachable(db: Db, ids: seq<string>, y: string) {
    exists p :: IsAuthPath(db, ids, p) && p[|p| - 1] == y
  }

  /** The ids reachable from `ids` through one or more auth-event hops. */
  ghost function Reach(db: Db, ids: seq<string>): (r: set<string>)
    ensures forall y :: y in r <==> Reachable(db, ids, y)
  {
    forall y | Reachable(db, ids, y) ensures y in AllAuthIds(db) {
      var p :| IsAuthPath(db, ids, p) && p[|p| - 1] == y;
      assert p[|p| - 2] in db && y in db[p[|p| - 2]].inner.authEvents;
    }
    set y | y in AllAuthIds(db) && Reachable(db, ids, y)
  }

  /** Walking the chain never meets a missing event. */
  ghost predicate ChainStored(db: Db, ids: seq<string>) {
    forall x :: (x in ids || Reachable(db, ids, x)) ==> x in db
  }

  /** A set that holds the auth events of `ids` and of each of its members holds everything reachable. */
  lemma {:induction false} ClosedHoldsReach(db: Db, ids: seq<string>, s: set<string>, y: string)
    requires forall x :: x in ids || x in s ==> x in db
    requires forall x, a :: x in ids && a in db[x].inner.authEvents ==> a in s
    requires forall x, a :: x in s && a in db[x].inner.authEvents ==> a in s
    requires Reachable(db, ids, y)
    ensures y in s
  {
    var p :| IsAuthPath(db, ids, p) && p[|p| - 1] == y;
    assert p[1] in db[p[0]].inner.authEvents;
    var k := 2;
    while k < |p|
      invariant 2 <= k <= |p|
      invariant p[k - 1] in s
    {
      assert p[k] in db[p[k - 1]].inner.authEvents;
      k := k + 1;
    }
  }

  /** `p` is a walk from `ids` that ends at `y`. */
  ghost predicate WalkTo(db: Db, ids: seq<string>, p: seq<string>, y: string) {
    IsAuthPath(db, ids, p) && p[|p| - 1] == y
  }

  /** Each collected id comes with a walk from `ids` that ends at it. */
  ghost predicate PathsFor(db: Db, ids: seq<string>, ret: set<string>, paths: map<string, seq<string>>) {
    forall y :: y in ret ==> y in paths && WalkTo(db, ids, paths[y], y)
  }

  /** A walk that ends at `x`, extended by one hop to an auth event of `x`. */
  lemma PathSnoc(db: Db, ids: seq<string>, px: seq<string>, a: string)
    requires IsAuthPath(db, ids, px) && px[|px| - 1] in db && a in db[px[|px| - 1]].inner.authEvents
    ensures IsAuthPath(db, ids, px + [a])
  {
    var path := px + [a];
    forall k | 0 <= k < |path| - 1 ensures path[k] in db && path[k + 1] in db[path[k]].inner.authEvents {
      if k < |px| - 1 {
        assert path[k] == px[k] && path[k + 1] == px[k + 1];
      } else {
        assert path[k] == px[|px| - 1] && path[k + 1] == a;
      }
    }
  }

  /** The walks kept for the collected ids, with a walk to `x` extended by one hop to its auth event `a`. */
  lemma PathsExtend(db: Db, ids: seq<string>, ret: set<string>, paths: map<string, seq<string>>, x: string, a: string)
    requires x in db && (x in ids || x in ret) && a in db[x].inner.authEvents
    requires PathsFor(db, ids, ret, paths)
    ensures PathsFor(db, ids, ret + {a}, paths[a := if x in ids then [x, a] else paths[x] + [a]])
  {
    var path := if x in ids then [x, a] else paths[x] + [a];
    if x !in ids {
      PathSnoc(db, ids, paths[x], a);
    }
    assert WalkTo(db, ids, path, a);
    var paths' := paths[a := path];
    forall y | y in ret + {a} ensures y in paths' && WalkTo(db, ids, paths'[y], y) {
      if y != a {
        assert paths'[y] == paths[y];
      }
    }
  }

  /**
   * One visit of the walk: the auth events of `x` are collected, and those
   * not collected before are queued.
   */
  method Visit(db: Db, ghost ids: seq<string>, x: string, ret: set<string>, toCheck: seq<string>,
               ghost paths: map<string, seq<string>>)
    returns (ret': set<string>, toCheck': seq<string>, ghost paths': map<string, seq<string>>)
    requires x in db && (x in ids || x in ret)
    requires PathsFor(db, ids, ret, paths)
    ensures forall a :: a in ret' <==> a in ret || a in db[x].inner.authEvents
    ensures forall y :: y in toCheck' <==> y in toCheck || (y in ret' && y !in ret)
    ensures ret' == ret ==> toCheck' == toCheck
    ensures PathsFor(db, ids, ret', paths')
  {
    var auth := db[x].inner.authEvents;
    ret', toCheck', paths' := ret, toCheck, paths;
    for k := 0 to |auth|
      invariant forall a :: a in ret' <==> a in ret || a in auth[..k]
      invariant forall y :: y in toCheck' <==> y in toCheck || (y in ret' && y !in ret)
      invariant ret' == ret ==> toCheck' == toCheck
      invariant PathsFor(db, ids, ret', paths')
    {
      var a := auth[k];
      if a !in ret' {
        toCheck' := toCheck' + [a];
        PathsExtend(db, ids, ret', paths', x, a);
        var path := if x in ids then [x, a] else paths'[x] + [a];
        paths' := paths'[a := path];
      }
      ret' := ret' + {a};
      assert auth[..k + 1] == auth[..k] + [a];
    }
    assert auth[..|auth|] == auth;
  }

  /** A finished walk: every queued id visited, so the collected set is closed and holds exactly the reachable ids. */
  lemma WalkDone(db: Db, ids: seq<string>, ret: set<string>, done: set<string>, paths: map<string, seq<string>>)
    requires forall x :: x in ids || x in ret ==> x in done
    requires done <= db.Keys
    requires forall x, a :: x in done && a in db[x].inner.authEvents ==> a in ret
    requires PathsFor(db, ids, ret, paths)
    ensures ChainStored(db, ids)
    ensures ret == Reach(db, ids)
  {
    forall y | Reachable(db, ids, y) ensures y in ret {
      ClosedHoldsReach(db, ids, ret, y);
    }
  }

  /** The ids collected after visiting a stored event are still auth ids. */
  lemma VisitCollectsAuthIds(db: Db, x: string, ret0: set<string>, ret: set<string>)
    requires x in db && ret0 <= AllAuthIds(db)
    requires forall a :: a in ret <==> a in ret0 || a in db[x].inner.authEvents
    ensures ret <= AllAuthIds(db)
  {
    forall a | a in ret ensures a in AllAuthIds(db) {
      if a !in ret0 {
        assert x in db && a in db[x].inner.authEvents;
      }
    }
  }

  /**
   * `auth_chains`: a worklist of ids to visit; each visited event's auth
   * events are collected, and those not collected before are queued. The
   * walk fails on a missing event, and otherwise collects exactly the ids
   * reachable in one or more hops.
   */
  method AuthChains(db: Db, ids: seq<string>) returns (r: Result<set<string>, string>)
    ensures r.Success? <==> ChainStored(db, ids)
    ensures r.Success? ==> r.value == Reach(db, ids)
    ensures r.Failure? ==> r.error == "event not found"
  {
    var ret: set<string> := {};
    var toCheck := ids;
    ghost var done: set<string> := {};
    ghost var paths: map<string, seq<string>> := map[];
    while |toCheck| > 0
      invariant ret <= AllAuthIds(db)
      invariant forall x :: x in toCheck ==> x in ids || x in ret
      invariant forall x :: x in ids || x in ret ==> x in done || x in toCheck
      invariant done <= db.Keys
      invariant forall x, a :: x in done && a in db[x].inner.authEvents ==> a in ret
      invariant PathsFor(db, ids, ret, paths)
      decreases AllAuthIds(db) - ret, |toCheck|
    {
      var x := toCheck[|toCheck| - 1];
      toCheck := toCheck[..|toCheck| - 1];
      if x !in db {
        assert x in ids || Reachable(db, ids, x);
        return Failure("event not found");
      }
      ghost var ret0 := ret;
      ret, toCheck, paths := Visit(db, ids, x, ret, toCheck, paths);
      VisitCollectsAuthIds(db, x, ret0, ret);
      done := done + {x};
    }
    WalkDone(db, ids, ret, done, paths);
    return Success(ret);
  }

  /** The union of a list of sets, folded from the empty set. */
  function UnionAll(cs: seq<set<string>>): (r: set<string>)
    ensures forall y :: y in r <==> exists i :: 0 <= i < |cs| && y in cs[i]
  {
    if |cs| == 0 then {} else UnionAll(cs[..|cs| - 1]) + cs[|cs| - 1]
  }

  /** The intersection of a non-empty list of sets, folded from the first. */
  function IntersectAll(cs: seq<set<string>>): (r: set<string>)
    requires |cs| > 0
    ensures forall y :: y in r <==> forall i :: 0 <= i < |cs| ==> y in cs[i]
  {
    if |cs| == 1 then cs[0]
    else
      var r := IntersectAll(cs[..|cs| - 1]) * cs[|cs| - 1];
      var front := cs[..|cs| - 1];
      assert forall y :: y in r <==> forall i :: 0 <= i < |cs| ==> y in cs[i] by {
        forall y ensures y in r <==> forall i :: 0 <= i < |cs| ==> y in cs[i] {
          if forall i :: 0 <= i < |cs| ==> y in cs[i] {
            assert forall i :: 0 <= i < |front| ==> y in front[i];
          }
        }
      }
      r
  }

  /** The auth chain of each event of the list. */
  ghost function ChainsOf(db: Db, ids: seq<string>): (cs: seq<set<string>>)
    ensures |cs| == |ids|
    ensures forall i :: 0 <= i < |ids| ==> cs[i] == Reach(db, [ids[i]])
  {
    seq(|ids|, i requires 0 <= i < |ids| => Reach(db, [ids[i]]))
  }

  /**
   * The auth difference: the ids in some event's auth chain but not in
   * every one. An empty list is an assertion failure, a single event has
   * none, and a missing event on any chain is a panic.
   */
  ghost function AuthDifferenceSpec(db: Db, ids: seq<string>): (r: Result<set<string>, string>)
    ensures |ids| == 1 ==> r == Success({})
    ensures |ids| >= 2 ==> (r.Success? <==> forall i :: 0 <= i < |ids| ==> ChainStored(db, [ids[i]]))
  {
    if |ids| == 0 then Failure("assertion failed: event_ids.len() != 0")
    else if |ids| == 1 then Success({})
    else if forall i :: 0 <= i < |ids| ==> ChainStored(db, [ids[i]]) then
      var chains := ChainsOf(db, ids);
      Success(UnionAll(chains) - IntersectAll(chains))
    else Failure("event not found")
  }

  /** An id is in the auth difference iff it is in some event's auth chain and missing from another's. */
  lemma AuthDifferenceMembers(db: Db, ids: seq<string>, y: string)
    requires AuthDifferenceSpec(db, ids).Success?
    ensures y in AuthDifferenceSpec(db, ids).value <==>
      (exists i :: 0 <= i < |ids| && y in Reach(db, [ids[i]])) && (exists j :: 0 <= j < |ids| && y !in Reach(db, [ids[j]]))
  {
    if |ids| >= 2 {
      var chains := ChainsOf(db, ids);
      assert AuthDifferenceSpec(db, ids).value == UnionAll(chains) - IntersectAll(chains);
      assert y in UnionAll(chains) <==> exists i :: 0 <= i < |ids| && y in Reach(db, [ids[i]]) by {
        if y in UnionAll(chains) {
          var i :| 0 <= i < |chains| && y in chains[i];
          assert y in Reach(db, [ids[i]]);
        }
        if exists i :: 0 <= i < |ids| && y in Reach(db, [ids[i]]) {
          var i :| 0 <= i < |ids| && y in Reach(db, [ids[i]]);
          assert y in chains[i];
        }
      }
      assert y !in IntersectAll(chains) <==> exists j :: 0 <= j < |ids| && y !in Reach(db, [ids[j]]) by {
        if y !in IntersectAll(chains) {
          var j :| 0 <= j < |chains| && y !in chains[j];
          assert y !in Reach(db, [ids[j]]);
        }
        if exists j :: 0 <= j < |ids| && y !in Reach(db, [ids[j]]) {
          var j :| 0 <= j < |ids| && y !in Reach(db, [ids[j]]);
          assert y !in chains[j];
        }
      }
    }
  }

  /** `c` is the auth chain of `id`, walked without meeting a missing event. */
  ghost predicate ChainOf(db: Db, id: string, c: set<string>) {
    ChainStored(db, [id]) && c == Reach(db, [id])
  }

  /** The auth chain of each event of the list, in order; a missing event on any chain fails the whole walk. */
  method CollectChains(db: Db, ids: seq<string>) returns (r: Result<seq<set<string>>, string>)
    ensures r.Success? <==> forall i :: 0 <= i < |ids| ==> ChainStored(db, [ids[i]])
    ensures r.Success? ==> r.value == ChainsOf(db, ids)
    ensures r.Failure? ==> r.error == "event not found"
  {
    var chains: seq<set<string>> := [];
    for i := 0 to |ids|
      invariant |chains| == i
      invariant forall j :: 0 <= j < i ==> ChainOf(db, ids[j], chains[j])
    {
      var chain := AuthChains(db, [ids[i]]);
      if chain.Failure? {
        return Failure(chain.error);
      }
      assert ChainOf(db, ids[i], chain.value);
      chains := chains + [chain.value];
    }
    assert chains == ChainsOf(db, ids);
    return Success(chains);
  }

  /** `auth_difference`: each event's auth chain, then the union of the chains minus their intersection. */
  method AuthDifference(db: Db, ids: seq<string>) returns (r: Result<set<string>, string>)
    ensures r == AuthDifferenceSpec(db, ids)
  {
    if |ids| == 0 {
      return Failure("assertion failed: event_ids.len() != 0");
    }
    if |ids| == 1 {
      return Success({});
    }
    var chains :- CollectChains(db, ids);
    var intersection := IntersectAll(chains);
    var union := UnionAll(chains);
    return Success(union - intersection);
  }
}
