/**
 * The orderings state resolution sorts by (src/state/mod.rs): Rust's
 * `Ordering`, the lexicographic order of strings, the composite sort keys,
 * `mainline_cmp`, and sorting a set of event ids by a key that tells every
 * two of them apart.
 */
module ResOrder {
  import opened Wrappers
  import opened Events

  datatype Ordering = Less | Equal | Greater

  /** `Ordering::reverse`. */
  function Reverse(o: Ordering): (r: Ordering)
    ensures r == Less <==> o == Greater
    ensures r == Greater <==> o == Less
  {
    match o
    case Less => Greater
    case Equal => Equal
    case Greater => Less
  }

  /** Lexicographic composition: the first comparison unless it is a tie. */
  function Then(first: Ordering, next: Ordering): (r: Ordering)
    ensures r == Equal <==> first == Equal && next == Equal
  {
    if first != Equal then first else next
  }

  function CmpInt(a: int, b: int): (o: Ordering)
    ensures o == Less <==> a < b
    ensures o == Equal <==> a == b
    ensures o == Greater <==> a > b
  {
    if a < b then Less else if a == b then Equal else Greater
  }

  /** `String`'s `Ord`: character by character, a proper prefix first. */
  function CmpString(a: string, b: string): Ordering
  {
    if |a| == 0 then (if |b| == 0 then Equal else Less)
    else if |b| == 0 then Greater
    else if a[0] < b[0] then Less
    else if a[0] > b[0] then Greater
    else CmpString(a[1..], b[1..])
  }

  lemma {:induction false} CmpStringEqual(a: string, b: string)
    ensures CmpString(a, b) == Equal <==> a == b
  {
    if |a| > 0 && |b| > 0 && a[0] == b[0] {
      CmpStringEqual(a[1..], b[1..]);
      assert a == [a[0]] + a[1..] && b == [b[0]] + b[1..];
    }
  }

  lemma {:induction false} CmpStringFlip(a: string, b: string)
    ensures CmpString(b, a) == Reverse(CmpString(a, b))
  {
    if |a| > 0 && |b| > 0 && a[0] == b[0] {
      CmpStringFlip(a[1..], b[1..]);
    }
  }

  lemma {:induction false} CmpStringTrans(a: string, b: string, c: string)
    requires CmpString(a, b) == Less && CmpString(b, c) == Less
    ensures CmpString(a, c) == Less
  {
    if |a| > 0 && |b| > 0 && |c| > 0 && a[0] == b[0] && b[0] == c[0] {
      CmpStringTrans(a[1..], b[1..], c[1..]);
    }
  }

  /**
   * A sort key: compared field by field, integers numerically and strings
   * lexicographically.
   */
  datatype SortKey = SortKey(primary: int, secondary: int, tertiary: string, quaternary: string)

  function CmpKey(a: SortKey, b: SortKey): Ordering {
    Then(CmpInt(a.primary, b.primary),
      Then(CmpInt(a.secondary, b.secondary),
        Then(CmpString(a.tertiary, b.tertiary), CmpString(a.quaternary, b.quaternary))))
  }

  predicate KeyLess(a: SortKey, b: SortKey) {
    CmpKey(a, b) == Less
  }

  /** Comparing keys is a strict total order: equal only on equal keys, antisymmetric, transitive. */
  lemma CmpKeyEqual(a: SortKey, b: SortKey)
    ensures CmpKey(a, b) == Equal <==> a == b
  {
    CmpStringEqual(a.tertiary, b.tertiary);
    CmpStringEqual(a.quaternary, b.quaternary);
  }

  lemma CmpKeyFlip(a: SortKey, b: SortKey)
    ensures CmpKey(b, a) == Reverse(CmpKey(a, b))
  {
    CmpStringFlip(a.tertiary, b.tertiary);
    CmpStringFlip(a.quaternary, b.quaternary);
  }

  lemma CmpKeyTrans(a: SortKey, b: SortKey, c: SortKey)
    requires KeyLess(a, b) && KeyLess(b, c)
    ensures KeyLess(a, c)
  {
    CmpStringEqual(a.tertiary, b.tertiary);
    CmpStringEqual(b.tertiary, c.tertiary);
    CmpStringEqual(a.quaternary, b.quaternary);
    CmpStringEqual(b.quaternary, c.quaternary);
    if a.primary == b.primary == c.primary && a.secondary == b.secondary == c.secondary {
      if a.tertiary == b.tertiary {
        if b.tertiary == c.tertiary {
          CmpStringTrans(a.quaternary, b.quaternary, c.quaternary);
        }
      } else if b.tertiary == c.tertiary {
      } else {
        CmpStringTrans(a.tertiary, b.tertiary, c.tertiary);
      }
    }
  }

  /** No two ids of the set share a key. */
  predicate KeysDistinct(s: set<string>, key: map<string, SortKey>)
    requires s <= key.Keys
  {
    forall x, y :: x in s && y in s && x != y ==> key[x] != key[y]
  }

  /** `x` has the smallest key in `s`. */
  predicate IsLeast(x: string, s: set<string>, key: map<string, SortKey>)
    requires s <= key.Keys
  {
    x in s && forall y :: y in s && y != x ==> KeyLess(key[x], key[y])
  }

  lemma {:induction false} LeastExists(s: set<string>, key: map<string, SortKey>)
    requires s != {} && s <= key.Keys && KeysDistinct(s, key)
    ensures exists x :: IsLeast(x, s, key)
  {
    var z :| z in s;
    if s == {z} {
      assert IsLeast(z, s, key);
    } else {
      var rest := s - {z};
      LeastExists(rest, key);
      var m :| IsLeast(m, rest, key);
      CmpKeyEqual(key[m], key[z]);
      CmpKeyFlip(key[m], key[z]);
      if KeyLess(key[m], key[z]) {
        assert IsLeast(m, s, key);
      } else {
        forall y | y in s && y != z
          ensures KeyLess(key[z], key[y])
        {
          if y != m {
            CmpKeyTrans(key[z], key[m], key[y]);
          }
        }
        assert IsLeast(z, s, key);
      }
    }
  }

  lemma LeastUnique(x: string, y: string, s: set<string>, key: map<string, SortKey>)
    requires s <= key.Keys && IsLeast(x, s, key) && IsLeast(y, s, key)
    ensures x == y
  {
    if x != y {
      CmpKeyFlip(key[x], key[y]);
    }
  }

  /**
   * The ids of `s` in ascending order of key: the result holds every id of
   * `s` once, and each id's key is below every later id's.
   */
  ghost function SortSet(s: set<string>, key: map<string, SortKey>): (r: seq<string>)
    requires s <= key.Keys && KeysDistinct(s, key)
    ensures |r| == |s|
    ensures forall x :: x in r <==> x in s
    ensures forall i, j :: 0 <= i < j < |r| ==> KeyLess(key[r[i]], key[r[j]])
    decreases s
  {
    if s == {} then []
    else
      LeastExists(s, key);
      var m :| IsLeast(m, s, key);
      [m] + SortSet(s - {m}, key)
  }

  /** Taking the least id first, then sorting the rest, is sorting the whole set. */
  lemma SortSetLeastFirst(m: string, s: set<string>, key: map<string, SortKey>)
    requires s <= key.Keys && KeysDistinct(s, key) && IsLeast(m, s, key)
    ensures SortSet(s, key) == [m] + SortSet(s - {m}, key)
  {
    var m' :| IsLeast(m', s, key) && SortSet(s, key) == [m'] + SortSet(s - {m'}, key);
    LeastUnique(m, m', s, key);
  }

  /**
   * `mainline_cmp`: the closest mainline position descending, then the
   * origin timestamp, then the event id; a full tie is a panic.
   */
  function MainlineCmp(x: (StoredPdu, nat), y: (StoredPdu, nat)): (r: Result<Ordering, string>)
    ensures r.Failure? <==> x.1 == y.1 && x.0.inner.originServerTs == y.0.inner.originServerTs && x.0.EventId() == y.0.EventId()
    ensures r.Success? ==> r.value != Equal
  {
    CmpStringEqual(x.0.EventId(), y.0.EventId());
    var o := Then(Reverse(CmpInt(x.1, y.1)),
      Then(CmpInt(x.0.inner.originServerTs, y.0.inner.originServerTs), CmpString(x.0.EventId(), y.0.EventId())));
    if o == Equal then Failure("oh come on now") else Success(o)
  }

  /**
   * The sort key of a conflicted event: its mainline position negated, so
   * that ascending keys put the larger position first.
   */
  function MainlineKey(x: (StoredPdu, nat)): SortKey {
    SortKey(0 - (x.1 as int), x.0.inner.originServerTs, x.0.EventId(), "")
  }

  /** `mainline_cmp` is the key order: it answers Less exactly when the first key is smaller, and is antisymmetric. */
  lemma MainlineCmpIsKeyOrder(x: (StoredPdu, nat), y: (StoredPdu, nat))
    ensures MainlineCmp(x, y) == Success(Less) <==> KeyLess(MainlineKey(x), MainlineKey(y))
    ensures MainlineCmp(x, y) == Success(Greater) <==> KeyLess(MainlineKey(y), MainlineKey(x))
    ensures MainlineCmp(x, y).Failure? <==> MainlineKey(x) == MainlineKey(y)
  {
    CmpStringEqual(x.0.EventId(), y.0.EventId());
    CmpStringFlip(x.0.EventId(), y.0.EventId());
  }
}
