/**
 The ordered-map queries that the snapshot store makes of its `BTreeMap`s: first key, last key,
 last key below a bound. Dafny maps are unordered, so order is recovered from the set of keys.
 */
module OrderedKeys {
  import opened Wrappers

  function Min(a: nat, b: nat): nat { if a < b then a else b }

  function Max(a: nat, b: nat): nat { if a < b then b else a }

  ghost predicate IsLeast(m: nat, s: set<nat>) {
    m in s && forall x | x in s :: m <= x
  }

  ghost predicate IsGreatest(m: nat, s: set<nat>) {
    m in s && forall x | x in s :: x <= m
  }

  lemma {:induction false} LeastExists(s: set<nat>) returns (m: nat)
    requires s != {}
    ensures IsLeast(m, s)
  {
    m :| m in s;
    if s != {m} {
      var l := LeastExists(s - {m});
      assert forall y | y in s :: y == m || y in s - {m};
      m := if l < m then l else m;
    }
  }

  lemma {:induction false} GreatestExists(s: set<nat>) returns (m: nat)
    requires s != {}
    ensures IsGreatest(m, s)
  {
    m :| m in s;
    if s != {m} {
      var g := GreatestExists(s - {m});
      assert forall y | y in s :: y == m || y in s - {m};
      m := if g > m then g else m;
    }
  }

  function Least(s: set<nat>): (m: nat)
    requires s != {}
    ensures IsLeast(m, s)
  {
    assert exists m :: IsLeast(m, s) by { var l := LeastExists(s); }
    var m :| m in s && forall x | x in s :: m <= x;
    m
  }

  function Greatest(s: set<nat>): (m: nat)
    requires s != {}
    ensures IsGreatest(m, s)
  {
    assert exists m :: IsGreatest(m, s) by { var g := GreatestExists(s); }
    var m :| m in s && forall x | x in s :: x <= m;
    m
  }

  /** The last key strictly below `bound`. */
  function LastBelow<V>(m: map<nat, V>, bound: nat): (r: Option<nat>)
    ensures r.None? ==> forall k | k in m :: bound <= k
    ensures r.Some? ==> r.value in m && r.value < bound && forall k | k in m && k < bound :: k <= r.value
  {
    var s := set k | k in m && k < bound;
    assert forall k | k in m && k < bound :: k in s;
    if s == {} then None else Some(Greatest(s))
  }

  /** `keys` are exactly the keys of `m` in [from, bound), in ascending order. */
  ghost predicate Enumerates<V>(m: map<nat, V>, from: nat, bound: nat, keys: seq<nat>) {
    && (forall i | 0 <= i < |keys| :: keys[i] in m && from <= keys[i] < bound)
    && (forall k | k in m && from <= k < bound :: k in keys)
    && (forall i, j | 0 <= i < j < |keys| :: keys[i] < keys[j])
  }

  function KeysBetween<V>(m: map<nat, V>, from: nat, bound: nat): (keys: seq<nat>)
    ensures Enumerates(m, from, bound, keys)
    decreases bound
  {
    var last := LastBelow(m, bound);
    if last.None? || last.value < from then []
    else
      var before := KeysBetween(m, from, last.value);
      AppendKey(m, from, bound, last.value, before);
      before + [last.value]
  }

  lemma AppendKey<V>(m: map<nat, V>, from: nat, bound: nat, last: nat, before: seq<nat>)
    requires last in m && from <= last < bound
    requires forall k | k in m && k < bound :: k <= last
    requires Enumerates(m, from, last, before)
    ensures Enumerates(m, from, bound, before + [last])
  {
    var keys := before + [last];
    assert keys[|before|] == last;
    forall k | k in m && from <= k < bound ensures k in keys {
      if k != last {
        var i :| 0 <= i < |before| && before[i] == k;
        assert keys[i] == k;
      }
    }
  }

  /** The keys from `from` on, in ascending order. */
  function KeysFrom<V>(m: map<nat, V>, from: nat): (keys: seq<nat>)
    ensures forall i | 0 <= i < |keys| :: keys[i] in m && from <= keys[i]
    ensures forall k | k in m && from <= k :: k in keys
    ensures forall i, j | 0 <= i < j < |keys| :: keys[i] < keys[j]
  {
    if m.Keys == {} then [] else KeysBetween(m, from, Greatest(m.Keys) + 1)
  }
}
