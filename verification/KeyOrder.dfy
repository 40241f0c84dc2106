/** The order in which a `BTreeMap` or `BTreeSet` hands out its keys. */
module KeyOrder {
  lemma FindLeast(s: set<nat>) returns (k: nat)
    requires s != {}
    ensures k in s && forall j :: j in s ==> k <= j
  {
    k :| k in s;
    var rest := s - {k};
    assert forall j :: j in s ==> j == k || j in rest;
    if rest != {} {
      var other := FindLeast(rest);
      if other < k {
        k := other;
      }
    }
  }

  lemma LeastExists(s: set<nat>)
    requires s != {}
    ensures exists k :: k in s && forall j :: j in s ==> k <= j
  {
    var k := FindLeast(s);
  }

  function Least(s: set<nat>): (k: nat)
    requires s != {}
    ensures k in s && forall j :: j in s ==> k <= j
  {
    LeastExists(s);
    var k :| k in s && forall j :: j in s ==> k <= j;
    k
  }

  lemma FindGreatest(s: set<nat>) returns (k: nat)
    requires s != {}
    ensures k in s && forall j :: j in s ==> j <= k
  {
    k :| k in s;
    var rest := s - {k};
    assert forall j :: j in s ==> j == k || j in rest;
    if rest != {} {
      var other := FindGreatest(rest);
      if other > k {
        k := other;
      }
    }
  }

  lemma GreatestExists(s: set<nat>)
    requires s != {}
    ensures exists k :: k in s && forall j :: j in s ==> j <= k
  {
    var k := FindGreatest(s);
  }

  function Greatest(s: set<nat>): (k: nat)
    requires s != {}
    ensures k in s && forall j :: j in s ==> j <= k
  {
    GreatestExists(s);
    var k :| k in s && forall j :: j in s ==> j <= k;
    k
  }

  ghost predicate Ascending(keys: seq<nat>) {
    forall i, j :: 0 <= i < j < |keys| ==> keys[i] < keys[j]
  }

  /** The keys, each once, in ascending order. */
  function Sorted(s: set<nat>): (keys: seq<nat>)
    ensures Ascending(keys)
    ensures forall k :: k in keys <==> k in s
    decreases |s|
  {
    if s == {} then [] else [Least(s)] + Sorted(s - {Least(s)})
  }

  /** A set of naturals that all lie in [low, high) has at most high - low elements. */
  lemma {:induction false} SizeWithin(s: set<nat>, low: nat, high: nat)
    requires low <= high && forall k :: k in s ==> low <= k < high
    ensures |s| <= high - low
    decreases high - low
  {
    if low == high {
      assert s == {};
    } else {
      SizeWithin(s - {high - 1}, low, high - 1);
    }
  }

  lemma {:induction false} SizeAtLeast(s: set<nat>, n: nat)
    requires forall i: nat :: i < n ==> i in s
    ensures |s| >= n
  {
    if n > 0 {
      SizeAtLeast(s - {n - 1}, n - 1);
    }
  }

  /** The pigeonhole step: n distinct naturals below n are all of them. */
  lemma {:induction false} Pigeonhole(s: set<nat>, n: nat)
    requires |s| == n && forall k :: k in s ==> k < n
    ensures forall k: nat :: k < n ==> k in s
  {
    if n > 0 {
      if n - 1 in s {
        Pigeonhole(s - {n - 1}, n - 1);
      } else {
        SizeWithin(s, 0, n - 1);
      }
    }
  }

  lemma SubsetSize(a: set<nat>, b: set<nat>)
    requires a <= b
    ensures |a| <= |b|
  {
    assert b == a + (b - a);
  }

  /** The sum of a map's values. */
  ghost function Total(m: map<nat, nat>): nat
    decreases |m|
  {
    if m == map[] then 0 else
    var k := Least(m.Keys);
    assert (m - {k}).Keys == m.Keys - {k};
    m[k] + Total(m - {k})
  }

  lemma {:induction false} TotalRemove(m: map<nat, nat>, k: nat)
    requires k in m
    ensures Total(m) == m[k] + Total(m - {k})
    decreases |m|
  {
    var least := Least(m.Keys);
    assert (m - {least}).Keys == m.Keys - {least} && (m - {k}).Keys == m.Keys - {k};
    if k != least {
      TotalRemove(m - {least}, k);
      assert m - {least} - {k} == m - {k} - {least};
      assert Least((m - {k}).Keys) in m.Keys && least in (m - {k}).Keys;
    }
  }

  lemma TotalInsert(m: map<nat, nat>, k: nat, v: nat)
    ensures Total(m[k := v]) == Total(m) + v - (if k in m then m[k] else 0)
  {
    TotalRemove(m[k := v], k);
    assert m[k := v] - {k} == m - {k};
    if k in m {
      TotalRemove(m, k);
    } else {
      assert m - {k} == m;
    }
  }

  lemma {:induction false} TotalMonotone(a: map<nat, nat>, b: map<nat, nat>)
    requires forall k :: k in a ==> k in b && a[k] <= b[k]
    ensures Total(a) <= Total(b)
    decreases |a|
  {
    if a != map[] {
      var k := Least(a.Keys);
      assert (a - {k}).Keys == a.Keys - {k};
      TotalRemove(b, k);
      TotalMonotone(a - {k}, b - {k});
    }
  }

  lemma {:induction false} SortedPrefix(keys: seq<nat>, n: nat)
    requires Ascending(keys) && forall k: nat :: k in keys <==> k < n
    ensures |keys| == n && forall i :: 0 <= i < n ==> keys[i] == i
  {
    if keys == [] {
      assert 0 !in keys;
    } else {
      var last := |keys| - 1;
      assert keys[last] in keys;
      assert n - 1 in keys;
      var i :| 0 <= i < |keys| && keys[i] == n - 1;
      assert i == last;
      var shorter := keys[..last];
      forall k: nat
        ensures k in shorter <==> k < n - 1
      {
        if k in shorter {
          var j :| 0 <= j < last && keys[j] == k;
          assert keys[j] < keys[last];
        }
        if k < n - 1 {
          assert k in keys;
        }
      }
      SortedPrefix(shorter, n - 1);
    }
  }
}
