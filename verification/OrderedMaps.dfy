/** Finite maps keyed by sequence number, read as the ordered map they model: the smallest
    key, the largest key, and the sub-map of the `n` largest keys. */
module OrderedMaps {
  import opened Prelude

  ghost predicate IsMinKey<V>(m: map<u64, V>, k: u64) {
    k in m && forall j :: j in m ==> k <= j
  }

  ghost predicate IsMaxKey<V>(m: map<u64, V>, k: u64) {
    k in m && forall j :: j in m ==> j <= k
  }

  lemma {:induction false} MinKeyExists<V>(m: map<u64, V>)
    requires m != map[]
    ensures exists k :: IsMinKey(m, k)
    decreases |m|
  {
    var x :| x in m;
    var rest := m - {x};
    assert forall j :: j in m ==> j == x || j in rest;
    if rest == map[] {
      assert IsMinKey(m, x);
    } else {
      MinKeyExists(rest);
      var k :| IsMinKey(rest, k);
      assert IsMinKey(m, if x < k then x else k);
    }
  }

  lemma {:induction false} MaxKeyExists<V>(m: map<u64, V>)
    requires m != map[]
    ensures exists k :: IsMaxKey(m, k)
    decreases |m|
  {
    var x :| x in m;
    var rest := m - {x};
    assert forall j :: j in m ==> j == x || j in rest;
    if rest == map[] {
      assert IsMaxKey(m, x);
    } else {
      MaxKeyExists(rest);
      var k :| IsMaxKey(rest, k);
      assert IsMaxKey(m, if x > k then x else k);
    }
  }

  ghost function MinKey<V>(m: map<u64, V>): (k: u64)
    requires m != map[]
    ensures IsMinKey(m, k)
  {
    MinKeyExists(m);
    var k :| IsMinKey(m, k);
    k
  }

  ghost function MaxKey<V>(m: map<u64, V>): (k: u64)
    requires m != map[]
    ensures IsMaxKey(m, k)
  {
    MaxKeyExists(m);
    var k :| IsMaxKey(m, k);
    k
  }

  /** Removes the smallest key until at most `n` entries are left. */
  ghost function KeepLargest<V>(m: map<u64, V>, n: nat): (r: map<u64, V>)
    ensures |r| <= n
    decreases |m|
  {
    if |m| <= n then m else KeepLargest(m - {MinKey(m)}, n)
  }

  /** `r` is the part of `m` on its `n` largest keys. */
  ghost predicate IsLargestPart<V>(r: map<u64, V>, m: map<u64, V>, n: nat) {
    && r.Keys <= m.Keys
    && (forall k :: k in r ==> r[k] == m[k])
    && |r| == Min(n, |m|)
    && (forall a, b :: a in r && b in m && b !in r ==> b < a)
  }

  lemma {:induction false} KeepLargestIsLargestPart<V>(m: map<u64, V>, n: nat)
    ensures IsLargestPart(KeepLargest(m, n), m, n)
    decreases |m|
  {
    if |m| <= n {
    } else {
      var k := MinKey(m);
      var rest := m - {k};
      KeepLargestIsLargestPart(rest, n);
      assert |rest| == |m| - 1;
      var r := KeepLargest(rest, n);
      forall a, b | a in r && b in m && b !in r ensures b < a {
        if b != k { assert b in rest; }
      }
    }
  }

  lemma SubsetSizes<T>(a: set<T>, b: set<T>)
    requires a <= b
    ensures |a| <= |b|
    ensures |a| == |b| ==> a == b
  {
    assert b == a + (b - a);
  }

  lemma LargestPartUnique<V>(r: map<u64, V>, s: map<u64, V>, m: map<u64, V>, n: nat)
    requires IsLargestPart(r, m, n) && IsLargestPart(s, m, n)
    ensures r == s
  {
    assert |r.Keys| == |r| && |s.Keys| == |s|;
    if !(r.Keys <= s.Keys) {
      var a :| a in r.Keys && a !in s.Keys;
      assert s.Keys <= r.Keys - {a};
      SubsetSizes(s.Keys, r.Keys - {a});
    } else {
      SubsetSizes(r.Keys, s.Keys);
    }
  }

  /** Everything dropped by two rounds of eviction lies below everything kept. */
  lemma DroppedStayBelow<V>(m: map<u64, V>, top: map<u64, V>, r: map<u64, V>, n: nat, k: u64, v: V, a: u64, b: u64)
    requires |m| > n && IsLargestPart(top, m, n) && IsLargestPart(r, top[k := v], n)
    requires a in r && b in m[k := v] && b !in r
    ensures b < a
  {
    var grown := top[k := v];
    assert grown.Keys == top.Keys + {k};
    if b !in grown && a !in top {
      assert a == k;
      assert |grown.Keys| == n + 1 && |r.Keys| == n;
      var c :| c in grown.Keys && c !in r.Keys by {
        if grown.Keys <= r.Keys { SubsetSizes(grown.Keys, r.Keys); }
      }
      assert b < c < a;
    }
  }

  /** Evicting after each insertion keeps what evicting once at the end would keep. */
  lemma KeepLargestAbsorbs<V>(m: map<u64, V>, n: nat, k: u64, v: V)
    ensures KeepLargest(KeepLargest(m, n)[k := v], n) == KeepLargest(m[k := v], n)
  {
    if |m| > n {
      var top := KeepLargest(m, n);
      var grown, all := top[k := v], m[k := v];
      var r := KeepLargest(grown, n);
      KeepLargestIsLargestPart(m, n);
      KeepLargestIsLargestPart(grown, n);
      KeepLargestIsLargestPart(all, n);
      assert m.Keys <= all.Keys && top.Keys <= grown.Keys;
      SubsetSizes(m.Keys, all.Keys);
      SubsetSizes(top.Keys, grown.Keys);
      assert |m.Keys| == |m| && |all.Keys| == |all| && |top.Keys| == |top| && |grown.Keys| == |grown|;
      forall a, b | a in r && b in all && b !in r ensures b < a {
        DroppedStayBelow(m, top, r, n, k, v, a, b);
      }
      LargestPartUnique(r, KeepLargest(all, n), all, n);
    }
  }
}
