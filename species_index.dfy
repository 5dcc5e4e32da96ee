/**
 * The row index of the per-zone result table (habitat.py and
 * representation.py): the species list repeated once per zone and sorted,
 * paired element-wise with the zone list repeated once per species.
 */
module SpeciesIndex {
  import opened StringOrder

  /** a * n, spelled out as repeated addition so that index arithmetic stays linear. */
  function Times(a: nat, n: nat): nat
  {
    if n == 0 then 0 else Times(a, n - 1) + a
  }

  lemma {:induction false} TimesIsProduct(a: nat, n: nat)
    ensures Times(a, n) == a * n
  {
    if n > 0 {
      TimesIsProduct(a, n - 1);
    }
  }

  lemma TimesCommutes(a: nat, n: nat)
    ensures Times(a, n) == Times(n, a)
  {
    TimesIsProduct(a, n);
    TimesIsProduct(n, a);
  }

  lemma {:induction false} TimesOne(n: nat)
    ensures Times(1, n) == n
  {
    if n > 0 {
      TimesOne(n - 1);
    }
  }

  lemma {:induction false} TimesZero(n: nat)
    ensures Times(0, n) == 0
  {
    if n > 0 {
      TimesZero(n - 1);
    }
  }

  /** Block b of width n ends no later than block b' starts when b < b'. */
  lemma {:induction false} TimesStrict(n: nat, b: nat, b': nat)
    requires b < b'
    ensures Times(n, b) + n <= Times(n, b')
  {
    if b + 1 < b' {
      TimesStrict(n, b, b' - 1);
    }
  }

  /** Python's list * n: s concatenated n times. */
  function Repeat<T>(s: seq<T>, n: nat): (r: seq<T>)
    ensures |r| == Times(|s|, n)
  {
    if n == 0 then [] else Repeat(s, n - 1) + s
  }

  /** Every element of t repeated n times, in order. */
  function Spread<T>(t: seq<T>, n: nat): (r: seq<T>)
    ensures |r| == Times(n, |t|)
  {
    TimesOne(n);
    if t == [] then [] else Spread(t[..|t| - 1], n) + Repeat([t[|t| - 1]], n)
  }

  predicate Distinct<T(==)>(s: seq<T>)
  {
    forall i, j :: 0 <= i < j < |s| ==> s[i] != s[j]
  }

  lemma {:induction false} RepeatAt<T>(s: seq<T>, n: nat, b: nat, j: nat)
    requires b < n && j < |s|
    ensures Times(|s|, b) + j < |Repeat(s, n)| && Repeat(s, n)[Times(|s|, b) + j] == s[j]
  {
    TimesStrict(|s|, b, n);
    if b < n - 1 {
      RepeatAt(s, n - 1, b, j);
      TimesStrict(|s|, b, n - 1);
    }
  }

  lemma {:induction false} SpreadAt<T>(t: seq<T>, n: nat, b: nat, j: nat)
    requires b < |t| && j < n
    ensures Times(n, b) + j < |Spread(t, n)| && Spread(t, n)[Times(n, b) + j] == t[b]
  {
    TimesStrict(n, b, |t|);
    var t' := t[..|t| - 1];
    if b < |t| - 1 {
      SpreadAt(t', n, b, j);
      TimesStrict(n, b, |t'|);
    } else {
      RepeatConstant(t[b], n, j);
    }
  }

  lemma {:induction false} RepeatConcatMultiset<T>(a: seq<T>, b: seq<T>, n: nat)
    ensures multiset(Repeat(a + b, n)) == multiset(Repeat(a, n)) + multiset(Repeat(b, n))
  {
    if n > 0 {
      RepeatConcatMultiset(a, b, n - 1);
    }
  }

  lemma {:induction false} RepeatSameMultiset<T>(s: seq<T>, s': seq<T>, n: nat)
    requires multiset(s) == multiset(s')
    ensures multiset(Repeat(s, n)) == multiset(Repeat(s', n))
  {
    if n > 0 {
      RepeatSameMultiset(s, s', n - 1);
    }
  }

  lemma {:induction false} SpreadMultiset<T>(t: seq<T>, n: nat)
    ensures multiset(Spread(t, n)) == multiset(Repeat(t, n))
  {
    if t != [] {
      var t' := t[..|t| - 1];
      SpreadMultiset(t', n);
      assert Spread(t, n) == Spread(t', n) + Repeat([t[|t| - 1]], n);
      assert t == t' + [t[|t| - 1]];
      RepeatConcatMultiset(t', [t[|t| - 1]], n);
    } else {
      TimesZero(n);
    }
  }

  lemma {:induction false} RepeatMembers<T>(s: seq<T>, n: nat, x: T)
    requires x in multiset(Repeat(s, n))
    ensures x in s
  {
    if n > 0 {
      if x !in multiset(Repeat(s, n - 1)) {
        assert x in multiset(s);
      } else {
        RepeatMembers(s, n - 1, x);
      }
    }
  }

  lemma {:induction false} RepeatConstant<T>(x: T, n: nat, i: nat)
    requires i < n
    ensures |Repeat([x], n)| == n && Repeat([x], n)[i] == x
  {
    TimesOne(n);
    TimesOne(i);
    RepeatAt([x], n, i, 0);
  }

  lemma {:induction false} SpreadSorted(t: seq<string>, n: nat)
    requires Sorted(t)
    ensures Sorted(Spread(t, n))
  {
    if t != [] {
      var t' := t[..|t| - 1];
      var x := t[|t| - 1];
      SpreadSorted(t', n);
      TimesOne(n);
      var l, r := Spread(t', n), Repeat([x], n);
      assert Spread(t, n) == l + r;
      forall i, j | 0 <= i < j < |l| + |r| ensures LessEq((l + r)[i], (l + r)[j]) {
        if j >= |l| {
          RepeatConstant(x, n, j - |l|);
          if i < |l| {
            assert l[i] in multiset(l);
            SpreadMultiset(t', n);
            RepeatMembers(t', n, l[i]);
            var k :| 0 <= k < |t'| && t'[k] == l[i];
            assert LessEq(t[k], t[|t| - 1]);
          } else {
            RepeatConstant(x, n, i - |l|);
          }
        }
      }
    }
  }

  /** Sorting the repeated species list groups each species' copies together, in order. */
  lemma SortRepeat(spp: seq<string>, n: nat)
    ensures Sort(Repeat(spp, n)) == Spread(Sort(spp), n)
  {
    var t := Sort(spp);
    SpreadSorted(t, n);
    SpreadMultiset(t, n);
    RepeatSameMultiset(t, spp, n);
    SortedUnique(Sort(Repeat(spp, n)), Spread(t, n));
  }

  /** Element-wise pairing of two equally long sequences (Python's zip). */
  function Zip<A, B>(a: seq<A>, b: seq<B>): (r: seq<(A, B)>)
    requires |a| == |b|
    ensures |r| == |a| && forall i :: 0 <= i < |a| ==> r[i] == (a[i], b[i])
  {
    seq(|a|, i requires 0 <= i < |a| => (a[i], b[i]))
  }

  /**
   * The MultiIndex of the result table: (GeoTiff, Zone) pairs built from
   * sorted(habmapList * len(zones)) and zones * len(habmapList).
   */
  function IndexPairs(spp: seq<string>, zones: seq<int>): (r: seq<(string, int)>)
    ensures |r| == Times(|zones|, |spp|)
  {
    TimesCommutes(|spp|, |zones|);
    Zip(Sort(Repeat(spp, |zones|)), Repeat(zones, |spp|))
  }

  /** Pairing t spread in blocks of |zones| with zones repeated |t| times puts (t[b], zones[j]) at row b * |zones| + j. */
  lemma BlockPairsAt<A, B>(t: seq<A>, zones: seq<B>, b: nat, j: nat)
    requires b < |t| && j < |zones|
    ensures |Spread(t, |zones|)| == |Repeat(zones, |t|)|
    ensures Times(|zones|, b) + j < |Repeat(zones, |t|)|
    ensures Zip(Spread(t, |zones|), Repeat(zones, |t|))[Times(|zones|, b) + j] == (t[b], zones[j])
  {
    SpreadAt(t, |zones|, b, j);
    RepeatAt(zones, |t|, b, j);
  }

  /** Row b * |zones| + j of the index is the b-th species in sorted order with the j-th zone. */
  lemma IndexLayout(spp: seq<string>, zones: seq<int>, b: nat, j: nat)
    requires b < |spp| && j < |zones|
    ensures Times(|zones|, b) + j < |IndexPairs(spp, zones)|
    ensures |Sort(spp)| == |spp|
    ensures IndexPairs(spp, zones)[Times(|zones|, b) + j] == (Sort(spp)[b], zones[j])
  {
    SortRepeat(spp, |zones|);
    BlockPairsAt(Sort(spp), zones, b, j);
  }

  lemma {:induction false} DistinctCount<T>(s: seq<T>, x: T)
    requires Distinct(s)
    ensures multiset(s)[x] <= 1
  {
    if s != [] {
      var s' := s[..|s| - 1];
      assert s == s' + [s[|s| - 1]];
      DistinctCount(s', x);
      if x == s[|s| - 1] {
        assert x !in s';
      }
    }
  }

  lemma SameMultisetDistinct<T>(a: seq<T>, c: seq<T>)
    requires Distinct(a) && multiset(a) == multiset(c)
    ensures Distinct(c)
  {
    forall i, j | 0 <= i < j < |c| ensures c[i] != c[j] {
      if c[i] == c[j] {
        assert c == c[..j] + c[j..];
        assert c[i] in multiset(c[..j]) && c[j] in multiset(c[j..]);
        assert multiset(c)[c[i]] >= 2;
        DistinctCount(a, c[i]);
      }
    }
  }

  /** Every position below m blocks of width n lies in exactly one block. */
  lemma {:induction false} Decompose(i: nat, n: nat, m: nat) returns (b: nat, j: nat)
    requires i < Times(n, m)
    ensures b < m && j < n && i == Times(n, b) + j
  {
    if i < Times(n, m - 1) {
      b, j := Decompose(i, n, m - 1);
    } else {
      b, j := m - 1, i - Times(n, m - 1);
    }
  }

  lemma BlockPositionUnique(n: nat, b: nat, j: nat, b': nat, j': nat)
    requires j < n && j' < n && Times(n, b) + j == Times(n, b') + j'
    ensures b == b' && j == j'
  {
    if b < b' {
      TimesStrict(n, b, b');
    } else if b' < b {
      TimesStrict(n, b', b);
    }
  }

  /** Where the index holds the b-th sorted species and the j-th zone. */
  lemma IndexAt(spp: seq<string>, zones: seq<int>, i: nat) returns (b: nat, j: nat)
    requires i < |IndexPairs(spp, zones)|
    ensures b < |spp| && j < |zones| && i == Times(|zones|, b) + j
    ensures |Sort(spp)| == |spp|
    ensures IndexPairs(spp, zones)[i] == (Sort(spp)[b], zones[j])
  {
    b, j := Decompose(i, |zones|, |spp|);
    IndexLayout(spp, zones, b, j);
  }

  lemma IndexPositionsDistinct(spp: seq<string>, zones: seq<int>, i: nat, i': nat)
    requires Distinct(spp) && Distinct(zones)
    requires i < |IndexPairs(spp, zones)| && i' < |IndexPairs(spp, zones)|
    requires IndexPairs(spp, zones)[i] == IndexPairs(spp, zones)[i']
    ensures i == i'
  {
    var t := Sort(spp);
    SameMultisetDistinct(spp, t);
    var b, j := IndexAt(spp, zones, i);
    var b', j' := IndexAt(spp, zones, i');
    assert t[b] == t[b'] && zones[j] == zones[j'];
    assert b == b' && j == j';
  }

  lemma IndexPositionOf(spp: seq<string>, zones: seq<int>, b: nat, j: nat) returns (i: nat)
    requires b < |spp| && j < |zones|
    ensures |Sort(spp)| == |spp|
    ensures i < |IndexPairs(spp, zones)| && IndexPairs(spp, zones)[i] == (Sort(spp)[b], zones[j])
  {
    i := Times(|zones|, b) + j;
    IndexLayout(spp, zones, b, j);
  }

  /** Every index row pairs a listed species with a listed zone. */
  lemma IndexOnlyListed(spp: seq<string>, zones: seq<int>, s: string, z: int)
    ensures (s, z) in IndexPairs(spp, zones) ==> s in spp && z in zones
  {
    var pairs, t := IndexPairs(spp, zones), Sort(spp);
    if (s, z) in pairs {
      var i :| 0 <= i < |pairs| && pairs[i] == (s, z);
      var b, j := IndexAt(spp, zones, i);
      assert t[b] in multiset(spp);
    }
  }

  /**
   * With distinct species and distinct zones, every (species, zone) pair is
   * in the index exactly once.
   */
  lemma IndexExactlyOnce(spp: seq<string>, zones: seq<int>, s: string, z: int)
    requires Distinct(spp) && Distinct(zones)
    requires s in spp && z in zones
    ensures exists i :: 0 <= i < |IndexPairs(spp, zones)| && IndexPairs(spp, zones)[i] == (s, z) &&
              forall i' :: 0 <= i' < |IndexPairs(spp, zones)| && IndexPairs(spp, zones)[i'] == (s, z) ==> i' == i
  {
    var pairs, t := IndexPairs(spp, zones), Sort(spp);
    assert |t| == |spp|;
    assert s in multiset(t);
    var b :| 0 <= b < |spp| && t[b] == s;
    var j :| 0 <= j < |zones| && zones[j] == z;
    var i := IndexPositionOf(spp, zones, b, j);
    forall i' | 0 <= i' < |pairs| && pairs[i'] == (s, z) ensures i' == i {
      IndexPositionsDistinct(spp, zones, i, i');
    }
  }

  /** Every listed species is paired with every listed zone. */
  lemma IndexCovers(spp: seq<string>, zones: seq<int>, s: string, z: int)
    requires s in spp && z in zones
    ensures (s, z) in IndexPairs(spp, zones)
  {
    var t := Sort(spp);
    assert s in multiset(t);
    var b :| 0 <= b < |spp| && t[b] == s;
    var j :| 0 <= j < |zones| && zones[j] == z;
    var i := IndexPositionOf(spp, zones, b, j);
  }
}
