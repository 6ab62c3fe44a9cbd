/**
 * The order in which a QMap hands out its keys: ascending for `uint` keys,
 * and lexicographic (QtText.StrLess) for QString keys. Both are given as the
 * list obtained by repeatedly taking the least remaining key.
 */
module Ordering {
  import opened QtText

  /** The least element of a non-empty set of hashes. */
  ghost function MinHash(s: set<Uint32>): (m: Uint32)
    requires s != {}
    ensures m in s && forall y :: y in s ==> m <= y
  {
    HashMinExists(s);
    var m :| m in s && forall y :: y in s ==> m <= y;
    m
  }

  lemma {:induction false} HashMinExists(s: set<Uint32>)
    requires s != {}
    ensures exists m :: m in s && forall y :: y in s ==> m <= y
  {
    var m := HashMin(s);
  }

  /** A least element of a non-empty set of hashes, found by removing elements one at a time. */
  lemma {:induction false} HashMin(s: set<Uint32>) returns (least: Uint32)
    requires s != {}
    ensures least in s && forall y :: y in s ==> least <= y
    decreases |s|
  {
    var x :| x in s;
    var rest := s - {x};
    least := x;
    if rest != {} {
      var m := HashMin(rest);
      if m < x {
        least := m;
      }
    }
    forall z | z in s
      ensures least <= z
    {
      if z != x {
        assert z in rest;
      }
    }
  }

  /** The keys of a QMap<uint, ...> in iteration order. */
  ghost function SortedHashes(s: set<Uint32>): seq<Uint32>
    decreases |s|
  {
    if s == {} then []
    else
      var m := MinHash(s);
      [m] + SortedHashes(s - {m})
  }

  /** The ordered keys are the keys of the map, each once, in strictly ascending order. */
  lemma {:induction false} SortedHashesSpec(s: set<Uint32>)
    ensures |SortedHashes(s)| == |s|
    ensures forall x :: x in s <==> x in SortedHashes(s)
    ensures forall i, j :: 0 <= i < j < |SortedHashes(s)| ==> SortedHashes(s)[i] < SortedHashes(s)[j]
    decreases |s|
  {
    if s != {} {
      var m := MinHash(s);
      SortedHashesSpec(s - {m});
      var r := SortedHashes(s);
      assert r == [m] + SortedHashes(s - {m});
      forall i, j | 0 <= i < j < |r|
        ensures r[i] < r[j]
      {
        if i == 0 {
          assert r[j] in s - {m};
        }
      }
    }
  }

  /** Taking the least key off the front leaves the ordered rest. */
  lemma {:induction false} SortedHashesStep(s: set<Uint32>, m: Uint32)
    requires m in s && forall y :: y in s ==> m <= y
    ensures SortedHashes(s) == [m] + SortedHashes(s - {m})
  {
    assert MinHash(s) == m;
  }

  /** The least element of a non-empty set of strings in QMap order. */
  ghost function MinString(s: set<string>): (m: string)
    requires s != {}
    ensures m in s && forall y :: y in s && y != m ==> StrLess(m, y)
  {
    StringMinExists(s);
    var m :| m in s && forall y :: y in s && y != m ==> StrLess(m, y);
    m
  }

  lemma {:induction false} StringMinExists(s: set<string>)
    requires s != {}
    ensures exists m :: m in s && forall y :: y in s && y != m ==> StrLess(m, y)
    decreases |s|
  {
    var x :| x in s;
    if y :| y in s && StrLess(y, x) {
      var rest := s - {x};
      StrLessIrreflexive(x);
      assert y in rest;
      StringMinExists(rest);
      var m :| m in rest && forall z :: z in rest && z != m ==> StrLess(m, z);
      forall z | z in s && z != m
        ensures StrLess(m, z)
      {
        if z == x {
          if y != m {
            StrLessTransitive(m, y, x);
          }
        } else {
          assert z in rest;
        }
      }
    } else {
      forall z | z in s && z != x
        ensures StrLess(x, z)
      {
        StrLessTotal(x, z);
      }
    }
  }

  /** Two least elements are the same element. */
  lemma {:induction false} MinStringUnique(s: set<string>, a: string, b: string)
    requires a in s && forall y :: y in s && y != a ==> StrLess(a, y)
    requires b in s && forall y :: y in s && y != b ==> StrLess(b, y)
    ensures a == b
  {
    if a != b {
      StrLessAsymmetric(a, b);
    }
  }

  /** The keys of a QMap<QString, ...> in iteration order. */
  ghost function SortedStrings(s: set<string>): (r: seq<string>)
    ensures forall i :: 0 <= i < |r| ==> r[i] in s
    decreases |s|
  {
    if s == {} then []
    else
      var m := MinString(s);
      [m] + SortedStrings(s - {m})
  }

  /** The ordered keys are the keys of the map, each once, in strictly ascending order. */
  lemma {:induction false} SortedStringsSpec(s: set<string>)
    ensures |SortedStrings(s)| == |s|
    ensures forall x :: x in s <==> x in SortedStrings(s)
    ensures forall i, j :: 0 <= i < j < |SortedStrings(s)| ==> StrLess(SortedStrings(s)[i], SortedStrings(s)[j])
    decreases |s|
  {
    if s != {} {
      var m := MinString(s);
      SortedStringsSpec(s - {m});
      var r := SortedStrings(s);
      assert r == [m] + SortedStrings(s - {m});
      forall i, j | 0 <= i < j < |r|
        ensures StrLess(r[i], r[j])
      {
        if i == 0 {
          assert r[j] in s - {m};
        }
      }
    }
  }

  /** Taking the least key off the front leaves the ordered rest. */
  lemma {:induction false} SortedStringsStep(s: set<string>, m: string)
    requires m in s && forall y :: y in s && y != m ==> StrLess(m, y)
    ensures SortedStrings(s) == [m] + SortedStrings(s - {m})
  {
    MinStringUnique(s, m, MinString(s));
  }
}
