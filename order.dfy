/**
 * Go's ordering of strings and sort.Strings, which writeIndex applies to the
 * names before it saves them.
 */
module Order {

  /**
   * a <= b as Go compares strings: lexicographically, character by character.
   * Go compares the UTF-8 bytes, and byte order of UTF-8 agrees with the
   * order of the code points it encodes.
   */
  predicate Lte(a: string, b: string)
  {
    a == [] || (b != [] && (a[0] < b[0] || (a[0] == b[0] && Lte(a[1..], b[1..]))))
  }

  lemma {:induction false} LteTotal(a: string, b: string)
    ensures Lte(a, b) || Lte(b, a)
  {
    if a != [] && b != [] && a[0] == b[0] {
      LteTotal(a[1..], b[1..]);
    }
  }

  lemma {:induction false} LteTransitive(a: string, b: string, c: string)
    requires Lte(a, b) && Lte(b, c)
    ensures Lte(a, c)
  {
    if a != [] && a[0] == b[0] && b[0] == c[0] {
      LteTransitive(a[1..], b[1..], c[1..]);
    }
  }

  lemma {:induction false} LteAntisymmetric(a: string, b: string)
    requires Lte(a, b) && Lte(b, a)
    ensures a == b
  {
    if a != [] {
      LteAntisymmetric(a[1..], b[1..]);
      assert a == [a[0]] + a[1..];
      assert b == [b[0]] + b[1..];
    }
  }

  /** The names are in ascending order, as sort.Strings leaves them. */
  ghost predicate Sorted(s: seq<string>)
  {
    forall i, j :: 0 <= i < j < |s| ==> Lte(s[i], s[j])
  }

  /** The first of ascending names is at or below every one of them. */
  lemma SortedHeadLeast(s: seq<string>, z: string)
    requires Sorted(s) && z in s
    ensures Lte(s[0], z)
  {
    var k :| 0 <= k < |s| && s[k] == z;
    if k == 0 {
      LteTotal(z, z);
    }
  }

  lemma ConsSorted(y: string, t: seq<string>)
    requires Sorted(t)
    requires forall z :: z in t ==> Lte(y, z)
    ensures Sorted([y] + t)
  {
    var r := [y] + t;
    forall i, j | 0 <= i < j < |r| ensures Lte(r[i], r[j]) {
      if i == 0 {
        assert r[j] == t[j - 1];
      } else {
        assert r[i] == t[i - 1] && r[j] == t[j - 1];
      }
    }
  }

  /**
   * Inserting x behind the head of ascending names s: t stands for the result
   * of inserting x into the rest of s.
   */
  lemma InsertBehindHead(x: string, s: seq<string>, t: seq<string>)
    requires Sorted(s) && s != [] && !Lte(x, s[0])
    requires Sorted(t) && multiset(t) == multiset(s[1..]) + multiset{x}
    ensures Sorted([s[0]] + t)
  {
    LteTotal(x, s[0]);
    forall z | z in t ensures Lte(s[0], z) {
      assert z in multiset(t);
      if z != x {
        assert z in multiset(s[1..]);
        SortedHeadLeast(s, z);
      }
    }
    ConsSorted(s[0], t);
  }

  /** Places x among the ascending names s. */
  function Insert(x: string, s: seq<string>): (r: seq<string>)
    requires Sorted(s)
    ensures Sorted(r)
    ensures multiset(r) == multiset(s) + multiset{x}
  {
    if s == [] then [x]
    else if Lte(x, s[0]) then
      assert Sorted([x] + s) by {
        forall z | z in s ensures Lte(x, z) {
          SortedHeadLeast(s, z);
          LteTransitive(x, s[0], z);
        }
        ConsSorted(x, s);
      }
      [x] + s
    else
      assert s == [s[0]] + s[1..];
      var t := Insert(x, s[1..]);
      InsertBehindHead(x, s, t);
      [s[0]] + t
  }

  /** sort.Strings: the same names, ascending. */
  function SortNames(s: seq<string>): (r: seq<string>)
    ensures Sorted(r)
    ensures multiset(r) == multiset(s)
  {
    if s == [] then []
    else
      assert s == [s[0]] + s[1..];
      Insert(s[0], SortNames(s[1..]))
  }

  /** There is only one ascending arrangement of a multiset of names. */
  lemma {:induction false} SortedUnique(a: seq<string>, b: seq<string>)
    requires Sorted(a) && Sorted(b) && multiset(a) == multiset(b)
    ensures a == b
  {
    assert |a| == |multiset(a)| == |multiset(b)| == |b|;
    if a != [] {
      assert a[0] == b[0] by {
        assert a[0] in multiset(b) && b[0] in multiset(a);
        SortedHeadLeast(a, b[0]);
        SortedHeadLeast(b, a[0]);
        LteAntisymmetric(a[0], b[0]);
      }
      assert multiset(a[1..]) == multiset(b[1..]) by {
        assert a == [a[0]] + a[1..];
        assert b == [b[0]] + b[1..];
        assert multiset(a[1..]) == multiset(a) - multiset{a[0]};
        assert multiset(b[1..]) == multiset(b) - multiset{b[0]};
      }
      SortedUnique(a[1..], b[1..]);
      assert a == [a[0]] + a[1..];
      assert b == [b[0]] + b[1..];
    }
  }

  /** Sorting names that are already ascending changes nothing. */
  lemma SortOfSorted(s: seq<string>)
    requires Sorted(s)
    ensures SortNames(s) == s
  {
    SortedUnique(SortNames(s), s);
  }

  /**
   * The sorted result depends only on which names occur how often, not on
   * their order: the saved index is the same however it was built.
   */
  lemma SortDeterministic(a: seq<string>, b: seq<string>)
    requires multiset(a) == multiset(b)
    ensures SortNames(a) == SortNames(b)
  {
    SortedUnique(SortNames(a), SortNames(b));
  }
}
