/**
 * The order a `java.util.TreeMap<String, _>` keeps its keys in: `String.compareTo`,
 * i.e. lexicographic comparison character by character, a proper prefix coming first.
 * Characters are compared as Dafny `char`s (code points) rather than UTF-16 code units.
 */
module StringOrder {

  /** `a.compareTo(b) <= 0`. */
  predicate Le(a: string, b: string)
  {
    if a == [] then true
    else if b == [] then false
    else if a[0] != b[0] then a[0] < b[0]
    else Le(a[1..], b[1..])
  }

  /** `a.compareTo(b) < 0`. */
  predicate Lt(a: string, b: string)
  {
    Le(a, b) && a != b
  }

  lemma {:induction false} LeReflexive(a: string)
    ensures Le(a, a)
  {
    if a != [] {
      LeReflexive(a[1..]);
    }
  }

  lemma {:induction false} LeAntisymmetric(a: string, b: string)
    requires Le(a, b) && Le(b, a)
    ensures a == b
  {
    if a != [] && b != [] {
      LeAntisymmetric(a[1..], b[1..]);
      assert a == [a[0]] + a[1..];
      assert b == [b[0]] + b[1..];
    }
  }

  lemma {:induction false} LeTransitive(a: string, b: string, c: string)
    requires Le(a, b) && Le(b, c)
    ensures Le(a, c)
  {
    if a != [] && b != [] && c != [] && a[0] == b[0] && b[0] == c[0] {
      LeTransitive(a[1..], b[1..], c[1..]);
    }
  }

  lemma {:induction false} LeTotal(a: string, b: string)
    ensures Le(a, b) || Le(b, a)
  {
    if a != [] && b != [] && a[0] == b[0] {
      LeTotal(a[1..], b[1..]);
    }
  }

  /** A proper prefix sorts strictly before the longer string. */
  lemma {:induction false} PrefixIsLess(a: string, b: string)
    requires |a| < |b|
    requires forall j :: 0 <= j < |a| ==> a[j] == b[j]
    ensures Lt(a, b)
  {
    if a != [] {
      PrefixIsLess(a[1..], b[1..]);
    }
  }

  /** The first position where two strings differ decides their order. */
  lemma {:induction false} FirstDifferenceDecides(a: string, b: string, k: nat)
    requires k < |a| && k < |b| && a[k] < b[k]
    requires forall j :: 0 <= j < k ==> a[j] == b[j]
    ensures Lt(a, b)
  {
    if k > 0 {
      FirstDifferenceDecides(a[1..], b[1..], k - 1);
    }
  }

  /** A common prefix does not change the order. */
  lemma {:induction false} CommonPrefix(p: string, a: string, b: string)
    requires Lt(a, b)
    ensures Lt(p + a, p + b)
  {
    if p == [] {
      assert p + a == a && p + b == b;
    } else {
      assert (p + a)[1..] == p[1..] + a && (p + b)[1..] == p[1..] + b;
      CommonPrefix(p[1..], a, b);
      assert (p + a)[0] == p[0] == (p + b)[0];
      assert (p + a)[|p|..] == a && (p + b)[|p|..] == b;
    }
  }

  predicate IsLeast(m: string, s: set<string>)
  {
    m in s && forall y :: y in s ==> Le(m, y)
  }

  /** Every non-empty finite set of strings has a least element (the TreeMap's first key). */
  lemma {:induction false} LeastExists(s: set<string>)
    requires s != {}
    ensures exists m :: IsLeast(m, s)
  {
    var x :| x in s;
    LeReflexive(x);
    if s == {x} {
      assert IsLeast(x, s);
    } else {
      LeastExists(s - {x});
      var m :| IsLeast(m, s - {x});
      LeTotal(x, m);
      if Le(x, m) {
        forall y | y in s
          ensures Le(x, y)
        {
          if y != x {
            LeTransitive(x, m, y);
          }
        }
        assert IsLeast(x, s);
      } else {
        assert IsLeast(m, s);
      }
    }
  }

  /** The set of elements of a sequence. */
  ghost function Elements(s: seq<string>): set<string>
  {
    set x | x in s
  }

  /** Strictly ascending: sorted and free of duplicates, as a TreeMap's key set iterates. */
  ghost predicate StrictlySorted(s: seq<string>)
  {
    forall i, j :: 0 <= i < j < |s| ==> Lt(s[i], s[j])
  }

  /** Appending an element above everything keeps the sequence strictly ascending. */
  lemma AppendGreatest(s: seq<string>, m: string)
    requires StrictlySorted(s)
    requires forall i :: 0 <= i < |s| ==> Lt(s[i], m)
    ensures StrictlySorted(s + [m])
    ensures Elements(s + [m]) == Elements(s) + {m}
  {
    var t := s + [m];
    forall i, j | 0 <= i < j < |t|
      ensures Lt(t[i], t[j])
    {
      if j < |s| {
        assert t[i] == s[i] && t[j] == s[j];
      }
    }
    assert forall x :: x in t <==> x in s || x == m;
  }

  /**
   * One step of enumerating a set in ascending order: moving the least remaining
   * element to the end of the output keeps the output ascending and below the rest.
   */
  lemma TakeLeast(done: seq<string>, rest: set<string>, m: string)
    requires StrictlySorted(done)
    requires forall i, y :: 0 <= i < |done| && y in rest ==> Lt(done[i], y)
    requires IsLeast(m, rest)
    ensures StrictlySorted(done + [m])
    ensures Elements(done + [m]) + (rest - {m}) == Elements(done) + rest
    ensures |rest - {m}| == |rest| - 1
    ensures forall i, y :: 0 <= i < |done + [m]| && y in rest - {m} ==> Lt((done + [m])[i], y)
  {
    AppendGreatest(done, m);
    forall i, y | 0 <= i < |done| + 1 && y in rest - {m}
      ensures Lt((done + [m])[i], y)
    {
      if i == |done| {
        assert Le(m, y) && m != y;
      } else {
        assert (done + [m])[i] == done[i];
      }
    }
  }

  /** Checking neighbours suffices. */
  lemma {:induction false} AdjacentSorted(s: seq<string>)
    requires forall i :: 0 <= i < |s| - 1 ==> Lt(s[i], s[i + 1])
    ensures StrictlySorted(s)
  {
    if |s| > 1 {
      AdjacentSorted(s[1..]);
      forall j | 0 < j < |s|
        ensures Lt(s[0], s[j])
      {
        if j > 1 {
          assert Lt(s[1], s[j]) by { assert s[1..][0] == s[1] && s[1..][j - 1] == s[j]; }
          LeTransitive(s[0], s[1], s[j]);
          if s[0] == s[j] {
            LeAntisymmetric(s[0], s[1]);
          }
        }
      }
      forall i, j | 0 <= i < j < |s|
        ensures Lt(s[i], s[j])
      {
        if i > 0 {
          assert s[1..][i - 1] == s[i] && s[1..][j - 1] == s[j];
        }
      }
    }
  }

  /** A strictly ascending sequence has no repeated element. */
  lemma StrictlySortedDistinct(s: seq<string>)
    requires StrictlySorted(s)
    ensures forall i, j :: 0 <= i < |s| && 0 <= j < |s| && i != j ==> s[i] != s[j]
  {
    forall i, j | 0 <= i < |s| && 0 <= j < |s| && i != j
      ensures s[i] != s[j]
    {
      if i < j { assert Lt(s[i], s[j]); } else { assert Lt(s[j], s[i]); }
    }
  }

  /** The head of a strictly ascending sequence is the least of its elements. */
  lemma HeadIsLeast(s: seq<string>)
    requires StrictlySorted(s) && s != []
    ensures IsLeast(s[0], Elements(s))
  {
    LeReflexive(s[0]);
    forall y | y in s
      ensures Le(s[0], y)
    {
      var j :| 0 <= j < |s| && s[j] == y;
      if j > 0 { assert Lt(s[0], s[j]); }
    }
  }

  /**
   * The sorted enumeration of a set is unique: two strictly ascending sequences
   * with the same elements are equal.
   */
  lemma {:induction false} SortedUnique(a: seq<string>, b: seq<string>)
    requires StrictlySorted(a) && StrictlySorted(b)
    requires Elements(a) == Elements(b)
    ensures a == b
  {
    if a != [] {
      assert a[0] in Elements(a);
    }
    if b != [] {
      assert b[0] in Elements(b);
    }
    if a != [] && b != [] {
      HeadIsLeast(a);
      HeadIsLeast(b);
      LeAntisymmetric(a[0], b[0]);
      assert StrictlySorted(a[1..]) by {
        forall i, j | 0 <= i < j < |a[1..]| ensures Lt(a[1..][i], a[1..][j]) { assert Lt(a[i + 1], a[j + 1]); }
      }
      assert StrictlySorted(b[1..]) by {
        forall i, j | 0 <= i < j < |b[1..]| ensures Lt(b[1..][i], b[1..][j]) { assert Lt(b[i + 1], b[j + 1]); }
      }
      TailSet(a);
      TailSet(b);
      SortedUnique(a[1..], b[1..]);
      assert a == [a[0]] + a[1..];
      assert b == [b[0]] + b[1..];
    }
  }

  lemma TailSet(s: seq<string>)
    requires StrictlySorted(s) && s != []
    ensures Elements(s[1..]) == Elements(s) - {s[0]}
  {
    forall y | y in s[1..]
      ensures y != s[0]
    {
      var j :| 0 <= j < |s[1..]| && s[1..][j] == y;
      assert Lt(s[0], s[j + 1]);
    }
    forall y | y in s && y != s[0]
      ensures y in s[1..]
    {
      var j :| 0 <= j < |s| && s[j] == y;
      assert s[1..][j - 1] == y;
    }
  }
}
