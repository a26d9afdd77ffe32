/**
 * Python's ordering of `str` values (code point by code point, a proper
 * prefix first) and the two `sorted(...)` calls the comparison makes: one
 * over the set of relative directory paths, one over the list of
 * differing file paths.
 */
module PathOrder {

  /** Python's `a < b` on strings. */
  predicate Less(a: string, b: string) {
    if b == [] then false
    else if a == [] then true
    else if a[0] != b[0] then a[0] < b[0]
    else Less(a[1..], b[1..])
  }

  lemma {:induction false} LessIrreflexive(a: string)
    ensures !Less(a, a)
  {
    if a != [] {
      LessIrreflexive(a[1..]);
    }
  }

  lemma {:induction false} LessTransitive(a: string, b: string, c: string)
    requires Less(a, b) && Less(b, c)
    ensures Less(a, c)
  {
    if a != [] && a[0] == b[0] && b[0] == c[0] {
      LessTransitive(a[1..], b[1..], c[1..]);
    }
  }

  /** Two different strings are always ordered one way or the other, and never both ways. */
  lemma {:induction false} LessTrichotomy(a: string, b: string)
    ensures a == b || Less(a, b) || Less(b, a)
    ensures !(Less(a, b) && Less(b, a))
  {
    if a != [] && b != [] && a[0] == b[0] {
      LessTrichotomy(a[1..], b[1..]);
      if a[1..] == b[1..] {
        assert a == [a[0]] + a[1..] && b == [b[0]] + b[1..];
      }
    }
  }

  /** Strictly increasing: what `sorted` gives for a set. */
  predicate StrictlySorted(s: seq<string>) {
    forall i, j :: 0 <= i < j < |s| ==> Less(s[i], s[j])
  }

  /** Non-decreasing: what `sorted` gives for a list that may repeat a value. */
  predicate Sorted(s: seq<string>) {
    forall i, j :: 0 <= i < j < |s| ==> !Less(s[j], s[i])
  }

  /** In a strictly sorted sequence, an element that is smaller sits further left. */
  lemma StrictlySortedIndexOrder(s: seq<string>, i: nat, j: nat)
    requires StrictlySorted(s) && i < |s| && j < |s|
    requires Less(s[i], s[j])
    ensures i < j
  {
    if j < i {
      LessTrichotomy(s[i], s[j]);
    } else if i == j {
      LessIrreflexive(s[i]);
    }
  }

  /** The least element of a non-empty set of paths. */
  method Least(s: set<string>) returns (m: string)
    requires s != {}
    ensures m in s
    ensures forall x :: x in s && x != m ==> Less(m, x)
  {
    m :| m in s;
    var rest := s - {m};
    while rest != {}
      invariant rest <= s && m in s
      invariant forall x :: x in s - rest && x != m ==> Less(m, x)
      decreases rest
    {
      var x :| x in rest;
      if Less(x, m) {
        forall y | y in s - rest && y != x
          ensures Less(x, y)
        {
          if y != m {
            LessTransitive(x, m, y);
          }
        }
        m := x;
      } else {
        LessTrichotomy(x, m);
      }
      rest := rest - {x};
    }
  }

  /** `sorted(all_paths)`: the elements of the set, in strictly increasing order. */
  method SortPaths(s: set<string>) returns (r: seq<string>)
    ensures StrictlySorted(r)
    ensures forall x :: x in r <==> x in s
  {
    r := [];
    var rest := s;
    while rest != {}
      invariant rest <= s
      invariant forall x :: x in s <==> x in r || x in rest
      invariant forall x :: x in r ==> x !in rest
      invariant StrictlySorted(r)
      invariant forall i, y :: 0 <= i < |r| && y in rest ==> Less(r[i], y)
      decreases rest
    {
      var m := Least(rest);
      rest := rest - {m};
      r := r + [m];
    }
  }

  /** Inserts `x` into a list after every element smaller than it. */
  function Insert(x: string, s: seq<string>): (r: seq<string>)
    ensures multiset(r) == multiset(s) + multiset{x}
  {
    if s == [] then [x]
    else if Less(s[0], x) then
      assert s == [s[0]] + s[1..];
      [s[0]] + Insert(x, s[1..])
    else [x] + s
  }

  /** Every element of `Insert(x, s)` is `x` or an element of `s`. */
  lemma InsertMember(x: string, s: seq<string>, j: nat)
    requires j < |Insert(x, s)|
    ensures Insert(x, s)[j] == x || Insert(x, s)[j] in s
  {
    assert Insert(x, s)[j] in multiset(Insert(x, s));
  }

  lemma {:induction false} InsertSorted(x: string, s: seq<string>)
    requires Sorted(s)
    ensures Sorted(Insert(x, s))
  {
    if s == [] {
    } else if Less(s[0], x) {
      InsertSorted(x, s[1..]);
      var tail := Insert(x, s[1..]);
      forall j | 0 <= j < |tail|
        ensures !Less(tail[j], s[0])
      {
        InsertMember(x, s[1..], j);
        if tail[j] == x {
          LessTrichotomy(x, s[0]);
        } else {
          var i :| 0 <= i < |s[1..]| && s[1..][i] == tail[j];
          assert s[i + 1] == tail[j];
        }
      }
      assert Insert(x, s) == [s[0]] + tail;
    } else {
      forall j | 0 <= j < |s|
        ensures !Less(s[j], x)
      {
        LessTrichotomy(s[0], x);
        if Less(s[j], x) && x != s[0] {
          LessTransitive(s[j], x, s[0]);
        }
      }
    }
  }

  /** `sorted(different_files)`: the same strings, with as many copies, in non-decreasing order. */
  function SortStrings(s: seq<string>): (r: seq<string>)
    ensures Sorted(r)
    ensures multiset(r) == multiset(s)
  {
    if s == [] then []
    else
      assert s == [s[0]] + s[1..];
      InsertSorted(s[0], SortStrings(s[1..]));
      Insert(s[0], SortStrings(s[1..]))
  }
}
