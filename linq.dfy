/** The parts of System.Linq and List<T> that the core relies on, as functions on sequences. */
module Linq {

  /** Enumerable.Where: the elements that satisfy `p`, in their original order. */
  function Filter<T>(s: seq<T>, p: T -> bool): (r: seq<T>)
    ensures |r| <= |s|
    ensures forall i :: 0 <= i < |r| ==> r[i] in s && p(r[i])
    ensures forall i :: 0 <= i < |s| && p(s[i]) ==> s[i] in r
  {
    if s == [] then [] else (if p(s[0]) then [s[0]] else []) + Filter(s[1..], p)
  }

  /** The negation of a predicate, as handed to a filter. */
  function Complement<T>(p: T -> bool): T -> bool
  {
    x => !p(x)
  }

  /** Filtering keeps order: it distributes over concatenation. */
  lemma {:induction false} FilterConcat<T>(s: seq<T>, t: seq<T>, p: T -> bool)
    ensures Filter(s + t, p) == Filter(s, p) + Filter(t, p)
  {
    if s == [] {
      assert s + t == t;
    } else {
      assert (s + t)[0] == s[0] && (s + t)[1..] == s[1..] + t;
      FilterConcat(s[1..], t, p);
    }
  }

  /** Replacing an element that the filter drops by another it drops leaves the result alone. */
  lemma {:induction false} FilterUpdateOutside<T>(s: seq<T>, i: nat, x: T, p: T -> bool)
    requires i < |s| && !p(s[i]) && !p(x)
    ensures Filter(s[i := x], p) == Filter(s, p)
  {
    if i > 0 {
      assert s[i := x][1..] == s[1..][i - 1 := x];
      FilterUpdateOutside(s[1..], i - 1, x, p);
    }
  }

  /** No element occurs twice. */
  ghost predicate Distinct<T>(s: seq<T>)
  {
    forall i, j :: 0 <= i < j < |s| ==> s[i] != s[j]
  }

  /** The three ways Enumerable.SingleOrDefault can end: no match (the default),
      exactly one match, or several (it throws). */
  datatype Lookup = NoMatch | Single(index: nat) | Ambiguous

  function SingleOrDefault<T>(s: seq<T>, p: T -> bool): (r: Lookup)
    ensures r.NoMatch? <==> (forall i :: 0 <= i < |s| ==> !p(s[i]))
    ensures r.Single? ==> r.index < |s| && p(s[r.index])
    ensures r.Single? ==> forall j :: 0 <= j < |s| && j != r.index ==> !p(s[j])
    ensures r.Ambiguous? <==> (exists i, j :: 0 <= i < j < |s| && p(s[i]) && p(s[j]))
    decreases |s|
  {
    if s == [] then NoMatch
    else
      var rest := SingleOrDefault(s[1..], p);
      assert forall i :: 0 < i < |s| ==> s[i] == s[1..][i - 1];
      if p(s[0]) then
        (if rest.NoMatch? then Single(0)
         else
           assert exists k :: 0 <= k < |s[1..]| && p(s[1..][k]);
           var k :| 0 <= k < |s[1..]| && p(s[1..][k]);
           assert p(s[0]) && p(s[k + 1]);
           Ambiguous)
      else
        match rest
        case Single(k) => Single(k + 1)
        case NoMatch => NoMatch
        case Ambiguous =>
          var i, j :| 0 <= i < j < |s[1..]| && p(s[1..][i]) && p(s[1..][j]);
          assert p(s[i + 1]) && p(s[j + 1]);
          Ambiguous
  }

  /** List<T>.Remove: drops the first occurrence of `x`, if any. */
  function RemoveFirst<T(==)>(s: seq<T>, x: T): (r: seq<T>)
  {
    if s == [] then []
    else if s[0] == x then s[1..]
    else [s[0]] + RemoveFirst(s[1..], x)
  }

  /** `s` without every element listed in `d`, order kept: what deleting the records `d`
      from a store holding `s` is meant to leave. */
  function Without<T(==)>(s: seq<T>, d: seq<T>): (r: seq<T>)
    ensures forall i :: 0 <= i < |r| ==> r[i] in s && r[i] !in d
    ensures forall i :: 0 <= i < |s| && s[i] !in d ==> s[i] in r
    ensures Distinct(s) ==> Distinct(r)
  {
    if s == [] then []
    else
      var rest := Without(s[1..], d);
      assert Distinct(s) ==> Distinct(s[1..]) && s[0] !in s[1..] by {
        if Distinct(s) {
          forall k | 0 <= k < |s[1..]| ensures s[1..][k] != s[0] { assert s[1..][k] == s[k + 1]; }
        }
      }
      (if s[0] in d then [] else [s[0]]) + rest
  }

  /** Deleting nothing leaves the list as it is. */
  lemma {:induction false} WithoutNothing<T>(s: seq<T>)
    ensures Without(s, []) == s
  {
    if s != [] {
      WithoutNothing(s[1..]);
    }
  }

  /** Only membership in `d` among the elements of `s` matters to Without. */
  lemma {:induction false} WithoutAgree<T>(s: seq<T>, d: seq<T>, e: seq<T>)
    requires forall x :: x in s ==> (x in d <==> x in e)
    ensures Without(s, d) == Without(s, e)
  {
    if s != [] {
      WithoutAgree(s[1..], d, e);
    }
  }

  /** Removing the first occurrence of `x` from a list without duplicates is the same as
      adding `x` to the records deleted from it. */
  lemma {:induction false} RemoveFirstWithout<T>(s: seq<T>, d: seq<T>, x: T)
    requires Distinct(s)
    ensures RemoveFirst(Without(s, d), x) == Without(s, d + [x])
  {
    if s != [] {
      assert Distinct(s[1..]) by {
        forall i, j | 0 <= i < j < |s[1..]| ensures s[1..][i] != s[1..][j] {
          assert s[1..][i] == s[i + 1] && s[1..][j] == s[j + 1];
        }
      }
      assert s[0] !in s[1..] by {
        forall k | 0 <= k < |s[1..]| ensures s[1..][k] != s[0] { assert s[1..][k] == s[k + 1]; }
      }
      if s[0] in d {
        assert s[0] in d + [x];
        assert Without(s, d) == Without(s[1..], d);
        assert Without(s, d + [x]) == Without(s[1..], d + [x]);
        RemoveFirstWithout(s[1..], d, x);
      } else if s[0] == x {
        WithoutAgree(s[1..], d + [x], d);
      } else {
        RemoveFirstWithout(s[1..], d, x);
      }
    }
  }
}
