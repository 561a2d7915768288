/** The few Swift standard-library operations the store and the accessory
    helpers are built from: `Optional`, `first(where:)`, `contains(where:)`
    and `filter`, on value sequences. */
module SwiftStd {

  /** Swift's `Optional`: `nil` is `None`. */
  datatype Option<+T> = None | Some(value: T) {
    /** The `??` operator. */
    function GetOr(default: T): (r: T)
      ensures Some? ==> r == value
      ensures None? ==> r == default
    {
      match this
      case Some(v) => v
      case None => default
    }
  }

  /** `i` is the position at which `first(where: p)` stops: `p` holds there
      and at no earlier position. */
  ghost predicate IsFirstMatch<T>(s: seq<T>, p: T -> bool, i: int) {
    0 <= i < |s| && p(s[i]) && forall j :: 0 <= j < i ==> !p(s[j])
  }

  /** The index `first(where: p)` would return the element of. */
  function FirstIndex<T>(s: seq<T>, p: T -> bool): (r: Option<nat>)
    ensures r.Some? ==> IsFirstMatch(s, p, r.value)
    ensures r.None? <==> forall j :: 0 <= j < |s| ==> !p(s[j])
  {
    if s == [] then None
    else if p(s[0]) then Some(0)
    else match FirstIndex(s[1..], p)
      case None => None
      case Some(k) => Some(k + 1)
  }

  /** Swift's `first(where:)`. */
  function First<T>(s: seq<T>, p: T -> bool): (r: Option<T>)
    ensures r.None? <==> forall j :: 0 <= j < |s| ==> !p(s[j])
    ensures r.Some? ==> exists i :: IsFirstMatch(s, p, i) && s[i] == r.value
  {
    match FirstIndex(s, p)
    case None => None
    case Some(i) => Some(s[i])
  }

  /** There is only one first match. */
  lemma FirstMatchUnique<T>(s: seq<T>, p: T -> bool, i: int, j: int)
    requires IsFirstMatch(s, p, i) && IsFirstMatch(s, p, j)
    ensures i == j
  {
  }

  /** Once the first match is known, `first(where:)` returns it. */
  lemma FirstAt<T>(s: seq<T>, p: T -> bool, i: int)
    requires IsFirstMatch(s, p, i)
    ensures FirstIndex(s, p) == Some(i)
    ensures First(s, p) == Some(s[i])
  {
    var k := FirstIndex(s, p);
    assert k.Some? by { assert p(s[i]); }
    FirstMatchUnique(s, p, i, k.value);
  }

  /** Swift's `contains(where:)`. */
  function Contains<T>(s: seq<T>, p: T -> bool): (r: bool)
    ensures r <==> exists i :: 0 <= i < |s| && p(s[i])
  {
    if s == [] then false
    else p(s[0]) || Contains(s[1..], p)
  }

  /** `r` is obtained from `s` by deleting elements, keeping the order of the
      ones that remain. */
  ghost predicate IsSubsequence<T>(r: seq<T>, s: seq<T>)
    decreases |s|
  {
    r == [] ||
    (s != [] &&
      ((r[0] == s[0] && IsSubsequence(r[1..], s[1..])) || IsSubsequence(r, s[1..])))
  }

  /** Swift's `filter`: the elements satisfying `p`, each as often as in `s`,
      in their original order. */
  function Filter<T(==,!new)>(s: seq<T>, p: T -> bool): (r: seq<T>)
    ensures forall i :: 0 <= i < |r| ==> p(r[i])
    ensures forall x :: x in r <==> x in s && p(x)
    ensures forall x :: multiset(r)[x] == if p(x) then multiset(s)[x] else 0
    ensures IsSubsequence(r, s)
  {
    if s == [] then []
    else
      var rest := Filter(s[1..], p);
      assert s == [s[0]] + s[1..];
      if p(s[0]) then [s[0]] + rest else rest
  }

  /** Deleting elements never adds occurrences. */
  lemma {:induction false} SubsequenceMultiset<T>(t: seq<T>, s: seq<T>)
    requires IsSubsequence(t, s)
    ensures multiset(t) <= multiset(s)
    decreases |s|
  {
    if t != [] {
      assert s == [s[0]] + s[1..];
      if t[0] == s[0] && IsSubsequence(t[1..], s[1..]) {
        SubsequenceMultiset(t[1..], s[1..]);
        assert t == [t[0]] + t[1..];
      } else {
        SubsequenceMultiset(t, s[1..]);
      }
    }
  }

  /** `filter` is THE order-preserving selection: any subsequence of `s`
      whose elements all satisfy `p` and which keeps every occurrence of
      them is the filtered sequence. */
  lemma {:induction false} FilterIsUnique<T(!new)>(t: seq<T>, s: seq<T>, p: T -> bool)
    requires IsSubsequence(t, s)
    requires forall i :: 0 <= i < |t| ==> p(t[i])
    requires forall i :: 0 <= i < |s| && p(s[i]) ==> multiset(t)[s[i]] == multiset(s)[s[i]]
    ensures t == Filter(s, p)
    decreases |s|
  {
    if s == [] {
      assert t == [];
    } else {
      assert s == [s[0]] + s[1..];
      if p(s[0]) {
        assert multiset(t)[s[0]] == multiset(s)[s[0]] > 0;
        assert t != [];
        assert t == [t[0]] + t[1..];
        if t[0] == s[0] && IsSubsequence(t[1..], s[1..]) {
          forall i | 0 <= i < |s[1..]| && p(s[1..][i])
            ensures multiset(t[1..])[s[1..][i]] == multiset(s[1..])[s[1..][i]]
          {
            assert s[1..][i] == s[i + 1];
          }
          FilterIsUnique(t[1..], s[1..], p);
        } else {
          SubsequenceMultiset(t, s[1..]);
          assert false;
        }
      } else {
        if t != [] {
          assert p(t[0]);
          assert IsSubsequence(t, s[1..]);
        }
        forall i | 0 <= i < |s[1..]| && p(s[1..][i])
          ensures multiset(t)[s[1..][i]] == multiset(s[1..])[s[1..][i]]
        {
          assert s[1..][i] == s[i + 1] != s[0];
        }
        FilterIsUnique(t, s[1..], p);
      }
    }
  }
}
