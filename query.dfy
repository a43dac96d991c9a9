/**
 * The collection operations the repositories apply to a table, on sequences:
 * LINQ's FirstOrDefault, Any and Where, and List/DbSet Remove.
 * A table is a `seq`, in its enumeration order.
 */
module Query {
  import opened Wrappers

  /** Position of the first element that satisfies `p`. */
  function FirstIndex<T>(s: seq<T>, p: T -> bool): (r: Option<nat>)
    ensures r.None? <==> forall i :: 0 <= i < |s| ==> !p(s[i])
    ensures r.Some? ==> r.value < |s| && p(s[r.value])
    ensures r.Some? ==> forall j :: 0 <= j < r.value ==> !p(s[j])
  {
    if |s| == 0 then None
    else if p(s[0]) then Some(0)
    else
      match FirstIndex(s[1..], p)
      case None =>
        assert forall i :: 1 <= i < |s| ==> s[i] == s[1..][i - 1];
        None
      case Some(i) =>
        assert forall j :: 1 <= j < i + 1 ==> s[j] == s[1..][j - 1];
        Some(i + 1)
  }

  /** `s.FirstOrDefault(p)`: the first element satisfying `p`, or `None` (null) when there is none. */
  function FirstOrDefault<T>(s: seq<T>, p: T -> bool): (r: Option<T>)
    ensures r.None? <==> forall i :: 0 <= i < |s| ==> !p(s[i])
    ensures r.Some? ==> exists i :: 0 <= i < |s| && s[i] == r.value && p(s[i]) && forall j :: 0 <= j < i ==> !p(s[j])
  {
    match FirstIndex(s, p)
    case None => None
    case Some(i) => Some(s[i])
  }

  /** `s.Any(p)`: some element satisfies `p`. */
  function Any<T>(s: seq<T>, p: T -> bool): (r: bool)
    ensures r <==> exists i :: 0 <= i < |s| && p(s[i])
  {
    FirstIndex(s, p).Some?
  }

  /** `s.Where(p).ToList()`: the elements satisfying `p`, in their order in `s`. */
  function Where<T(==)>(s: seq<T>, p: T -> bool): (r: seq<T>)
    ensures |r| <= |s|
    ensures forall i :: 0 <= i < |r| ==> p(r[i])
    ensures forall x :: x in r ==> x in s && p(x)
    ensures forall x :: x in s && p(x) ==> x in r
    ensures forall x :: x in s ==> multiset(r)[x] == if p(x) then multiset(s)[x] else 0
  {
    if |s| == 0 then []
    else
      var rest := Where(s[1..], p);
      assert s == [s[0]] + s[1..];
      if p(s[0]) then [s[0]] + rest else rest
  }

  /** Filtering commutes with concatenation: `Where` keeps the relative order of what it keeps. */
  lemma {:induction false} WhereAppend<T>(a: seq<T>, b: seq<T>, p: T -> bool)
    ensures Where(a + b, p) == Where(a, p) + Where(b, p)
  {
    if |a| == 0 {
      assert a + b == b;
    } else {
      assert (a + b)[1..] == a[1..] + b;
      WhereAppend(a[1..], b, p);
    }
  }

  /** `list.Remove(x)`: drops the first occurrence of `x`; no change when `x` is absent. */
  function Remove<T(==)>(s: seq<T>, x: T): (r: seq<T>)
    ensures x !in s ==> r == s
    ensures x in s ==> |r| == |s| - 1
    ensures x in s ==> exists i :: 0 <= i < |s| && s[i] == x && x !in s[..i] && r == s[..i] + s[i + 1..]
    ensures multiset(r) == multiset(s) - multiset{x}
  {
    match FirstIndex(s, e => e == x)
    case None => s
    case Some(i) =>
      assert s == s[..i] + [s[i]] + s[i + 1..];
      assert x !in s[..i] by {
        forall j | 0 <= j < i ensures s[..i][j] != x { }
      }
      s[..i] + s[i + 1..]
  }

  /** No two elements of `s` share a key. */
  ghost predicate UniqueKeys<T, K>(s: seq<T>, key: T -> K)
  {
    forall i, j :: 0 <= i < j < |s| ==> key(s[i]) != key(s[j])
  }

  /** Dropping position `i` shifts every later element down by one. */
  lemma DropAt<T>(s: seq<T>, i: int, r: seq<T>)
    requires 0 <= i < |s| && r == s[..i] + s[i + 1..]
    ensures |r| == |s| - 1
    ensures forall k :: 0 <= k < i ==> r[k] == s[k]
    ensures forall k :: i <= k < |r| ==> r[k] == s[k + 1]
  {
  }

  /**
   * In a table with unique keys, `Remove(s, x)` takes away every element with `x`'s key,
   * keeps every other element, and the result still has unique keys.
   */
  lemma RemoveUnique<T, K>(s: seq<T>, x: T, key: T -> K)
    requires UniqueKeys(s, key)
    ensures UniqueKeys(Remove(s, x), key)
    ensures x in s ==> forall y :: y in Remove(s, x) ==> key(y) != key(x)
    ensures forall y :: y in s && key(y) != key(x) ==> y in Remove(s, x)
  {
    var r := Remove(s, x);
    if x in s {
      var i :| 0 <= i < |s| && s[i] == x && x !in s[..i] && r == s[..i] + s[i + 1..];
      DropAt(s, i, r);
      forall a, b | 0 <= a < b < |r| ensures key(r[a]) != key(r[b]) {
        assert r[a] == s[if a < i then a else a + 1];
        assert r[b] == s[if b < i then b else b + 1];
      }
      forall y | y in r ensures key(y) != key(x) {
        var k :| 0 <= k < |r| && r[k] == y;
        assert r[k] == s[if k < i then k else k + 1];
      }
      forall y | y in s && key(y) != key(x) ensures y in r {
        var k :| 0 <= k < |s| && s[k] == y;
        assert k != i;
        assert r[if k < i then k else k - 1] == y;
      }
    }
  }
}
