/**
 * `tracks.sort((a, b) => b.popularity - a.popularity)`: the candidates of a search ordered by
 * popularity, highest first. `Array.prototype.sort` is stable (ECMA-262, since the 2019
 * edition), and with this comparator a stable sort has exactly one possible result, which
 * `SortDesc` defines: every candidate lands after all more popular ones and before all less
 * popular ones, and equally popular candidates keep their upstream order.
 */
module PopularitySort {
  import opened Catalog

  /**
   * Places `x` in front of the first element of `s` that is not more popular than `x`. Used for
   * an `x` that came before all of `s` upstream, so `x` goes first among its equals.
   */
  function Insert(x: Candidate, s: seq<Candidate>): (r: seq<Candidate>)
    ensures |r| == |s| + 1
  {
    if s == [] || s[0].popularity <= x.popularity then [x] + s
    else [s[0]] + Insert(x, s[1..])
  }

  /** The stable sort by descending popularity. */
  function SortDesc(s: seq<Candidate>): (r: seq<Candidate>)
    ensures |r| == |s|
  {
    if s == [] then [] else Insert(s[0], SortDesc(s[1..]))
  }

  /** Ordered highest popularity first. */
  ghost predicate NonIncreasing(s: seq<Candidate>)
  {
    forall i, j :: 0 <= i < j < |s| ==> s[i].popularity >= s[j].popularity
  }

  /** The candidates of popularity `p`, in their order in `s`. */
  function WithPopularity(s: seq<Candidate>, p: int): seq<Candidate>
  {
    if s == [] then []
    else (if s[0].popularity == p then [s[0]] else []) + WithPopularity(s[1..], p)
  }

  /** The position of the first candidate of maximal popularity in a non-empty list. */
  function FirstMostPopular(s: seq<Candidate>): (k: nat)
    requires |s| > 0
    ensures k < |s|
    ensures forall i :: 0 <= i < |s| ==> s[i].popularity <= s[k].popularity
    ensures forall i :: 0 <= i < k ==> s[i].popularity < s[k].popularity
  {
    if |s| == 1 then 0
    else
      var k := FirstMostPopular(s[1..]) + 1;
      if s[0].popularity >= s[k].popularity then 0 else k
  }

  lemma {:induction false} InsertPermutes(x: Candidate, s: seq<Candidate>)
    ensures multiset(Insert(x, s)) == multiset(s) + multiset{x}
  {
    if s == [] || s[0].popularity <= x.popularity {
    } else {
      InsertPermutes(x, s[1..]);
      assert s == [s[0]] + s[1..];
    }
  }

  /** The sort rearranges the candidates and neither adds nor drops any. */
  lemma {:induction false} SortDescPermutes(s: seq<Candidate>)
    ensures multiset(SortDesc(s)) == multiset(s)
  {
    if s != [] {
      SortDescPermutes(s[1..]);
      InsertPermutes(s[0], SortDesc(s[1..]));
      assert s == [s[0]] + s[1..];
    }
  }

  lemma {:induction false} InsertOrdered(x: Candidate, s: seq<Candidate>)
    requires NonIncreasing(s)
    ensures NonIncreasing(Insert(x, s))
  {
    if s == [] || s[0].popularity <= x.popularity {
    } else {
      InsertOrdered(x, s[1..]);
      InsertPermutes(x, s[1..]);
      var t := Insert(x, s[1..]);
      forall j | 0 <= j < |t| ensures s[0].popularity >= t[j].popularity {
        assert t[j] in multiset(t);
        assert t[j] == x || t[j] in multiset(s[1..]);
        if t[j] != x {
          assert t[j] in s[1..];
        }
      }
    }
  }

  /** After the sort, popularity never increases from one position to the next. */
  lemma {:induction false} SortDescOrdered(s: seq<Candidate>)
    ensures NonIncreasing(SortDesc(s))
  {
    if s != [] {
      SortDescOrdered(s[1..]);
      InsertOrdered(s[0], SortDesc(s[1..]));
    }
  }

  lemma {:induction false} WithPopularityConcat(a: seq<Candidate>, b: seq<Candidate>, p: int)
    ensures WithPopularity(a + b, p) == WithPopularity(a, p) + WithPopularity(b, p)
  {
    if a != [] {
      WithPopularityConcat(a[1..], b, p);
      assert (a + b)[1..] == a[1..] + b;
    } else {
      assert a + b == b;
    }
  }

  lemma {:induction false} InsertKeepsTies(x: Candidate, s: seq<Candidate>, p: int)
    ensures WithPopularity(Insert(x, s), p) == WithPopularity([x] + s, p)
  {
    if s == [] || s[0].popularity <= x.popularity {
    } else {
      InsertKeepsTies(x, s[1..], p);
      WithPopularityConcat([s[0]], Insert(x, s[1..]), p);
      WithPopularityConcat([x], s[1..], p);
      WithPopularityConcat([x], s, p);
      assert s == [s[0]] + s[1..];
      WithPopularityConcat([s[0]], s[1..], p);
      assert s[0].popularity != x.popularity;
      if s[0].popularity == p {
        assert x.popularity != p;
      }
    }
  }

  /** Stability: the candidates of any one popularity keep their upstream order. */
  lemma {:induction false} SortDescStable(s: seq<Candidate>, p: int)
    ensures WithPopularity(SortDesc(s), p) == WithPopularity(s, p)
  {
    if s != [] {
      SortDescStable(s[1..], p);
      InsertKeepsTies(s[0], SortDesc(s[1..]), p);
      WithPopularityConcat([s[0]], SortDesc(s[1..]), p);
      WithPopularityConcat([s[0]], s[1..], p);
      assert s == [s[0]] + s[1..];
    }
  }

  lemma {:induction false} WithPopularityHead(s: seq<Candidate>, k: nat)
    requires k < |s|
    requires forall i :: 0 <= i < k ==> s[i].popularity != s[k].popularity
    ensures WithPopularity(s, s[k].popularity) != []
    ensures WithPopularity(s, s[k].popularity)[0] == s[k]
  {
    if k > 0 {
      WithPopularityHead(s[1..], k - 1);
    }
  }

  /**
   * The canonical candidate: the head of the sorted list is the first candidate, in upstream
   * order, of maximal popularity.
   */
  lemma SortDescHead(s: seq<Candidate>)
    requires |s| > 0
    ensures |SortDesc(s)| == |s|
    ensures SortDesc(s)[0] == s[FirstMostPopular(s)]
    ensures forall i :: 0 <= i < |s| ==> s[i].popularity <= SortDesc(s)[0].popularity
  {
    var r := SortDesc(s);
    var k := FirstMostPopular(s);
    SortDescPermutes(s);
    SortDescOrdered(s);
    assert s[k] in multiset(r);
    var m :| 0 <= m < |r| && r[m] == s[k];
    assert r[0] in multiset(s);
    var n :| 0 <= n < |s| && s[n] == r[0];
    var p := s[k].popularity;
    assert r[0].popularity == p;
    WithPopularityHead(s, k);
    WithPopularityHead(r, 0);
    SortDescStable(s, p);
  }

  /** Upstream scores [70, 90, 90, 50]: the first of the two 90s is chosen. */
  lemma TieBreakExample(a: Candidate, b: Candidate, c: Candidate, d: Candidate)
    requires a.popularity == 70 && b.popularity == 90 && c.popularity == 90 && d.popularity == 50
    ensures SortDesc([a, b, c, d])[0] == b
  {
    SortDescHead([a, b, c, d]);
  }

  lemma {:induction false} InsertAt(x: Candidate, t: seq<Candidate>, k: nat)
    requires k <= |t|
    requires forall m :: 0 <= m < k ==> t[m].popularity > x.popularity
    requires k == |t| || t[k].popularity <= x.popularity
    ensures Insert(x, t) == t[..k] + [x] + t[k..]
  {
    if k > 0 {
      InsertAt(x, t[1..], k - 1);
      assert t[..k] == [t[0]] + t[1..][..k - 1];
      assert t[k..] == t[1..][k - 1..];
    }
  }

  /**
   * One step of the sort: moves `a[i]` rightwards past the more popular candidates of the
   * already sorted `a[i + 1..]`; the part before `i` is untouched.
   */
  method InsertFrom(a: array<Candidate>, i: nat)
    requires i < a.Length
    modifies a
    ensures a[..i] == old(a[..i])
    ensures a[i..] == Insert(old(a[i]), old(a[i + 1..]))
  {
    var x := a[i];
    ghost var t := a[i + 1..];
    var j := i;
    while j + 1 < a.Length && a[j + 1].popularity > x.popularity
      invariant i <= j < a.Length
      invariant forall k :: 0 <= k < i ==> a[k] == old(a[k])
      invariant forall k :: i <= k < j ==> a[k] == t[k - i]
      invariant forall k :: j < k < a.Length ==> a[k] == t[k - i - 1]
      invariant forall m :: 0 <= m < j - i ==> t[m].popularity > x.popularity
    {
      a[j] := a[j + 1];
      j := j + 1;
    }
    a[j] := x;
    InsertAt(x, t, j - i);
    assert a[i..] == t[..j - i] + [x] + t[j - i..];
  }

  /**
   * Sorts the candidates in place, most popular first, equally popular ones in their original
   * order: the effect of `Array.prototype.sort` with the comparator above.
   */
  method SortByPopularity(a: array<Candidate>)
    modifies a
    ensures a[..] == SortDesc(old(a[..]))
  {
    var i := a.Length;
    while i > 0
      invariant 0 <= i <= a.Length
      invariant a[..i] == old(a[..])[..i]
      invariant a[i..] == SortDesc(old(a[..])[i..])
    {
      i := i - 1;
      assert old(a[..])[i..] == [old(a[..])[i]] + old(a[..])[i + 1..];
      InsertFrom(a, i);
    }
  }
}
