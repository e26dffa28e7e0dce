/** Querysets as sequences: `.filter(...)` keeps the rows a predicate accepts in their
    original order, and `qs[lo:hi]` with non-negative bounds is Python's slice. */
module Query {
  import opened Text
  import opened Entities

  predicate IsActive(p: Pessoa) { p.ativo }

  predicate IsInactive(p: Pessoa) { !p.ativo }

  /** `.filter(...)`: the rows `keep` accepts, in their original order, each as often as
      it occurs. */
  function Where<T(==,!new)>(people: seq<T>, keep: T -> bool): (r: seq<T>)
    ensures |r| <= |people|
    ensures forall p :: p in r <==> p in people && keep(p)
  {
    if people == [] then []
    else
      var last := people[|people| - 1];
      assert forall p :: p in people <==> p in people[..|people| - 1] || p == last by {
        assert people == people[..|people| - 1] + [last];
      }
      Where(people[..|people| - 1], keep) + (if keep(last) then [last] else [])
  }

  /** Each row the filter accepts is kept as often as it occurs, and no other row. */
  lemma {:induction false} WhereCounts<T(!new)>(people: seq<T>, keep: T -> bool)
    ensures forall p :: multiset(Where(people, keep))[p] == if keep(p) then multiset(people)[p] else 0
    decreases |people|
  {
    if people != [] {
      var init, last := people[..|people| - 1], people[|people| - 1];
      assert people == init + [last];
      WhereCounts(init, keep);
      WhereSnoc(init, last, keep);
    }
  }

  /** The filter keeps the rows in their original order. */
  lemma {:induction false} WhereOrder<T(!new)>(people: seq<T>, keep: T -> bool)
    ensures Subsequence(Where(people, keep), people)
    decreases |people|
  {
    if people != [] {
      var init, last := people[..|people| - 1], people[|people| - 1];
      assert people == init + [last];
      WhereOrder(init, keep);
      WhereSnoc(init, last, keep);
      var w, r := Where(init, keep), Where(people, keep);
      assert people[..|people| - 1] == init;
      if keep(last) {
        assert r[..|r| - 1] == w && r[|r| - 1] == last;
      } else if r != [] {
        assert r == w && keep(r[|r| - 1]) by { assert r[|r| - 1] in w; }
        assert r[|r| - 1] != people[|people| - 1];
      }
    }
  }

  /** Filtering a list with one more row at the end. */
  lemma WhereSnoc<T(!new)>(xs: seq<T>, x: T, keep: T -> bool)
    ensures Where(xs + [x], keep) == Where(xs, keep) + (if keep(x) then [x] else [])
  {
    var ys := xs + [x];
    assert ys[..|ys| - 1] == xs && ys[|ys| - 1] == x;
  }

  lemma {:induction false} WhereAppend<T(!new)>(a: seq<T>, b: seq<T>, keep: T -> bool)
    ensures Where(a + b, keep) == Where(a, keep) + Where(b, keep)
    decreases |b|
  {
    if b == [] {
      assert a + b == a;
    } else {
      var b', last := b[..|b| - 1], b[|b| - 1];
      assert a + b == (a + b') + [last] && b == b' + [last];
      WhereSnoc(a + b', last, keep);
      WhereSnoc(b', last, keep);
      WhereAppend(a, b', keep);
    }
  }

  /** Two filters applied one after the other commute, as chained `.filter` calls do. */
  lemma {:induction false} WhereCommutes<T(!new)>(people: seq<T>, p: T -> bool, q: T -> bool)
    ensures Where(Where(people, p), q) == Where(Where(people, q), p)
    ensures Where(Where(people, p), q) == Where(people, x => p(x) && q(x))
    decreases |people|
  {
    if people != [] {
      var rest := people[..|people| - 1];
      var last := people[|people| - 1];
      WhereCommutes(rest, p, q);
      var wp := if p(last) then [last] else [];
      WhereAppend(Where(rest, p), wp, q);
      var wq := if q(last) then [last] else [];
      WhereAppend(Where(rest, q), wq, p);
    }
  }

  /** Filtering nothing out leaves the rows unchanged. */
  lemma {:induction false} WhereAll<T(!new)>(people: seq<T>, keep: T -> bool)
    requires forall p :: p in people ==> keep(p)
    ensures Where(people, keep) == people
    decreases |people|
  {
    if people != [] {
      var rest, last := people[..|people| - 1], people[|people| - 1];
      assert people == rest + [last];
      forall x | x in rest ensures keep(x) {
        assert x in people;
      }
      WhereAll(rest, keep);
      assert keep(last) by { assert last in people; }
    }
  }

  /** A filter no row passes leaves nothing. */
  lemma {:induction false} WhereNone<T(!new)>(people: seq<T>, keep: T -> bool)
    requires forall p :: p in people ==> !keep(p)
    ensures Where(people, keep) == []
    decreases |people|
  {
    if people != [] {
      var rest := people[..|people| - 1];
      assert forall x :: x in rest ==> x in people;
      WhereNone(rest, keep);
    }
  }

  /** Filters that accept the same rows keep the same rows. */
  lemma {:induction false} WhereSameFilter<T(!new)>(people: seq<T>, p: T -> bool, q: T -> bool)
    requires forall x :: p(x) <==> q(x)
    ensures Where(people, p) == Where(people, q)
    decreases |people|
  {
    if people != [] {
      WhereSameFilter(people[..|people| - 1], p, q);
    }
  }

  /** Two filters that never both accept a row keep, together, as many rows as the
      filter accepting either. */
  lemma {:induction false} WhereDisjointCount<T(!new)>(people: seq<T>, p: T -> bool, q: T -> bool, either: T -> bool)
    requires forall x :: either(x) <==> p(x) || q(x)
    requires forall x :: !(p(x) && q(x))
    ensures |Where(people, either)| == |Where(people, p)| + |Where(people, q)|
    decreases |people|
  {
    if people != [] {
      WhereDisjointCount(people[..|people| - 1], p, q, either);
    }
  }

  /** The rows two complementary filters keep add up to all rows. */
  lemma {:induction false} WhereSplits<T(!new)>(people: seq<T>, keep: T -> bool, other: T -> bool)
    requires forall x :: other(x) <==> !keep(x)
    ensures |Where(people, keep)| + |Where(people, other)| == |people|
    decreases |people|
  {
    if people != [] {
      WhereSplits(people[..|people| - 1], keep, other);
    }
  }

  /** Python's `s[lo:hi]` for non-negative bounds: clipped to the sequence, and empty
      when `hi` is at or below `lo`. */
  function Slice(s: seq<Pessoa>, lo: nat, hi: nat): (r: seq<Pessoa>)
    ensures |r| == if lo < hi && lo < |s| then (if hi <= |s| then hi else |s|) - lo else 0
    ensures forall j :: 0 <= j < |r| ==> r[j] == s[lo + j]
    ensures forall p :: p in r ==> p in s
  {
    var a := if lo <= |s| then lo else |s|;
    var b := if hi <= |s| then hi else |s|;
    if a < b then s[a..b] else []
  }

  /** Python's `s[lo:]` for a non-negative bound. */
  function SliceFrom(s: seq<Pessoa>, lo: nat): (r: seq<Pessoa>)
    ensures |r| == if lo < |s| then |s| - lo else 0
    ensures forall j :: 0 <= j < |r| ==> r[j] == s[lo + j]
    ensures forall p :: p in r ==> p in s
  {
    if lo <= |s| then s[lo..] else []
  }
}
