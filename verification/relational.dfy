/** The two table operations the pipeline builds everything from, stated over
    sequences of rows: first-wins duplicate removal on a key
    (`drop_duplicates(subset=...)`) and the left outer join on a key
    (`merge(..., how="left")`). Keys are compared with `==`, so a null key cell
    equals another null key cell, as pandas does for both operations. */
module Relational {
  import opened Wrappers

  /** The keys occurring in `s`. */
  function KeySet<T, K(==)>(s: seq<T>, key: T -> K): set<K> {
    set i | 0 <= i < |s| :: key(s[i])
  }

  /** No key occurs twice. */
  predicate UniqueKeys<T, K(==)>(s: seq<T>, key: T -> K) {
    forall i, j :: 0 <= i < j < |s| ==> key(s[i]) != key(s[j])
  }

  /** Row `i` is the first row of `s` carrying its key. */
  predicate IsFirst<T, K(==)>(s: seq<T>, key: T -> K, i: int)
    requires 0 <= i < |s|
  {
    forall j :: 0 <= j < i ==> key(s[j]) != key(s[i])
  }

  lemma KeySetSnoc<T, K>(s: seq<T>, x: T, key: T -> K)
    ensures KeySet(s + [x], key) == KeySet(s, key) + {key(x)}
  {
    var t := s + [x];
    forall k | k in KeySet(t, key) ensures k in KeySet(s, key) + {key(x)} {
      var i :| 0 <= i < |t| && key(t[i]) == k;
      if i < |s| { assert t[i] == s[i]; }
    }
    forall k | k in KeySet(s, key) + {key(x)} ensures k in KeySet(t, key) {
      if k == key(x) {
        assert t[|s|] == x;
      } else {
        var i :| 0 <= i < |s| && key(s[i]) == k;
        assert t[i] == s[i];
      }
    }
  }

  /** Keep the first row of every key and drop every later row with the same
      key, scanning from the front (pandas `drop_duplicates`, keep="first"). */
  function Dedup<T, K(==)>(s: seq<T>, key: T -> K): (r: seq<T>)
    ensures |r| <= |s|
    ensures forall j :: 0 <= j < |r| ==> r[j] in s
    ensures UniqueKeys(r, key)
    ensures KeySet(r, key) == KeySet(s, key)
    decreases |s|
  {
    if s == [] then []
    else
      var init := Dedup(s[..|s| - 1], key);
      var last := s[|s| - 1];
      assert s == s[..|s| - 1] + [last];
      KeySetSnoc(s[..|s| - 1], last, key);
      if key(last) in KeySet(init, key) then init
      else
        KeySetSnoc(init, last, key);
        init + [last]
  }

  /** Reference definition: the positions below `n` whose row is the first
      of its key, in ascending order. */
  function FirstPositions<T, K(==)>(s: seq<T>, key: T -> K, n: nat): (ps: seq<nat>)
    requires n <= |s|
    ensures forall j :: 0 <= j < |ps| ==> ps[j] < n && IsFirst(s, key, ps[j])
    ensures forall j, j' :: 0 <= j < j' < |ps| ==> ps[j] < ps[j']
    ensures forall i :: 0 <= i < n && IsFirst(s, key, i) ==> i in ps
  {
    if n == 0 then []
    else FirstPositions(s, key, n - 1) + (if IsFirst(s, key, n - 1) then [n - 1] else [])
  }

  /** The rows of `s` at the positions `ps`, in that order. */
  function Select<T>(s: seq<T>, ps: seq<nat>): (r: seq<T>)
    requires forall j :: 0 <= j < |ps| ==> ps[j] < |s|
    ensures |r| == |ps|
    ensures forall j :: 0 <= j < |ps| ==> r[j] == s[ps[j]]
  {
    seq(|ps|, j requires 0 <= j < |ps| => s[ps[j]])
  }

  lemma {:induction false} FirstPositionsOfPrefix<T, K>(s: seq<T>, x: T, key: T -> K, n: nat)
    requires n <= |s|
    ensures FirstPositions(s + [x], key, n) == FirstPositions(s, key, n)
  {
    if n > 0 {
      FirstPositionsOfPrefix(s, x, key, n - 1);
      var t := s + [x];
      assert IsFirst(t, key, n - 1) == IsFirst(s, key, n - 1) by {
        assert forall j :: 0 <= j < n ==> t[j] == s[j];
      }
    }
  }

  lemma SelectOfPrefix<T>(s: seq<T>, x: T, ps: seq<nat>)
    requires forall j :: 0 <= j < |ps| ==> ps[j] < |s|
    ensures Select(s + [x], ps) == Select(s, ps)
  {
    var t := s + [x];
    forall j | 0 <= j < |ps| ensures Select(t, ps)[j] == Select(s, ps)[j] {
      assert t[ps[j]] == s[ps[j]];
    }
  }

  lemma SelectSnoc<T>(s: seq<T>, x: T, ps: seq<nat>)
    requires forall j :: 0 <= j < |ps| ==> ps[j] < |s|
    ensures Select(s + [x], ps + [|s|]) == Select(s, ps) + [x]
  {
    var t := s + [x];
    var qs := ps + [|s|];
    forall j | 0 <= j < |qs| ensures Select(t, qs)[j] == (Select(s, ps) + [x])[j] {
      if j < |ps| {
        assert qs[j] == ps[j] && t[ps[j]] == s[ps[j]];
      }
    }
  }

  lemma IsFirstLast<T, K>(s: seq<T>, x: T, key: T -> K)
    ensures IsFirst(s + [x], key, |s|) <==> key(x) !in KeySet(s, key)
  {
    var t := s + [x];
    if IsFirst(t, key, |s|) {
      forall k | k in KeySet(s, key) ensures k != key(x) {
        var i :| 0 <= i < |s| && key(s[i]) == k;
        assert t[i] == s[i];
      }
    } else {
      var j :| 0 <= j < |s| && key(t[j]) == key(t[|s|]);
      assert t[j] == s[j];
    }
  }

  /** `Dedup` keeps exactly the first row of every key, in input order: it is
      the subsequence of `s` at the first-occurrence positions. */
  lemma {:induction false} DedupIsFirstOccurrences<T, K>(s: seq<T>, key: T -> K)
    ensures Dedup(s, key) == Select(s, FirstPositions(s, key, |s|))
    decreases |s|
  {
    if s != [] {
      var init, last := s[..|s| - 1], s[|s| - 1];
      assert s == init + [last];
      DedupIsFirstOccurrences(init, key);
      DedupFirstStep(init, last, key);
    }
  }

  lemma DedupFirstStep<T, K>(init: seq<T>, last: T, key: T -> K)
    requires Dedup(init, key) == Select(init, FirstPositions(init, key, |init|))
    ensures Dedup(init + [last], key) == Select(init + [last], FirstPositions(init + [last], key, |init| + 1))
  {
    var t := init + [last];
    var ps := FirstPositions(init, key, |init|);
    var qs := FirstPositions(t, key, |t|);
    assert qs == ps + (if key(last) in KeySet(init, key) then [] else [|init|]) by {
      FirstPositionsOfPrefix(init, last, key, |init|);
      IsFirstLast(init, last, key);
    }
    if key(last) in KeySet(init, key) {
      assert Dedup(t, key) == Dedup(init, key) by {
        DedupSnoc(init, last, key);
      }
      assert qs == ps;
      assert Select(t, ps) == Select(init, ps) by {
        SelectOfPrefix(init, last, ps);
      }
    } else {
      assert Dedup(t, key) == Dedup(init, key) + [last] by {
        DedupSnoc(init, last, key);
      }
      assert Select(t, qs) == Select(init, ps) + [last] by {
        SelectSnoc(init, last, ps);
      }
    }
  }


  lemma KeySetConcat<T, K>(a: seq<T>, b: seq<T>, key: T -> K)
    ensures KeySet(a + b, key) == KeySet(a, key) + KeySet(b, key)
  {
    forall k | k in KeySet(a + b, key) ensures k in KeySet(a, key) + KeySet(b, key) {
      var i :| 0 <= i < |a + b| && key((a + b)[i]) == k;
      if i < |a| { assert (a + b)[i] == a[i]; } else { assert (a + b)[i] == b[i - |a|]; }
    }
    forall k | k in KeySet(a, key) + KeySet(b, key) ensures k in KeySet(a + b, key) {
      if k in KeySet(a, key) {
        var i :| 0 <= i < |a| && key(a[i]) == k;
        assert (a + b)[i] == a[i];
      } else {
        var i :| 0 <= i < |b| && key(b[i]) == k;
        assert (a + b)[|a| + i] == b[i];
      }
    }
  }

  /** One step of the scan: a row is appended unless its key was seen. */
  lemma DedupSnoc<T, K>(s: seq<T>, x: T, key: T -> K)
    ensures Dedup(s + [x], key) == if key(x) in KeySet(s, key) then Dedup(s, key) else Dedup(s, key) + [x]
  {
    var t := s + [x];
    assert t[..|t| - 1] == s && t[|t| - 1] == x;
  }

  /** Rows whose keys are disjoint do not knock each other out: removing
      duplicates from `a + b` is removing them from each part. */
  lemma {:induction false} DedupDisjoint<T, K>(a: seq<T>, b: seq<T>, key: T -> K)
    requires KeySet(a, key) !! KeySet(b, key)
    ensures Dedup(a + b, key) == Dedup(a, key) + Dedup(b, key)
    decreases |b|
  {
    if b == [] {
      assert a + b == a;
    } else {
      var init, last := b[..|b| - 1], b[|b| - 1];
      assert b == init + [last];
      assert a + b == (a + init) + [last];
      assert KeySet(a, key) !! KeySet(init, key) && key(last) !in KeySet(a, key) by {
        KeySetSnoc(init, last, key);
      }
      var da, di := Dedup(a, key), Dedup(init, key);
      assert Dedup(a + init, key) == da + di by {
        DedupDisjoint(a, init, key);
      }
      var seen := key(last) in KeySet(init, key);
      assert key(last) in KeySet(a + init, key) <==> seen by {
        KeySetConcat(a, init, key);
      }
      assert Dedup(a + b, key) == if seen then da + di else (da + di) + [last] by {
        DedupSnoc(a + init, last, key);
      }
      assert Dedup(b, key) == if seen then di else di + [last] by {
        DedupSnoc(init, last, key);
      }
      if !seen {
        assert (da + di) + [last] == da + (di + [last]);
      }
    }
  }

  /** Reference definition: the positions below `n` of the rows satisfying
      `p`, in ascending order. */
  function Positions<T>(s: seq<T>, p: T -> bool, n: nat): (ps: seq<nat>)
    requires n <= |s|
    ensures forall j :: 0 <= j < |ps| ==> ps[j] < n && p(s[ps[j]])
    ensures forall j, j' :: 0 <= j < j' < |ps| ==> ps[j] < ps[j']
  {
    if n == 0 then []
    else Positions(s, p, n - 1) + (if p(s[n - 1]) then [n - 1] else [])
  }

  /** No position satisfying `p` is missed. */
  lemma {:induction false} PositionsComplete<T>(s: seq<T>, p: T -> bool, n: nat)
    requires n <= |s|
    ensures forall i :: 0 <= i < n && p(s[i]) ==> i in Positions(s, p, n)
  {
    if n > 0 {
      PositionsComplete(s, p, n - 1);
    }
  }

  lemma {:induction false} PositionsOfPrefix<T>(s: seq<T>, x: T, p: T -> bool, n: nat)
    requires n <= |s|
    ensures Positions(s + [x], p, n) == Positions(s, p, n)
  {
    if n > 0 {
      PositionsOfPrefix(s, x, p, n - 1);
      assert (s + [x])[n - 1] == s[n - 1];
    }
  }

  /** Selecting at the positions satisfying `p` extends row by row. */
  lemma SelectPositionsSnoc<T>(s: seq<T>, p: T -> bool)
    requires s != []
    ensures Select(s, Positions(s, p, |s|))
            == Select(s[..|s| - 1], Positions(s[..|s| - 1], p, |s| - 1)) + (if p(s[|s| - 1]) then [s[|s| - 1]] else [])
  {
    var init := s[..|s| - 1];
    var last := s[|s| - 1];
    assert s == init + [last];
    PositionsOfPrefix(init, last, p, |init|);
    var ps := Positions(s, p, |s|);
    var rest := Select(init, Positions(init, p, |init|));
    var r := rest + (if p(last) then [last] else []);
    forall j | 0 <= j < |ps| ensures r[j] == s[ps[j]] {
      if j < |rest| {
        assert s[ps[j]] == init[ps[j]];
      }
    }
  }

  /** The rows of `s` satisfying `p`, in order (a boolean-mask selection). */
  function Filter<T>(s: seq<T>, p: T -> bool): (r: seq<T>)
    ensures |r| <= |s|
    ensures forall i :: 0 <= i < |r| ==> r[i] in s && p(r[i])
    ensures forall i :: 0 <= i < |s| && p(s[i]) ==> s[i] in r
  {
    if s == [] then []
    else
      var init := s[..|s| - 1];
      var last := s[|s| - 1];
      var rest := Filter(init, p);
      assert forall i :: 0 <= i < |init| ==> init[i] == s[i];
      rest + (if p(last) then [last] else [])
  }

  /** Selection keeps exactly the rows at the ascending positions where `p`
      holds, one for one and in order. */
  lemma {:induction false} FilterInOrder<T>(s: seq<T>, p: T -> bool)
    ensures Filter(s, p) == Select(s, Positions(s, p, |s|))
  {
    if s != [] {
      FilterInOrder(s[..|s| - 1], p);
      SelectPositionsSnoc(s, p);
    }
  }

  /** Selecting rows keeps keys unique. */
  lemma FilterUnique<T, K>(s: seq<T>, p: T -> bool, key: T -> K)
    requires UniqueKeys(s, key)
    ensures UniqueKeys(Filter(s, p), key)
  {
    var r := Filter(s, p);
    var ps := Positions(s, p, |s|);
    FilterInOrder(s, p);
    forall a, b | 0 <= a < b < |r| ensures key(r[a]) != key(r[b]) {
      assert r[a] == s[ps[a]] && r[b] == s[ps[b]] && ps[a] < ps[b];
    }
  }

  predicate SortedWhere<T>(s: seq<T>, p: T -> bool, f: T -> int) {
    forall i, j :: 0 <= i < j < |s| && p(s[i]) && p(s[j]) ==> f(s[i]) < f(s[j])
  }

  /** Selecting rows keeps their relative order: rows that were ordered by
      `f` among those satisfying `p` stay ordered. */
  lemma FilterSorted<T>(s: seq<T>, p: T -> bool, f: T -> int)
    requires SortedWhere(s, p, f)
    ensures SortedWhere(Filter(s, p), p, f)
  {
    var r := Filter(s, p);
    var ps := Positions(s, p, |s|);
    FilterInOrder(s, p);
    forall a, b | 0 <= a < b < |r| && p(r[a]) && p(r[b]) ensures f(r[a]) < f(r[b]) {
      assert r[a] == s[ps[a]] && r[b] == s[ps[b]] && ps[a] < ps[b];
    }
  }

  /** The right rows whose key is `k`, in their order. */
  function Matches<R, K(==)>(k: K, right: seq<R>, rk: R -> K): (ms: seq<R>)
    ensures |ms| <= |right|
    ensures forall m :: m in ms ==> m in right && rk(m) == k
  {
    if right == [] then []
    else (if rk(right[0]) == k then [right[0]] else []) + Matches(k, right[1..], rk)
  }

  /** The first right row whose key is `k`. */
  function Lookup<R, K(==)>(k: K, right: seq<R>, rk: R -> K): (r: Option<R>)
    ensures r.Some? ==> r.value in right && rk(r.value) == k
    ensures r.None? <==> k !in KeySet(right, rk)
  {
    if right == [] then None
    else if rk(right[0]) == k then Some(right[0])
    else
      var rest := Lookup(k, right[1..], rk);
      assert k in KeySet(right, rk) ==> k in KeySet(right[1..], rk) by {
        if k in KeySet(right, rk) {
          var i :| 0 <= i < |right| && rk(right[i]) == k;
          assert i > 0 && right[1..][i - 1] == right[i];
        }
      }
      assert k in KeySet(right[1..], rk) ==> k in KeySet(right, rk) by {
        if k in KeySet(right[1..], rk) {
          var i :| 0 <= i < |right[1..]| && rk(right[1..][i]) == k;
          assert right[i + 1] == right[1..][i];
        }
      }
      rest
  }

  /** The output rows of one left row: one per match, or one alone. */
  function JoinOne<L, R, O>(l: L, ms: seq<R>, both: (L, R) -> O, alone: L -> O): (out: seq<O>)
    ensures |out| == if ms == [] then 1 else |ms|
  {
    if ms == [] then [alone(l)] else seq(|ms|, i requires 0 <= i < |ms| => both(l, ms[i]))
  }

  /** Left outer join: every left row, in order, combined with each right row
      of the same key in right order, or kept alone when nothing matches. */
  function LeftJoin<L, R, K(==), O>(left: seq<L>, right: seq<R>, lk: L -> K, rk: R -> K,
                                    both: (L, R) -> O, alone: L -> O): (out: seq<O>)
    ensures |out| >= |left|
  {
    if left == [] then []
    else JoinOne(left[0], Matches(lk(left[0]), right, rk), both, alone)
         + LeftJoin(left[1..], right, lk, rk, both, alone)
  }

  lemma {:induction false} MatchesNone<R, K>(k: K, right: seq<R>, rk: R -> K)
    requires forall j :: 0 <= j < |right| ==> rk(right[j]) != k
    ensures Matches(k, right, rk) == []
  {
    if right != [] {
      assert forall j :: 0 <= j < |right[1..]| ==> right[1..][j] == right[j + 1];
      MatchesNone(k, right[1..], rk);
    }
  }

  /** When no left key occurs on the right, the left join keeps every left
      row alone, one for one and in order. */
  lemma {:induction false} LeftJoinNoMatches<L, R, K, O>(left: seq<L>, right: seq<R>, lk: L -> K, rk: R -> K,
                                                          both: (L, R) -> O, alone: L -> O)
    requires forall i, j :: 0 <= i < |left| && 0 <= j < |right| ==> lk(left[i]) != rk(right[j])
    ensures |LeftJoin(left, right, lk, rk, both, alone)| == |left|
    ensures forall i :: 0 <= i < |left| ==> LeftJoin(left, right, lk, rk, both, alone)[i] == alone(left[i])
  {
    if left != [] {
      assert forall i :: 0 <= i < |left[1..]| ==> left[1..][i] == left[i + 1];
      LeftJoinNoMatches(left[1..], right, lk, rk, both, alone);
      MatchesNone(lk(left[0]), right, rk);
      var out := LeftJoin(left, right, lk, rk, both, alone);
      var rest := LeftJoin(left[1..], right, lk, rk, both, alone);
      assert out == [alone(left[0])] + rest;
      forall i | 0 < i < |left| ensures out[i] == alone(left[i]) {
        assert out[i] == rest[i - 1];
      }
    }
  }

  /** A property of every output row follows from the property of every
      combined and every lone left row. */
  lemma {:induction false} LeftJoinAll<L, R, K, O>(left: seq<L>, right: seq<R>, lk: L -> K, rk: R -> K,
                                                    both: (L, R) -> O, alone: L -> O, P: O -> bool)
    requires forall i :: 0 <= i < |left| ==> P(alone(left[i]))
    requires forall i, j :: 0 <= i < |left| && 0 <= j < |right| ==> P(both(left[i], right[j]))
    ensures var out := LeftJoin(left, right, lk, rk, both, alone); forall o :: o in out ==> P(o)
  {
    if left != [] {
      assert forall i :: 0 <= i < |left[1..]| ==> left[1..][i] == left[i + 1];
      LeftJoinAll(left[1..], right, lk, rk, both, alone, P);
      var ms := Matches(lk(left[0]), right, rk);
      var head := JoinOne(left[0], ms, both, alone);
      forall o | o in head ensures P(o) {
        if ms != [] {
          var j :| 0 <= j < |head| && head[j] == o;
          assert ms[j] in ms;
          var b :| 0 <= b < |right| && right[b] == ms[j];
        }
      }
    }
  }

  /** Output row `o` comes from left row `l`: combined with a right row of
      the same key, or kept alone when no right row has that key. */
  predicate JoinedFrom<L, R, K(==), O(==)>(o: O, l: L, right: seq<R>, lk: L -> K, rk: R -> K,
                                           both: (L, R) -> O, alone: L -> O) {
    || (o == alone(l) && lk(l) !in KeySet(right, rk))
    || (exists j :: 0 <= j < |right| && rk(right[j]) == lk(l) && o == both(l, right[j]))
  }

  /** Some right row has key `k` exactly when the matches are not empty. */
  lemma {:induction false} MatchesEmpty<R, K>(k: K, right: seq<R>, rk: R -> K)
    ensures Matches(k, right, rk) == [] <==> k !in KeySet(right, rk)
  {
    if right != [] {
      var t := right[1..];
      MatchesEmpty(k, t, rk);
      if k in KeySet(t, rk) {
        var i :| 0 <= i < |t| && rk(t[i]) == k;
        assert t[i] == right[i + 1];
      }
      if k in KeySet(right, rk) && rk(right[0]) != k {
        var i :| 0 <= i < |right| && rk(right[i]) == k;
        assert right[i] == t[i - 1];
      }
    }
  }

  /** The output rows of one left row all come from it, and there is one. */
  lemma JoinOneFrom<L, R, K, O>(l: L, right: seq<R>, lk: L -> K, rk: R -> K, both: (L, R) -> O, alone: L -> O)
    ensures |JoinOne(l, Matches(lk(l), right, rk), both, alone)| >= 1
    ensures forall j :: 0 <= j < |JoinOne(l, Matches(lk(l), right, rk), both, alone)| ==>
              JoinedFrom(JoinOne(l, Matches(lk(l), right, rk), both, alone)[j], l, right, lk, rk, both, alone)
  {
    var ms := Matches(lk(l), right, rk);
    var out := JoinOne(l, ms, both, alone);
    MatchesEmpty(lk(l), right, rk);
    forall j | 0 <= j < |out| ensures JoinedFrom(out[j], l, right, lk, rk, both, alone) {
      if ms != [] {
        assert ms[j] in ms;
        var b :| 0 <= b < |right| && right[b] == ms[j];
        assert out[j] == both(l, right[b]);
      }
    }
  }

  /** Some row of `out` is made from left row `l`. */
  predicate Yields<L, R, K(==), O(==)>(out: seq<O>, l: L, right: seq<R>, lk: L -> K, rk: R -> K,
                                       both: (L, R) -> O, alone: L -> O) {
    exists j :: 0 <= j < |out| && JoinedFrom(out[j], l, right, lk, rk, both, alone)
  }

  /** The left join loses no left row: every left row yields an output row
      made from it, combined with a right row of the same key or alone when
      none has that key. */
  lemma {:induction false} LeftJoinComplete<L, R, K, O>(left: seq<L>, right: seq<R>, lk: L -> K, rk: R -> K,
                                                         both: (L, R) -> O, alone: L -> O)
    ensures forall i :: 0 <= i < |left| ==> Yields(LeftJoin(left, right, lk, rk, both, alone), left[i], right, lk, rk, both, alone)
  {
    if left != [] {
      var t := left[1..];
      var head := JoinOne(left[0], Matches(lk(left[0]), right, rk), both, alone);
      var rest := LeftJoin(t, right, lk, rk, both, alone);
      var out := LeftJoin(left, right, lk, rk, both, alone);
      assert out == head + rest;
      assert |head| >= 1 && JoinedFrom(head[0], left[0], right, lk, rk, both, alone) by {
        JoinOneFrom(left[0], right, lk, rk, both, alone);
      }
      assert forall i :: 0 <= i < |t| ==> Yields(rest, t[i], right, lk, rk, both, alone) by {
        LeftJoinComplete(t, right, lk, rk, both, alone);
      }
      forall i | 0 <= i < |left| ensures Yields(out, left[i], right, lk, rk, both, alone) {
        if i == 0 {
          assert out[0] == head[0];
        } else {
          assert t[i - 1] == left[i];
          assert Yields(rest, t[i - 1], right, lk, rk, both, alone);
          var j :| 0 <= j < |rest| && JoinedFrom(rest[j], t[i - 1], right, lk, rk, both, alone);
          assert out[|head| + j] == rest[j];
        }
      }
    } else {
      assert LeftJoin(left, right, lk, rk, both, alone) == [];
    }
  }

  /** The left join invents no row: every output row is made from a left
      row, combined with a right row of the same key or alone when none has
      that key. */
  lemma {:induction false} LeftJoinSound<L, R, K, O>(left: seq<L>, right: seq<R>, lk: L -> K, rk: R -> K,
                                                          both: (L, R) -> O, alone: L -> O)
    ensures forall j :: 0 <= j < |LeftJoin(left, right, lk, rk, both, alone)| ==>
              exists i :: 0 <= i < |left| &&
                          JoinedFrom(LeftJoin(left, right, lk, rk, both, alone)[j], left[i], right, lk, rk, both, alone)
  {
    if left != [] {
      var t := left[1..];
      LeftJoinSound(t, right, lk, rk, both, alone);
      JoinOneFrom(left[0], right, lk, rk, both, alone);
      var head := JoinOne(left[0], Matches(lk(left[0]), right, rk), both, alone);
      var rest := LeftJoin(t, right, lk, rk, both, alone);
      var out := LeftJoin(left, right, lk, rk, both, alone);
      assert out == head + rest;
      forall j | 0 <= j < |out| ensures exists i :: 0 <= i < |left| && JoinedFrom(out[j], left[i], right, lk, rk, both, alone) {
        if j < |head| {
          assert out[j] == head[j];
        } else {
          assert out[j] == rest[j - |head|];
          var i :| 0 <= i < |t| && JoinedFrom(rest[j - |head|], t[i], right, lk, rk, both, alone);
          assert t[i] == left[i + 1];
        }
      }
    } else {
      assert LeftJoin(left, right, lk, rk, both, alone) == [];
    }
  }

  /** With unique right keys, looking up the key of right row `j` finds it. */
  lemma {:induction false} LookupOfUnique<R, K>(right: seq<R>, rk: R -> K, j: nat)
    requires UniqueKeys(right, rk)
    requires j < |right|
    ensures Lookup(rk(right[j]), right, rk) == Some(right[j])
  {
    if j > 0 {
      var t := right[1..];
      assert rk(right[0]) != rk(right[j]);
      assert UniqueKeys(t, rk) by {
        forall a, b | 0 <= a < b < |t| ensures rk(t[a]) != rk(t[b]) {
          assert t[a] == right[a + 1] && t[b] == right[b + 1];
        }
      }
      assert t[j - 1] == right[j];
      LookupOfUnique(t, rk, j - 1);
    }
  }

  /** The single output row of a left row when right keys are unique. */
  function JoinRow<L, R, K(==), O>(l: L, right: seq<R>, lk: L -> K, rk: R -> K,
                                   both: (L, R) -> O, alone: L -> O): O
  {
    match Lookup(lk(l), right, rk)
    case Some(m) => both(l, m)
    case None => alone(l)
  }

  lemma {:induction false} MatchesOfUnique<R, K>(k: K, right: seq<R>, rk: R -> K)
    requires UniqueKeys(right, rk)
    ensures Matches(k, right, rk) == match Lookup(k, right, rk) case Some(m) => [m] case None => []
  {
    if right != [] {
      assert UniqueKeys(right[1..], rk) by {
        forall i, j | 0 <= i < j < |right[1..]| ensures rk(right[1..][i]) != rk(right[1..][j]) {
          assert right[1..][i] == right[i + 1] && right[1..][j] == right[j + 1];
        }
      }
      MatchesOfUnique(k, right[1..], rk);
      if rk(right[0]) == k {
        forall i | 0 <= i < |right[1..]| ensures rk(right[1..][i]) != k {
          assert right[1..][i] == right[i + 1];
        }
      }
    }
  }

  lemma JoinOneOfUnique<L, R, K, O>(l: L, right: seq<R>, lk: L -> K, rk: R -> K, both: (L, R) -> O, alone: L -> O)
    requires UniqueKeys(right, rk)
    ensures JoinOne(l, Matches(lk(l), right, rk), both, alone) == [JoinRow(l, right, lk, rk, both, alone)]
  {
    MatchesOfUnique(lk(l), right, rk);
    var ms := Matches(lk(l), right, rk);
    var o := JoinOne(l, ms, both, alone);
    if ms != [] {
      assert |o| == 1 && o[0] == both(l, ms[0]);
    }
  }

  /** When right keys are unique, the left join keeps the left rows one for
      one and in order: each is combined with the right row of its key, or
      kept alone when there is none. */
  lemma {:induction false} LeftJoinOfUnique<L, R, K, O>(left: seq<L>, right: seq<R>, lk: L -> K, rk: R -> K,
                                                           both: (L, R) -> O, alone: L -> O)
    requires UniqueKeys(right, rk)
    ensures |LeftJoin(left, right, lk, rk, both, alone)| == |left|
    ensures forall i :: 0 <= i < |left| ==>
              LeftJoin(left, right, lk, rk, both, alone)[i] == JoinRow(left[i], right, lk, rk, both, alone)
  {
    if left != [] {
      LeftJoinOfUnique(left[1..], right, lk, rk, both, alone);
      JoinOneOfUnique(left[0], right, lk, rk, both, alone);
      var out := LeftJoin(left, right, lk, rk, both, alone);
      var rest := LeftJoin(left[1..], right, lk, rk, both, alone);
      assert out == [JoinRow(left[0], right, lk, rk, both, alone)] + rest;
      forall i | 0 < i < |left| ensures out[i] == JoinRow(left[i], right, lk, rk, both, alone) {
        assert out[i] == rest[i - 1] && left[1..][i - 1] == left[i];
      }
    }
  }
}
