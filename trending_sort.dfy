/** The ranking of the candidates: a stable sort, descending by the number of contributors,
    which is what sorting the candidate array in place with a comparator that subtracts the
    contributor counts gives under the stable `Array.prototype.sort`. */
module TrendingSort {
  import opened Options
  import opened Seqs
  import opened TrendingFold

  /** The sort key: how many first-degree accounts lead to the candidate. */
  function Count(c: Candidate): nat
  {
    |c.newFollowers|
  }

  /** Places `x` after every element of `t` whose count is at least its own, the place a
      stable sort gives an element that comes after all of `t` in the input. */
  function InsertLast(t: seq<Candidate>, x: Candidate): (r: seq<Candidate>)
    ensures |r| == |t| + 1
    decreases |t|
  {
    if t == [] || Count(x) <= Count(t[|t| - 1]) then t + [x]
    else InsertLast(t[..|t| - 1], x) + [t[|t| - 1]]
  }

  /** The stable descending sort, by insertion of each element in input order. */
  function SortByFollowers(s: seq<Candidate>): (r: seq<Candidate>)
    ensures |r| == |s|
    decreases |s|
  {
    if s == [] then []
    else InsertLast(SortByFollowers(s[..|s| - 1]), s[|s| - 1])
  }

  ghost predicate NonIncreasing(s: seq<Candidate>)
  {
    forall i, j :: 0 <= i < j < |s| ==> Count(s[i]) >= Count(s[j])
  }

  /** The candidates with exactly `n` contributors, in their order in `s`. */
  function WithCount(s: seq<Candidate>, n: nat): seq<Candidate>
    decreases |s|
  {
    if s == [] then []
    else WithCount(s[..|s| - 1], n) + (if Count(s[|s| - 1]) == n then [s[|s| - 1]] else [])
  }

  /** "Candidates with equal counts keep their relative order": every count class is the
      same subsequence in both lists. */
  ghost predicate SameCountClasses(s: seq<Candidate>, t: seq<Candidate>)
  {
    forall n: nat :: WithCount(s, n) == WithCount(t, n)
  }

  // ---------------------------------------------------------------------------------------
  // Lemmas

  lemma {:induction false} InsertLastPermutes(t: seq<Candidate>, x: Candidate)
    ensures multiset(InsertLast(t, x)) == multiset(t) + multiset{x}
    decreases |t|
  {
    if !(t == [] || Count(x) <= Count(t[|t| - 1])) {
      var n := |t| - 1;
      InsertLastPermutes(t[..n], x);
      assert t == t[..n] + [t[n]];
    }
  }

  /** The sort is a permutation of its input. */
  lemma {:induction false} SortPermutes(s: seq<Candidate>)
    ensures multiset(SortByFollowers(s)) == multiset(s)
    decreases |s|
  {
    if s != [] {
      var n := |s| - 1;
      SortPermutes(s[..n]);
      InsertLastPermutes(SortByFollowers(s[..n]), s[n]);
      MultisetSnoc(s);
    }
  }

  lemma SortMembers(s: seq<Candidate>)
    ensures forall c :: c in SortByFollowers(s) <==> c in s
    ensures |SortByFollowers(s)| == |s|
  {
    SortPermutes(s);
    assert forall c :: c in SortByFollowers(s) <==> c in multiset(SortByFollowers(s));
  }

  lemma {:induction false} InsertLastSorted(t: seq<Candidate>, x: Candidate)
    requires NonIncreasing(t)
    ensures NonIncreasing(InsertLast(t, x))
    decreases |t|
  {
    if !(t == [] || Count(x) <= Count(t[|t| - 1])) {
      var n := |t| - 1;
      var front, last := t[..n], t[n];
      assert t == front + [last];
      RankedFront(front, last);
      var r := InsertLast(front, x);
      InsertLastSorted(front, x);
      InsertLastPermutes(front, x);
      forall c | c in r ensures Count(c) >= Count(last) {
        assert c in multiset(r);
        if c != x {
          assert c in front;
        }
      }
      SnocRanked(r, last);
    }
  }

  /** In a ranked list, everything before the last element has at least its count. */
  lemma RankedFront(front: seq<Candidate>, last: Candidate)
    requires NonIncreasing(front + [last])
    ensures NonIncreasing(front)
    ensures forall c :: c in front ==> Count(c) >= Count(last)
  {
    var s := front + [last];
    forall c | c in front ensures Count(c) >= Count(last) {
      var p :| 0 <= p < |front| && front[p] == c;
      assert s[p] == c && s[|front|] == last;
    }
    forall i, j | 0 <= i < j < |front| ensures Count(front[i]) >= Count(front[j]) {
      assert s[i] == front[i] && s[j] == front[j];
    }
  }

  /** In a ranked list, the head has at least the count of everything after it. */
  lemma HeadLeads(head: Candidate, rest: seq<Candidate>)
    requires NonIncreasing([head] + rest)
    ensures NonIncreasing(rest)
    ensures forall c :: c in rest ==> Count(c) <= Count(head)
  {
    var s := [head] + rest;
    forall c | c in rest ensures Count(c) <= Count(head) {
      var p :| 0 <= p < |rest| && rest[p] == c;
      assert s[p + 1] == c && s[0] == head;
    }
    forall i, j | 0 <= i < j < |rest| ensures Count(rest[i]) >= Count(rest[j]) {
      assert s[i + 1] == rest[i] && s[j + 1] == rest[j];
    }
  }

  lemma SnocRanked(s: seq<Candidate>, x: Candidate)
    requires NonIncreasing(s)
    requires forall c :: c in s ==> Count(c) >= Count(x)
    ensures NonIncreasing(s + [x])
  {
    var t := s + [x];
    forall i, j | 0 <= i < j < |t| ensures Count(t[i]) >= Count(t[j]) {
      assert t[i] == s[i];
      if j < |s| {
        assert t[j] == s[j];
      } else {
        assert s[i] in s;
      }
    }
  }

  /** The sort is non-increasing in the number of contributors. */
  lemma {:induction false} SortSorted(s: seq<Candidate>)
    ensures NonIncreasing(SortByFollowers(s))
    decreases |s|
  {
    if s != [] {
      var n := |s| - 1;
      SortSorted(s[..n]);
      InsertLastSorted(SortByFollowers(s[..n]), s[n]);
    }
  }

  lemma WithCountSnoc(s: seq<Candidate>, x: Candidate, n: nat)
    ensures WithCount(s + [x], n) == WithCount(s, n) + (if Count(x) == n then [x] else [])
  {
    assert (s + [x])[..|s|] == s;
  }

  lemma {:induction false} InsertLastStable(t: seq<Candidate>, x: Candidate, n: nat)
    ensures WithCount(InsertLast(t, x), n) == WithCount(t + [x], n)
    decreases |t|
  {
    if t == [] || Count(x) <= Count(t[|t| - 1]) {
    } else {
      var m := |t| - 1;
      var front, last := t[..m], t[m];
      var r := InsertLast(front, x);
      assert InsertLast(t, x) == r + [last];
      var wx := if Count(x) == n then [x] else [];
      var wl := if Count(last) == n then [last] else [];
      var base := WithCount(front, n);
      InsertLastStable(front, x, n);
      WithCountSnoc(r, last, n);
      WithCountSnoc(front, x, n);
      WithCountSnoc(t, x, n);
      assert WithCount(t, n) == base + wl;
      assert WithCount(InsertLast(t, x), n) == base + wx + wl;
      assert WithCount(t + [x], n) == base + wl + wx;
      assert wx == [] || wl == [];
      SwapEmpty(base, wx, wl);
    }
  }

  lemma SwapEmpty(base: seq<Candidate>, u: seq<Candidate>, v: seq<Candidate>)
    requires u == [] || v == []
    ensures base + u + v == base + v + u
  {
    if u == [] {
      assert base + u == base;
    } else {
      assert base + v == base;
    }
  }

  /** The sort keeps every count class in input order: it is stable. */
  lemma {:induction false} SortStable(s: seq<Candidate>, n: nat)
    ensures WithCount(SortByFollowers(s), n) == WithCount(s, n)
    decreases |s|
  {
    if s != [] {
      var m := |s| - 1;
      var front, x := s[..m], s[m];
      var sorted := SortByFollowers(front);
      SortStable(front, n);
      InsertLastStable(sorted, x, n);
      WithCountSnoc(sorted, x, n);
      assert WithCount(s, n) == WithCount(front, n) + (if Count(x) == n then [x] else []);
      assert SortByFollowers(s) == InsertLast(sorted, x);
    }
  }

  lemma {:induction false} InsertLastTotal(t: seq<Candidate>, x: Candidate)
    ensures TotalFollowers(InsertLast(t, x)) == TotalFollowers(t) + Count(x)
    decreases |t|
  {
    if t == [] || Count(x) <= Count(t[|t| - 1]) {
      assert (t + [x])[..|t|] == t;
    } else {
      var m := |t| - 1;
      InsertLastTotal(t[..m], x);
      var r := InsertLast(t[..m], x);
      assert (r + [t[m]])[..|r|] == r;
    }
  }

  /** The sort moves candidates, so the total of contributors is unchanged. */
  lemma {:induction false} SortTotal(s: seq<Candidate>)
    ensures TotalFollowers(SortByFollowers(s)) == TotalFollowers(s)
    decreases |s|
  {
    if s != [] {
      var m := |s| - 1;
      SortTotal(s[..m]);
      InsertLastTotal(SortByFollowers(s[..m]), s[m]);
    }
  }

  lemma {:induction false} WithCountMembers(s: seq<Candidate>, n: nat)
    ensures forall c :: c in WithCount(s, n) <==> c in s && Count(c) == n
    decreases |s|
  {
    if s != [] {
      var m := |s| - 1;
      WithCountMembers(s[..m], n);
      assert s == s[..m] + [s[m]];
    }
  }

  lemma LastIsSmallest(s: seq<Candidate>, c: Candidate)
    requires NonIncreasing(s) && c in s
    ensures Count(c) >= Count(s[|s| - 1])
  {
    var i :| 0 <= i < |s| && s[i] == c;
  }

  /** A non-empty list has a non-empty count class, so only the empty list has the classes
      of the empty list. */
  lemma EmptyClasses(u: seq<Candidate>)
    requires SameCountClasses([], u)
    ensures u == []
  {
    if u != [] {
      var y := u[|u| - 1];
      WithCountMembers(u, Count(y));
    }
  }

  lemma LastsAgree(t: seq<Candidate>, u: seq<Candidate>)
    requires t != [] && u != []
    requires NonIncreasing(t) && NonIncreasing(u)
    requires SameCountClasses(t, u)
    ensures t[|t| - 1] == u[|u| - 1]
  {
    var x, y := t[|t| - 1], u[|u| - 1];
    WithCountMembers(t, Count(x));
    WithCountMembers(u, Count(x));
    WithCountMembers(t, Count(y));
    WithCountMembers(u, Count(y));
    assert WithCount(t, Count(x)) == WithCount(u, Count(x));
    assert WithCount(t, Count(y)) == WithCount(u, Count(y));
    LastIsSmallest(u, x);
    LastIsSmallest(t, y);
    var wt := WithCount(t[..|t| - 1], Count(x));
    var wu := WithCount(u[..|u| - 1], Count(x));
    assert WithCount(t, Count(x)) == wt + [x];
    assert WithCount(u, Count(x)) == wu + [y];
    assert (wt + [x])[|wt|] == x;
    assert (wu + [y])[|wu|] == y;
  }

  lemma PrefixClasses(t: seq<Candidate>, u: seq<Candidate>)
    requires t != [] && u != [] && t[|t| - 1] == u[|u| - 1]
    requires SameCountClasses(t, u)
    ensures SameCountClasses(t[..|t| - 1], u[..|u| - 1])
  {
    var x := t[|t| - 1];
    var t', u' := t[..|t| - 1], u[..|u| - 1];
    forall n: nat ensures WithCount(t', n) == WithCount(u', n) {
      assert WithCount(t, n) == WithCount(u, n);
      var a, b := WithCount(t', n), WithCount(u', n);
      if n == Count(x) {
        assert a + [x] == b + [x];
        assert a == (a + [x])[..|a|];
        assert b == (b + [x])[..|b|];
      } else {
        assert a + [] == a && b + [] == b;
      }
    }
  }

  /** A non-increasing list is determined by its count classes: any two non-increasing
      lists with the same classes are equal. */
  lemma {:induction false} CountClassesDetermine(t: seq<Candidate>, u: seq<Candidate>)
    requires NonIncreasing(t) && NonIncreasing(u)
    requires SameCountClasses(t, u)
    ensures t == u
    decreases |t|
  {
    if t == [] {
      EmptyClasses(u);
    } else if u == [] {
      assert SameCountClasses([], t);
      EmptyClasses(t);
    } else {
      LastsAgree(t, u);
      PrefixClasses(t, u);
      var t', u' := t[..|t| - 1], u[..|u| - 1];
      CountClassesDetermine(t', u');
      assert t == t' + [t[|t| - 1]] && u == u' + [u[|u| - 1]];
    }
  }

  /** The sort is the only non-increasing arrangement that keeps every count class in input
      order, so any stable sort with this comparator returns exactly SortByFollowers. */
  lemma SortUnique(s: seq<Candidate>, t: seq<Candidate>)
    requires NonIncreasing(t) && SameCountClasses(t, s)
    ensures t == SortByFollowers(s)
  {
    SortSorted(s);
    forall n: nat ensures WithCount(t, n) == WithCount(SortByFollowers(s), n) {
      SortStable(s, n);
    }
    CountClassesDetermine(t, SortByFollowers(s));
  }

  lemma ShiftLeft(sorted: seq<Candidate>, x: Candidate, rest: seq<Candidate>, j: nat)
    requires 0 < j <= |sorted|
    ensures (sorted[..j] + [x] + sorted[j..] + rest)[j := sorted[j - 1]][j - 1 := x]
            == sorted[..j - 1] + [x] + sorted[j - 1..] + rest
  {
    var lhs := (sorted[..j] + [x] + sorted[j..] + rest)[j := sorted[j - 1]][j - 1 := x];
    var rhs := sorted[..j - 1] + [x] + sorted[j - 1..] + rest;
    assert |lhs| == |rhs|;
    forall k | 0 <= k < |lhs| ensures lhs[k] == rhs[k] {
      if k < j - 1 {
      } else if k == j - 1 {
      } else if k == j {
      } else if k < |sorted| + 1 {
      } else {
      }
    }
  }

  lemma InsertLastShift(sorted: seq<Candidate>, x: Candidate, j: nat)
    requires 0 < j <= |sorted| && Count(sorted[j - 1]) < Count(x)
    ensures InsertLast(sorted[..j], x) + sorted[j..] == InsertLast(sorted[..j - 1], x) + sorted[j - 1..]
  {
    assert sorted[..j][..j - 1] == sorted[..j - 1];
    assert sorted[j - 1..] == [sorted[j - 1]] + sorted[j..];
  }

  /** One insertion step: the element at `i` moves left past the elements of the sorted
      prefix that have strictly fewer contributors. */
  method InsertAt(a: array<Candidate>, i: nat)
    requires i < a.Length
    modifies a
    ensures a[..] == InsertLast(old(a[..i]), old(a[i])) + old(a[i + 1..])
  {
    ghost var sorted, rest := a[..i], a[i + 1..];
    var x := a[i];
    assert sorted[..i] == sorted && sorted[i..] == [];
    assert a[..] == sorted[..i] + [x] + sorted[i..] + rest;
    var j := i;
    while j > 0 && Count(a[j - 1]) < Count(x)
      invariant 0 <= j <= i
      invariant a[..] == sorted[..j] + [x] + sorted[j..] + rest
      invariant InsertLast(sorted, x) == InsertLast(sorted[..j], x) + sorted[j..]
    {
      ghost var before := a[..];
      assert before[j - 1] == sorted[j - 1];
      a[j] := a[j - 1];
      a[j - 1] := x;
      assert a[..] == before[j := sorted[j - 1]][j - 1 := x];
      ShiftLeft(sorted, x, rest, j);
      InsertLastShift(sorted, x, j);
      j := j - 1;
    }
    assert j > 0 ==> a[..][j - 1] == sorted[j - 1];
    assert j > 0 ==> sorted[..j][j - 1] == sorted[j - 1];
    assert InsertLast(sorted[..j], x) == sorted[..j] + [x];
  }

  /** The in-place sort: insertion sort on the array, inserting each element in input
      order, so that equal counts keep their order. */
  method SortInPlace(a: array<Candidate>)
    modifies a
    ensures a[..] == SortByFollowers(old(a[..]))
  {
    ghost var input := a[..];
    var i := 0;
    while i < a.Length
      invariant 0 <= i <= a.Length
      invariant a[..] == SortByFollowers(input[..i]) + input[i..]
    {
      SortStep(a[..], input, i);
      InsertAt(a, i);
      i := i + 1;
    }
    assert input[..a.Length] == input;
  }

  /** One round of the in-place sort, on values: the array splits into the sorted prefix,
      the next input element and the untouched rest, and inserting that element extends the
      sorted prefix by one. */
  lemma SortStep(cur: seq<Candidate>, input: seq<Candidate>, i: nat)
    requires i < |input| && cur == SortByFollowers(input[..i]) + input[i..]
    ensures |cur| == |input|
    ensures cur[..i] == SortByFollowers(input[..i]) && cur[i] == input[i] && cur[i + 1..] == input[i + 1..]
    ensures InsertLast(cur[..i], cur[i]) + cur[i + 1..] == SortByFollowers(input[..i + 1]) + input[i + 1..]
  {
    var sorted := SortByFollowers(input[..i]);
    SplitAt(cur, sorted, input[i..]);
    assert input[i..][1..] == input[i + 1..];
    SortSnoc(input, i);
  }

  lemma SortSnoc(s: seq<Candidate>, i: nat)
    requires i < |s|
    ensures SortByFollowers(s[..i + 1]) == InsertLast(SortByFollowers(s[..i]), s[i])
  {
    assert s[..i + 1][..i] == s[..i];
  }

  lemma SplitAt(s: seq<Candidate>, p: seq<Candidate>, q: seq<Candidate>)
    requires s == p + q && q != []
    ensures s[..|p|] == p && s[|p|] == q[0] && s[|p| + 1..] == q[1..]
  {
  }
}
