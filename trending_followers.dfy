/** `getRecentFollowers` and the split done by the API handler of the trending-followers
    endpoint: the batched response is folded into candidates, the candidates are ranked, the
    subject is excluded and the head becomes the featured user. */
module TrendingFollowers {
  import opened Options
  import opened Seqs
  import opened TrendingFold
  import opened TrendingSort

  /** What `getRecentFollowers` returns on success: the folded candidates, ranked. */
  function Aggregate(key: Actor -> string, following: seq<Actor>, frags: seq<Fragment>): (r: seq<Candidate>)
    ensures |r| <= |Edges(key, following, frags)|
  {
    SortByFollowers(Fold(key, following, frags))
  }

  /** The fold and the sort of `getRecentFollowers`, step by step: each entry of the response
      is resolved to its first-degree actor (entries that resolve to none are skipped), its
      sampled accounts are folded in, and the candidates are then sorted in place. */
  method GetRecentFollowers(key: Actor -> string, following: seq<Actor>, followingData: seq<Fragment>)
    returns (ranked: seq<Candidate>)
    ensures ranked == Aggregate(key, following, followingData)
  {
    ghost var goal := Fold(key, following, followingData);
    var trendingActors: seq<Candidate> := [];
    var i := 0;
    while i < |followingData|
      invariant 0 <= i <= |followingData|
      invariant FoldEdges(key, trendingActors, Edges(key, following, followingData[i..])) == goal
    {
      var fragment := followingData[i];
      FragmentStep(key, following, followingData, i, trendingActors);
      var resolved := Resolve(key, following, fragment.queryId);
      if resolved.Some? {
        trendingActors := AddSampledUsers(key, trendingActors, resolved.value, fragment.nodes);
      }
      i := i + 1;
    }
    var a := new Candidate[|trendingActors|](j requires 0 <= j < |trendingActors| => trendingActors[j]);
    assert a[..] == trendingActors;
    SortInPlace(a);
    ranked := a[..];
  }

  /** Folding the edges from entry `i` on is folding that entry's edges, when it resolves,
      and then the edges of the entries after it. */
  lemma FragmentStep(key: Actor -> string, following: seq<Actor>, frags: seq<Fragment>, i: nat, acc: seq<Candidate>)
    requires i < |frags|
    ensures Resolve(key, following, frags[i].queryId).None? ==>
              FoldEdges(key, acc, Edges(key, following, frags[i..]))
              == FoldEdges(key, acc, Edges(key, following, frags[i + 1..]))
    ensures Resolve(key, following, frags[i].queryId).Some? ==>
              FoldEdges(key, acc, Edges(key, following, frags[i..]))
              == FoldEdges(key, FoldEdges(key, acc, FragmentEdges(Resolve(key, following, frags[i].queryId).value, frags[i].nodes)),
                           Edges(key, following, frags[i + 1..]))
  {
    assert frags[i..][1..] == frags[i + 1..];
    var later := Edges(key, following, frags[i + 1..]);
    assert Edges(key, following, frags[i..]) == EdgesOf(key, following, frags[i]) + later;
    match Resolve(key, following, frags[i].queryId)
    case None =>
      assert EdgesOf(key, following, frags[i]) + later == later;
    case Some(actor) =>
      FoldEdgesAppend(key, acc, FragmentEdges(actor, frags[i].nodes), later);
  }

  /** The inner loop of `getRecentFollowers` for one resolved entry: each sampled account is
      looked up by key among the candidates so far; a candidate found gains `actor` as its
      last contributor, otherwise a candidate is created with `actor` as its only one. */
  method AddSampledUsers(key: Actor -> string, trendingActors: seq<Candidate>, actor: Actor, nodes: seq<Actor>)
    returns (updated: seq<Candidate>)
    ensures updated == FoldEdges(key, trendingActors, FragmentEdges(actor, nodes))
  {
    updated := trendingActors;
    ghost var goal := FoldEdges(key, trendingActors, FragmentEdges(actor, nodes));
    assert nodes[0..] == nodes;
    var k := 0;
    while k < |nodes|
      invariant 0 <= k <= |nodes|
      invariant FoldEdges(key, updated, FragmentEdges(actor, nodes[k..])) == goal
    {
      var user := nodes[k];
      ghost var before := updated;
      var found := FirstIndex(CandidateKeys(key, updated), key(user));
      AddEdgeFound(key, before, Edge(actor, user), found);
      if found.Some? {
        var j := found.value;
        updated := updated[j := Candidate(updated[j].user, updated[j].newFollowers + [actor])];
      } else {
        updated := updated + [Candidate(user, [actor])];
      }
      SampledStep(key, before, actor, nodes, k);
      k := k + 1;
    }
    assert FragmentEdges(actor, nodes[k..]) == [];
  }

  /** Folding an entry's sampled accounts from `k` on is one fold step for account `k`
      followed by the fold of the accounts after it. */
  lemma SampledStep(key: Actor -> string, acc: seq<Candidate>, actor: Actor, nodes: seq<Actor>, k: nat)
    requires k < |nodes|
    ensures FoldEdges(key, acc, FragmentEdges(actor, nodes[k..]))
            == FoldEdges(key, AddEdge(key, acc, Edge(actor, nodes[k])), FragmentEdges(actor, nodes[k + 1..]))
  {
    assert FragmentEdges(actor, nodes[k..]) == [Edge(actor, nodes[k])] + FragmentEdges(actor, nodes[k + 1..]);
  }

  // ---------------------------------------------------------------------------------------
  // Properties of the ranked candidates

  /** The ranking is non-increasing in the number of contributors, is a permutation of the
      folded candidates, and keeps candidates with equal counts in first-observed order. */
  lemma AggregateRanked(key: Actor -> string, following: seq<Actor>, frags: seq<Fragment>)
    ensures NonIncreasing(Aggregate(key, following, frags))
    ensures multiset(Aggregate(key, following, frags)) == multiset(Fold(key, following, frags))
    ensures SameCountClasses(Aggregate(key, following, frags), Fold(key, following, frags))
  {
    var s := Fold(key, following, frags);
    SortSorted(s);
    SortPermutes(s);
    forall n: nat ensures WithCount(SortByFollowers(s), n) == WithCount(s, n) {
      SortStable(s, n);
    }
  }

  /** Before ranking, the candidates appear in first-observed order, one per key. */
  lemma FoldFirstObserved(key: Actor -> string, following: seq<Actor>, frags: seq<Fragment>)
    ensures CandidateKeys(key, Fold(key, following, frags)) == FirstKeys(key, Edges(key, following, frags))
    ensures Distinct(CandidateKeys(key, Fold(key, following, frags)))
  {
    var edges := Edges(key, following, frags);
    FoldIsGrouping(key, edges);
    FirstKeysDistinct(key, edges);
  }

  /** No two ranked candidates share a query key. */
  lemma {:induction false} AggregateUniqueKeys(key: Actor -> string, following: seq<Actor>, frags: seq<Fragment>)
    ensures Distinct(CandidateKeys(key, Aggregate(key, following, frags)))
  {
    FoldFirstObserved(key, following, frags);
    SortKeepsDistinctKeys(key, Fold(key, following, frags));
  }

  /** Appending a candidate whose key is new keeps the keys distinct. */
  lemma DistinctSnoc(key: Actor -> string, t: seq<Candidate>, x: Candidate)
    requires Distinct(CandidateKeys(key, t))
    requires forall c :: c in t ==> key(c.user) != key(x.user)
    ensures Distinct(CandidateKeys(key, t + [x]))
  {
    var ks := CandidateKeys(key, t + [x]);
    forall i, j | 0 <= i < j < |ks| ensures ks[i] != ks[j] {
      assert ks[i] == CandidateKeys(key, t)[i];
      if j < |t| {
        assert ks[j] == CandidateKeys(key, t)[j];
      } else {
        assert t[i] in t;
      }
    }
  }

  /** Distinct keys stay distinct in a prefix, and the last key differs from every earlier one. */
  lemma DistinctFront(key: Actor -> string, t: seq<Candidate>)
    requires t != [] && Distinct(CandidateKeys(key, t))
    ensures Distinct(CandidateKeys(key, t[..|t| - 1]))
    ensures forall c :: c in t[..|t| - 1] ==> key(c.user) != key(t[|t| - 1].user)
  {
    var m := |t| - 1;
    var ks := CandidateKeys(key, t);
    assert CandidateKeys(key, t[..m]) == ks[..m];
    forall c | c in t[..m] ensures key(c.user) != key(t[m].user) {
      var p :| 0 <= p < m && t[..m][p] == c;
      assert ks[p] != ks[m];
    }
  }

  lemma {:induction false} InsertLastKeys(key: Actor -> string, t: seq<Candidate>, x: Candidate)
    requires Distinct(CandidateKeys(key, t))
    requires forall c :: c in t ==> key(c.user) != key(x.user)
    ensures Distinct(CandidateKeys(key, InsertLast(t, x)))
    decreases |t|
  {
    if t == [] || Count(x) <= Count(t[|t| - 1]) {
      DistinctSnoc(key, t, x);
    } else {
      var m := |t| - 1;
      var front, last := t[..m], t[m];
      DistinctFront(key, t);
      assert forall c :: c in front ==> c in t;
      InsertLastKeys(key, front, x);
      var r := InsertLast(front, x);
      InsertLastPermutes(front, x);
      forall c | c in r ensures key(c.user) != key(last.user) {
        assert c in multiset(r);
        if c == x {
          assert last in t;
        } else {
          assert c in front;
        }
      }
      DistinctSnoc(key, r, last);
    }
  }

  lemma {:induction false} SortKeepsDistinctKeys(key: Actor -> string, s: seq<Candidate>)
    requires Distinct(CandidateKeys(key, s))
    ensures Distinct(CandidateKeys(key, SortByFollowers(s)))
    decreases |s|
  {
    if s != [] {
      var m := |s| - 1;
      var front, last := s[..m], s[m];
      DistinctFront(key, s);
      SortKeepsDistinctKeys(key, front);
      SortMembers(front);
      InsertLastKeys(key, SortByFollowers(front), last);
    }
  }

  /** Every ranked candidate lists exactly the first-degree actors that follow an account
      with its key, in processing order, at least one of them, and was created from the
      first such account. Every sampled account of a resolved fragment has a candidate. */
  lemma AggregateGroups(key: Actor -> string, following: seq<Actor>, frags: seq<Fragment>)
    ensures forall c :: c in Aggregate(key, following, frags) ==>
              && c.newFollowers == Contributors(key, Edges(key, following, frags), key(c.user))
              && |c.newFollowers| >= 1
              && FirstFollowee(key, Edges(key, following, frags), key(c.user)) == Some(c.user)
    ensures forall e :: e in Edges(key, following, frags) ==>
              exists c :: c in Aggregate(key, following, frags) && key(c.user) == key(e.followee)
  {
    var edges := Edges(key, following, frags);
    RankedGroups(key, edges);
    RankedCoverage(key, edges);
  }

  /** `AggregateGroups` for the ranked fold of any edge sequence: the contributors part. */
  lemma RankedGroups(key: Actor -> string, edges: seq<Edge>)
    ensures forall c :: c in SortByFollowers(FoldEdges(key, [], edges)) ==>
              && c.newFollowers == Contributors(key, edges, key(c.user))
              && |c.newFollowers| >= 1
              && FirstFollowee(key, edges, key(c.user)) == Some(c.user)
  {
    var s := FoldEdges(key, [], edges);
    FoldIsGrouping(key, edges);
    SortMembers(s);
    forall c | c in SortByFollowers(s)
      ensures c.newFollowers == Contributors(key, edges, key(c.user))
      ensures |c.newFollowers| >= 1
      ensures FirstFollowee(key, edges, key(c.user)) == Some(c.user)
    {
      var i :| 0 <= i < |s| && s[i] == c;
      assert CandidateKeys(key, s)[i] == key(c.user);
      Observed(key, edges, key(c.user));
    }
  }

  /** `AggregateGroups` for the ranked fold of any edge sequence: every edge's followee key
      has a candidate. */
  lemma RankedCoverage(key: Actor -> string, edges: seq<Edge>)
    ensures forall e :: e in edges ==>
              exists c :: c in SortByFollowers(FoldEdges(key, [], edges)) && key(c.user) == key(e.followee)
  {
    var s := FoldEdges(key, [], edges);
    FoldIsGrouping(key, edges);
    SortMembers(s);
    EveryFolloweeObserved(key, edges);
    forall e | e in edges ensures exists c :: c in SortByFollowers(s) && key(c.user) == key(e.followee) {
      var p :| 0 <= p < |edges| && edges[p] == e;
      var i :| 0 <= i < |s| && CandidateKeys(key, s)[i] == key(e.followee);
      assert s[i] in SortByFollowers(s);
    }
  }

  /** Conservation: there are as many contributors in all as sampled accounts under
      fragments that resolve to a first-degree actor. */
  lemma Conservation(key: Actor -> string, following: seq<Actor>, frags: seq<Fragment>)
    ensures TotalFollowers(Aggregate(key, following, frags)) == SampledCount(key, following, frags)
  {
    var edges := Edges(key, following, frags);
    FoldEdgesTotal(key, [], edges);
    SortTotal(Fold(key, following, frags));
    EdgesCount(key, following, frags);
  }

  /** A fragment whose query id matches no first-degree actor changes nothing: the result is
      the one without that fragment. */
  lemma UnresolvedFragmentIgnored(key: Actor -> string, following: seq<Actor>,
                                  before: seq<Fragment>, f: Fragment, after: seq<Fragment>)
    requires Resolve(key, following, f.queryId).None?
    ensures Aggregate(key, following, before + [f] + after) == Aggregate(key, following, before + after)
  {
    EdgesAppend(key, following, before + [f], after);
    EdgesAppend(key, following, before, [f]);
    EdgesAppend(key, following, before, after);
    assert Edges(key, following, [f]) == [];
    assert Edges(key, following, before) + [] == Edges(key, following, before);
  }

  /** When the response's query ids are distinct and every sample lists distinct accounts,
      no candidate lists a first-degree actor twice (no two of its contributors even share a
      query key). */
  lemma NoRepeatedContributor(key: Actor -> string, following: seq<Actor>, frags: seq<Fragment>)
    requires Distinct(QueryIds(frags))
    requires DistinctSamples(key, frags)
    ensures forall c :: c in Aggregate(key, following, frags) ==> Distinct(ActorKeys(key, c.newFollowers))
  {
    AggregateGroups(key, following, frags);
    forall c | c in Aggregate(key, following, frags) ensures Distinct(ActorKeys(key, c.newFollowers)) {
      ContributorsDistinct(key, following, frags, key(c.user));
    }
  }

  /** A subject who follows nobody has no candidates. */
  lemma {:induction false} NoFollowingNoCandidates(key: Actor -> string, frags: seq<Fragment>)
    ensures Aggregate(key, [], frags) == []
  {
    NoFollowingNoEdges(key, frags);
  }

  lemma {:induction false} NoFollowingNoEdges(key: Actor -> string, frags: seq<Fragment>)
    ensures Edges(key, [], frags) == []
    decreases |frags|
  {
    if frags != [] {
      NoFollowingNoEdges(key, frags[1..]);
    }
  }

  // ---------------------------------------------------------------------------------------
  // The handler's split

  /** The ranked candidates without the subject, in the same order. */
  function WithoutSubject(ranked: seq<Candidate>, subject: string): (r: seq<Candidate>)
    ensures forall c :: c in r <==> c in ranked && c.user.login != subject
    ensures |r| <= |ranked|
    decreases |ranked|
  {
    if ranked == [] then []
    else
      var rest := WithoutSubject(ranked[..|ranked| - 1], subject);
      var last := ranked[|ranked| - 1];
      assert ranked == ranked[..|ranked| - 1] + [last];
      if last.user.login != subject then rest + [last] else rest
  }

  /** What the handler sends back: the featured candidate, if any, and the rest. */
  datatype TrendingResponse = TrendingResponse(featuredUser: Option<Candidate>, trendingInNetwork: seq<Candidate>)

  /** The handler's split: the ranked list without the subject is destructured into its head,
      the featured user (absent when nothing is left), and its tail, the trending list. */
  function Split(ranked: seq<Candidate>, subject: string): (r: TrendingResponse)
    ensures r.featuredUser.None? <==> forall c :: c in ranked ==> c.user.login == subject
    ensures r.featuredUser.None? ==> r.trendingInNetwork == []
    ensures r.featuredUser.Some? ==> [r.featuredUser.value] + r.trendingInNetwork == WithoutSubject(ranked, subject)
    ensures r.featuredUser.Some? ==> r.featuredUser.value.user.login != subject
    ensures forall c :: c in r.trendingInNetwork ==> c in ranked && c.user.login != subject
  {
    var kept := WithoutSubject(ranked, subject);
    if kept == [] then TrendingResponse(None, [])
    else
      assert kept[0] in kept;
      assert kept == [kept[0]] + kept[1..];
      TrendingResponse(Some(kept[0]), kept[1..])
  }

  /** Removing the subject keeps the list ranked. */
  lemma {:induction false} WithoutSubjectRanked(ranked: seq<Candidate>, subject: string)
    requires NonIncreasing(ranked)
    ensures NonIncreasing(WithoutSubject(ranked, subject))
    decreases |ranked|
  {
    if ranked != [] {
      var n := |ranked| - 1;
      var front, last := ranked[..n], ranked[n];
      assert ranked == front + [last];
      RankedFront(front, last);
      WithoutSubjectRanked(front, subject);
      WithoutSubjectSplit(front, [last], subject);
      assert WithoutSubject([last], subject) == (if last.user.login != subject then [last] else []) by {
        assert [last][..0] == [];
      }
      if last.user.login != subject {
        SnocRanked(WithoutSubject(front, subject), last);
      }
    }
  }

  /** Removing the subject keeps input order: filtering a concatenation is concatenating
      the filtered parts. */
  lemma {:induction false} WithoutSubjectSplit(a: seq<Candidate>, b: seq<Candidate>, subject: string)
    ensures WithoutSubject(a + b, subject) == WithoutSubject(a, subject) + WithoutSubject(b, subject)
    decreases |b|
  {
    if b == [] {
      assert a + b == a;
    } else {
      var n := |b| - 1;
      assert (a + b)[..|a + b| - 1] == a + b[..n];
      WithoutSubjectSplit(a, b[..n], subject);
    }
  }

  /** Removing the subject keeps every other candidate as often as the input holds it. */
  lemma {:induction false} WithoutSubjectCounts(ranked: seq<Candidate>, subject: string, c: Candidate)
    requires c.user.login != subject
    ensures multiset(WithoutSubject(ranked, subject))[c] == multiset(ranked)[c]
    decreases |ranked|
  {
    if ranked != [] {
      var n := |ranked| - 1;
      var front, x := ranked[..n], ranked[n];
      WithoutSubjectCounts(front, subject, c);
      MultisetSnoc(ranked);
      var w := if x.user.login != subject then [x] else [];
      var before := WithoutSubject(front, subject);
      assert WithoutSubject(ranked, subject) == before + w;
      assert multiset(before + w) == multiset(before) + multiset(w);
      if x == c {
        assert w == [c];
      }
    }
  }

  /** The whole handler on the folded data: the featured user has no fewer contributors than
      any other non-subject candidate, the trending list stays ranked, and the subject appears
      nowhere. */
  lemma HandlerResponse(key: Actor -> string, subject: string, following: seq<Actor>, frags: seq<Fragment>)
    ensures var r := Split(Aggregate(key, following, frags), subject);
              && (r.featuredUser.Some? ==>
                    forall c :: c in r.trendingInNetwork ==> Count(c) <= Count(r.featuredUser.value))
              && NonIncreasing(r.trendingInNetwork)
              && (r.featuredUser.Some? ==> r.featuredUser.value.user.login != subject)
              && (forall c :: c in r.trendingInNetwork ==> c.user.login != subject)
  {
    var ranked := Aggregate(key, following, frags);
    AggregateRanked(key, following, frags);
    WithoutSubjectRanked(ranked, subject);
    var r := Split(ranked, subject);
    if r.featuredUser.Some? {
      HeadLeads(r.featuredUser.value, r.trendingInNetwork);
    }
  }

  /** A subject who follows nobody gets no featured user and an empty trending list. */
  lemma EmptyFollowingResponse(key: Actor -> string, subject: string, frags: seq<Fragment>)
    ensures Split(Aggregate(key, [], frags), subject) == TrendingResponse(None, [])
  {
    NoFollowingNoCandidates(key, frags);
  }

  // The worked example: the subject follows A and B; A's sample is [X, Y] and B's is [X, Z].

  function LoginKey(u: Actor): string { u.login }

  lemma ExampleEdges(a: Actor, b: Actor, x: Actor, y: Actor, z: Actor)
    requires a.login == "A" && b.login == "B"
    ensures Edges(LoginKey, [a, b], [Fragment("A", [x, y]), Fragment("B", [x, z])])
            == [Edge(a, x), Edge(a, y), Edge(b, x), Edge(b, z)]
  {
    var frags := [Fragment("A", [x, y]), Fragment("B", [x, z])];
    assert ActorKeys(LoginKey, [a, b]) == ["A", "B"];
    assert Resolve(LoginKey, [a, b], "A") == Some(a);
    assert Resolve(LoginKey, [a, b], "B") == Some(b);
    assert frags[1..] == [Fragment("B", [x, z])];
    assert FragmentEdges(a, [x, y]) == [Edge(a, x), Edge(a, y)];
    assert FragmentEdges(b, [x, z]) == [Edge(b, x), Edge(b, z)];
    assert Edges(LoginKey, [a, b], frags[1..]) == [Edge(b, x), Edge(b, z)] + Edges(LoginKey, [a, b], []);
  }

  lemma ExampleFold(a: Actor, b: Actor, x: Actor, y: Actor, z: Actor)
    requires x.login == "X" && y.login == "Y" && z.login == "Z"
    ensures FoldEdges(LoginKey, [], [Edge(a, x), Edge(a, y), Edge(b, x), Edge(b, z)])
            == [Candidate(x, [a, b]), Candidate(y, [a]), Candidate(z, [b])]
  {
    var edges := [Edge(a, x), Edge(a, y), Edge(b, x), Edge(b, z)];
    var c1 := [Candidate(x, [a])];
    var c2 := c1 + [Candidate(y, [a])];
    var c3 := [Candidate(x, [a, b]), Candidate(y, [a])];
    var c4 := c3 + [Candidate(z, [b])];
    assert AddEdge(LoginKey, [], Edge(a, x)) == c1;
    assert AddEdge(LoginKey, c1, Edge(a, y)) == c2 by {
      assert CandidateKeys(LoginKey, c1) == ["X"];
    }
    assert AddEdge(LoginKey, c2, Edge(b, x)) == c3 by {
      assert CandidateKeys(LoginKey, c2) == ["X", "Y"];
      assert FirstIndex(["X", "Y"], "X") == Some(0);
      assert [a] + [b] == [a, b];
    }
    assert AddEdge(LoginKey, c3, Edge(b, z)) == c4 by {
      assert CandidateKeys(LoginKey, c3) == ["X", "Y"];
      assert FirstIndex(["X", "Y"], "Z") == None;
    }
    assert edges[1..] == [Edge(a, y), Edge(b, x), Edge(b, z)];
    assert edges[1..][1..] == [Edge(b, x), Edge(b, z)];
    assert edges[1..][1..][1..] == [Edge(b, z)];
    assert edges[1..][1..][1..][1..] == [];
    assert FoldEdges(LoginKey, c4, []) == c4;
    assert FoldEdges(LoginKey, c3, [Edge(b, z)]) == c4;
    assert FoldEdges(LoginKey, c2, [Edge(b, x), Edge(b, z)]) == c4;
    assert FoldEdges(LoginKey, c1, edges[1..]) == c4;
  }

  lemma ExampleSort(a: Actor, b: Actor, x: Actor, y: Actor, z: Actor)
    ensures SortByFollowers([Candidate(x, [a, b]), Candidate(y, [a]), Candidate(z, [b])])
            == [Candidate(x, [a, b]), Candidate(y, [a]), Candidate(z, [b])]
  {
    var c := [Candidate(x, [a, b]), Candidate(y, [a]), Candidate(z, [b])];
    assert c[..2][..1] == c[..1];
    assert c[..1][..0] == [];
    assert SortByFollowers(c[..1]) == c[..1];
    assert SortByFollowers(c[..2]) == c[..2];
  }

  lemma ExampleSplit(a: Actor, b: Actor, x: Actor, y: Actor, z: Actor, subject: string)
    requires subject != x.login && subject != y.login && subject != z.login
    ensures Split([Candidate(x, [a, b]), Candidate(y, [a]), Candidate(z, [b])], subject)
            == TrendingResponse(Some(Candidate(x, [a, b])), [Candidate(y, [a]), Candidate(z, [b])])
  {
    var c := [Candidate(x, [a, b]), Candidate(y, [a]), Candidate(z, [b])];
    assert c[..2][..1] == c[..1];
    assert c[..1][..0] == [];
    assert WithoutSubject(c[..1], subject) == c[..1];
    assert WithoutSubject(c[..2], subject) == c[..2];
    assert WithoutSubject(c, subject) == c;
  }

  /** X is featured with contributors [A, B]; Y and Z follow with [A] and [B], Y first
      because it was observed first. */
  lemma Example(a: Actor, b: Actor, x: Actor, y: Actor, z: Actor, subject: string)
    requires a.login == "A" && b.login == "B"
    requires x.login == "X" && y.login == "Y" && z.login == "Z"
    requires subject !in {"X", "Y", "Z"}
    ensures Split(Aggregate(LoginKey, [a, b], [Fragment("A", [x, y]), Fragment("B", [x, z])]), subject)
            == TrendingResponse(Some(Candidate(x, [a, b])), [Candidate(y, [a]), Candidate(z, [b])])
  {
    ExampleEdges(a, b, x, y, z);
    ExampleFold(a, b, x, y, z);
    ExampleSort(a, b, x, y, z);
    ExampleSplit(a, b, x, y, z, subject);
  }
}
