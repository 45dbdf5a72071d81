/** The entities of the trending-followers aggregation and the specification of its fold:
    the batched response is flattened into follow edges, and the edges are folded, one at a
    time, into candidates grouped by the query key of the followed account. */
module TrendingFold {
  import opened Options
  import opened Seqs

  /** A platform account. Only the fields the fold and the split look at are kept; the
      profile fields are copied along unchanged by the source and are not modelled. `id`
      stands for either form of the account's id: the number on a first-degree account and
      the GraphQL `ID` string on a sampled one, written here as text. */
  datatype Actor = Actor(login: string, id: string)

  /** A second-degree account together with the first-degree accounts that follow it,
      in the order they were observed. */
  datatype Candidate = Candidate(user: Actor, newFollowers: seq<Actor>)

  /** One entry of the batched response: the query id that tags it and the sampled
      accounts that the tagged first-degree account follows. */
  datatype Fragment = Fragment(queryId: string, nodes: seq<Actor>)

  /** "follower follows followee": a first-degree account following a sampled account. */
  datatype Edge = Edge(follower: Actor, followee: Actor)

  /** The query keys of a list of accounts, position by position. */
  function ActorKeys(key: Actor -> string, s: seq<Actor>): seq<string>
  {
    seq(|s|, i requires 0 <= i < |s| => key(s[i]))
  }

  /** The query keys of the candidates, position by position; a candidate is keyed by the
      account it was created from. */
  function CandidateKeys(key: Actor -> string, cands: seq<Candidate>): seq<string>
  {
    seq(|cands|, i requires 0 <= i < |cands| => key(cands[i].user))
  }

  predicate Distinct(ks: seq<string>)
  {
    forall i, j :: 0 <= i < j < |ks| ==> ks[i] != ks[j]
  }

  /** The first-degree account a fragment's query id was generated from, if any. */
  function Resolve(key: Actor -> string, following: seq<Actor>, queryId: string): (r: Option<Actor>)
    ensures r.None? <==> forall u :: u in following ==> key(u) != queryId
    ensures r.Some? ==> exists i :: 0 <= i < |following| && following[i] == r.value
                                    && key(r.value) == queryId
                                    && forall j :: 0 <= j < i ==> key(following[j]) != queryId
  {
    var ks := ActorKeys(key, following);
    match FirstIndex(ks, queryId)
    case None =>
      assert forall i :: 0 <= i < |following| ==> ks[i] == key(following[i]);
      None
    case Some(i) =>
      assert forall j :: 0 <= j < i ==> ks[j] == key(following[j]);
      Some(following[i])
  }

  /** The edges contributed by an actor whose sampled following list is `nodes`. */
  function FragmentEdges(actor: Actor, nodes: seq<Actor>): seq<Edge>
  {
    seq(|nodes|, i requires 0 <= i < |nodes| => Edge(actor, nodes[i]))
  }

  /** The edges of one fragment: none when its query id resolves to no first-degree actor. */
  function EdgesOf(key: Actor -> string, following: seq<Actor>, f: Fragment): seq<Edge>
  {
    match Resolve(key, following, f.queryId)
    case None => []
    case Some(actor) => FragmentEdges(actor, f.nodes)
  }

  /** All edges of the batched response, in processing order. */
  function Edges(key: Actor -> string, following: seq<Actor>, frags: seq<Fragment>): (r: seq<Edge>)
    ensures forall i :: 0 <= i < |r| ==> r[i].follower in following
    decreases |frags|
  {
    if frags == [] then []
    else EdgesOf(key, following, frags[0]) + Edges(key, following, frags[1..])
  }

  /** The number of sampled accounts under fragments that resolve to a first-degree actor. */
  function SampledCount(key: Actor -> string, following: seq<Actor>, frags: seq<Fragment>): nat
    decreases |frags|
  {
    if frags == [] then 0
    else
      (if Resolve(key, following, frags[0].queryId).Some? then |frags[0].nodes| else 0)
      + SampledCount(key, following, frags[1..])
  }

  /** One step of the fold: append the follower to the candidate with the followee's key,
      or create a candidate seeded with that follower. */
  function AddEdge(key: Actor -> string, cands: seq<Candidate>, e: Edge): (r: seq<Candidate>)
    ensures |r| == |cands| + (if key(e.followee) in CandidateKeys(key, cands) then 0 else 1)
  {
    match FirstIndex(CandidateKeys(key, cands), key(e.followee))
    case Some(j) =>
      cands[j := Candidate(cands[j].user, cands[j].newFollowers + [e.follower])]
    case None =>
      cands + [Candidate(e.followee, [e.follower])]
  }

  /** The two branches of the find-then-push step are the two cases of `AddEdge`. */
  lemma AddEdgeFound(key: Actor -> string, cands: seq<Candidate>, e: Edge, found: Option<nat>)
    requires found == FirstIndex(CandidateKeys(key, cands), key(e.followee))
    ensures found.Some? ==> found.value < |cands|
    ensures found.Some? ==>
              AddEdge(key, cands, e) == cands[found.value := Candidate(cands[found.value].user,
                                                                      cands[found.value].newFollowers + [e.follower])]
    ensures found.None? ==> AddEdge(key, cands, e) == cands + [Candidate(e.followee, [e.follower])]
  {
  }

  /** The fold of the remaining edges into the candidates built so far. */
  function FoldEdges(key: Actor -> string, acc: seq<Candidate>, edges: seq<Edge>): (r: seq<Candidate>)
    ensures |acc| <= |r| <= |acc| + |edges|
    decreases |edges|
  {
    if edges == [] then acc
    else FoldEdges(key, AddEdge(key, acc, edges[0]), edges[1..])
  }

  /** The candidates before ranking. */
  function Fold(key: Actor -> string, following: seq<Actor>, frags: seq<Fragment>): (r: seq<Candidate>)
    ensures |r| <= |Edges(key, following, frags)|
  {
    FoldEdges(key, [], Edges(key, following, frags))
  }

  // ---------------------------------------------------------------------------------------
  // An independent description of the grouping, by induction on the edges seen so far.

  /** The followee keys in order of first observation. */
  function FirstKeys(key: Actor -> string, edges: seq<Edge>): seq<string>
    decreases |edges|
  {
    if edges == [] then []
    else
      var seen := FirstKeys(key, edges[..|edges| - 1]);
      var k := key(edges[|edges| - 1].followee);
      if k in seen then seen else seen + [k]
  }

  /** The followers of every edge whose followee has key `k`, in edge order. */
  function Contributors(key: Actor -> string, edges: seq<Edge>, k: string): seq<Actor>
    decreases |edges|
  {
    if edges == [] then []
    else
      var last := edges[|edges| - 1];
      Contributors(key, edges[..|edges| - 1], k) + (if key(last.followee) == k then [last.follower] else [])
  }

  /** The followee of the first edge whose followee has key `k`. */
  function FirstFollowee(key: Actor -> string, edges: seq<Edge>, k: string): Option<Actor>
    decreases |edges|
  {
    if edges == [] then None
    else
      var last := edges[|edges| - 1];
      match FirstFollowee(key, edges[..|edges| - 1], k)
      case Some(a) => Some(a)
      case None => if key(last.followee) == k then Some(last.followee) else None
  }

  /** `cands` is the grouping of `edges`: one candidate per followee key, in order of first
      observation, created from the first account seen with that key and listing exactly the
      followers of that key's edges, in edge order. */
  ghost predicate GroupOf(key: Actor -> string, cands: seq<Candidate>, edges: seq<Edge>)
  {
    && CandidateKeys(key, cands) == FirstKeys(key, edges)
    && forall i :: 0 <= i < |cands| ==>
         && cands[i].newFollowers == Contributors(key, edges, key(cands[i].user))
         && FirstFollowee(key, edges, key(cands[i].user)) == Some(cands[i].user)
  }

  /** The total number of contributors over all candidates. */
  function TotalFollowers(cands: seq<Candidate>): nat
    decreases |cands|
  {
    if cands == [] then 0
    else TotalFollowers(cands[..|cands| - 1]) + |cands[|cands| - 1].newFollowers|
  }

  // ---------------------------------------------------------------------------------------
  // Lemmas

  lemma {:induction false} FirstKeysDistinct(key: Actor -> string, edges: seq<Edge>)
    ensures Distinct(FirstKeys(key, edges))
    decreases |edges|
  {
    if edges != [] {
      FirstKeysDistinct(key, edges[..|edges| - 1]);
    }
  }

  /** A key has been observed exactly when it has contributors, and exactly when it has a
      first followee, which then carries that key. */
  lemma {:induction false} Observed(key: Actor -> string, edges: seq<Edge>, k: string)
    ensures k in FirstKeys(key, edges) <==> Contributors(key, edges, k) != []
    ensures k in FirstKeys(key, edges) <==> FirstFollowee(key, edges, k).Some?
    ensures FirstFollowee(key, edges, k).Some? ==> key(FirstFollowee(key, edges, k).value) == k
    decreases |edges|
  {
    if edges != [] {
      Observed(key, edges[..|edges| - 1], k);
    }
  }

  /** Every sampled account's key is among the observed keys. */
  lemma {:induction false} EveryFolloweeObserved(key: Actor -> string, edges: seq<Edge>)
    ensures forall i :: 0 <= i < |edges| ==> key(edges[i].followee) in FirstKeys(key, edges)
    decreases |edges|
  {
    if edges != [] {
      var prefix := edges[..|edges| - 1];
      EveryFolloweeObserved(key, prefix);
      forall i | 0 <= i < |edges| - 1
        ensures key(edges[i].followee) in FirstKeys(key, edges)
      {
        assert edges[i] == prefix[i];
      }
    }
  }

  /** The first edge with a new key seeds that key with exactly its own follower. */
  lemma FirstObservationSeeds(key: Actor -> string, edges: seq<Edge>, e: Edge)
    requires key(e.followee) !in FirstKeys(key, edges)
    ensures Contributors(key, edges + [e], key(e.followee)) == [e.follower]
    ensures FirstFollowee(key, edges + [e], key(e.followee)) == Some(e.followee)
    ensures FirstKeys(key, edges + [e]) == FirstKeys(key, edges) + [key(e.followee)]
  {
    assert (edges + [e])[..|edges|] == edges;
    Observed(key, edges, key(e.followee));
  }

  /** One fold step keeps the grouping description. */
  lemma AddEdgeGroups(key: Actor -> string, cands: seq<Candidate>, edges: seq<Edge>, e: Edge)
    requires GroupOf(key, cands, edges)
    ensures GroupOf(key, AddEdge(key, cands, e), edges + [e])
  {
    var edges' := edges + [e];
    assert edges'[..|edges'| - 1] == edges;
    var k := key(e.followee);
    FirstKeysDistinct(key, edges);
    var ks := CandidateKeys(key, cands);
    var r := AddEdge(key, cands, e);
    match FirstIndex(ks, k)
    case Some(j) =>
      assert FirstKeys(key, edges') == FirstKeys(key, edges);
      assert CandidateKeys(key, r) == ks;
      forall i | 0 <= i < |r|
        ensures r[i].newFollowers == Contributors(key, edges', key(r[i].user))
        ensures FirstFollowee(key, edges', key(r[i].user)) == Some(r[i].user)
      {
        if i != j {
          assert ks[i] != ks[j];
        }
      }
    case None =>
      FirstObservationSeeds(key, edges, e);
      assert CandidateKeys(key, r) == ks + [k];
      forall i | 0 <= i < |r|
        ensures r[i].newFollowers == Contributors(key, edges', key(r[i].user))
        ensures FirstFollowee(key, edges', key(r[i].user)) == Some(r[i].user)
      {
        if i < |cands| {
          assert ks[i] != k;
        }
      }
  }

  /** Folding further edges extends the grouping to them. */
  lemma {:induction false} FoldEdgesGroups(key: Actor -> string, acc: seq<Candidate>, done: seq<Edge>, todo: seq<Edge>)
    requires GroupOf(key, acc, done)
    ensures GroupOf(key, FoldEdges(key, acc, todo), done + todo)
    decreases |todo|
  {
    if todo == [] {
      assert done + todo == done;
    } else {
      AddEdgeGroups(key, acc, done, todo[0]);
      assert done + todo == (done + [todo[0]]) + todo[1..];
      FoldEdgesGroups(key, AddEdge(key, acc, todo[0]), done + [todo[0]], todo[1..]);
    }
  }

  lemma {:induction false} FoldEdgesAppend(key: Actor -> string, acc: seq<Candidate>, a: seq<Edge>, b: seq<Edge>)
    ensures FoldEdges(key, acc, a + b) == FoldEdges(key, FoldEdges(key, acc, a), b)
    decreases |a|
  {
    if a == [] {
      assert a + b == b;
    } else {
      assert (a + b)[1..] == a[1..] + b;
      FoldEdgesAppend(key, AddEdge(key, acc, a[0]), a[1..], b);
    }
  }

  /** The fold, started empty, is the grouping of its edges. */
  lemma FoldIsGrouping(key: Actor -> string, edges: seq<Edge>)
    ensures GroupOf(key, FoldEdges(key, [], edges), edges)
  {
    assert [] + edges == edges;
    FoldEdgesGroups(key, [], [], edges);
  }

  lemma {:induction false} TotalFollowersUpdate(s: seq<Candidate>, j: nat, c: Candidate)
    requires j < |s|
    ensures TotalFollowers(s[j := c]) + |s[j].newFollowers| == TotalFollowers(s) + |c.newFollowers|
    decreases |s|
  {
    var n := |s| - 1;
    if j < n {
      assert s[j := c][..n] == s[..n][j := c];
      TotalFollowersUpdate(s[..n], j, c);
    } else {
      assert s[j := c][..n] == s[..n];
    }
  }

  lemma AddEdgeTotal(key: Actor -> string, cands: seq<Candidate>, e: Edge)
    ensures TotalFollowers(AddEdge(key, cands, e)) == TotalFollowers(cands) + 1
  {
    match FirstIndex(CandidateKeys(key, cands), key(e.followee))
    case Some(j) =>
      TotalFollowersUpdate(cands, j, Candidate(cands[j].user, cands[j].newFollowers + [e.follower]));
    case None =>
      assert (cands + [Candidate(e.followee, [e.follower])])[..|cands|] == cands;
  }

  /** Every folded edge adds exactly one contributor. */
  lemma {:induction false} FoldEdgesTotal(key: Actor -> string, acc: seq<Candidate>, edges: seq<Edge>)
    ensures TotalFollowers(FoldEdges(key, acc, edges)) == TotalFollowers(acc) + |edges|
    decreases |edges|
  {
    if edges != [] {
      AddEdgeTotal(key, acc, edges[0]);
      FoldEdgesTotal(key, AddEdge(key, acc, edges[0]), edges[1..]);
    }
  }

  lemma {:induction false} EdgesCount(key: Actor -> string, following: seq<Actor>, frags: seq<Fragment>)
    ensures |Edges(key, following, frags)| == SampledCount(key, following, frags)
    decreases |frags|
  {
    if frags != [] {
      EdgesCount(key, following, frags[1..]);
    }
  }

  lemma {:induction false} EdgesAppend(key: Actor -> string, following: seq<Actor>, a: seq<Fragment>, b: seq<Fragment>)
    ensures Edges(key, following, a + b) == Edges(key, following, a) + Edges(key, following, b)
    decreases |a|
  {
    if a == [] {
      assert a + b == b;
    } else {
      assert (a + b)[1..] == a[1..] + b;
      EdgesAppend(key, following, a[1..], b);
    }
  }

  lemma {:induction false} ContributorsAppend(key: Actor -> string, a: seq<Edge>, b: seq<Edge>, k: string)
    ensures Contributors(key, a + b, k) == Contributors(key, a, k) + Contributors(key, b, k)
    decreases |b|
  {
    if b == [] {
      assert a + b == a;
    } else {
      var n := |b| - 1;
      assert (a + b)[..|a + b| - 1] == a + b[..n];
      ContributorsAppend(key, a, b[..n], k);
    }
  }

  /** Within one fragment whose sampled accounts have distinct keys, a key has at most the
      fragment's own actor as contributor. */
  lemma {:induction false} FragmentContributors(key: Actor -> string, actor: Actor, nodes: seq<Actor>, k: string)
    requires Distinct(ActorKeys(key, nodes))
    ensures Contributors(key, FragmentEdges(actor, nodes), k) == if k in ActorKeys(key, nodes) then [actor] else []
    decreases |nodes|
  {
    if nodes != [] {
      var n := |nodes| - 1;
      var prefix := nodes[..n];
      var es := FragmentEdges(actor, nodes);
      var ks := ActorKeys(key, nodes);
      assert es[..n] == FragmentEdges(actor, prefix);
      assert es[n] == Edge(actor, nodes[n]);
      assert Contributors(key, es, k)
          == Contributors(key, es[..n], k) + (if ks[n] == k then [actor] else []);
      assert ActorKeys(key, prefix) == ks[..n];
      DistinctPrefix(ks, n);
      FragmentContributors(key, actor, prefix, k);
      LastKeyFresh(ks, k);
    }
  }

  /** In a sequence of distinct keys, the last key is not among the earlier ones. */
  lemma LastKeyFresh(ks: seq<string>, k: string)
    requires ks != [] && Distinct(ks)
    ensures k in ks <==> k in ks[..|ks| - 1] || ks[|ks| - 1] == k
    ensures k in ks[..|ks| - 1] ==> ks[|ks| - 1] != k
  {
    var n := |ks| - 1;
    assert ks == ks[..n] + [ks[n]];
    if k in ks[..n] {
      var i :| 0 <= i < n && ks[..n][i] == k;
      assert ks[i] != ks[n];
    }
  }

  lemma DistinctPrefix(ks: seq<string>, n: nat)
    requires n <= |ks| && Distinct(ks)
    ensures Distinct(ks[..n])
  {
  }

  /** The query ids of a list of fragments. */
  function QueryIds(frags: seq<Fragment>): seq<string>
  {
    seq(|frags|, i requires 0 <= i < |frags| => frags[i].queryId)
  }

  /** Each fragment's sampled accounts have distinct keys. */
  ghost predicate DistinctSamples(key: Actor -> string, frags: seq<Fragment>)
  {
    forall i :: 0 <= i < |frags| ==> Distinct(ActorKeys(key, frags[i].nodes))
  }

  /** A fragment's edges have its resolved actor as their only follower. */
  lemma FragmentFollowers(key: Actor -> string, actor: Actor, nodes: seq<Actor>, k: string)
    ensures forall a :: a in Contributors(key, FragmentEdges(actor, nodes), k) ==> a == actor
    decreases |nodes|
  {
    if nodes != [] {
      var n := |nodes| - 1;
      assert FragmentEdges(actor, nodes)[..n] == FragmentEdges(actor, nodes[..n]);
      FragmentFollowers(key, actor, nodes[..n], k);
    }
  }

  /** Every contributor is the actor that one of the fragments' query ids resolves to. */
  lemma {:induction false} ContributorsTagged(key: Actor -> string, following: seq<Actor>, frags: seq<Fragment>, k: string)
    ensures forall a :: a in Contributors(key, Edges(key, following, frags), k) ==> key(a) in QueryIds(frags)
    decreases |frags|
  {
    if frags != [] {
      var rest := frags[1..];
      ContributorsTagged(key, following, rest, k);
      var here := EdgesOf(key, following, frags[0]);
      var tail := Edges(key, following, rest);
      ContributorsAppend(key, here, tail, k);
      var resolved := Resolve(key, following, frags[0].queryId);
      if resolved.None? {
        assert Contributors(key, here, k) == [];
      } else {
        FragmentFollowers(key, resolved.value, frags[0].nodes, k);
      }
      forall a | a in Contributors(key, Edges(key, following, frags), k) ensures key(a) in QueryIds(frags) {
        if a in Contributors(key, tail, k) {
          var i :| 0 <= i < |rest| && QueryIds(rest)[i] == key(a);
          assert QueryIds(frags)[i + 1] == key(a);
        } else {
          assert QueryIds(frags)[0] == key(a);
        }
      }
    }
  }

  lemma FirstQueryIdFresh(frags: seq<Fragment>)
    requires frags != [] && Distinct(QueryIds(frags))
    ensures frags[0].queryId !in QueryIds(frags[1..])
  {
    var rest := frags[1..];
    forall i | 0 <= i < |rest| ensures QueryIds(rest)[i] != frags[0].queryId {
      assert QueryIds(frags)[i + 1] == QueryIds(rest)[i];
      assert QueryIds(frags)[0] == frags[0].queryId;
    }
  }

  lemma RestDistinct(key: Actor -> string, frags: seq<Fragment>)
    requires frags != [] && Distinct(QueryIds(frags)) && DistinctSamples(key, frags)
    ensures Distinct(QueryIds(frags[1..])) && DistinctSamples(key, frags[1..])
  {
    var rest := frags[1..];
    assert QueryIds(rest) == QueryIds(frags)[1..];
    forall i | 0 <= i < |rest| ensures Distinct(ActorKeys(key, rest[i].nodes)) {
      assert rest[i] == frags[i + 1];
    }
  }

  /** When the response's query ids are distinct (they are the keys of one record) and each
      sample lists distinct accounts, the contributors of every key have distinct keys. */
  lemma {:induction false} ContributorsDistinct(key: Actor -> string, following: seq<Actor>, frags: seq<Fragment>, k: string)
    requires Distinct(QueryIds(frags))
    requires DistinctSamples(key, frags)
    ensures Distinct(ActorKeys(key, Contributors(key, Edges(key, following, frags), k)))
    decreases |frags|
  {
    if frags != [] {
      var rest := frags[1..];
      RestDistinct(key, frags);
      ContributorsDistinct(key, following, rest, k);
      var here := EdgesOf(key, following, frags[0]);
      var tail := Edges(key, following, rest);
      assert Edges(key, following, frags) == here + tail;
      ContributorsAppend(key, here, tail, k);
      var c1 := Contributors(key, here, k);
      var c2 := Contributors(key, tail, k);
      var resolved := Resolve(key, following, frags[0].queryId);
      if resolved.Some? {
        FragmentContributors(key, resolved.value, frags[0].nodes, k);
      }
      ContributorsTagged(key, following, rest, k);
      FirstQueryIdFresh(frags);
      PrependFresh(key, c1, c2, QueryIds(rest), frags[0].queryId);
    }
  }

  /** A list of keys stays distinct when one key not among `ids` goes before keys that are. */
  lemma PrependFresh(key: Actor -> string, c1: seq<Actor>, c2: seq<Actor>, ids: seq<string>, newId: string)
    requires c1 == [] || (|c1| == 1 && key(c1[0]) == newId)
    requires newId !in ids
    requires forall a :: a in c2 ==> key(a) in ids
    requires Distinct(ActorKeys(key, c2))
    ensures Distinct(ActorKeys(key, c1 + c2))
  {
    if c1 == [] {
      assert c1 + c2 == c2;
    } else {
      var ks := ActorKeys(key, c1 + c2);
      forall i, j | 0 <= i < j < |ks| ensures ks[i] != ks[j] {
        if i == 0 {
          assert (c1 + c2)[j] == c2[j - 1];
          assert c2[j - 1] in c2;
        } else {
          assert ks[i] == ActorKeys(key, c2)[i - 1];
          assert ks[j] == ActorKeys(key, c2)[j - 1];
        }
      }
    }
  }
}
