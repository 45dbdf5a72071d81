/** The feed page's bucketing of activity events: events by ignored users are dropped and
    every other event is appended, in input order, to the bucket for its type; the "New Repos"
    list is the CreateEvent bucket without tag creations. */
module Feed {
  import opened Options
  import opened Seqs

  /** The twelve event types the page keeps a bucket for, in the order it declares them. */
  datatype EventType =
    | ReleaseEvent | WatchEvent | PushEvent | PullRequestEvent | PullRequestReviewCommentEvent
    | CreateEvent | IssueCommentEvent | IssuesEvent | ForkEvent | DeleteEvent | PublicEvent
    | MemberEvent

  /** An activity event: its type, the display login of its actor, and the `ref_type` of its
      payload when the payload has one. The other fields are passed through to rendering. */
  datatype Event = Event(eventType: EventType, displayLogin: string, refType: Option<string>)

  type EventMap = map<EventType, seq<Event>>

  const IgnoreUsers: seq<string> := ["renovate"]

  const AllEventTypes: seq<EventType> :=
    [ReleaseEvent, WatchEvent, PushEvent, PullRequestEvent, PullRequestReviewCommentEvent,
     CreateEvent, IssueCommentEvent, IssuesEvent, ForkEvent, DeleteEvent, PublicEvent,
     MemberEvent]

  predicate Ignored(e: Event)
  {
    e.displayLogin in IgnoreUsers
  }

  /** The event map the page starts from: a bucket for every type, all empty. */
  function EmptyEventMap(): (m: EventMap)
    ensures forall t: EventType :: t in m && m[t] == []
  {
    var m := map[ReleaseEvent := [], WatchEvent := [], PushEvent := [], PullRequestEvent := [],
                 PullRequestReviewCommentEvent := [], CreateEvent := [], IssueCommentEvent := [],
                 IssuesEvent := [], ForkEvent := [], DeleteEvent := [], PublicEvent := [],
                 MemberEvent := []];
    AllEventTypesComplete();
    assert forall t :: t in AllEventTypes ==> t in m && m[t] == [];
    m
  }

  /** The specification of one bucket: the events of type `t` not by an ignored user, in
      input order. */
  function EventsOfType(events: seq<Event>, t: EventType): (r: seq<Event>)
    ensures |r| <= |events|
    decreases |events|
  {
    if events == [] then []
    else
      var e := events[|events| - 1];
      EventsOfType(events[..|events| - 1], t) + (if !Ignored(e) && e.eventType == t then [e] else [])
  }

  /** The events not by an ignored user, in input order. */
  function Kept(events: seq<Event>): seq<Event>
    decreases |events|
  {
    if events == [] then []
    else
      var e := events[|events| - 1];
      Kept(events[..|events| - 1]) + (if !Ignored(e) then [e] else [])
  }

  /** The `forEach` over the response's events that fills the event map. */
  method BucketEvents(events: seq<Event>) returns (buckets: EventMap)
    ensures forall t: EventType :: t in buckets && buckets[t] == EventsOfType(events, t)
  {
    buckets := EmptyEventMap();
    var i := 0;
    while i < |events|
      invariant 0 <= i <= |events|
      invariant forall t: EventType :: t in buckets && buckets[t] == EventsOfType(events[..i], t)
    {
      var event := events[i];
      assert events[..i + 1][..i] == events[..i];
      if !Ignored(event) {
        buckets := buckets[event.eventType := buckets[event.eventType] + [event]];
      }
      i := i + 1;
    }
    assert events[..i] == events;
  }

  /** The "New Repos" list: the CreateEvent bucket without the events that created a tag. */
  function NewRepos(created: seq<Event>): (r: seq<Event>)
    ensures forall e :: e in r <==> e in created && e.refType != Some("tag")
    ensures |r| <= |created|
    decreases |created|
  {
    if created == [] then []
    else
      var e := created[|created| - 1];
      assert created == created[..|created| - 1] + [e];
      NewRepos(created[..|created| - 1]) + (if e.refType != Some("tag") then [e] else [])
  }

  // ---------------------------------------------------------------------------------------
  // Lemmas

  /** An event lies in a bucket exactly when it is in the input, is not by an ignored user
      and has that bucket's type: ignored events are in no bucket, and every other event is
      in its own bucket and in no other. */
  lemma {:induction false} BucketMembers(events: seq<Event>, t: EventType)
    ensures forall e :: e in EventsOfType(events, t) <==> e in events && !Ignored(e) && e.eventType == t
    decreases |events|
  {
    if events != [] {
      var n := |events| - 1;
      BucketMembers(events[..n], t);
      assert events == events[..n] + [events[n]];
    }
  }

  /** Buckets keep input order: splitting the input anywhere splits every bucket at the
      same place. */
  lemma {:induction false} BucketsSplit(a: seq<Event>, b: seq<Event>, t: EventType)
    ensures EventsOfType(a + b, t) == EventsOfType(a, t) + EventsOfType(b, t)
    decreases |b|
  {
    if b == [] {
      assert a + b == a;
    } else {
      var n := |b| - 1;
      assert (a + b)[..|a + b| - 1] == a + b[..n];
      BucketsSplit(a, b[..n], t);
    }
  }

  /** A bucket holds each of its events as often as the input does. */
  lemma {:induction false} BucketCounts(events: seq<Event>, e: Event)
    requires !Ignored(e)
    ensures multiset(EventsOfType(events, e.eventType))[e] == multiset(events)[e]
    decreases |events|
  {
    if events != [] {
      var n := |events| - 1;
      var front, x := events[..n], events[n];
      BucketCounts(front, e);
      MultisetSnoc(events);
      var w := if !Ignored(x) && x.eventType == e.eventType then [x] else [];
      var before := EventsOfType(front, e.eventType);
      assert EventsOfType(events, e.eventType) == before + w;
      assert multiset(before + w) == multiset(before) + multiset(w);
      CountOne(w, x, e);
    }
  }

  lemma CountOne(w: seq<Event>, x: Event, e: Event)
    requires !Ignored(e)
    requires w == if !Ignored(x) && x.eventType == e.eventType then [x] else []
    ensures multiset(w)[e] == multiset{x}[e]
  {
    if x == e {
      assert w == [e];
    }
  }

  /** Every event type is among the twelve the page lists. */
  lemma AllEventTypesComplete()
    ensures forall t: EventType :: t in AllEventTypes
  {
    forall t: EventType ensures t in AllEventTypes {
      match t
        case ReleaseEvent =>
        case WatchEvent =>
        case PushEvent =>
        case PullRequestEvent =>
        case PullRequestReviewCommentEvent =>
        case CreateEvent =>
        case IssueCommentEvent =>
        case IssuesEvent =>
        case ForkEvent =>
        case DeleteEvent =>
        case PublicEvent =>
        case MemberEvent =>
    }
  }

  /** The twelve listed event types are pairwise different. */
  lemma AllEventTypesDistinct()
    ensures forall i, j :: 0 <= i < j < |AllEventTypes| ==> AllEventTypes[i] != AllEventTypes[j]
  {
  }

  /** The kept events whose type is in `types`, in input order. */
  function KeptOfTypes(events: seq<Event>, types: set<EventType>): seq<Event>
    decreases |events|
  {
    if events == [] then []
    else
      var e := events[|events| - 1];
      KeptOfTypes(events[..|events| - 1], types) + (if !Ignored(e) && e.eventType in types then [e] else [])
  }

  /** The buckets of `types`, one after the other. */
  function Concat(events: seq<Event>, types: seq<EventType>): seq<Event>
    decreases |types|
  {
    if types == [] then [] else EventsOfType(events, types[0]) + Concat(events, types[1..])
  }

  lemma {:induction false} KeptOfTypesSplit(events: seq<Event>, t: EventType, types: set<EventType>)
    requires t !in types
    ensures multiset(KeptOfTypes(events, {t} + types))
            == multiset(EventsOfType(events, t)) + multiset(KeptOfTypes(events, types))
    decreases |events|
  {
    if events != [] {
      var front, e := events[..|events| - 1], events[|events| - 1];
      KeptOfTypesSplit(front, t, types);
      var both := if !Ignored(e) && e.eventType in {t} + types then [e] else [];
      var one := if !Ignored(e) && e.eventType == t then [e] else [];
      var rest := if !Ignored(e) && e.eventType in types then [e] else [];
      assert multiset(both) == multiset(one) + multiset(rest) by {
        if !Ignored(e) && e.eventType == t {
          assert rest == [];
        } else if !Ignored(e) && e.eventType in types {
          assert one == [];
        }
      }
      SplitUnion(KeptOfTypes(front, {t} + types), EventsOfType(front, t), KeptOfTypes(front, types),
                 both, one, rest);
    }
  }

  lemma SplitUnion(b: seq<Event>, o: seq<Event>, r: seq<Event>, b1: seq<Event>, o1: seq<Event>, r1: seq<Event>)
    requires multiset(b) == multiset(o) + multiset(r)
    requires multiset(b1) == multiset(o1) + multiset(r1)
    ensures multiset(b + b1) == multiset(o + o1) + multiset(r + r1)
  {
  }

  lemma {:induction false} ConcatKept(events: seq<Event>, types: seq<EventType>)
    requires forall i, j :: 0 <= i < j < |types| ==> types[i] != types[j]
    ensures multiset(Concat(events, types)) == multiset(KeptOfTypes(events, set t | t in types))
    decreases |types|
  {
    if types == [] {
      assert (set t | t in types) == {};
      KeptOfNoTypes(events);
    } else {
      var rest := types[1..];
      ConcatKept(events, rest);
      assert (set t | t in types) == {types[0]} + (set t | t in rest);
      assert types[0] !in rest by {
        forall i | 0 <= i < |rest| ensures rest[i] != types[0] {
          assert rest[i] == types[i + 1];
        }
      }
      KeptOfTypesSplit(events, types[0], set t | t in rest);
    }
  }

  lemma {:induction false} KeptOfNoTypes(events: seq<Event>)
    ensures KeptOfTypes(events, {}) == []
    decreases |events|
  {
    if events != [] {
      KeptOfNoTypes(events[..|events| - 1]);
    }
  }

  lemma {:induction false} KeptOfEveryType(events: seq<Event>, types: set<EventType>)
    requires forall t: EventType :: t in types
    ensures KeptOfTypes(events, types) == Kept(events)
    decreases |events|
  {
    if events != [] {
      KeptOfEveryType(events[..|events| - 1], types);
    }
  }

  /** The twelve buckets together are a permutation of the events not by an ignored user, so
      the sizes of the buckets add up to the number of those events. */
  lemma BucketsPartitionKept(events: seq<Event>)
    ensures multiset(Concat(events, AllEventTypes)) == multiset(Kept(events))
    ensures |Concat(events, AllEventTypes)| == |Kept(events)|
  {
    var all := set t | t in AllEventTypes;
    AllEventTypesDistinct();
    ConcatKept(events, AllEventTypes);
    AllEventTypesComplete();
    assert forall t: EventType :: t in all;
    KeptOfEveryType(events, all);
    var c := Concat(events, AllEventTypes);
    assert multiset(c) == multiset(Kept(events));
    assert |c| == |multiset(c)|;
    assert |Kept(events)| == |multiset(Kept(events))|;
  }

  /** The events listed under "New Repos", specified on the raw input: CreateEvents not by an
      ignored user and not creating a tag, in input order. */
  function NewRepoEvents(events: seq<Event>): seq<Event>
    decreases |events|
  {
    if events == [] then []
    else
      var e := events[|events| - 1];
      NewRepoEvents(events[..|events| - 1])
      + (if !Ignored(e) && e.eventType == CreateEvent && e.refType != Some("tag") then [e] else [])
  }

  /** "New Repos" keeps input order: filtering a concatenation is concatenating the
      filtered parts. */
  lemma {:induction false} NewReposSplit(a: seq<Event>, b: seq<Event>)
    ensures NewRepos(a + b) == NewRepos(a) + NewRepos(b)
    decreases |b|
  {
    if b == [] {
      assert a + b == a;
    } else {
      var n := |b| - 1;
      assert (a + b)[..|a + b| - 1] == a + b[..n];
      NewReposSplit(a, b[..n]);
    }
  }

  /** "New Repos" keeps every event that is not a tag creation as often as its input holds it. */
  lemma {:induction false} NewReposCounts(created: seq<Event>, e: Event)
    requires e.refType != Some("tag")
    ensures multiset(NewRepos(created))[e] == multiset(created)[e]
    decreases |created|
  {
    if created != [] {
      var n := |created| - 1;
      var front, x := created[..n], created[n];
      NewReposCounts(front, e);
      MultisetSnoc(created);
      var w := if x.refType != Some("tag") then [x] else [];
      var before := NewRepos(front);
      assert NewRepos(created) == before + w;
      assert multiset(before + w) == multiset(before) + multiset(w);
      if x == e {
        assert w == [e];
      }
    }
  }

  /** Filtering the CreateEvent bucket is filtering the input once for non-tag CreateEvents
      by users who are not ignored. */
  lemma {:induction false} NewReposOfFeed(events: seq<Event>)
    ensures NewRepos(EventsOfType(events, CreateEvent)) == NewRepoEvents(events)
    decreases |events|
  {
    if events != [] {
      var n := |events| - 1;
      NewReposOfFeed(events[..n]);
      var e := events[n];
      var before := EventsOfType(events[..n], CreateEvent);
      if !Ignored(e) && e.eventType == CreateEvent {
        assert EventsOfType(events, CreateEvent) == before + [e];
        NewReposSplit(before, [e]);
        assert NewRepos([e]) == (if e.refType != Some("tag") then [e] else []) by {
          assert [e][..0] == [];
        }
      } else {
        assert EventsOfType(events, CreateEvent) == before + [];
        assert before + [] == before;
        assert NewRepoEvents(events) == NewRepoEvents(events[..n]) + [];
      }
    }
  }
}
