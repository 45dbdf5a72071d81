# GitHub activity viewer: trending followers and feed buckets

This project models two pieces of data shaping in a Next.js GitHub activity viewer.

- **Trending in your network.** The API handler `get-trending-followers` fetches the subject's first-degree following list. `getRecentFollowers` then sends one batched GraphQL query for those accounts; its response has one entry per followed account. The model takes both results as inputs. Each entry is tagged with a query id and holds the first page of that account's following connection; the query asks for the first three accounts of it (`following(first: 3)`) and says nothing about recency. `getRecentFollowers` turns this into "trending actors". A trending actor is a second-degree account together with the first-degree accounts that follow it (its `newFollowers`). `getRecentFollowers` also ranks them by how many first-degree accounts follow them. The handler then drops the subject from the ranked list. The first one left is the featured user; the rest are the trending list.
- **The feed page.** The home page sorts the events of the activity feed into one bucket per event type. Events by ignored users are dropped. The "New Repos" panel shows the `CreateEvent` bucket without tag creations.

## Modules

- `Options`: the option type.
- `Seqs`: `FirstIndex`, which models `Array.prototype.find` on a list of keys, and a multiset fact about sequences.
- `TrendingFold`: the entities (`Actor`, `Candidate`, `Fragment`) and the specification of the fold.
  - The response is flattened into follow edges (`Edges`): one per sampled account of an entry that resolves to a first-degree account.
  - `AddEdge` is the `find`-then-`push` step. `FoldEdges` folds the edges into candidates.
  - An independent description of the result: `GroupOf`, built from `FirstKeys`, `Contributors` and `FirstFollowee`. It lists one candidate per key in order of first observation, and each candidate's contributors in processing order.
- `TrendingSort`: the ranking.
  - `SortByFollowers` is the specification: a stable insertion of each candidate after everything with at least its count.
  - `InsertAt` and `SortInPlace` are an in-place insertion sort on an array, proved equal to it.
  - `SortUnique` shows the specification is the only stable non-increasing order. So any stable sort with the source's comparator, `Array.prototype.sort` included, yields the same list.
- `TrendingFollowers`: the rest of getRecentFollowers and the handler step.
  - `GetRecentFollowers` is the nested loop; its inner loop is `AddSampledUsers`.
  - `Split` is the handler's filter and head/tail destructuring.
  - The lemmas of this module state the properties of the whole pipeline.
- `Feed`:
  - The event types, and the event map that starts with twelve empty buckets.
  - `BucketEvents`, the loop that fills the buckets, proved against the filter `EventsOfType`.
  - `NewRepos`, the tag filter.

Modelling decisions:
- `userQueryId` comes from a file that is not part of this model, so it is left abstract. Every function takes it as a parameter `key: Actor -> string`, and no property depends on its definition.
- A candidate is keyed by `key(c.user)`. In the source this is `userQueryId(a)` applied to the trending actor that was spread from the sampled user. One `key` serves both, which assumes that `userQueryId` reads only the `login` and `id` fields. The `...user` spread at `get-trending-followers.ts:81-84` copies those unchanged, so `userQueryId` of the trending actor equals `userQueryId` of the sampled user.
- An account is modelled by its `login` and `id`. The source copies the other profile fields, `display_login` and `avatar_url`, along without looking at them.
- Appending to a candidate's `newFollowers` is modelled as replacing that candidate in the candidate sequence. The source does this with `push` on the shared array.
- The response object is a sequence of fragments, in `Object.entries` order.
- A fragment's sampled accounts (`nodes`) may be any number, not at most three as the query asks for. Every property holds for any number, so it holds in particular for the pages of at most three accounts the API returns.
- The featured user is an `Option`. The source reads `featuredUser.login` at `get-trending-followers.ts:167` without first checking whether the filtered list is empty. The model stops at the split and reports the empty case as `None`; it does not invent a fallback. One way to reach that case is a subject who follows nobody. Then the query text built at `get-trending-followers.ts:19-47` is `{}` between two newlines, which is not a valid GraphQL document. The request would then most likely fail. The `catch` at `get-trending-followers.ts:99-102` would return `error.data`, which is not a list of candidates, and the `.filter` at `get-trending-followers.ts:162` would most likely throw before line 167 is reached. `EmptyFollowingResponse` therefore states what the fold and split give for an empty following list, not what the handler does in that case.

## Model

| member | source | states |
|---|---|---|
| Seqs.FirstIndex | src/pages/api/get-trending-followers.ts:71-73 | `find` by key: `None` exactly when the key is absent. Otherwise the result is an index holding the key, with no earlier index holding it. |
| TrendingFold.Resolve | src/pages/api/get-trending-followers.ts:64-68 | An entry's query id resolves to `None` exactly when no first-degree account has that key. Otherwise it resolves to the first account with that key. |
| TrendingFold.Edges | src/pages/api/get-trending-followers.ts:63-70 | Every edge's follower is a first-degree account. `EdgesCount` gives the number of edges and `EdgesAppend` how they split over the entries. |
| TrendingFold.AddEdge | src/pages/api/get-trending-followers.ts:71-92 | One find/push step adds a candidate exactly when the followee's key has none yet. `AddEdgeGroups`, `FirstObservationSeeds` and `FoldIsGrouping` state the result in full. |
| TrendingFold.FoldEdges | src/pages/api/get-trending-followers.ts:63-94 | The fold adds at most one candidate per edge and removes none. `FoldIsGrouping` and `FoldEdgesTotal` state the result in full. |
| TrendingFold.Fold | src/pages/api/get-trending-followers.ts:63-94 | There are at most as many candidates as edges. `FoldIsGrouping` and `FoldFirstObserved` state the result in full. |
| TrendingFold.FirstObservationSeeds | src/pages/api/get-trending-followers.ts:80-91 | The first edge with a new key creates that key's candidate: the contributors are exactly `[follower]`, the candidate is the sampled account, and the key is appended to the key order. |
| TrendingFold.AddEdgeGroups | src/pages/api/get-trending-followers.ts:71-92 | One find/push step keeps the result equal to the grouping of the edges seen so far. |
| TrendingFold.FoldIsGrouping | src/pages/api/get-trending-followers.ts:63-94 | The fold from an empty list is the grouping: keys in first-seen order, and each candidate's contributors are the followers of its key in processing order. |
| TrendingFold.FirstKeysDistinct | src/pages/api/get-trending-followers.ts:71-92 | The first-observation key order contains no key twice. |
| TrendingFold.Observed | src/pages/api/get-trending-followers.ts:71-92 | A key has a candidate exactly when it has contributors and exactly when some sampled account has it; that account has the key. |
| TrendingFold.FoldEdgesAppend | src/pages/api/get-trending-followers.ts:63-94 | Folding two batches of edges one after the other is folding their concatenation. |
| TrendingFold.FoldEdgesTotal | src/pages/api/get-trending-followers.ts:70-93 | Each edge adds exactly one contributor in total, whether it updates a candidate or creates one. |
| TrendingFold.EdgesCount | src/pages/api/get-trending-followers.ts:63-70 | There is one edge per sampled account of each entry that resolves to a first-degree account. |
| TrendingFold.ContributorsDistinct | src/pages/api/get-trending-followers.ts:63-79 | With distinct query ids and distinct sampled accounts per entry, a key's contributors have distinct keys. |
| TrendingSort.SortByFollowers | src/pages/api/get-trending-followers.ts:96-98 | The ranking has as many candidates as its input. `SortPermutes`, `SortSorted`, `SortStable` and `SortUnique` state the rest of its meaning. |
| TrendingSort.SortPermutes | src/pages/api/get-trending-followers.ts:96-98 | The ranking is a permutation of its input. |
| TrendingSort.SortSorted | src/pages/api/get-trending-followers.ts:96-98 | The ranking is non-increasing in the number of contributors. |
| TrendingSort.SortStable | src/pages/api/get-trending-followers.ts:96-98 | For every count, the candidates with that count keep their input order (stability). |
| TrendingSort.SortUnique | src/pages/api/get-trending-followers.ts:96-98 | Any non-increasing list with the same count classes as the input equals the ranking. This means every stable sort with the comparator `b - a` gives this result. |
| TrendingSort.SortTotal | src/pages/api/get-trending-followers.ts:96-98 | Sorting leaves the total number of contributors unchanged. |
| TrendingSort.InsertAt | src/pages/api/get-trending-followers.ts:96-98 | In place, the element at `i` moves into the sorted prefix, after every element with at least its count; the rest of the array is unchanged. |
| TrendingSort.SortInPlace | src/pages/api/get-trending-followers.ts:96-98 | The in-place sort leaves the array holding exactly the specified ranking of its old contents. |
| TrendingFollowers.Aggregate | src/pages/api/get-trending-followers.ts:61-98 | The result of `getRecentFollowers` has at most one candidate per edge. `AggregateRanked`, `AggregateGroups`, `AggregateUniqueKeys` and `Conservation` state the rest of its meaning. |
| TrendingFollowers.AddSampledUsers | src/pages/api/get-trending-followers.ts:70-93 | The inner loop over one entry's sampled accounts computes the fold of that entry's edges into the current candidates. |
| TrendingFollowers.GetRecentFollowers | src/pages/api/get-trending-followers.ts:61-98 | The nested loops plus the in-place sort return the ranked fold of the edges. Entries that do not resolve are skipped. |
| TrendingFollowers.AggregateRanked | src/pages/api/get-trending-followers.ts:96-98 | The result is non-increasing, a permutation of the folded candidates, and keeps ties in first-observed order. |
| TrendingFollowers.FoldFirstObserved | src/pages/api/get-trending-followers.ts:63-93 | Before ranking, the candidates run in first-observed order, one per key. |
| TrendingFollowers.AggregateUniqueKeys | src/pages/api/get-trending-followers.ts:71-92 | No two returned candidates share a query key. |
| TrendingFollowers.AggregateGroups | src/pages/api/get-trending-followers.ts:75-91 | Each returned candidate lists exactly the first-degree accounts that follow its key, in processing order; there is at least one. Each candidate is the first sampled account seen with its key, and every sampled account of a resolved entry has a candidate. |
| TrendingFollowers.Conservation | src/pages/api/get-trending-followers.ts:63-94 | The total of all `newFollowers` lengths equals the number of sampled accounts under entries that resolve to a first-degree account. |
| TrendingFollowers.UnresolvedFragmentIgnored | src/pages/api/get-trending-followers.ts:64-68 | An entry whose query id matches no first-degree account leaves the result exactly as if it were absent. |
| TrendingFollowers.NoRepeatedContributor | src/pages/api/get-trending-followers.ts:63-79 | With distinct query ids and distinct sampled accounts per entry, no candidate lists a first-degree account twice. |
| TrendingFollowers.NoFollowingNoCandidates | src/pages/api/get-trending-followers.ts:63-68 | A subject who follows nobody gets no candidates. |
| TrendingFollowers.WithoutSubject | src/pages/api/get-trending-followers.ts:162-164 | The filter keeps exactly the candidates whose login differs from the subject's. `WithoutSubjectSplit` and `WithoutSubjectCounts` state that it keeps their order and multiplicity. |
| TrendingFollowers.WithoutSubjectSplit | src/pages/api/get-trending-followers.ts:162-164 | The filter keeps input order: filtering a concatenation is concatenating the filtered parts. |
| TrendingFollowers.WithoutSubjectCounts | src/pages/api/get-trending-followers.ts:162-164 | Every candidate that is not the subject occurs in the filtered list as often as in the ranking. |
| TrendingFollowers.WithoutSubjectRanked | src/pages/api/get-trending-followers.ts:162-164 | Filtering a ranked list keeps it ranked. |
| TrendingFollowers.Split | src/pages/api/get-trending-followers.ts:162-164 | There is no featured user exactly when every candidate is the subject; then the trending list is empty. Otherwise `[featured] + trending` is the filtered list, in order, and neither part contains the subject. |
| TrendingFollowers.HandlerResponse | src/pages/api/get-trending-followers.ts:158-164 | The featured user has at least as many contributors as any trending candidate, the trending list is ranked, and the subject appears nowhere. |
| TrendingFollowers.EmptyFollowingResponse | src/pages/api/get-trending-followers.ts:158-164 | For an empty following list, the fold and split give no featured user and an empty trending list. The handler itself most likely fails earlier in that case; see the modelling decisions. |
| TrendingFollowers.Example | src/pages/api/get-trending-followers.ts:61-98 | Subject follows A and B; A follows X and Y, B follows X and Z. X is featured with contributors `[A, B]`, then Y with `[A]` and Z with `[B]`. |
| Feed.EmptyEventMap | src/pages/index.tsx:39-52 | The starting map has a bucket for every event type, and every bucket is empty. |
| Feed.EventsOfType | src/pages/index.tsx:54-59 | A bucket is no longer than the feed. `BucketMembers`, `BucketCounts` and `BucketsSplit` state which events it holds, how many times each, and in what order. |
| Feed.BucketEvents | src/pages/index.tsx:54-60 | After the loop, every event type has a bucket. That bucket is the events of that type not by an ignored user, in input order. |
| Feed.BucketMembers | src/pages/index.tsx:25-59 | An event is in a bucket exactly when it is in the input, is not by an ignored user and has the bucket's type. So ignored events are nowhere, and every other event is only in its own bucket. |
| Feed.BucketCounts | src/pages/index.tsx:54-59 | A non-ignored event occurs in its bucket as many times as in the input. |
| Feed.BucketsSplit | src/pages/index.tsx:54-60 | Buckets keep relative input order: the bucket of a concatenation is the concatenation of the buckets. |
| Feed.BucketsPartitionKept | src/pages/index.tsx:54-60 | The twelve buckets together are a permutation of the non-ignored events. So their sizes add up to the number of non-ignored events. |
| Feed.NewRepos | src/pages/index.tsx:87 | "New Repos" keeps exactly the created-events that are not tag creations, and is no longer than its input. `NewReposSplit` and `NewReposCounts` state that it keeps their order and multiplicity. |
| Feed.NewReposSplit | src/pages/index.tsx:87 | "New Repos" keeps input order: filtering a concatenation is concatenating the filtered parts. |
| Feed.NewReposCounts | src/pages/index.tsx:87 | Every event that is not a tag creation occurs in "New Repos" as often as in its input. |
| Feed.NewReposOfFeed | src/pages/index.tsx:87 | "New Repos" on the `CreateEvent` bucket lists the input's non-tag `CreateEvent`s by non-ignored users, in input order. |

## Left out

- The GraphQL query text built in `getRecentFollowers` and `getFeaturedUserInfo`. It is template text sent to a foreign API and never parsed back.
- Network and authentication calls, which the model treats as inputs: `authenticateOctokit`, `octokit.users.getAuthenticated`, `octokit.paginate` and `graphqlWithAuth`.
- `getFeaturedUserInfo` and the merge of its pinned items into the featured user in the response body. These are I/O and serialization of a foreign response.
- The two `catch` blocks. That of `getRecentFollowers` logs the error and returns `error.data`; that of `getFeaturedUserInfo` only returns `error.data`. Exceptions are not modelled; the model covers the success path of the request.
- Reading `featuredUser.login` when the filtered list is empty. The source would fail there; the model reports that case as a `None` featured user and goes no further.
- `userQueryId`: src/utils/queryId is not part of this model. It is an abstract parameter.
- Profile fields, `avatar_url` and the `display_login` copies that the fold attaches to accounts. They are copied along and never compared.
- Event payloads other than `ref_type`, and actor fields other than `display_login`.
- Event types outside the twelve the page declares. The model's `EventType` has only those twelve, so it cannot express such an event. In the source, such an event by a user who is not ignored has no bucket. The `push` at `index.tsx:59` would then throw a `TypeError`. That error escapes the `forEach` inside the `.then` callback (`index.tsx:38`), so `repoInfoSet`, `userSet` and `feedsSet` (`index.tsx:62-64`) never run. The page would keep showing the spinner (`index.tsx:117-121`).
- Everything React does: hooks, `fetch`, session handling, routing, rendering and the `clientHeight` read.
- src/pages/discover.tsx, which is UI and browser storage.
- GetRecentFollowers: the array the fold grows is a sequence value. What the source changes in place is modelled as a new value, so a candidate's `newFollowers` is never aliased.
