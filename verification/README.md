# Verified model of the authorization engines

This project models how the server decides whether a user has a relation to an object, and proves what the
decisions mean. It covers the recursive resolver of `internal/graph` ("v1") with its result cache, the
stream and search strategies of `internal/check` ("v2"), and the structures around them: cache invalidation,
the reverse-edge search, the strategy planner's statistics, the lock-free bag, the contextual-tuple index
and the deployment script's environment file.

`dafny verify dfyconfig.toml` checks the whole project.

## How the pieces fit

**v1 resolver.** `AuthModel` defines the meaning of a model over a finite, possibly cyclic, set of tuples.
`Granted(env, X)` is the least fixpoint of the rewrite rules for goals (object, relation, user) when the set
`X` decides what is subtracted, and a *meaning* is an `X` with `X == Granted(env, X)`. Without exclusion
there is one meaning, the least fixpoint; `Stratified` shows that there is exactly one wherever no goal
depends on itself through a subtracted branch. `Reducers` holds the union, intersection and exclusion loops.
`LocalChecker` is the recursive evaluation with visited paths, depth limit and cache look-ups; concurrency
is a *schedule* that fixes, for every node of the evaluation, the arrival order of its outcomes, its read
failures and its cache hits. `LocalCheckerCorrect` proves what an error-free answer means for every
schedule, exclusion included. The loop invariant of the whole induction is `Judged`, against a lower and an
upper estimate of what is granted: allow only what is surely granted, deny without the cycle flag only what
cannot be, never deny what is provable while avoiding the visited goals, and raise no flag where every chain
of questions ends (`Endings`). `SubtractedLoops` says what is computed when subtracted branches run in
circles, and `LoopExample` has the smallest such circle. `Answering` says when there is an answer at all,
and what the depth limit leaves of it. `ThreeValued` treats the reducers as Kleene connectives over
arbitrary rewrite trees.

**v2 streams.** `MergeSpec` says what the set operators compute on the ids each operand still owes.
`BottomUp` and `ChannelIterators` are the loops over channels and batches, proved against it. `FastPath` and
`StreamBuffers` are the v1 forms of the same operators over buffered streams. `OperatorsAgree` runs both on
the same operands cut into batches differently. `Pipeline` composes the operators along a whole rewrite tree
and hands the result to the two-sided intersection of `Weight2`. `LeafMerge` is where a leaf stream comes
from.

**Searches.** `WorkerPool` is the concurrent v2 search as a transition system: the launch loop, the pool of
limited size, the workers' descents and the bounded response channel. `RecursiveSearch` proves what its
answers mean, `LaunchBlocking` exactly when it can hang. `BreadthFirst` is the level-by-level v1 search with
its depth limit; `Reachability` is what both are measured against. `ModelGraph` flattens model nodes with an
explicit stack, `ReverseEdges` walks the model backwards.

**Caches and structures.** `CacheController` is the changelog refresh; `CacheFreshness` and
`IteratorFreshness` follow cached responses and cached iterators over whole runs. `Thompson` and `Bags` are
the two compare-and-swap protocols, `ContextualTuples` the sorted index, `EnvFile` and `EnvLines` the
environment printer and parser.

Conventions: object ids in streams are natural numbers, their rank in string order, with 0 for the empty
string that the batcher drops. Nondeterminism (which channel is read, which worker steps, which
compare-and-swap wins) is an arbitrary choice or an arbitrary run. `hide` only narrows what the verifier
looks at.

## Where the code does less than one might expect

Each of these is a proved statement.

- The v2 recursive search can hang: it reads no response before the last first-level id is launched, and a
  launch waits for room in the pool. With the response channel full and every worker waiting to send,
  nothing moves any more (`LaunchBlocking.SpreadBlocks`: more than twice as many first-level ids as the pool
  holds workers, each with a match of its own). For given first-level ids, user ids and limit, no tuples
  make it hang if and only if there is at most one first-level id or there are fewer than twice as many user
  ids as the limit (`LaunchBlocking.NeverBlocksIff`; a limit of zero hangs on any first-level id).
- The v2 recursive search drops a row whose target was visited before it looks at the row's condition, so a
  passing row can be lost behind a failing one (`RecursiveSearch.ConditionedRowCanBeLost`). Every answer is
  exact if and only if no id's first row to another id fails while some row to that id passes
  (`RecursiveSearch.ExactIff`); without conditions this always holds.
- The v1 resolver denies a granted goal if what it subtracts is not granted but runs in a circle of tuples:
  the cut raises the cycle flag, and the exclusion counts a flag as a reason to deny
  (`LoopExample.GuestIsDenied`, for every schedule and cache; `LoopExample.GuestAnswer` is one such
  evaluation). What is allowed is always granted, and an unflagged answer is exact
  (`Stratified.AnswersAreSound`). Where only unions are subtracted, an error-free answer is right if and
  only if the goal is not granted, or is still derived when circling goals count as granted wherever
  something is subtracted (`SubtractedLoops.ExactIff`).
- An exclusion whose base the user's type cannot reach emits the ids it should subtract
  (`Pipeline.SubtractedInsteadOfBase`), and an intersection ignores operands that cannot be reached. A node
  emits what it stands for exactly as `Pipeline.ExactIff` says. Whether a node with such a base is ever
  reachable itself depends on weights that a library outside the repository computes.
- A leaf repeats an object that has both a stored and a contextual tuple, and the repeated object survives
  being subtracted (`LeafMerge.RepeatedBaseSurvives`). Exclusion is exact if and only if no subtracted id
  occurs more often in the base than in the subtracted stream (`MergeSpec.DifferenceExactIff`), for a leaf
  base if and only if no subtracted object has both tuples (`LeafMerge.LeafExclusionIff`).
- The v1 intersection of no streams at all repeats a round that changes nothing
  (`FastPath.IntersectionRound`).
- No request is served a check response that was cached at or before a change recorded before the request
  began, if and only if responses live no longer than the changelog entry (`CacheFreshness.FreshIff`). The
  v2 lifetime meets this; the v1 lifetime meets it exactly if its jitter percentage leaves no room for a
  jitter.
- That is about when a response was cached, not about what it rests on. Responses are stamped after their
  evaluation, so a change during the evaluation goes unnoticed (`CacheFreshness.OutdatedByEvaluation`):
  where nothing is taken from the cache, no response misses a recorded change if and only if evaluations
  take no time as well (`CacheFreshness.UpToDateIff`). With sub-problems answered from the cache, an old
  answer is stamped anew by whatever rests on it, however fast evaluations are
  (`CacheFreshness.OutdatedByReuse`).
- Cached iterators are tested against invalidations when their read is stopped, and stored only after the
  rest is drained. None read before a covered change is ever served if and only if the longest drain and the
  longest time in the cache together are no longer than an invalidation entry lives, and no read goes on for
  longer than that (`IteratorFreshness.FreshIff`). For the iterators of checks, which live as long as
  invalidation entries, this leaves no jitter and no draining at all
  (`IteratorFreshness.CheckIteratorsFreshIff`).
- A refresh takes a change for old if its time is that of the newest change recorded before. A change
  written at the same time as a recorded one is therefore missed, whatever the lifetimes
  (`IteratorFreshness.StaleBySameTime`). The two conditions on iterators here are for changes at different
  times.
- A refresh writes no entry for a change older than an entry's lifetime, although an iterator that missed it
  may still be cached. None is served behind any change in the changelog of a refresh if and only if read,
  drain and time in the cache all fit into that lifetime together (`IteratorFreshness.UpToDateIff`).
- The environment printer rejects carriage return, newline and NUL, while the parser splits lines at eight
  further characters. The round trip holds if and only if no value contains one (`EnvFile.RoundTripIff`,
  `EnvFile.LineSeparatorIsLost`).
- The comment on `Update` in `internal/planner/thompson.go` asks callers to synchronize. The code does not
  need it: `Thompson.NoObservationLost` holds for unsynchronized callers.

The comment on `getRelationshipEdgesWithTargetRewrite` in `internal/graph/graph.go` calls the search breadth
first. The code is depth first and the model follows the code.

## Model

| member | source | states |
|---|---|---|
| Reducers.Union | internal/graph/check.go:160-218 | for outcomes in the order they arrive, the loop returns the first allow, else the last error, else a denial that is cycle-flagged if any outcome was |
| Reducers.ConsumeDispatches | internal/graph/default_resolver.go:190-234 | the dispatch consumer gives the same answer as the union reducer for the same arrivals |
| Reducers.UnionMeaning | internal/graph/check.go:160-218 | a union allows, with an allowing outcome, iff there is one; otherwise it fails iff some outcome failed, with the failure that arrived last, and a denial is flagged iff some outcome was |
| Reducers.Intersection | internal/graph/check.go:222-291 | the loop returns the first denial or cycle as a denial, else the first error, else allows; fewer than two operands are an error |
| Reducers.IntersectionMeaning | internal/graph/check.go:222-291 | with two operands or more, an intersection allows iff all outcomes allow unflagged, denies iff some outcome denies or is flagged, carries the flag of an outcome that decided it, and otherwise fails with the failure that arrived first |
| Reducers.Exclusion | internal/graph/check.go:295-374 | for either arrival order of base and subtracted outcome: a refuting operand decides at once, otherwise errors, otherwise allow |
| Reducers.ExclusionMeaning | internal/graph/check.go:295-374 | an exclusion allows iff the base allows and the other operand denies, both unflagged; denies iff one of them refutes it, with the flag of one that does; and otherwise fails, with the base's failure before the other's |
| ThreeValued.UnionIsOr | internal/graph/check.go:160-218 | on cycle-free outcomes union is strong Kleene or with error as unknown, for every arrival order |
| ThreeValued.IntersectionIsAnd | internal/graph/check.go:222-291 | on cycle-free outcomes intersection is strong Kleene and, for every arrival order |
| ThreeValued.ExclusionIsAndNot | internal/graph/check.go:295-374 | on cycle-free outcomes exclusion is strong Kleene and-not, whichever operand arrives first |
| ThreeValued.EvalIsMeaning | internal/graph/check.go:987-1039 | any nesting of union, intersection and exclusion evaluates to its three-valued meaning, whatever the arrival orders at every node |
| ThreeValued.MeaningMonotone | internal/graph/check.go:987-1039 | replacing unknown leaves by any outcomes only refines the meaning of the tree |
| ThreeValued.ErrorsCannotChangeAnswers | internal/graph/check.go:160-374 | an error-free answer stays the same when failed leaves are given any answers and arrivals are reordered |
| AuthModel.DerivesMonotone | internal/graph/check.go:1041-1064 | every rule derives more from more granted goals and less from more subtracted ones, through any nesting of exclusions |
| AuthModel.GrantedIsFixpoint | internal/graph/check.go:1041-1064 | whatever decides the subtraction, a goal is granted iff one of its rewrite rules derives it from granted goals |
| AuthModel.GrantedIsLeast | internal/graph/check.go:1041-1064 | the granted goals are contained in every set closed under the rewrite rules |
| AuthModel.DerivesLooksAt | internal/graph/check.go:1041-1064 | a rule's outcome depends only on the goals it asks about, and of what is subtracted only on the goals in subtracted branches |
| AuthModel.MonotoneMeaning | internal/graph/check.go:1041-1064 | without exclusion a set is a meaning iff it is the least fixpoint |
| Endings.EndlessGoesOn | internal/graph/check.go:475-488 | in a finite store a goal from which not every chain of questions ends asks about another such goal |
| LocalChecker.GoalSpaceExists | internal/graph/check.go:475-488 | every finite tuple set and model has a finite goal space that the search never leaves, with the same granted goals |
| LocalChecker.UsersetMessagesMeaning | internal/graph/default_resolver.go:96-129 | the userset producer short-circuits iff some row is a wildcard of the user's type, dispatches only userset rows, and without a short-circuit dispatches all of them |
| LocalCheckerCorrect.DispatchesJudged | internal/graph/check.go:381-390 | every dispatched child, with its own depth and visited paths, is fairly judged against the estimates of what is granted |
| LocalCheckerCorrect.ExpandedJudged | internal/graph/default_resolver.go:96-234 | expanding userset rows and consuming the dispatches in any order fairly judges whether some row is granted |
| LocalCheckerCorrect.UsersetsJudged | internal/graph/check.go:648-792 | splitting the userset restrictions into groups, as the strategies are chosen, misses no row |
| LocalCheckerCorrect.DirectJudged | internal/graph/check.go:799-837 | the direct handlers (tuple, public wildcard, usersets) together fairly judge direct derivation |
| LocalCheckerCorrect.TuplesetJudged | internal/graph/check.go:862-985 | the answers of the tuple-to-userset handler fairly judge derivation through the tupleset, skipping parents that lack the relation |
| LocalCheckerCorrect.WithoutJudged | internal/graph/check.go:295-374 | whichever operand arrives first, an exclusion of two fairly judged operands is fair, and not denied for a cycle flag if the subtracted operand may hold or has no flag |
| LocalCheckerCorrect.DifferenceJudged | internal/graph/check.go:987-1039 | an exclusion is fairly judged, and what is provable is not denied if its subtracted branch may hold or every chain of questions from it ends |
| LocalCheckerCorrect.RewrittenJudged | internal/graph/check.go:1041-1064 | every rewrite, exclusion included, is fairly judged by its handler |
| LocalCheckerCorrect.LocalJudged | internal/graph/check.go:395-472 | one resolver frame with its cycle cut and depth limit is fair for every visited set, and unflagged where no chain of questions leads back; the evaluation terminates because visited goals grow inside the finite goal space |
| LocalCheckerCorrect.UnflaggedResponsesAreSound | internal/graph/check.go:202-208 | for any estimates and any visited paths, what is allowed is unflagged and surely granted, and what is denied without a flag cannot be granted |
| LocalCheckerCorrect.AllowsExactlyTheSure | internal/graph/check.go:395-472 | with empty visited paths, any error-free answer is the lower estimate, where no surely granted goal subtracts something that leads back and cannot be granted |
| LocalCheckerCorrect.UnflaggedResponsesAreExact | internal/graph/check.go:202-208 | for a model with a meaning, no response is both allowed and cycle-flagged, and an unflagged response is the meaning's answer whatever the visited paths and whatever is subtracted |
| LocalCheckerCorrect.CheckIsFixpoint | internal/graph/check.go:395-472 | without exclusion and with empty visited paths, any error-free answer equals membership in the least fixpoint, for every schedule, depth and sound cache |
| LocalCheckerCorrect.CacheEntriesAreSound | internal/graph/cached_resolver.go:136-204 | in every run of requests through the cached chain, every entry stored agrees with the estimates |
| LocalCheckerCorrect.CacheEntriesAreExact | internal/graph/cached_resolver.go:136-204 | for a model with a meaning, every entry stored in every run is the meaning's answer |
| LocalCheckerCorrect.CachingIsInvisible | internal/graph/cached_resolver.go:136-204 | two runs with different histories, schedules and depth limits give the same error-free answer to the same check |
| Answering.ErrorsHaveCauses | internal/graph/check.go:395-472 | for any finite set of goals that the evaluation cannot leave, an error means that the goals still unvisited can fill the depth limit, that an undefined relation is asked about, that an intersection lacks operands, or that a read fails |
| Answering.AlwaysAnswers | internal/graph/check.go:395-472 | without any of these causes every frame, behind the cache or not, has an answer |
| Answering.AnswersTheSure | internal/graph/check.go:395-472 | a fresh request is then answered, and allowed exactly what is surely granted, exclusion included |
| Answering.AnswersTheFixpoint | internal/graph/check.go:395-472 | without exclusion and without these causes, after any run a fresh request is answered, and allowed iff the goal is in the least fixpoint |
| Answering.TuplesetVouched | internal/graph/check.go:862-985 | the tuple-to-userset handler fails only for a cause, allows only over parents with one level less to go, and allows whenever such a parent is within the limit, whatever the other parents give |
| Answering.AllowedIffWithin | internal/graph/check.go:415-417 | without exclusion, failing reads and cached answers, a fresh request is allowed iff its goal has a derivation of no more levels of dispatch than the depth limit leaves, whatever errors the limit causes in other branches |
| Answering.CacheAnswersAtTheLimit | internal/graph/cached_resolver.go:153-172 | a cached response is served at the depth limit, where the evaluation itself fails |
| Stratified.MeaningIsUnique | internal/graph/check.go:295-374 | where no goal depends on itself through a subtracted branch, the meaning built level by level is the only one |
| Stratified.AnswersAreSound | internal/graph/check.go:355-357 | there, after any run, an allowed answer is in the meaning and an unflagged answer is exact, whatever the visited paths |
| Stratified.AnswersAreExact | internal/graph/check.go:295-374 | there, every error-free answer to a fresh request is exact if nothing a granted goal subtracts leads back to itself |
| SubtractedLoops.ComputesTheSure | internal/graph/check.go:355-357 | where only unions are subtracted, an error-free answer to a fresh request is whether the goal is derived when circling goals count as granted in subtracted branches |
| SubtractedLoops.ExactIff | internal/graph/check.go:355-357 | so the answer is right iff the goal is not granted or is granted in spite of the circling goals |
| LoopExample.GuestIsDenied | internal/graph/check.go:355-357 | a granted goal whose subtracted branch is a circle of two tuples is allowed by no run and no schedule |
| LoopExample.GuestAnswer | internal/graph/check.go:295-374 | the undisturbed evaluation of this goal ends in a flagged denial |
| CachedResolver.CachedCheckResolver.ResolveCheck | internal/graph/cached_resolver.go:136-204 | serves an entry iff it is newer than the invalidation time and consistency allows; otherwise returns what the delegate answers over the cache as it is by then, an answer where nothing can go wrong; an unflagged answer becomes the goal's entry, stamped now, a flagged one or an error leaves it, and no other entry changes; every entry keeps agreeing with the estimates |
| CachedResolver.KeptAllLast | internal/graph/cached_resolver.go:180-203 | after any evaluations that end meanwhile, a goal's entry is the last unflagged answer among them, stamped when it was given, or what it was before |
| ChannelIterators.ChannelIterator.Next | internal/iterator/channel.go:53-91 | yields the concatenation of the batches one id at a time, crossing empty batches |
| ChannelIterators.Batcher.Add | internal/check/bottom_up.go:292-313 | appends an id to what has been written, dropping the empty id; batches are sent as soon as they are full |
| ChannelIterators.Batcher.Close | internal/check/bottom_up.go:315-330 | the batches sent concatenate to everything written; all but the last are full and none is empty |
| ChannelIterators.SkipTo | internal/check/bottom_up.go:631-643 | yields the first id not below the target and leaves the rest, across batch boundaries |
| MergeSpec.UnionStreamMeaning | internal/check/bottom_up.go:335-424 | the k-way merge of sorted operands is sorted, strictly if they are, and holds exactly the ids of all operands |
| MergeSpec.IntersectionStreamMeaning | internal/check/bottom_up.go:426-517 | the leapfrog walk over sorted operands is sorted and holds exactly the ids common to all |
| MergeSpec.DifferenceCancels | internal/check/bottom_up.go:519-628 | on any sorted streams, repeated or not, exclusion is multiset difference |
| MergeSpec.DifferenceExactIff | internal/check/bottom_up.go:519-628 | exclusion is set difference iff no subtracted id occurs more often in the base than in the subtracted stream |
| MergeSpec.DifferenceStreamMeaning | internal/check/bottom_up.go:519-628 | over a strictly increasing base, exclusion is strictly increasing and exactly the set difference |
| LeafMerge.LeafStrictIff | internal/check/bottom_up.go:261-270 | the merge of stored and contextual tuples with the comparison that never says equal is strictly increasing iff no object has both |
| LeafMerge.LeafExclusionIff | internal/check/bottom_up.go:261-270 | subtracting from such a leaf is set difference iff no subtracted object has both a stored and a contextual tuple |
| LeafMerge.RepeatedBaseSurvives | internal/check/bottom_up.go:264-269 | stored and contextual tuples on one object make the leaf repeat it, and it survives being subtracted |
| BottomUp.ResolveUnion | internal/check/bottom_up.go:335-424 | the loop over iterators, heads, active indices and batches writes exactly the merge of its operands and terminates |
| BottomUp.ResolveIntersection | internal/check/bottom_up.go:426-517 | the loop writes exactly the leapfrog walk of its operands, nothing for no operands, and terminates |
| BottomUp.ResolveDifference | internal/check/bottom_up.go:519-628 | the loop writes exactly the exclusion walk, or all of the base when the subtracted edge was unreachable, and terminates |
| Pipeline.SetUp | internal/check/bottom_up.go:75-102 | opens one iterator per reachable edge, fed with what that edge resolves to |
| Pipeline.Resolve | internal/check/bottom_up.go:124-158 | for every rewrite tree over sorted leaves, whatever edges can be reached, the composed pipeline yields a sorted stream of exactly what the tree emits: intersections over the operands that are there, exclusions with the first one that is there as base |
| Pipeline.ResolveBoth | internal/check/bottom_up.go:124-158 | two trees over strict leaves that emit the same objects put the same sequence on their channels |
| Pipeline.ExactIff | internal/check/bottom_up.go:75-102 | a node over exact operands emits its set denotation iff, for an intersection, all operands can be reached or those that can share nothing, and, for an exclusion, the base can be reached or there is nothing to subtract |
| Pipeline.ExactTree | internal/check/bottom_up.go:75-158 | a tree that meets this condition at every reachable node emits its set denotation |
| Pipeline.SubtractedInsteadOfBase | internal/check/bottom_up.go:552-553 | an exclusion whose base cannot be reached drains the subtracted operand as its base |
| Pipeline.Check | internal/check/weight2.go:69-191 | the pipeline followed by the two-sided intersection allows iff what the tree emits meets the object's ids, and iff its denotation does where every reachable node is faithful |
| Weight2.Arrival | internal/check/weight2.go:133-186 | keeping or pruning one arriving id never hides a later match: whatever one side dropped lies behind the other side |
| Weight2.Execute | internal/check/weight2.go:69-191 | under every interleaving of the two channels and every batching of the left, allowed iff the two sides share an id, with and without pruning |
| StreamBuffers.Streams.CleanDone | internal/iterator/stream.go:194-207 | fetches for every stream and drops exactly those that are done, changing no remaining content |
| StreamBuffers.Streams.Head | internal/iterator/stream.go:33-46 | looks at the first buffered id without taking it; an exhausted buffer is given up and nothing is lost |
| StreamBuffers.Streams.Next | internal/iterator/stream.go:48-61 | takes exactly the first remaining id of one stream and leaves the others alone |
| StreamBuffers.Streams.SkipToTarget | internal/iterator/stream.go:77-111 | drops only ids below the target from the front of one stream, until the buffer starts at the target or above or is given up |
| StreamBuffers.Streams.Drain | internal/iterator/stream.go:114-127 | returns exactly the buffered ids and gives the buffer up |
| FastPath.TakeEqual | internal/graph/weight_two_resolver.go:285-299 | takes the head of exactly those streams whose head is the target |
| FastPath.FastPathUnion | internal/graph/weight_two_resolver.go:301-371 | strictly increasing output holding exactly the ids of all streams; terminates |
| FastPath.IntersectionRound | internal/graph/weight_two_resolver.go:392-460 | a round takes the common head or moves everything up to the largest, and makes progress; over no streams it changes nothing and the loop guard stays true |
| FastPath.FastPathIntersection | internal/graph/weight_two_resolver.go:373-461 | strictly increasing output holding exactly the ids common to all streams; terminates |
| FastPath.FastPathDifference | internal/graph/weight_two_resolver.go:463-580 | strictly increasing output holding exactly the base ids not subtracted; terminates |
| OperatorsAgree.Unions | internal/graph/weight_two_resolver.go:301-371 | the v1 and v2 unions emit the same sequence however each side's inputs are cut into batches |
| OperatorsAgree.Intersections | internal/graph/weight_two_resolver.go:373-461 | the v1 and v2 intersections emit the same sequence however the inputs are batched |
| OperatorsAgree.Differences | internal/graph/weight_two_resolver.go:463-580 | the v1 and v2 exclusions emit the same sequence however the inputs are batched |
| RecursiveSearch.StepSound | internal/check/recursive.go:251-279 | every action of the launch loop and of every worker only expands ids reachable over passing rows, and a response has a witness |
| RecursiveSearch.StepComplete | internal/check/recursive.go:344-356 | no action forgets a reachable id as long as no response is under way and no failing row hides a passing one |
| WorkerPool.StepProgress | internal/check/recursive.go:180-279 | every action of every schedule makes one lexicographic measure smaller, so every run comes to a halt, on cyclic graphs too |
| WorkerPool.HaltedCases | internal/check/recursive.go:200-235 | a run halts only with an answer, or with the launch loop waiting for room, the channel full and every worker waiting to send |
| RecursiveSearch.Answers | internal/check/recursive.go:180-236 | in every run, whatever the limit, allowed implies a reachable match, and a channel closed without a response excludes one where no failing row hides a passing one |
| RecursiveSearch.RecursiveMatch | internal/check/recursive.go:180-236 | under every schedule the search halts and reports how: with an answer that means this, or without one, and then there were two first-level ids and twice as many user ids as the limit |
| LaunchBlocking.BlockedNeeds | internal/check/recursive.go:197-213 | a blocked run needs two first-level ids and twice as many user ids as the limit, since each user id is reported at most once |
| LaunchBlocking.BlockedRun | internal/check/recursive.go:197-279 | whenever there are that many, some tuples and some schedule block the search |
| LaunchBlocking.SpreadBlocks | internal/check/recursive.go:197-213 | for every limit, more than twice as many first-level ids with one match each have a schedule that blocks |
| LaunchBlocking.NeverBlocksIff | internal/check/recursive.go:180-236 | no tuples and no schedule block the search iff there is at most one first-level id, with a positive limit, or there are fewer than twice as many user ids as the limit |
| RecursiveSearch.Bootstrap | internal/check/recursive.go:88-178 | draining the two channels in any interleaving either decides soundly or yields both id sets complete and disjoint |
| RecursiveSearch.Execute | internal/check/recursive.go:88-178 | for the whole strategy: allowed implies that a user id is reachable over passing rows from the first-level ids, denied excludes it where no failing row hides a passing one, and no answer means that a run of the search blocks, which needs the sizes above |
| RecursiveSearch.ExactIff | internal/check/recursive.go:344-356 | for every graph, all answers of all runs, with all first-level ids, user ids and limits, are exact iff no id's first row to another id fails while some row to that id passes |
| RecursiveSearch.UniformHidesNothing | internal/check/filters.go:33-38 | the exactness condition holds without conditions, and wherever a row's outcome depends only on its target |
| RecursiveSearch.ConditionedRowCanBeLost | internal/check/recursive.go:344-356 | a graph of two rows on which deduplication before the condition loses a reachable match |
| BreadthFirst.ExpandLevel | internal/graph/recursive_resolver.go:275-339 | in any order within the level, finds a match below it or returns exactly the successors of its unvisited ids |
| BreadthFirst.Search | internal/graph/recursive_resolver.go:275-339 | terminates; with a limit ahead: allowed iff a match is within the steps the limit leaves, else depth exceeded iff there is still something to look at one level before the limit, else denied; otherwise reachability |
| BreadthFirst.FindsWithinDepth | internal/graph/recursive_resolver.go:275-339 | a match the depth limit leaves room for is always found |
| BreadthFirst.DecidesWithinDepth | internal/graph/recursive_resolver.go:275-339 | where everything reachable is reached well within the limit, the answer is reachability and never depth exceeded |
| BreadthFirst.RecursiveFastPath | internal/graph/recursive_resolver.go:82-162 | the same exact answer for the whole strategy, with the two channels read in any interleaving, and denied if either is empty |
| ModelGraph.FlattenNode | internal/modelgraph/model.go:84-145 | the explicit stack returns the recursive left-to-right depth-first flattening, and an error iff a node is missing |
| ModelGraph.FlattenPreservesMeaning | internal/modelgraph/model.go:84-145 | with intersections meaning all of their edges, exclusions the first but no other and every other node some edge: a flattened node of alternatives holds iff one of the listed edges does; each is decided by tuples or leads to an intersection or exclusion, and something of the user's type lies beyond it |
| ModelGraph.PrunedIsFalse | internal/modelgraph/model.go:106-109 | where weights and wildcards say what lies beyond an edge, a pruned edge never holds, however deep the rewrite behind it |
| ModelGraph.SkipIsFilter | internal/modelgraph/model.go:84-145 | a skip relation yields exactly the unskipped result without the edges of that relation |
| CacheFreshness.InvHolds | internal/cachecontroller/cache_controller.go:148-192 | in every run the changelog entry outlives its change by its lifetime and every request's invalidation time is current or the entry's lifetime has passed |
| CacheFreshness.NeverStale | internal/check/check.go:158-177 | no request is served a response cached at or before a change recorded before it began, if responses with the largest jitter live no longer than the changelog entry |
| CacheFreshness.StaleRun | internal/graph/cached_resolver.go:202-202 | a run that serves such a response whenever responses do live longer |
| CacheFreshness.FreshIff | internal/cachecontroller/cache_controller.go:148-192 | no such response in any run, with a jitter drawn at every store, iff the response lifetime with the largest jitter is at most the changelog entry's |
| CacheFreshness.RefreshRemembered | internal/cachecontroller/cache_controller.go:297-297 | requests work with the recorded change for exactly the changelog entry's lifetime after a refresh |
| CacheFreshness.OutdatedByEvaluation | internal/graph/cached_resolver.go:181-202 | a run that serves a response evaluated before a recorded change and stamped after it, whenever evaluations take time |
| CacheFreshness.OutdatedByReuse | internal/graph/cached_resolver.go:153-202 | a run that does so even with instant evaluations, by resting a new response on a cached one |
| CacheFreshness.UpToDateIff | internal/check/check.go:267-273 | where nothing is taken from the cache, no response served rests on a read before a recorded change iff evaluations take no time and responses live no longer than the changelog entry, or nothing is ever served |
| CacheFreshness.UpToDateWithReuseIff | internal/graph/cached_resolver.go:136-204 | where sub-problems are answered from the cache, none does iff nothing is ever served |
| CacheFreshness.V2IsFresh | internal/check/check.go:267-273 | the v2 store step with the lifetime it is configured with serves no response cached before a recorded change |
| CacheFreshness.MaxJitterIsShare | pkg/storage/cache.go:278-290 | the largest jitter, computed from quotient and remainder, is the capped percentage of the lifetime |
| CacheFreshness.V1IsFreshWithoutJitter | pkg/storage/cache.go:278-302 | the same of the v1 store step iff the capped percentage of its lifetime is less than one unit of time |
| CacheController.RefreshCovers | internal/cachecontroller/cache_controller.go:288-345 | having read any newest part of the changelog, the refresh covers every change newer than the limit, read or not |
| CacheController.InvalidatedExactly | internal/cachecontroller/cache_controller.go:328-345 | a refresh marks the store iff every change read is recent; otherwise it leaves the store alone and marks exactly the entities that recent changes concern |
| CacheController.CoveredInvalidates | pkg/storage/storagewrappers/cached_datastore.go:254-273 | while its entries live, a covered change makes every iterator that reads one of its entities and was read before it invalid |
| CacheController.InMemoryCacheController.Invalidate | internal/cachecontroller/cache_controller.go:274-345 | records the newest change; on a new one marks the store or every recent change, covering the whole recent changelog; a failed read marks the store and covers everything |
| IteratorFreshness.InvHolds | internal/cachecontroller/cache_controller.go:359-375 | in every run, lifetimes permitting, every cached iterator and every read that passed its test is guarded, against each covered change since it began, by a store entry or by entity entries that outlive it |
| IteratorFreshness.NeverStale | pkg/storage/storagewrappers/cached_datastore.go:280-300 | with expiring entity entries, no look-up returns an iterator read before a recent change that any refresh saw, to what it reads, if drain and cache time together, and the read, are no longer than an entry lives and no change shares the time of one recorded before |
| IteratorFreshness.StaleByLifetime | pkg/storage/storagewrappers/request.go:68-80 | a run that serves such an iterator whenever iterators, with jitter, live longer than invalidation entries |
| IteratorFreshness.StaleByFlush | pkg/storage/storagewrappers/cached_datastore.go:528-567 | a run that does so by a change and a refresh between the test and the flush, whenever drain and cache time together are longer |
| IteratorFreshness.StaleByRead | pkg/storage/storagewrappers/cached_datastore.go:536-541 | a run that does so whenever a read can go on for longer than an invalidation entry lives before it is tested |
| IteratorFreshness.FreshIff | pkg/storage/storagewrappers/cached_datastore.go:503-567 | freshness of iterators in all runs with changes at different times iff none of these is possible |
| IteratorFreshness.CheckIteratorsFreshIff | internal/shared/shared.go:110-110 | where iterators and invalidation entries share one lifetime, iff there is no jitter, the flush is instant and no read goes on for longer |
| IteratorFreshness.StaleBySameTime | internal/cachecontroller/cache_controller.go:300-309 | whatever the lifetimes, a run that serves an iterator behind a change written at the time of the newest recorded one, which the next refresh takes for old |
| IteratorFreshness.GoneUntilFlushed | pkg/storage/storagewrappers/cached_datastore.go:293-297 | what a look-up finds invalid is not served again, in any run, before the next flush |
| IteratorFreshness.NeverOutdated | internal/cachecontroller/cache_controller.go:311-345 | no look-up returns an iterator read before any change that was in the changelog at a refresh, if read, drain and cache time together fit into an entry's lifetime and no change shares the time of one recorded before |
| IteratorFreshness.OutdatedByRead | internal/cachecontroller/cache_controller.go:311-345 | a run that returns one, by a change too old to get an entry, whenever they do not |
| IteratorFreshness.UpToDateIff | internal/cachecontroller/cache_controller.go:311-345 | the two together |
| ReverseEdges.SearchRelation | internal/graph/graph.go:138-163 | with any visited set: collects the local edges of each newly visited relation once, closes over successors, and fails only if an undefined relation is reachable |
| ReverseEdges.SearchParents | internal/graph/graph.go:233-283 | the tupleset loop follows every parent type that has the relation, passes over those that lack it and fails on unknown types |
| ReverseEdges.SearchRewrite | internal/graph/graph.go:166-376 | the same for any rewrite, over all operands or, when pruned, the first intersection operand and the exclusion base, as the two rows below say edge by edge |
| ReverseEdges.EdgesOfCount | internal/graph/graph.go:166-376 | a relation contributes an edge as often as its leaf occurs where the mode looks, times one for an assignable source, one for a computed relation that is the source, or the number of tupleset restrictions to the source's type |
| ReverseEdges.NextMeaning | internal/graph/graph.go:166-376 | a relation leads to exactly the usersets it is restricted to, its computed relations and its parents' relations, for leaves that occur where the mode looks |
| ReverseEdges.GetRelationshipEdges | internal/graph/graph.go:113-136 | terminates; succeeds iff every relation reachable from the target is defined, and then returns each edge exactly as often as its target contributes it if that is reachable, and no other edge |
| Thompson.FoldedClosedForm | internal/planner/thompson.go:83-112 | the sequential updates have the normal-gamma closed form in count, sum and sum of squares |
| Thompson.OrderIrrelevant | internal/planner/thompson.go:83-112 | the belief depends only on the multiset of observations |
| Thompson.StepExplained | internal/planner/thompson.go:86-111 | every load or compare-and-swap of every call keeps the snapshot equal to a sequential fold of the returned calls' observations |
| Thompson.NoObservationLost | internal/planner/thompson.go:83-131 | at every moment of every interleaving the snapshot is what the returned calls' observations give sequentially, each applied exactly once |
| Thompson.CanReturn | internal/planner/thompson.go:86-111 | from every state a call under way returns by at most three steps of its own, retrying a failed swap from a fresh load |
| Thompson.PublishedPerReturn | internal/planner/thompson.go:106-110 | in every interleaving as many snapshots are published as calls return, so a swap fails only because another call has returned |
| Bags.SpellsChain | internal/containers/bag.go:33-44 | walking a published chain meets one call's values in reverse and then the older list |
| Bags.StepKeeps | internal/containers/bag.go:25-75 | every atomic action keeps the list well formed, leaves published nodes unchanged and keeps every returned call in exactly one place |
| Bags.NothingLostOrDuplicated | internal/containers/bag.go:25-75 | in every state of every interleaving each returned value is held, out with exactly one reader or cleared; blocks stay contiguous and reversed; each reader has a prefix and will meet exactly the rest |
| Bags.AddCanReturn | internal/containers/bag.go:46-53 | from every state an Add under way returns by at most three steps of its own, its values at the front of the list |
| Bags.SeqDrains | internal/containers/bag.go:56-70 | Seq empties the bag, and its iterator can yield all that was in it, the latest call's values first and reversed |
| Bags.ClearEmpties | internal/containers/bag.go:72-75 | Clear empties the bag and takes nothing from iterators that are out |
| ContextualTuples.LowerBound | internal/check/request.go:227-236 | binary search finds the first position whose key is not below the given one |
| ContextualTuples.InsertSorted | internal/check/request.go:219-256 | keeps the bucket strictly sorted and holding the first tuple per sort key |
| ContextualTuples.Request.BuildContextualTupleMaps | internal/check/request.go:176-216 | every bucket of both indexes is strictly sorted and holds exactly the first contextual tuple per sort key |
| ContextualTuples.Request.Lookup | internal/check/check.go:861-868 | binary search in the bucket returns exactly what a linear scan for the first matching tuple returns |
| EnvFile.RenderEnv | deploy/dokploy/deploy.py:65-75 | fails iff some key is malformed or some value has a carriage return, newline or NUL; otherwise one quoted line per entry |
| EnvFile.ParseEnv | deploy/dokploy/deploy.py:44-62 | the loop over lines is the line-by-line reading, failing on malformed or duplicate keys and bad quoting |
| EnvLines.ParseMeaning | deploy/dokploy/deploy.py:44-62 | a text is read iff no line is bad and no key comes twice, and then to the entries of its lines in order |
| EnvLines.CommentLine | deploy/dokploy/deploy.py:47-49 | a line whose first character other than blanks is a number sign has no entry |
| EnvLines.LineWithoutEquals | deploy/dokploy/deploy.py:50-53 | any other line that is not blank needs an equals sign |
| EnvLines.PlainValue | deploy/dokploy/deploy.py:50-62 | a value without quotes is taken as it stands, without the blanks around key, equals sign and value |
| EnvLines.SingleQuotedValue | deploy/dokploy/deploy.py:57-58 | between single quotes only escaped quotes are read otherwise |
| EnvLines.DoubleQuotedValue | deploy/dokploy/deploy.py:55-60 | a value that begins with a double quote is refused unless it is JSON, and doubled dollar signs in it are read as one |
| EnvFile.UnescapeEscape | deploy/dokploy/deploy.py:56-74 | quotes, backslashes and backslash-quote pairs survive escaping and unescaping |
| EnvFile.RoundTripIff | deploy/dokploy/deploy.py:44-75 | parsing what was printed gives the mapping back, in order, iff no value holds a line-boundary character; otherwise an entry is missing |
| EnvFile.LineSeparatorIsLost | deploy/dokploy/deploy.py:71-73 | a value with a line separator passes the printer's test and is not read back |

## Left out

- LocalChecker: the weight-two and recursive strategies of the v1 resolver are modelled on their own (`FastPath`, `BreadthFirst`), not inside the recursive evaluation, which uses the default strategy everywhere.
- LocalCheckerCorrect.TuplesetJudged: speaks of answers, as all of `LocalCheckerCorrect` does; when there is one is in `Answering`.
- LocalCheckerCorrect.CheckIsFixpoint: states error-free answers in the case without exclusion; `Answering.AnswersTheFixpoint` says when there is an answer, and `LocalCheckerCorrect.AllowsExactlyTheSure`, `Stratified` and `SubtractedLoops` state the cases with it.
- SubtractedLoops.ExactIff: intersections and exclusions inside a subtracted branch are not covered by the exact condition. `Stratified.AnswersAreSound` and `Stratified.AnswersAreExact` cover them.
- Stratified.AnswersAreSound: models in which a goal depends on itself through a subtracted branch need not have a meaning; for them only `LocalCheckerCorrect.UnflaggedResponsesAreSound` is stated.
- RecursiveSearch.Execute: read errors are left out. Exactness of denials is stated where no failing row hides a passing one, which `RecursiveSearch.ExactIff` shows to be necessary.
- LaunchBlocking.NeverBlocksIff: the condition is on the ids and the limit a caller knows, for all tuples; which tuples block a given call is not characterised beyond `LaunchBlocking.SpreadBlocks`. A negative limit, which means no limit, is not modelled.
- Pipeline.Resolve: requests for a wildcard user, stream errors, and exclusions with no reachable operand, on which the code fails. Strictness of leaf streams below an exclusion with two operands is an assumption; `LeafMerge.LeafStrictIff` says when it holds.
- LeafMerge: the merge is modelled on values, not as an iterator with fields; filtering by condition is left out.
- FastPath.FastPathIntersection: assumes at least one operand; with none the code's loop does not end, as `FastPath.IntersectionRound` shows.
- OperatorsAgree.Intersections: assumes at least one operand, as the v1 intersection does.
- ModelGraph.FlattenPreservesMeaning: that an edge's weights and wildcards say what lies beyond it, that edges lead to nodes of the kind they should, and that rewrites do not run in circles, is assumed; a library outside the repository builds the graph.
- StreamBuffers.Streams.SkipToTarget: the error for a target that is no valid object is left out; targets are heads of other streams.
- ReverseEdges.GetRelationshipEdges: the flag on edges that pass an intersection or exclusion, and errors raised only while computing that flag; an intersection without operands counts as having no edges, where pruned mode would panic.
- ReverseEdges.SearchRewrite: leaves out the same flag.
- ReverseEdges.SearchParents: leaves out the same flag and the errors of its computation.
- Thompson.NoObservationLost: arithmetic is over the reals and the prior weight is positive, as in every configured plan; floating-point rounding is not modelled.
- Bags.NothingLostOrDuplicated: a reader that breaks off keeps its position, so the value it was offered last is offered again; the model counts a value as taken when the reader goes on.
- ContextualTuples.Request: bucket keys are the triples themselves, not their hashes, and the types of objects and users are arbitrary functions of their strings.
- EnvFile.ParseEnv: decoding of JSON string literals is a parameter.
- CacheFreshness: one clock, no capacity eviction, each action one step; asynchronous refreshes are actions of their own. An evaluation reads the store once, when it begins, apart from what it takes from the cache.
- CacheController: the in-flight guard that runs one refresh per store at a time, and the timeout of a refresh.
- IteratorFreshness: one clock and one store, each action one step; limits on the size of a cached iterator and the sharing of one drain by several requests are left out. A read counts from when its iterator object is built, as the code stamps it; the query was issued shortly before, and a change in between is not modelled.
- Conditions are a given outcome per row; their compilation and evaluation are not modelled.
- Cancellation, deadlines, panics and clean-up of goroutines.
- Datastores, the type system's own validation, cache keys and their hashing.
- v2 edge caching under a shared visited map, and the order in which v2 intersection and exclusion report errors: neither is independent of paths or order in the code.
- Random sampling in the planner, request handlers, encoders, telemetry, command-line and deployment plumbing: input/output or easy members.
