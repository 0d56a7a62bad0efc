# Verified models of the autocomplete index, the job queue, the hash ring and the rate limiters

This project models the four parts of the repository that carry real algorithms and proves what they are
for.  Code that updates objects, arrays, maps or heaps in place is modelled by classes and methods with loops,
each proved against a specification function or relation; the properties of those specifications are proved
as lemmas over every input, every run or every reachable state.

## The parts

**Autocomplete index** (`search_autocomplete`).  A suggestion request has one specification,
`Recos.IsTopK`: a list in descending frequency that is a sub-bag of the pool of candidates, as long as k
allows, with nothing left out that is more frequent.  How ties are broken is left open, and
`Recos.TopKIsUnique` shows that all answers to a request still have the same frequency list.  Every path of the
program is measured against it: the binary heaps of container/heap (`Heaps`), the k-way merge, the bounded
min-heap and the sort-and-truncate (`TopLists`), the linked trie with its word marks (`Tries`), the
sequential and the parallel cache build (`TopCaches`, with `WrittenPools` and `Selections` for what the
parallel one gathers at the root), the walk for uncached nodes (`Suggests`), the flat prefix
index (`PrefixIndexes`), and the seeder that splits a sorted file that does not fit in memory into buckets,
indexes each bucket alone and merges the results in any order (`Files`, `Buckets`, `PhrasePools`,
`PrefixHeaps`, `Seeding`).  `Agreement` joins the paths.

**Job queue** (`jobq`).  `JobMachine` has the rows of the table and every SQL statement as a step; a nack
is two steps, its SELECT and its guarded UPDATE, and anything may happen in between.  Workers may send any
request with any token at any time.  `JobRuns` proves fencing, bounded life cycles, which jobs get stuck, and
conservation of jobs over whole runs.  `JobOutcomes` says what each statement means for the job it hits and for
every run that follows.  `JobStore` is the store object whose methods perform the steps.
`Backoff` is the retry delay in wrapping 64-bit arithmetic.

**Consistent hashing** (`consistent_hashing`).  `Rings` has the circle, the clockwise successor and what
adding and removing points does to it; `Names` shows that no two names that are hashed are the same;
`ConsistentHashing` is the hasher with its sorted slice, its binary
search and its in-place filter.  The hash is any function to 32-bit values: nothing assumes that hashes differ.

**Rate limiters** (`rate_limiter`).  `TokenBuckets`, `LeakingBuckets` and `SlidingWindow` prove bounds over
every run, when eviction can be seen, and when the leaking bucket answers like the token bucket;
`HostRates` carries the rate bound to one host inside a limiter with other hosts and evictions.
`TokenLimiter` and the classes in the other two modules perform the steps on objects.

## What turned out not to hold

Each of these is stated with a concrete case, next to a lemma that says exactly when the code does what is
expected.

- The parallel cache build writes the first rune of a child's path as one byte.  With lists cached beyond the
  root it is right exactly when every word starts with a rune below 0x80 (`TopCaches.ParallelSoundIff`,
  `TopCaches.SpoiltList`).  With a cache depth below 1 it still stores the root list, which is right however
  ties are broken exactly when no word among those that can be listed is written as something else or as
  another such word is (`WrittenPools.RootAlwaysRightIff`, `TopCaches.ShallowSoundIff`); the file with the one
  phrase U+00E9 gets a wrong cache at every depth (`Agreement.LoadSpoilt`), and a request for U+0141 can be
  answered with a word that starts with 'A' (`Agreement.SuggestSpoilt`).
- The seeder skips a phrase equal to the prefix of a bucket that is split further, so that phrase is lost from
  the stored index (`Seeding.LostPhrase`, a file of 71 lines of at most 60 KB).  A phrase reaches a leaf
  exactly when the prefixes beyond it fit the memory budget (`Buckets.ProcessBucket`,
  `Seeding.StoredIffInBudget`), and the stored answers to a request are right for every k exactly when that
  holds of each of its completions (`Agreement.SeededRightIff`).
- The comment at `search_autocomplete/cmd/seeder/main.go:95` speaks of a budget of 3 GB; the code has 500 MB,
  which is what `Seeding.ReachedIff` states.
- `jobq/documentation/phase3.md:12` calls the lease token monotonic.  Reviving a dead job sets it back to zero
  (`jobq/src/internal/storage/job.go:339`), after which a worker of an earlier life can be let in
  (`JobRuns.ResetReissuesTokens`).  The order holds for the pair of resets and token (`JobRuns.FencingOrder`).
- A job whose last attempt ends by an expired lease goes back to pending with no attempt left, and no step ever
  changes it again (`JobRuns.JobGetsStuck`, `JobRuns.StuckOnlyByReaper`, `JobRuns.StuckForever`).
- `jobq/documentation/phase4.md:48` says that capping the exponent at 30 prevents overflow.  It does not for a
  base delay of 2^33 nanoseconds (about 8.6 seconds) or more; the ceiling is still the documented one exactly
  when the product does not wrap around to a smaller positive value (`Backoff.CeilingIntendedIff`), which
  `Backoff.WholeSecondsAreSafe` shows for usual settings and `Backoff.CapDoesNotPreventOverflow` refutes for an
  accepted configuration of 47279 and 47280 seconds.
- Removing a server unmaps its hashes even where another server's virtual node is mapped
  (`ConsistentHashing.RemovalTakesSharedKey`; exact condition in `Rings.RemoveDisturbsIff`).
- A limiter that evicts before a bucket can have refilled lets a host exceed its rate
  (`HostRates.ShortTtlExceedsRate`; exact condition in `HostRates.RateKeptIff`).
- With its epsilon the leaking bucket is not a token bucket (`LeakingBuckets.DefaultsDiffer`; exact
  condition in `LeakingBuckets.AlikeIff`).

## Model

| member | source | states |
|---|---|---|
| Recos.TopKIsUnique | search_autocomplete/internal/trie/suggest.go:32-49 | any two lists that are a top k of the same pool have the same frequency list, however ties were broken |
| Recos.ReplaceByTop | search_autocomplete/internal/trie/cache.go:14-31 | a pool may be cut to its own top k before it is joined with anything else |
| Recos.RepresentsMore | search_autocomplete/internal/trie/cache.go:14-22 | candidate lists that stand for the pool of some children still do after one more child's top list is added |
| Recos.RepresentsAnswer | search_autocomplete/internal/trie/cache.go:23-31 | merging the gathered lists gives the answer for the whole subtree |
| Heaps.RootIsLeast | search_autocomplete/internal/trie/heap.go:8-28 | the first element of an ordered heap is a least one |
| Heaps.SiftUp | search_autocomplete/internal/trie/heap.go:8-28 | swapping an entry with its parent moves the only disorder up |
| Heaps.SiftDown | search_autocomplete/internal/trie/heap.go:8-28 | swapping an entry with its smaller child moves the only disorder down |
| Heaps.Heap.Push | search_autocomplete/internal/trie/heap.go:14-16 | the heap stays ordered and gains exactly the entry |
| Heaps.Heap.Pop | search_autocomplete/internal/trie/heap.go:22-28 | the heap stays ordered and loses exactly one entry, a least one |
| TopLists.RestOfBag | search_autocomplete/internal/trie/cache.go:38-55 | what is still to be merged does not depend on how the heads lie in the heap |
| TopLists.TakeLargest | search_autocomplete/internal/trie/cache.go:47-53 | one turn takes a most frequent remaining entry and puts the next entry of its list in the race |
| TopLists.MergeTopK | search_autocomplete/internal/trie/cache.go:38-55 | merging lists that are each descending gives a top k of all their entries together, for every k |
| TopLists.Offer | search_autocomplete/internal/trie/suggest.go:35-42 | the bounded min-heap goes on holding k largest of everything offered |
| TopLists.TopK | search_autocomplete/internal/trie/suggest.go:32-49 | the result is a top k of the unsorted candidates |
| TopLists.DrainDescending | search_autocomplete/cmd/seeder/main.go:454-457 | emptying a min-heap into a slice from its far end gives its entries in descending order |
| TopLists.MergeTop | search_autocomplete/cmd/seeder/main.go:343-363 | joining two stored lists gives a top k of both together, without removing duplicates |
| Completions.ChildPart | search_autocomplete/internal/trie/cache.go:11-21 | the completions below a node are those of its children, each counted once, and its own word |
| Completions.PoolMembers | search_autocomplete/internal/trie/suggest.go:51-58 | the pool of a prefix holds each word that extends it once, with its frequency |
| Completions.TopListIsAnswer | search_autocomplete/internal/trie/suggest.go:8-30 | the words of a top list are distinct completions, as many as possible, none better left out |
| Completions.AnswerIsTopList | search_autocomplete/internal/trie/suggest.go:8-30 | and conversely every such answer is a top list |
| Completions.AnswersAgree | search_autocomplete/internal/trie/suggest.go:8-30 | any two right answers to a request have the same frequencies |
| Tries.Trie.AddChild | search_autocomplete/internal/trie/trie.go:47-53 | a new child is one new node at one new path; the nodes stay a tree |
| Tries.Trie.WalkDown | search_autocomplete/internal/trie/trie.go:41-55 | walking down a word makes exactly its missing prefixes and leaves all other nodes in place |
| Tries.Trie.Insert | search_autocomplete/internal/trie/trie.go:39-58 | the stored map changes at exactly one word, the last write wins, the nodes stay a tree with the prefixes as paths |
| Tries.Trie.NodeIffPrefix | search_autocomplete/internal/trie/trie.go:60-73 | there is a node for a string exactly when it is empty or a prefix of an inserted word |
| Tries.Trie.Search | search_autocomplete/internal/trie/trie.go:60-73 | exists iff empty or a prefix of a word, isWord iff in the map, with its frequency or 0 |
| TopCaches.ChooseTop | search_autocomplete/internal/trie/cache.go:23-31 | no list for no candidates, the single list unmerged, otherwise the merge: always a top k of the pool |
| TopCaches.GatherCandidates | search_autocomplete/internal/trie/cache.go:8-22 | the lists gathered from own word and children, in any order, stand for the whole subtree; the children share one path buffer, which is written behind the node's own path, cut back, and moved when full |
| TopCaches.AppendUnit | search_autocomplete/internal/trie/cache.go:16-16 | appending a unit keeps the slice's own units, in place when there is room and in a new array when not |
| TopCaches.TraverseAndBuild | search_autocomplete/internal/trie/cache.go:8-36 | every node below within the cache depth has the top k of its completions, every other node is untouched |
| TopCaches.BuildCache | search_autocomplete/internal/trie/cache.go:57-66 | afterwards every stored list is right exactly when the lists beyond the cache depth already were; within the cache depth every node with completions has its top k, beyond it nothing changed; K 0 becomes 10 |
| TopCaches.BuildCacheParallel | search_autocomplete/internal/trie/cache.go:68-85 | what is left at every node, with the first rune of each path cut to one byte, children in any order; the root list is a top k of all words as they are written, at every cache depth; with no wrong list before, all lists are right when every word starts below 0x80, at depth 1 and more only then, and at depth 0 and less when the word list is root safe |
| TopCaches.ParallelSoundIff | search_autocomplete/internal/trie/cache.go:68-85 | with caching beyond the root, every list is right if and only if every word starts with a rune below 0x80 |
| TopCaches.AsciiSound | search_autocomplete/internal/trie/cache.go:68-85 | when every word starts below 0x80 every list is right, at every cache depth |
| TopCaches.ShallowSoundIff | search_autocomplete/internal/trie/cache.go:83-83 | with a cache depth below 1 every list is right if and only if the root list is, that is, if its entries are words with their frequencies, each listed once |
| TopCaches.LoneWordIsSpoilt | search_autocomplete/internal/trie/cache.go:73-83 | a lone word that starts with a rune from 0x80 up gets a wrong root list at every cache depth |
| TopCaches.LoneList | search_autocomplete/internal/trie/cache.go:8-36 | within the cache depth a single word is stored at each of its prefixes as it is written |
| WrittenPools.StartingMore | search_autocomplete/internal/trie/cache.go:71-82 | each child adds its words, as they are written, to what is gathered at the root |
| WrittenPools.UnitOf | search_autocomplete/internal/trie/cache.go:75-75 | the first unit is the rune of the low eight bits when they are below 0x80, and no rune at all otherwise |
| WrittenPools.WrittenAlikeIff | search_autocomplete/internal/trie/cache.go:75-75 | two words are written alike if and only if their first runes agree in the low eight bits and their tails agree |
| WrittenPools.LoneRootList | search_autocomplete/internal/trie/cache.go:71-83 | the root list of a single word is that word with its first rune cut to one byte |
| WrittenPools.BagInAscii | search_autocomplete/internal/trie/cache.go:75-75 | with first runes below 0x80 the gathered entries are the words themselves |
| WrittenPools.RootListRightIff | search_autocomplete/internal/trie/cache.go:83-83 | a root list is right if and only if its entries are words with their frequencies, each listed once |
| WrittenPools.RootAlwaysRightIff | search_autocomplete/internal/trie/cache.go:68-85 | the root list is right however ties are broken if and only if every word that can be listed is written as a word of its frequency, and as no other word is unless there is room for one such entry only |
| Selections.SelectionMoves | search_autocomplete/internal/trie/cache.go:38-55 | pools with as many entries above every frequency share the selections made of common entries |
| Selections.Preferred | search_autocomplete/internal/trie/cache.go:38-55 | any entry with room below what is more frequent is in some selection, as often as there is room |
| TopCaches.SpoiltList | search_autocomplete/internal/trie/cache.go:75-75 | a word that starts with any other rune makes the list of its first rune wrong |
| Suggests.DFS | search_autocomplete/internal/trie/suggest.go:51-58 | appends every word below the node exactly once, in any child order |
| Suggests.Recommend | search_autocomplete/internal/trie/suggest.go:18-24 | the stored list if there is one, otherwise a top k of the walk |
| Suggests.Suggest | search_autocomplete/internal/trie/suggest.go:8-30 | for every string: a right answer whenever the list stored there is right or absent; nothing for K at most 0 |
| PrefixIndexes.WalkForIndex | search_autocomplete/internal/trie/trie.go:114-130 | fills exactly the paths below the node, each with the top k of its completions |
| PrefixIndexes.BuildPrefixIndex | search_autocomplete/internal/trie/prefix_index.go:9-13 | the keys are exactly the empty string and the prefixes of words, each with its top k |
| PrefixIndexes.PrefixIndex.Suggest | search_autocomplete/internal/trie/prefix_index.go:15-25 | the words of the entry, nothing when there is none |
| PrefixIndexes.BothSuggest | search_autocomplete/internal/trie/prefix_index.go:15-25 | for every string the flat index and the trie both give a right answer, with the same frequencies |
| Agreement.BuildTrie | search_autocomplete/internal/trie/trie.go:91-112 | the trie stores the parsed lines, later lines overwriting earlier ones, and has no cached list yet |
| Agreement.CachedEqualsUncached | search_autocomplete/internal/trie/suggest.go:8-30 | for every file, K, cache depth and request, the cached answer and the answer by walking are right and have the same frequencies |
| Agreement.LoadTrie | search_autocomplete/internal/trie/index.go:12-27 | at every cache depth: the cached lists are right when every phrase starts below 0x80, at depth 1 and more only then, below that if and only if the root list holds words with their frequencies; the root list is a top k of the phrases as they are written |
| Agreement.LoadSpoilt | search_autocomplete/internal/trie/index.go:12-27 | the file with the one phrase U+00E9 gets a wrong cache at every cache depth and k |
| Agreement.LoadLone | search_autocomplete/internal/trie/index.go:12-27 | loading a file with one phrase: the list at the root, at each prefix within the cache depth, and none deeper, entry by entry |
| Agreement.SuggestSpoilt | search_autocomplete/internal/trie/suggest.go:8-30 | with the one phrase U+0141 'x' and lists beyond the root, a request for U+0141 is answered with "Ax"; without them with the phrase |
| Agreement.SeededAgreesWithTrie | search_autocomplete/cmd/seeder/main.go:472-529 | with distinct phrases, a non-empty request none of whose completions is over budget is answered like any right answer from the trie |
| Agreement.MissingCompletion | search_autocomplete/cmd/seeder/main.go:135-137 | a completion that is over budget makes the stored answer wrong for every k with room for it |
| Agreement.SeededRightIff | search_autocomplete/cmd/seeder/main.go:472-529 | the stored answers to a request are right for every k if and only if none of its completions is over budget |
| Files.LongestCommonPrefix | search_autocomplete/cmd/seeder/main.go:56-68 | the count of leading runes the two phrases share, and no more |
| Files.ReadRangeIsSlice | search_autocomplete/cmd/seeder/main.go:108-133 | scanning from one line's byte offset to another's yields exactly the lines between |
| Files.Between | search_autocomplete/cmd/seeder/main.go:147-175 | in sorted order the phrases that share a prefix are consecutive |
| Files.LineAdds | search_autocomplete/cmd/seeder/main.go:168-175 | a line adds as many distinct prefixes as it has runes beyond those shared with its neighbour |
| Buckets.Scan | search_autocomplete/cmd/seeder/main.go:108-192 | children abut, share a longer prefix each, and carry the exact number of distinct longer prefixes; the panic is unreachable |
| Buckets.PieceHolds | search_autocomplete/cmd/seeder/main.go:147-166 | every line of the file with a child's prefix lies in that child's range |
| Buckets.JoinSplits | search_autocomplete/cmd/seeder/main.go:254-294 | jobs of two adjacent ranges are the jobs of the joined range, still disjoint and in order |
| Buckets.ChildShorter | search_autocomplete/cmd/seeder/main.go:238-295 | a child that is split further is shorter than the longest phrase, so the recursion ends |
| Buckets.ProcessChild | search_autocomplete/cmd/seeder/main.go:254-294 | a child within budget becomes one job, any other is split |
| Buckets.ProcessBucket | search_autocomplete/cmd/seeder/main.go:238-295 | the queued jobs are disjoint and in file order, exact and within budget, and a phrase line lands in one if and only if its phrase is not over budget |
| PhrasePools.PoolUnion | search_autocomplete/cmd/seeder/main.go:343-363 | the entries of disjoint line sets add up, prefix by prefix |
| PhrasePools.PoolOfAllLines | search_autocomplete/internal/trie/trie.go:91-112 | with distinct phrases, the entries of all lines with a prefix are the completions of that prefix |
| PrefixHeaps.IndexPhrase | search_autocomplete/cmd/seeder/main.go:316-332 | one line is offered to the heap of every one of its prefixes and to no other |
| PrefixHeaps.KeysOfBucket | search_autocomplete/cmd/seeder/main.go:303-339 | an index over a bucket has one key for each prefix of the bucket prefix and for each longer one |
| PrefixHeaps.BuildPrefixIndex | search_autocomplete/cmd/seeder/main.go:303-339 | exactly distinctPrefixes + length of the bucket prefix keys, each with the k largest entries of its prefix |
| PrefixHeaps.CountLine | search_autocomplete/cmd/mem_est/main.go:107-108 | comparing with the line before counts exactly the new prefixes |
| PrefixHeaps.EstimateMemory | search_autocomplete/cmd/mem_est/main.go:101-126 | on a sorted file the estimate equals the size of the real prefix map |
| Seeding.Collection.Flush | search_autocomplete/cmd/seeder/main.go:378-452 | a batch inserts its new prefixes, merges into the stored ones, and touches no other |
| Seeding.MergeIntoMongo | search_autocomplete/cmd/seeder/main.go:364-470 | the whole leaf index is merged, batch by batch, in any order of prefixes |
| Seeding.JoinTops | search_autocomplete/cmd/seeder/main.go:343-363 | the top k of two leaves' tops is the top k of both leaves' lines |
| Seeding.StoreLeaf | search_autocomplete/cmd/seeder/workers.go:12-47 | building and merging one more leaf extends the stored index by exactly its lines |
| Seeding.Seed | search_autocomplete/cmd/seeder/main.go:472-529 | whatever order the leaf results arrive in, each stored list is the descending top k over all phrases of its prefix that reached a leaf; with at most 4194304 distinct prefixes that is every phrase, and every non-empty prefix of one has its list |
| Seeding.ReachedIff | search_autocomplete/cmd/seeder/main.go:91-97 | a phrase reaches a leaf if and only if at most 4194304 distinct prefixes go beyond it, 500 MB at 125 bytes each |
| Seeding.SmallFileStored | search_autocomplete/cmd/seeder/main.go:254-265 | in a file with at most 4194304 distinct prefixes every non-empty prefix has the top k of all lines that extend it, and nothing else has a list |
| Seeding.StoredIffInBudget | search_autocomplete/cmd/seeder/main.go:135-137 | with room for all, a phrase is stored under its own text if and only if it is not over budget |
| Seeding.LostPhrase | search_autocomplete/cmd/seeder/main.go:135-137 | a sorted file of 71 lines, each under the scanner's token limit, whose first phrase reaches no leaf and is in no stored list |
| Seeding.OverBudgetIsNowhere | search_autocomplete/cmd/seeder/main.go:135-137 | a phrase that is over budget is in no list that is stored for any prefix |
| JobMachine.InvInit | jobq/src/internal/storage/job.go:33-55 | the invariant holds of the empty table |
| JobMachine.InvStep | jobq/src/internal/storage/job.go:33-361 | every statement keeps it: 0 <= attempts <= max_attempts, token equals attempts, a lease iff running, no failed or cancelled row |
| JobMachine.InvRun | jobq/src/internal/storage/job.go:33-361 | it holds over every run |
| JobMachine.RowsStay | jobq/src/internal/storage/job.go:33-361 | no statement removes a row or changes its queue, limit or creation time |
| JobMachine.FinishIsAtomic | jobq/src/internal/storage/job.go:148-188 | the nack's UPDATE does what one atomic statement would do at that moment, whatever happened since its SELECT |
| JobMachine.ReadStillCurrent | jobq/src/internal/storage/job.go:121-191 | after any events in between, resets included: if the UPDATE hits a row, the attempts and limit read earlier are still current |
| JobMachine.StepRefines | jobq/src/internal/storage/job.go:121-191 | each step of the two-statement nack is no step or one step of the atomic queue |
| JobMachine.SplitNackRefinesAtomic | jobq/src/internal/storage/job.go:121-191 | every run with split nacks leaves the table as the run with atomic nacks does |
| JobRuns.TokenCountsClaims | jobq/src/internal/storage/job.go:193-233 | without a reset the token counts the claims |
| JobRuns.TokenIsIssuedSince | jobq/src/internal/storage/job.go:193-233 | in every run the token is the number of claims since the last reset |
| JobRuns.FencingOrder | jobq/src/internal/storage/job.go:193-233 | the pair (resets, token) never falls and rises with every claim, lexicographically |
| JobRuns.OldTokenIsFenced | jobq/src/internal/storage/job.go:85-119 | after a later claim, an ack, nack or heartbeat with an older token changes nothing and is told it is stale |
| JobRuns.OldNackIsFenced | jobq/src/internal/storage/job.go:148-188 | so is the UPDATE of a nack whose SELECT came before the claim |
| JobRuns.AckAcceptedIff | jobq/src/internal/storage/job.go:85-119 | after any events an ack is accepted if and only if the job is running and the token counts the claims since the last reset |
| JobRuns.ResetReissuesTokens | jobq/src/internal/storage/job.go:332-344 | a reset lets a token be issued twice, and its first holder complete the second holder's job |
| JobRuns.LeaseIsExclusive | jobq/src/internal/storage/job.go:193-295 | until its lease ends, and while its holder is silent, no events at all touch a running job |
| JobRuns.SilentThroughout | jobq/src/internal/storage/job.go:85-295 | what it means for the holder to be silent: no event of the run speaks with its token |
| JobRuns.ExpiredLeaseIsReaped | jobq/src/internal/storage/job.go:252-267 | the first reaping after that puts it back in the queue with its attempts kept |
| JobRuns.LifeIsBounded | jobq/src/internal/storage/job.go:193-267 | between resets the measure and the status changes so far add up to what the job started with, at most 2 * max_attempts |
| JobRuns.StuckOnlyByReaper | jobq/src/internal/storage/job.go:252-267 | a job becomes pending with no attempt left if and only if the reaper takes back the lease of its last attempt |
| JobRuns.StuckForever | jobq/src/internal/storage/job.go:193-267 | no run ever changes such a job again |
| JobRuns.NewJobNotStuck | jobq/src/internal/storage/job.go:33-55 | a new job is never stuck |
| JobRuns.JobGetsStuck | jobq/src/internal/storage/job.go:252-267 | from the empty table a job gets stuck: one attempt, one claim, and a lease that runs out |
| JobRuns.StatusesPartition | jobq/src/internal/storage/stats.go:21-33 | pending, running, completed and dead jobs of a queue are all of its jobs |
| JobRuns.JobsAreConserved | jobq/src/internal/storage/stats.go:21-33 | in every run the jobs of a queue number its submissions |
| JobOutcomes.PendingWaits | jobq/src/internal/storage/job.go:193-233 | no events at all touch a pending job before its run_at |
| JobOutcomes.SettledStays | jobq/src/internal/storage/job.go:85-361 | no run changes a completed job, nor a dead one that is not reset |
| JobOutcomes.CreateOutcome | jobq/src/internal/storage/job.go:33-55 | a new job is pending with no attempt, token or lease; empty queue becomes default, a limit of 0 or less becomes 5, no time becomes now |
| JobOutcomes.ClaimAcceptedIff | jobq/src/internal/storage/job.go:193-202 | a claim is accepted if and only if the job is pending, due, has an attempt left and is in one of the queues; refused, it changes nothing |
| JobOutcomes.ClaimOutcome | jobq/src/internal/storage/job.go:203-214 | an accepted claim spends an attempt, issues the next token, and leaves the worker alone with the job for the seconds asked for, whatever others do |
| JobOutcomes.AckOutcome | jobq/src/internal/storage/job.go:85-119 | an accepted ack completes the job and no run changes it again |
| JobOutcomes.RefusedOutcome | jobq/src/internal/storage/job.go:95-115 | an ack or nack with another token changes nothing and is told stale or not found |
| JobOutcomes.BeginOutcome | jobq/src/internal/storage/job.go:122-145 | the SELECT of a nack leaves the table alone and remembers the request with what it read |
| JobOutcomes.RetryOutcome | jobq/src/internal/storage/job.go:171-188 | a nack with an attempt left puts the job back to pending with attempts, token, queue and priority kept, the error noted, and run_at delayed |
| JobOutcomes.RetryWaits | jobq/src/internal/storage/job.go:171-188 | before the delay is over no events change the job or make it claimable |
| JobOutcomes.RetryComesBack | jobq/src/internal/storage/job.go:171-233 | once it is over a worker of its queue gets it, with one more attempt spent |
| JobOutcomes.KillOutcome | jobq/src/internal/storage/job.go:148-166 | a permanent nack or one of the last attempt kills the job, and it stays dead until it is reset |
| JobOutcomes.LateNackOutcome | jobq/src/internal/storage/job.go:158-188 | a nack whose row is no longer held changes no row and reports a stale token |
| JobOutcomes.HeartbeatAcceptedIff | jobq/src/internal/storage/job.go:269-295 | only the worker that holds the lease, with its token, can extend it; anyone else changes nothing and is told stale or not found |
| JobOutcomes.HeartbeatOutcome | jobq/src/internal/storage/job.go:269-277 | after an accepted heartbeat no reaping and nothing else touches the row for the seconds asked for, while its holder is silent |
| JobOutcomes.DueRun | jobq/src/internal/storage/job.go:193-267 | in every run a running job is one whose time has come |
| JobOutcomes.ReapedIsClaimable | jobq/src/internal/storage/job.go:252-267 | in every run a reaped job with an attempt left can be claimed at once, with its next token |
| JobOutcomes.ReapSpares | jobq/src/internal/storage/job.go:252-267 | the reaper leaves every other row alone |
| JobOutcomes.ResetOutcome | jobq/src/internal/storage/job.go:332-361 | a reset is accepted only for a dead job, which becomes pending now with attempts and token 0 |
| JobStore.Store.CreateJob | jobq/src/internal/storage/job.go:33-55 | inserts the one row, with the defaults for queue, limit and time |
| JobStore.Store.ClaimPendingJob | jobq/src/internal/storage/job.go:193-233 | takes an eligible row that is not locked, of the highest priority and among those the oldest, and none only when every eligible row is locked |
| JobStore.Store.MarkComplete | jobq/src/internal/storage/job.go:85-119 | the guarded update, or not found, or stale |
| JobStore.Store.BeginFailure | jobq/src/internal/storage/job.go:121-145 | the SELECT of a nack: changes no row |
| JobStore.Store.FinishFailure | jobq/src/internal/storage/job.go:148-188 | dead letter or retry, decided on what was read, if the guard still holds |
| JobStore.Store.ExtendLease | jobq/src/internal/storage/job.go:269-295 | moves the lease of a running row held with the token |
| JobStore.Store.ReapExpiredLeases | jobq/src/internal/storage/job.go:252-267 | returns exactly the rows with an expired lease and counts them |
| JobStore.Store.ResetDeadJob | jobq/src/internal/storage/job.go:332-361 | revives a dead row with attempts and token zero |
| JobStore.Store.GetStats | jobq/src/internal/storage/stats.go:21-47 | each count is the size of its class, and under the invariant the live counts add up to the total |
| Backoff.ShiftIsPower | jobq/src/internal/scheduler/backoff.go:33-33 | multiplying by the 64-bit shift is multiplying by the power of two and wrapping, for every exponent |
| Backoff.CeilingIntendedIff | jobq/src/internal/scheduler/backoff.go:33-36 | the ceiling is min(max, base * 2^attempts) if and only if the product does not wrap to a smaller delay; it is always positive and never more |
| Backoff.CeilingGrows | jobq/src/internal/scheduler/backoff.go:33-36 | while the product does not overflow the ceiling never falls as attempts grow |
| Backoff.NeverFallsIff | jobq/src/internal/scheduler/backoff.go:30-36 | over all attempts up to the cap the ceiling never falls if and only if it is always the intended one |
| Backoff.NoWrapToDelay | jobq/src/internal/scheduler/backoff.go:33-36 | a base odd * 2^z with odd * max within 63 bits never wraps to a delay, whatever the attempts |
| Backoff.WholeSecondsAreSafe | jobq/src/internal/scheduler/backoff.go:11-36 | for whole seconds with base * max at most 4722 the ceiling is the intended one for all attempts and caps |
| Backoff.CapDoesNotPreventOverflow | jobq/src/internal/scheduler/backoff.go:26-36 | with the accepted settings of 47279 and 47280 seconds and cap 30, attempt 24 has a ceiling of about 94 s where 47280 s are meant, and ceilings fall as attempts grow |
| Backoff.DefaultCeilings | jobq/src/internal/scheduler/backoff.go:11-36 | with nothing set the ceilings are 1, 2, 4, 8, 16, 32 and then 60 seconds |
| Backoff.AttemptsAreClamped | jobq/src/internal/scheduler/backoff.go:23-32 | attempts above the cap have the ceiling at the cap and negative ones that of 0; the cap is the configured one if positive, else 30 |
| Backoff.CeilingWithin | jobq/src/internal/scheduler/backoff.go:10-36 | delays given in the call win over the configured ones, and within the cap, without overflow, the ceiling is min(max, base * 2^attempts) |
| Backoff.ConfiguredCeiling | jobq/src/internal/scheduler/backoff.go:10-36 | with configured whole seconds whose product is at most 4722 the ceiling of a call is min(max, base * 2^attempts), attempts cut to the cap |
| Backoff.DrawsUpToCeiling | jobq/src/internal/scheduler/backoff.go:37-37 | with a maximum below 2^63 - 1 the possible delays are exactly 0 to the ceiling, which is at most the maximum |
| Backoff.PanicsIff | jobq/src/internal/scheduler/backoff.go:37-37 | the draw panics if and only if the maximum is 2^63 - 1 and the wrapped product is not positive or is 2^63 - 1 |
| Backoff.ComputeBackoff | jobq/src/internal/scheduler/backoff.go:10-38 | all defaulting, clamping, wrapping and drawing together; the delay lies in [0, min(max, base * 2^attempts)]; the exact inputs on which it panics |
| Rings.SearchFindsSuccessor | consistent_hashing/internal/data/elements.go:55-61 | binary search with wrap-around finds the clockwise successor |
| Rings.OneOwner | consistent_hashing/internal/data/elements.go:47-67 | every position has at most one owner |
| Rings.AddMovesOnlyToNew | consistent_hashing/internal/data/elements.go:69-104 | for any hashes, collisions included, a key moves only to the new server, and exactly when its successor is one of the new hashes |
| Rings.RemoveDisturbsIff | consistent_hashing/internal/data/elements.go:140-168 | other servers' keys all keep their owner if and only if each shared hash belongs to the server mapped there once the removed server's hashes are left out |
| Rings.RemoveDisturbsOnlyItsOwn | consistent_hashing/internal/data/elements.go:140-168 | a server that shares no hash disturbs only its own keys |
| Rings.SharedHashDisturbs | consistent_hashing/internal/data/elements.go:149-156 | on node maps: leaving out a hash that is mapped to another server takes its key away from that server |
| Rings.AddThenFilter | consistent_hashing/internal/data/elements.go:157-165 | adding hashes, sorting and filtering them out again gives back the slice if and only if none was on it |
| Names.DecimalReads | consistent_hashing/internal/data/elements.go:78-78 | a numeral is made of digits, without leading zero, and read in base ten it is its number |
| Names.ServerNamesDiffer | consistent_hashing/internal/data/elements.go:78-78 | no two servers have the same name |
| Names.NodeNamesDiffer | consistent_hashing/internal/data/elements.go:87-87 | no two virtual nodes have the same name, of one server or of two |
| ConsistentHashing.ConsistentHasher.NewHashes | consistent_hashing/internal/data/elements.go:86-96 | when names do not collide a new server has VirtualNodesPerServer hashes, none of them on the ring |
| ConsistentHashing.ConsistentHasher.NoneShared | consistent_hashing/internal/data/elements.go:147-156 | when names do not collide no hash of a live server is mapped to another |
| ConsistentHashing.ConsistentHasher.Get | consistent_hashing/internal/data/elements.go:47-67 | on a non-empty ring the name of the live server that owns the key's hash, which no other live server has; no servers exactly on the empty ring |
| ConsistentHashing.ConsistentHasher.AddServer | consistent_hashing/internal/data/elements.go:69-104 | ring sorted, its hashes the mapped ones, every mapped node live and at the hash of its own name; keys move only to the new server; the ring grows by VirtualNodesPerServer, and by as many distinct points when names do not collide |
| ConsistentHashing.ConsistentHasher.FilterInPlace | consistent_hashing/internal/data/elements.go:157-165 | writing behind the reading position leaves exactly the kept hashes in order |
| ConsistentHashing.ConsistentHasher.RemoveServer | consistent_hashing/internal/data/elements.go:140-168 | an unknown server changes nothing; a known one loses exactly its hashes, with the exact condition under which others are undisturbed, which always holds when names do not collide |
| ConsistentHashing.RemovalTakesSharedKey | consistent_hashing/internal/data/elements.go:106-168 | three servers added, the first two with one hash: removing the first makes a key of the second answer to the third |
| ConsistentHashing.ConsistentHasher.AddThenRemove | consistent_hashing/internal/data/elements.go:69-168 | adding and removing a server restores ring, map and servers if and only if none of its hashes was on the ring, so always when names do not collide |
| TokenBuckets.TokensAccount | rate_limiter/token_bucket/main.go:134-151 | tokens spent and tokens left are covered by one capacity and the refill since the first request |
| TokenBuckets.RateBound | rate_limiter/token_bucket/main.go:134-151 | from any state, a stretch from t1 to t2 admits at most capacity + rate * (t2 - t1) |
| TokenBuckets.EmptyAdmitsIff | rate_limiter/token_bucket/main.go:139-149 | left alone from t1, an empty bucket admits a request at t2 if and only if capacity >= 1 and rate * (t2 - t1) >= 1 |
| TokenBuckets.TokensAfter | rate_limiter/token_bucket/main.go:134-151 | the tokens are what was left plus rate * (t2 - t1), up to the capacity; an admitted request takes one, a denied one none |
| TokenBuckets.SimilarRun | rate_limiter/token_bucket/main.go:48-124 | when rate * ttl >= capacity, an evicting limiter answers every run like one that never evicts |
| TokenBuckets.EvictionUnobservableIff | rate_limiter/token_bucket/main.go:110-124 | no run can observe eviction if and only if rate * ttl >= capacity or capacity < 1 |
| HostRates.KeepingHost | rate_limiter/token_bucket/main.go:48-94 | in a limiter that never evicts, a host is answered as by a bucket of its own, whatever other hosts do |
| HostRates.HostRateBound | rate_limiter/token_bucket/main.go:48-124 | when rate * ttl >= capacity, any stretch of any run of the evicting limiter admits at most capacity + rate * (t2 - t1) requests of a host |
| HostRates.RateKeptIff | rate_limiter/token_bucket/main.go:48-124 | every host is held to that bound in every run if and only if rate * ttl >= capacity or capacity < 1, that is, if and only if eviction is unobservable |
| HostRates.ShortTtlExceedsRate | rate_limiter/token_bucket/main.go:110-124 | with two tokens, one a second, and eviction after one idle second, some run exceeds the bound |
| TokenLimiter.Bucket.Allow | rate_limiter/token_bucket/main.go:134-151 | refill, cap, spend: the new level and the answer |
| TokenLimiter.Limiter.GetOrCreate | rate_limiter/token_bucket/main.go:53-70 | the host's own bucket, full when new |
| TokenLimiter.Limiter.Handle | rate_limiter/token_bucket/main.go:48-94 | one request changes the bucket of its host and no other |
| TokenLimiter.Limiter.EvictExpired | rate_limiter/token_bucket/main.go:110-124 | drops exactly the buckets idle for longer than the ttl |
| LeakingBuckets.RunWaterOk | rate_limiter/leaking_bucket/main.go:57-69 | the level stays between 0 and capacity + epsilon |
| LeakingBuckets.LeakBound | rate_limiter/leaking_bucket/main.go:40-69 | over any stretch the requests let in, at 1 - epsilon each, cost at most capacity + rate * (t2 - t1) |
| LeakingBuckets.LevelAfter | rate_limiter/leaking_bucket/main.go:47-69 | the level is what was there less rate * (t2 - t1), between nothing and capacity; a request fits within capacity + epsilon and then adds one |
| LeakingBuckets.FullFitsIff | rate_limiter/leaking_bucket/main.go:14-69 | left alone from t1, a full bucket lets a request in at t2 if and only if capacity >= 0.999999999 and rate * (t2 - t1) >= 0.999999999 |
| LeakingBuckets.AcceptedIs | rate_limiter/leaking_bucket/main.go:61-68 | the requests counted are those answered with yes |
| LeakingBuckets.MirrorRun | rate_limiter/leaking_bucket/main.go:40-69 | without epsilon it answers every run like the token bucket, with level = capacity - tokens throughout |
| LeakingBuckets.AlikeIff | rate_limiter/leaking_bucket/main.go:14-69 | with any epsilon it answers every run like the token bucket if and only if epsilon is 0, or levels are whole (rate 0 or capacity < 1) and epsilon does not reach the next whole number |
| LeakingBuckets.DefaultsDiffer | rate_limiter/leaking_bucket/main.go:129-133 | with the repository's epsilon and default flags some run is answered differently |
| LeakingBuckets.LimitersAgree | rate_limiter/leaking_bucket/main.go:82-121 | without epsilon, the limiter with expiry on access answers every run like the token limiter that sweeps before each request |
| LeakingBuckets.Bucket.Allow | rate_limiter/leaking_bucket/main.go:40-69 | leak, cut to capacity, test with epsilon, pour: the new level and the answer |
| LeakingBuckets.Limiter.GetOrCreate | rate_limiter/leaking_bucket/main.go:86-110 | the host's own bucket, replaced by an empty one when it has expired |
| LeakingBuckets.Limiter.Handle | rate_limiter/leaking_bucket/main.go:82-121 | one request changes the bucket of its host and no other |
| SlidingWindow.EstimateIsWeight | rate_limiter/sliding_window_counter/main.go:138-147 | the test on the truncated estimate is W*cur + prev*(W-e) < W*limit |
| SlidingWindow.FreshAfterJump | rate_limiter/sliding_window_counter/main.go:117-137 | after a request at any time the counter is that of its window, with nothing left from before unless that window is the counter's own or the next |
| SlidingWindow.RunCounts | rate_limiter/sliding_window_counter/main.go:117-137 | over every run the two counters are the numbers let in during the current window and the one before |
| SlidingWindow.AlignedBound | rate_limiter/sliding_window_counter/main.go:111-150 | no aligned window lets in more than the limit |
| SlidingWindow.RollingBound | rate_limiter/sliding_window_counter/main.go:111-150 | any W seconds that begin e seconds into a window let in n with W*n < W*(limit+1) + limit*max(e-1, 0) |
| SlidingWindow.TwiceTheLimit | rate_limiter/sliding_window_counter/main.go:111-150 | so any W seconds at all let in n with W*n < W*(2*limit+1) - limit |
| SlidingWindow.RollingCapIsReached | rate_limiter/sliding_window_counter/main.go:111-150 | every number below that rolling cap is let in by some run: the cap is exact |
| SlidingWindow.WindowManager.Allow | rate_limiter/sliding_window_counter/main.go:111-150 | the three roll-over cases, the estimate and the count: the new counter and the answer |

## Left out

- Characters: strings are sequences of runes; UTF-8 decoding and invalid bytes are not modelled, except that a lone byte from 0x80 up is a unit different from every rune.
- The scanner's token limit of 64 KB: the model reads lines of any length, where the program stops at a longer one.
- Files: a line is a phrase, a frequency and a byte size with its newline; parsing and trimming of the text, other line endings and a last line without newline are not modelled.
- The parallel cache build runs its children one after the other in any order; they share no node, so interleavings inside them are not modelled.
- Words are never empty in the parallel build, as the parser drops empty phrases.
- K below 1 is modelled only where the code tests it (Suggest, BuildCache).
- Mongo errors, bulk-write retries, worker channels and the number of workers: merges happen one at a time in any order, as in the single merge worker.
- Agreement.SeededAgreesWithTrie: for non-empty prefixes, as the seeder stores no list for the empty one.
- Seeding a collection that already has contents: merging does not remove duplicate words, so nothing is claimed for a second run.
- The DOT graph, HTTP handlers, JSON, validators, loggers, configuration loading and the SDK client.
- Integer widths of frequencies, byte offsets, attempts and counters are unbounded; Backoff models the 64-bit arithmetic.
- Float rounding in the limiters: their arithmetic is over reals.
- SKIP LOCKED: a claim chooses outside an arbitrary set of locked rows.
- The SELECT that tells a stale token from a missing job runs in the same step as the refused UPDATE.
- MarkDead, CancelJob, GetJob and the dead-letter listing, the payload and job-type columns, and edits of rows outside these statements.
- The store and the expiry of the sliding-window limiter: a manager is followed from its creation, with a window size of at least one second and no time before the epoch.
- Locks and races inside the limiters' middleware: one request is one step, with one reading of the clock.
- MD5 (any hash function to 32 bits), the ring's visualisation, and a negative VirtualNodesPerServer.
- Backoff: the random source is a number that is reduced to the range; its distribution is not modelled.
- The three-tier store, chat rooms, URL shortener, file searcher, fixed-window limiter, preprocessing and scoring: input and output, or easier members than those above.
