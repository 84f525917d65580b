# Fluitans core, modelled in Dafny

Fluitans is a web server for managing ZeroTier networks and their DNS records on deSEC. It is
built on `godest`, a small framework vendored into the same repository. This project models the
deterministic cores of both in Dafny and proves properties about them:

- **Rate limiting** (`pkg/slidingwindows`). A sliding-window limiter with a current and a
  previous window. It advances with time, adds all-or-nothing (`TryAdd`) or best-effort
  (`AddUpTo`), and estimates waiting times. A multi-limiter combines several limiters, sorted by
  window length, and back-fills them when the deSEC API reports throttling.
- **Turbo Streams routing** (`pkg/godest/turbostreams`). A radix tree of topic patterns copied
  from echo. Its nodes are kept in an arena of indices. `Add` and `insert` split nodes;
  `Find` searches with static > param > any priority and backtracks, writing parameter values
  into the request context's buffer.
- **Action Cable and pub-sub bookkeeping** (`pkg/godest/actioncable`, `pkg/godest/pubsub`).
  A connection's map of unsubscribers and the messages it queues for the client. The channel
  registry shared by the subscription and action handlers. The hub's map from topic to
  receiver set, with its added/removed change records.
- **DNS and ZeroTier planning** (`internal/app/fluitans/client`, `internal/clients/desec`,
  `internal/clients/zerotier`, `pkg/zerotier`):
  - string sets that tell nil from empty;
  - which domain names point at a member;
  - the A/AAAA add/remove plan;
  - the `zerotier-net-id=` TXT record and its round trip;
  - the reversed-label order of subnames;
  - RRset filtering and sorting;
  - the tombstone layout of the deSEC cache;
  - the IPv4 assignment pools of a network;
  - the 6plane address bytes. The `0xfc` prefix lies in the unique-local range of section 3.1
    of RFC 4193.
- **Small validators and encoders** (`pkg/godest`, `internal/app/fluitans`):
  - CSRF token masking and unmasking;
  - weak ETags and `If-None-Match` (sections 2.3 and 3.2 of RFC 7232);
  - template path classes;
  - environment variable parsing;
  - Turbo Stream `Accept` detection (section 5.3.2 of RFC 7231);
  - injecting auth data into Turbo Stream messages.

Each core Go file has its own Dafny module, in its own file. Objects that the Go code updates
in place are classes, with their mutated state in `var` fields: `Limiter`, `MultiLimiter`,
`Router`, `Context`, `Conn`, `Registry`, `DataHub`, `Cache`, `Client`, `Header` and `URL`.
Loops over buffers keep their `array`: the fold of `Get6Plane` and the label reversal work in
place, and `xorToken` and `AddAuthData` fill new arrays. Pure code is made of functions and lemmas.
Shared modules:

- `Wrappers` holds `Option` and `Result`. Go's nil slices and maps are `None`.
- `GoStrings` models Go's `strings` functions: `Split`, `Join`, `TrimSpace`, ASCII case
  mapping and byte-wise `<`.
- `GoHex` models `encoding/hex`.
- `GoErrors.Wrap` models `errors.Wrap`, including nil in gives nil out.
- `SeqUtil` holds first-occurrence de-duplication.

Calls into code outside the model become parameters of the operation:

- the clock is `now` in nanoseconds;
- IP parsing (`netip`) is a `NetIP` record of functions, and a `parse` function in `ZerotierDNS`;
- the JSON identifier parse, the channel factory and the channel's `Subscribe` are a
  `SubscribeCalls` record;
- `url.Parse` and the RFC 4193 and 6plane generators are given results;
- the receivers' acceptance of a broadcast is a `receive` function;
- the cache is an ideal map.

## Model

| member | source | states |
|---|---|---|
| SlidingWindows.Truncate | pkg/slidingwindows/limiter.go:57 | the window start is the largest multiple of the duration not after `now` |
| SlidingWindows.GoDiv | pkg/slidingwindows/limiter.go:87-89 | Go's integer division truncates toward zero: it agrees with Dafny's for a non-negative dividend and is never positive for a negative one |
| SlidingWindows.Advanced | pkg/slidingwindows/limiter.go:56-80 | less than one window after `curr.start` nothing changes; after exactly one window `prev` is the preceding window with `curr`'s old count; after two or more `prev` restarts with count 0; whenever it acts, `curr` restarts at the truncated `now` with count 0 |
| SlidingWindows.AdvancedIdempotent | pkg/slidingwindows/limiter.go:56-80 | advancing twice at the same instant equals advancing once |
| SlidingWindows.PrevShare | pkg/slidingwindows/limiter.go:85-90 | the previous window's weighted share lies between 0 and its count |
| SlidingWindows.ShareBound | pkg/slidingwindows/limiter.go:87-89 | the weight `(duration - elapsed) / duration` never raises a count above itself |
| SlidingWindows.Estimate | pkg/slidingwindows/limiter.go:85-90 | the estimate lies between the advanced current count and that count plus the previous window's count, while `now` is within one window of the current start |
| SlidingWindows.WaitDuration | pkg/slidingwindows/limiter.go:120-127 | 0 whenever `n` fits in what is available; never negative for a positive capacity; negative (the amd64 conversion of an infinite quotient) for a zero capacity that `n` exceeds |
| SlidingWindows.Limiter.constructor | pkg/slidingwindows/limiter.go:20-39 | duration and capacity as given (they are `const`, so `Capacity()` and `Duration()` never change); both windows start at time 0 with count 0 |
| SlidingWindows.AdvancedFixed | pkg/slidingwindows/limiter.go:56-90 | advanced windows are a fixed point of advancing at the same instant and keep the same estimate, so a second check at that instant agrees with the first |
| SlidingWindows.Limiter.Advance | pkg/slidingwindows/limiter.go:56-80 | the new windows are `Advanced` of the old ones |
| SlidingWindows.Limiter.EstimateCount | pkg/slidingwindows/limiter.go:85-104 | advances the windows and returns `Estimate` of the old state |
| SlidingWindows.Limiter.MaybeAllowed | pkg/slidingwindows/limiter.go:137-143 | true exactly when the estimate plus `n` is within capacity; only the advance changes state |
| SlidingWindows.Limiter.TryAdd | pkg/slidingwindows/limiter.go:147-158 | adds `n` to the current window if and only if estimate + `n` is within capacity, and reports that decision |
| SlidingWindows.Limiter.AddUpTo | pkg/slidingwindows/limiter.go:164-175 | adds `min(n, capacity - estimate)` to the current window, so a negative available amount lowers the count, and returns the available amount, not the amount added |
| SlidingWindows.Limiter.EstimateWaitDuration | pkg/slidingwindows/limiter.go:120-127 | advances the windows and returns `WaitDuration` of the available amount, so 0 whenever `n` fits |
| SlidingWindowsMulti.Insert | pkg/slidingwindows/multilimiter.go:37-39 | insertion into the sorted key list grows it by one |
| SlidingWindowsMulti.InsertElements | pkg/slidingwindows/multilimiter.go:37-39 | insertion adds exactly the new element and loses none |
| SlidingWindowsMulti.InsertSorted | pkg/slidingwindows/multilimiter.go:37-39 | insertion keeps the list ordered by duration |
| SlidingWindowsMulti.InsertDistinct | pkg/slidingwindows/multilimiter.go:37-39 | inserting a new key keeps the keys distinct |
| SlidingWindowsMulti.Keys | pkg/slidingwindows/multilimiter.go:40-43 | the keys of the sorted list, position by position |
| SlidingWindowsMulti.SortedKeys | pkg/slidingwindows/multilimiter.go:23-45 | `sortedKeys` lists every limiter key exactly once, ordered by non-decreasing duration |
| SlidingWindowsMulti.MultiLimiter.constructor | pkg/slidingwindows/multilimiter.go:47-66 | one fresh limiter per configured rate, with its keys sorted by duration |
| SlidingWindowsMulti.MultiLimiter.At | pkg/slidingwindows/multilimiter.go:107-117 | the limiter at a sorted position is one of the multi-limiter's limiters and has a positive duration |
| SlidingWindowsMulti.MultiLimiter.RefusalIndexFrom | pkg/slidingwindows/multilimiter.go:107-117 | the first sorted position from `i` whose limiter refuses `n`; all before it allow |
| SlidingWindowsMulti.MultiLimiter.MaybeAllowed | pkg/slidingwindows/multilimiter.go:107-117 | true if and only if every limiter allows `n`, checked in sorted order; the limiters checked (up to the first refusal) are advanced and nothing else changes |
| SlidingWindowsMulti.MultiLimiter.TryAdd | pkg/slidingwindows/multilimiter.go:119-142 | when some limiter refuses, nothing is added; otherwise every limiter adds `n`, and the result is the conjunction of their decisions |
| SlidingWindowsMulti.MultiLimiter.AddToEach | pkg/slidingwindows/multilimiter.go:135-141 | once every limiter allows `n` at an instant they are already advanced to, each adds `n` to its current window and all report success |
| SlidingWindowsMulti.MultiLimiter.EstimateWaitDuration | pkg/slidingwindows/multilimiter.go:94-105 | the maximum of the limiters' wait estimates: at least each of them, equal to one of them or 0, never negative; every limiter ends advanced to `now` |
| SlidingWindowsMulti.MultiLimiter.ResponsibleIndex | pkg/slidingwindows/multilimiter.go:144-160 | the first sorted limiter whose rate time is at least the throttle duration, otherwise the last |
| SlidingWindowsMulti.MultiLimiter.EstimateRateLimiter | pkg/slidingwindows/multilimiter.go:144-160 | the loop's result is `ResponsibleIndex` and its limiter |
| SlidingWindowsMulti.MultiLimiter.ResponsibleIndexIsFirst | pkg/slidingwindows/multilimiter.go:150-158 | any position whose predecessors all have shorter rate times and that meets the throttle is the responsible one |
| SlidingWindowsMulti.MultiLimiter.Throttled | pkg/slidingwindows/multilimiter.go:162-174 | the responsible limiter gets `AddUpTo(capacity)`; the value that call returns (its available amount, not what it added) goes through `AddUpTo` into every limiter after it in sorted order; limiters before it do not change |
| TurboStreamsRouter.FindHandler | pkg/godest/turbostreams/broker-router.go:104-117 | the handler in the method's slot; none for any other method |
| TurboStreamsRouter.AddHandler | pkg/godest/turbostreams/broker-router.go:85-102 | stores the handler in the method's slot only; a present handler makes the node a handler node |
| TurboStreamsRouter.NewNode | pkg/godest/turbostreams/broker-router.go:33-52 | the label is the prefix's first byte; the node is a leaf if and only if it has no static, param or any child |
| TurboStreamsRouter.StaticChildWithLabel | pkg/godest/turbostreams/broker-router.go:59-67 | (through `FirstLabelled`) a static child with that label, and no static child before it in the list has the label; none exactly when no static child has it |
| TurboStreamsRouter.LabelledAfterFirst | pkg/godest/turbostreams/broker-router.go:59-67 | when the first child lacks the label, the first of the remaining children with it is the first of all the children with it |
| TurboStreamsRouter.ChildWithLabel | pkg/godest/turbostreams/broker-router.go:69-83 | a static child first, else the param child for ':' and the any child for '*' |
| TurboStreamsRouter.CommonPrefixLength | pkg/godest/turbostreams/broker-router.go:213-222 | the length of the longest common prefix: the prefixes agree up to it and differ at it, or one string ends there |
| TurboStreamsRouter.NormalizePath | pkg/godest/turbostreams/broker-router.go:154-159 | an empty path becomes "/", and a path without a leading "/" gets one |
| TurboStreamsRouter.NameLength | pkg/godest/turbostreams/broker-router.go:174-176 | a parameter name runs to the next '/' or the end |
| TurboStreamsRouter.ScanPlain | pkg/godest/turbostreams/broker-router.go:163-194 | a path with no ':' or '*' is inserted unchanged and has no parameter names |
| TurboStreamsRouter.ScanStep | pkg/godest/turbostreams/broker-router.go:187-191 | a character other than an unescaped ':' is kept, and '*' records the name "*" |
| TurboStreamsRouter.ScanEscapeStep | pkg/godest/turbostreams/broker-router.go:165-170 | `\:` leaves a literal ':' and drops the backslash |
| TurboStreamsRouter.ScanParamStep | pkg/godest/turbostreams/broker-router.go:171-186 | the name after an unescaped ':' is recorded and cut from the path |
| TurboStreamsRouter.ScanKeepsNames | pkg/godest/turbostreams/broker-router.go:177-189 | names are recorded in order of appearance; those already recorded stay in front |
| TurboStreamsRouter.Descend | pkg/godest/turbostreams/broker-router.go:440-479 | the child `Find` descends into, by priority static > param > any |
| TurboStreamsRouter.ParamValueLength | pkg/godest/turbostreams/broker-router.go:453-462 | a parameter value runs to the next '/' or the end |
| TurboStreamsRouter.Store | pkg/godest/turbostreams/broker-router.go:463 | writes the buffer slot when the index is in range and reports failure (a Go panic) otherwise |
| TurboStreamsRouter.Restore | pkg/godest/turbostreams/broker-router.go:356-374 | backtracking gives a static node's prefix back to the search, and clears a param or any node's recorded value |
| TurboStreamsRouter.Router.constructor | pkg/godest/turbostreams/broker-router.go:141-149 | a single root with an empty prefix and no handlers; `maxParam` is 0 |
| TurboStreamsRouter.Router.Insert | pkg/godest/turbostreams/broker-router.go:197-320 | the tree stays well formed; `maxParam` is only raised, to the length of `pnames`; the node it ends at is reached by a chain from the root whose prefixes spell `path`, and holds a present handler with `ppath`; when the labels are right before and after and the root shares the path's first byte, every other route of the tree survives with its node's kind, handlers, `ppath` and `pnames` |
| TurboStreamsRouter.Router.SetRoot | pkg/godest/turbostreams/broker-router.go:223-233 | the root takes the whole search as its prefix, and the handler, kind, `ppath` and `pnames` when a handler is given |
| TurboStreamsRouter.Router.SplitNode | pkg/godest/turbostreams/broker-router.go:234-272 | the node keeps the shared prefix as a bare static node whose only child is a new node holding the rest of the prefix and everything the node had (kind, children, handlers, `ppath`, `pnames`); the tree stays well formed and every route survives with its payload |
| TurboStreamsRouter.Router.SetSplitParent | pkg/godest/turbostreams/broker-router.go:274-280 | after a split ending the search, the shortened node takes the kind, handler, `ppath` and `pnames`; every other route survives unchanged |
| TurboStreamsRouter.Router.AddChild | pkg/godest/turbostreams/broker-router.go:281-307 | a new leaf for the rest of the search, holding the handler, becomes a static, param or any child as the slot says and extends the chain by its prefix; when that slot was free, every route survives unchanged |
| TurboStreamsRouter.Router.SetExisting | pkg/godest/turbostreams/broker-router.go:308-317 | an existing node gets the handler and `ppath`, and `pnames` only if it had none; every other route survives unchanged |
| TurboStreamsRouter.Router.ReparentStatics | pkg/godest/turbostreams/broker-router.go:248-250 | exactly the listed static children get the new parent; every other node is unchanged |
| TurboStreamsRouter.Router.ReparentOne | pkg/godest/turbostreams/broker-router.go:251-256 | the param (or any) child, when there is one, gets the new parent; every other node is unchanged |
| TurboStreamsRouter.Router.ReparentChildren | pkg/godest/turbostreams/broker-router.go:248-256 | every static child, the param child and the any child of the moved node now have the new node as parent; the split node itself is untouched |
| TurboStreamsRouter.Router.AddParam | pkg/godest/turbostreams/broker-router.go:171-186 | an unescaped ':' inserts the static prefix before it, cuts the parameter name from the path, records it, and inserts the param node (or the final handler node when the name ends the path); the scan still describes the route and `maxParam` stays within the names seen |
| TurboStreamsRouter.Router.SetParent | pkg/godest/turbostreams/broker-router.go:248-256 | re-parents one node; nothing else changes |
| TurboStreamsRouter.Router.Add | pkg/godest/turbostreams/broker-router.go:151-195 | `maxParam` becomes the larger of its old value and the number of parameter names in the route; the node it ends at is reached by a chain whose prefixes spell the route pattern (names cut, escapes dropped) and holds a present handler with the normalised path as `ppath` |
| TurboStreamsRouter.Router.Find | pkg/godest/turbostreams/broker-router.go:322-521 | on a match the context gets the node's handler for the method, with its `ppath` and `pnames`; when only the path matched it gets `NotFoundHandler` with the best match's `ppath`; when nothing matched the handler is untouched; when every node sits in the slot of its kind, the node found ends a chain from the root whose parts spell `path`, and on a match at a node other than an any node the buffer begins with the values the chain's param nodes consumed |
| TurboStreamsRouter.Router.Step | pkg/godest/turbostreams/broker-router.go:387-503 | the walk, outcome and buffer after it are those of `AfterStep`: one iteration of the loop |
| TurboStreamsRouter.Router.DescendStep | pkg/godest/turbostreams/broker-router.go:440-503 | the walk, outcome and buffer after it are those of `AfterDescent`: the static, param and any blocks, then backtracking |
| TurboStreamsRouter.Router.Backtrack | pkg/godest/turbostreams/broker-router.go:344-375 | the walk, outcome and buffer after it are those of `AfterBacktrack`: to the parent with the next kind by priority, giving back what the node consumed, or the end |
| TurboStreamsRouter.Router.Search | pkg/godest/turbostreams/broker-router.go:387-504 | unless it ends early with no route, a panic or no fuel left, the loop ends with the walk invariant; when every node sits in the slot of its kind, it ends on a trail that consumed the path up to the search, with the parameter values in the buffer, and a found handler or first full match ends a trail spelling the path |
| TurboStreamsRouter.Router.MatchNode | pkg/godest/turbostreams/broker-router.go:388-438 | the walk and outcome are those of `AfterMatch` |
| TurboStreamsRouter.Router.EnterParamChild | pkg/godest/turbostreams/broker-router.go:448-467 | the walk, outcome and buffer are those of `AfterParam` |
| TurboStreamsRouter.Router.EnterAnyChild | pkg/godest/turbostreams/broker-router.go:470-490 | the walk, outcome and buffer are those of `AfterAny` |
| TurboStreamsRouter.AfterMatch | pkg/godest/turbostreams/broker-router.go:388-438 | at the root a static mismatch ends with no route; below it the walk goes to the parent's param block; a match keeps the node and leaves a suffix of the search |
| TurboStreamsRouter.Arrive | pkg/godest/turbostreams/broker-router.go:426-438 | with no search left at a handler node it becomes the best match unless one is recorded; the loop ends exactly when the node has a handler for the method, which is the match |
| TurboStreamsRouter.AfterParam | pkg/godest/turbostreams/broker-router.go:448-467 | a panic exactly when `paramIndex` is out of the buffer; otherwise the value written is the search up to the next '/' (all of it at a leaf), the search loses it, and the walk enters the child's top block |
| TurboStreamsRouter.AfterAny | pkg/godest/turbostreams/broker-router.go:470-490 | a panic exactly when the slot of the last name is out of the buffer; otherwise the whole search is written there, the search is empty, the child is the best match unless one was recorded, and the loop ends exactly when it has a handler for the method |
| TurboStreamsRouter.AfterBacktrack | pkg/godest/turbostreams/broker-router.go:344-375 | only a panic can end it early; otherwise the search is the path from the restored index, and the walk is at the parent, not in the top block, unless it ended, which it does exactly at the root or after an any node |
| TurboStreamsRouter.AfterDescent | pkg/godest/turbostreams/broker-router.go:440-503 | only a panic ends it early; otherwise the walk invariant holds and the buffer keeps its length |
| TurboStreamsRouter.AfterStep | pkg/godest/turbostreams/broker-router.go:387-503 | it ends early only with no route (a static mismatch at the root) or a panic; otherwise the walk invariant holds and the buffer keeps its length |
| TurboStreamsRouter.MatchTracked | pkg/godest/turbostreams/broker-router.go:388-438 | the match at the start of an iteration keeps the walk on a trail consuming the path up to the search |
| TurboStreamsRouter.PrefixTracked | pkg/godest/turbostreams/broker-router.go:422-438 | a matched node consumes its prefix, and with no search left its trail spells the path |
| TurboStreamsRouter.ConsumeTracked | pkg/godest/turbostreams/broker-router.go:422-424 | a matched static node consumes its prefix from the search |
| TurboStreamsRouter.ParamTracked | pkg/godest/turbostreams/broker-router.go:448-467 | entering the param child keeps the walk on a trail, its value recorded in the buffer |
| TurboStreamsRouter.AnyTracked | pkg/godest/turbostreams/broker-router.go:470-490 | entering the any child consumes the rest of the path, and its trail spells the path |
| TurboStreamsRouter.BacktrackTracked | pkg/godest/turbostreams/broker-router.go:344-375 | backtracking gives back the node's part of the path and keeps the walk on the shorter trail |
| TurboStreamsRouter.AnyThenBackTracked | pkg/godest/turbostreams/broker-router.go:470-503 | the any block and the backtracking after it keep the walk on a trail |
| TurboStreamsRouter.DescentTracked | pkg/godest/turbostreams/broker-router.go:440-503 | the static, param and any blocks and the backtracking keep the walk on a trail |
| TurboStreamsRouter.StepTracked | pkg/godest/turbostreams/broker-router.go:387-503 | one iteration of the loop keeps the walk on a trail consuming the path up to the search; a handler found or the first full match ends a trail spelling the path |
| TurboStreamsRouter.StaticSpells | pkg/godest/turbostreams/broker-router.go:391-445 | a chain of static nodes spells `path` exactly when its route, as `insert` builds it, is `path`, and it records no parameter values |
| TurboStreamsRouter.ConcatPrefixes | pkg/godest/turbostreams/broker-router.go:391-424 | the parts static nodes consume, joined, are the chain's route |
| TurboStreamsRouter.NoValues | pkg/godest/turbostreams/broker-router.go:391-445 | static nodes record no parameter values |
| TurboStreamsRouter.Attach | pkg/godest/turbostreams/broker-router.go:299-307 | only the chosen slot changes: a static child is appended, a param or any child replaces the slot; the node gains the child, loses at most the replaced one, and is no leaf |
| TurboStreamsRouter.Router.Locate | pkg/godest/turbostreams/broker-router.go:204-222 | it stops at a node on a chain from the root where the route above it plus the rest of the search is the path, with the longest common prefix of the search and the node's prefix; when it stops with a non-empty prefix wholly matched and search left, no child has the next byte; with the labels right and the root sharing the first byte, some prefix is shared |
| TurboStreamsRouter.Router.Place | pkg/godest/turbostreams/broker-router.go:223-317 | the node it ends at has the route above the stopping node followed by the search and holds a present handler; when some prefix was shared and the labels are right afterwards, every other route survives |
| TurboStreamsRouter.Router.PlaceSplit | pkg/godest/turbostreams/broker-router.go:234-287 | after the split the node it ends at has the route above followed by the search and holds the handler; every other route survives |
| TurboStreamsRouter.Router.FinishSplit | pkg/godest/turbostreams/broker-router.go:274-286 | the handler goes to the shortened node when the search ends there, or to a new static child for the rest; every other route survives |
| TurboStreamsRouter.KeepsAllFrame | pkg/godest/turbostreams/broker-router.go:296-307 | a change that keeps every node's parent, prefix and payload and loses no child keeps every route |
| TurboStreamsRouter.KeepsFrame | pkg/godest/turbostreams/broker-router.go:308-317 | a change that keeps the links and prefixes, and every payload but one node's, keeps every route but that node's |
| TurboStreamsRouter.SplitKeeps | pkg/godest/turbostreams/broker-router.go:234-273 | a split keeps every route: a chain through the split node goes on through the new node, with the same payload at its end |
| TurboStreamsRouter.SplitSurvivor | pkg/godest/turbostreams/broker-router.go:234-273 | every walkable chain before a split has a walkable chain after it with the same route and the same payload at its end |
| TurboStreamsRouter.SplitLinked | pkg/godest/turbostreams/broker-router.go:247-272 | after a split the parent and child links are still mirrored |
| TurboStreamsRouter.SplitChain | pkg/godest/turbostreams/broker-router.go:234-273 | after a split the chain to the split node is still a chain, and its route ends with the kept part of the prefix |
| TurboStreamsRouter.LabelledChild | pkg/godest/turbostreams/broker-router.go:290 | with the labels right, the child found for a byte has a prefix starting with it |
| TurboStreamsRouter.ChildSlotFree | pkg/godest/turbostreams/broker-router.go:296-306 | when the new child of a kind sits in that kind's slot and the labels are still right, the slot was free before |
| TurboStreamsRouter.NoChildOpen | pkg/godest/turbostreams/broker-router.go:69-83 | when no child is found for a byte, the param slot is empty for ':' and the any slot for '*' |
| TurboStreamsContext.Context.constructor | pkg/godest/turbostreams/broker.go:100-108 | the fields as given, a buffer of `maxParam` empty values, and the not-found handler |
| TurboStreamsContext.Context.Topic | pkg/godest/turbostreams/broker-context.go:37-39 | the stored topic |
| TurboStreamsContext.Context.SessionID | pkg/godest/turbostreams/broker-context.go:41-43 | the stored session ID |
| TurboStreamsContext.Context.Published | pkg/godest/turbostreams/broker-context.go:65-67 | the stored messages |
| TurboStreamsContext.Context.Param | pkg/godest/turbostreams/broker-context.go:45-55 | `pvalues[i]` for the first `i` with `pnames[i] == name` and `i < len(pvalues)`, else "" |
| ActionCableChannels.Registry.HandleSubscription | pkg/godest/actioncable/channels.go:29-63 | an existing channel is reused and dropped when re-subscribing fails; an unparseable identifier, an unknown channel name or a failing factory is an error that stores nothing (the factory's error wrapped with "couldn't instantiate"); a new channel is stored only after its `Subscribe` succeeded; other identifiers are untouched |
| ActionCableChannels.Registry.HandleAction | pkg/godest/actioncable/channels.go:65-73 | an error when no channel exists for the identifier, otherwise the channel's `Perform` result |
| ActionCableConnections.WithChannels | pkg/godest/actioncable/channels.go:75-82 | both handlers work over the same registry |
| ActionCableConnections.SanitizeError | pkg/godest/actioncable/connections.go:120-130 | no reason without error, "logged out" exactly for a cancelled context, a fixed message for any other error |
| ActionCableConnections.Conn.constructor | pkg/godest/actioncable/connections.go:132-149 | no subscriptions and nothing queued |
| ActionCableConnections.Conn.CallSubscriptionHandler | pkg/godest/actioncable/connections.go:189-210 | without a handler, the fixed "No subscription handler registered" error |
| ActionCableConnections.Conn.CallActionHandler | pkg/godest/actioncable/connections.go:212-231 | without a handler, the fixed "No action handler registered" error; with the registry, `HandleAction` |
| ActionCableConnections.Conn.Subscribe | pkg/godest/actioncable/connections.go:189-210 | an identifier already subscribed is confirmed without calling the handler; a handler error is a rejection and a wrapped error; a nil unsubscriber is a rejection without error; on success the unsubscriber is stored and confirmed |
| ActionCableConnections.Conn.Receive | pkg/godest/actioncable/connections.go:212-231 | an unknown command is an error; unsubscribing an unknown identifier changes nothing; unsubscribing a known one calls its unsubscriber once and removes it; an action changes no state and returns its handler's error (no handler, no subscription, or `Perform`'s) wrapped |
| ActionCableConnections.Conn.Disconnect | pkg/godest/actioncable/connections.go:151-166 | every stored unsubscriber is called exactly once, the map is left empty, and one disconnect message carries the sanitized reason |
| PubSubHub.Without | pkg/godest/pubsub/hub.go:88-112 | removing receivers deletes exactly the topics left empty |
| PubSubHub.UnsubscribedIsWithout | pkg/godest/pubsub/hub.go:88-112 | unsubscribing a list of receivers leaves the map without them (receivers of vanished topics are skipped) |
| PubSubHub.UnsubscribedCancels | pkg/godest/pubsub/hub.go:98-108 | exactly the listed receivers still filed are cancelled |
| PubSubHub.UnsubscribedOneTopic | pkg/godest/pubsub/hub.go:102-106 | receivers of one topic report it as removed once, exactly when they emptied it |
| PubSubHub.DataHub.constructor | pkg/godest/pubsub/hub.go:29-34 | no topics and no changes |
| PubSubHub.DataHub.Subscribe | pkg/godest/pubsub/hub.go:36-66 | a new receiver joins its topic; an Added change is emitted only when the topic had no receivers |
| PubSubHub.CancelStep | pkg/godest/pubsub/hub.go:72-81 | cancelling one more topic removes it from the kept map and adds its receivers' identities to the cancelled ones |
| PubSubHub.DataHub.CancelTopic | pkg/godest/pubsub/hub.go:73-80 | an absent topic changes nothing; a present one is deleted and all its receivers are cancelled |
| PubSubHub.DataHub.Cancel | pkg/godest/pubsub/hub.go:68-86 | every listed topic is deleted and its receivers cancelled; a non-empty list is reported as Removed in full, absent topics included |
| PubSubHub.DataHub.Unsubscribe | pkg/godest/pubsub/hub.go:88-112 | receivers are taken out one by one, skipping those whose topic is gone; the topics that empty are reported as Removed |
| PubSubHub.DataHub.RemoveReceiver | pkg/godest/pubsub/hub.go:97-108 | a receiver whose topic is gone is skipped; otherwise it leaves its topic and is cancelled, and the topic is deleted, reported as emptied, exactly when it was the last receiver |
| PubSubHub.DataHub.Unsubscriber | pkg/godest/pubsub/hub.go:46-48 | exactly this receiver is added to the cancelled ones, and it leaves its topic; the topic goes, reported, with its last receiver |
| PubSubHub.Refusers | pkg/godest/pubsub/hub.go:129-147 | the receivers to unsubscribe are exactly the topic's receivers whose `receive` refuses the message, each listed once |
| PubSubHub.DataHub.Broadcast | pkg/godest/pubsub/hub.go:114-148 | exactly the receivers that refuse the message are unsubscribed; a topic without receivers changes nothing |
| StringSets.NewStringSet | internal/app/fluitans/client/stringset.go:7-13 | a non-nil set holding exactly the input strings |
| StringSets.Contains | internal/app/fluitans/client/stringset.go:15-29 | false if either set is nil, otherwise whether every element of the argument is in the receiver |
| StringSets.Equals | internal/app/fluitans/client/stringset.go:31-41 | false if either set is nil, otherwise set equality |
| StringSets.Difference | internal/app/fluitans/client/stringset.go:43-51 | the receiver minus the argument, a nil argument acting as empty |
| ZerotierDNS.SplitIPAddresses | internal/app/fluitans/client/ip.go:9-27 | an error if and only if some address fails to parse; otherwise the canonical texts of the IPv4 addresses and of the IPv6 addresses, each list in input order |
| ZerotierDNS.TextsCover | internal/app/fluitans/client/ip.go:15-24 | when every address parses, the two lists together are as long as the input, every text in a list comes from an address of that family, and every address's text is in the list of its family |
| ZerotierDNS.SplitCovers | internal/app/fluitans/client/ip.go:9-27 | on success every address lands in exactly one list, by its parsed family, and each list holds only such addresses |
| ZerotierDNS.NewMemberNameRRsets | internal/app/fluitans/client/zerotier.go:232-255 | exactly an AAAA RRset of the IPv6 addresses then an A RRset of the IPv4 ones, with the same subname and TTL; a parse error is reported |
| ZerotierDNS.AppendSubname | internal/app/fluitans/client/zerotier.go:118-125 | each record's address list gains the subname; nothing else changes |
| ZerotierDNS.AddRecordsOfType | internal/app/fluitans/client/zerotier.go:117-126 | every record value lists every subname holding it |
| ZerotierDNS.IdentifyAddressDomainNames | internal/app/fluitans/client/zerotier.go:113-137 | each A or AAAA record value maps to exactly the subnames holding it; errors of either record fetch are passed on, AAAA first |
| ZerotierDNS.AddSubname | internal/app/fluitans/client/zerotier.go:148-154 | one candidate subname: it is appended, with its domain name, exactly when its domain name was not added before, so the lists stay the de-duplication of the candidates seen |
| ZerotierDNS.AddListed | internal/app/fluitans/client/zerotier.go:147-156 | the subnames stay de-duplicated by domain name, with each domain name the subname plus "." plus the zone |
| ZerotierDNS.IdentifyDomainNames | internal/app/fluitans/client/zerotier.go:139-158 | the subnames are the candidates in order of first occurrence, without repeats, and `domainNames[i]` is `subnames[i] + "." + zone` |
| ZerotierDNS.IdentifiedDomainNames | internal/app/fluitans/client/zerotier.go:145-157 | the domain names found are distinct, and every candidate's domain name is among them |
| ZerotierDNS.AppendUpdates | internal/app/fluitans/client/zerotier.go:64-97 | one update per address is appended under the domain name |
| ZerotierDNS.FindActual | internal/app/fluitans/client/zerotier.go:71-80 | the actual AAAA and A records are those of the last RRset of each type |
| ZerotierDNS.TypeUpdatesMembers | internal/app/fluitans/client/zerotier.go:82-97 | the updates of one type remove exactly `actual \ expected` and add exactly `expected \ actual`; none are planned when the sets agree |
| ZerotierDNS.PlanType | internal/app/fluitans/client/zerotier.go:82-97 | plans exactly the updates of one type under the domain name |
| ZerotierDNS.PlanSubname | internal/app/fluitans/client/zerotier.go:60-98 | plans exactly one subname's AAAA and A updates |
| ZerotierDNS.PlanDNSUpdates | internal/app/fluitans/client/zerotier.go:46-101 | an error if and only if an IP assignment fails to parse; otherwise exactly the AAAA and A diffs of each domain name's subname, and no empty lists |
| ZerotierDNS.NetworkNamedByDNS | internal/app/fluitans/client/zerotier.go:257-278 | false unless the name ends in "." plus the domain and the subname has RRsets; then true if and only if the first TXT RRset carries the network ID |
| ZerotierDNS.NetworkNamedByDNSAgrees | internal/app/fluitans/client/zerotier.go:257-278 | a network is named by DNS exactly when its name is "." plus the domain after a subname with RRsets, and `NetworkIDOf` (the ID `GetNetworkIDs` collects for that subname) is the network's ID |
| ZerotierDNS.NamedByIDRecord | internal/app/fluitans/client/zerotier.go:257-278 | a lower-case ID announced by `MakeNetworkIDRecord` as the first record of a subname's first TXT RRset makes the network named by that subname true, and false for every other ID |
| Sargassum.MakeNetworkIDRecord | internal/app/fluitans/client/sargassum.go:9-11 | the record is `"zerotier-net-id=<id>"`, quotes included |
| Sargassum.FirstMatchFrom | internal/app/fluitans/client/sargassum.go:13-19 | the first position from `from` where the pattern matches, anywhere in the record, or -1 |
| Sargassum.ParseNetworkIDRecord | internal/app/fluitans/client/sargassum.go:13-24 | ("", false) when the pattern is absent; otherwise the lower-cased 16 hex digits of the first match |
| Sargassum.RecordRoundTrip | internal/app/fluitans/client/sargassum.go:9-24 | parsing a made record gives back the lower-cased ID for any 16-hex-digit ID |
| Sargassum.LowerRecordRoundTrip | internal/app/fluitans/client/sargassum.go:9-24 | a lower-case ID comes back unchanged |
| Sargassum.GetNetworkID | internal/app/fluitans/client/sargassum.go:26-34 | the first parseable record's ID, otherwise ("", false) |
| Dns.GetReverseDomainNameFragments | internal/app/fluitans/client/dns.go:15-21 | the in-place swap yields the labels in reverse order |
| Dns.ReverseLabelsRoundTrip | internal/app/fluitans/client/dns.go:15-21 | reversing the fragments and joining with "." gives the name back |
| Dns.ReverseLabelsInjective | internal/app/fluitans/client/dns.go:15-21 | distinct names have distinct fragments |
| Dns.FirstTXT | internal/app/fluitans/client/dns.go:26-33 | the position of the first TXT RRset, or none when there is none |
| Dns.RRsetsAfterFirstTXTIgnored | internal/app/fluitans/client/dns.go:32 | RRsets after the first TXT RRset never change the result |
| Dns.GetNetworkIDs | internal/app/fluitans/client/dns.go:23-37 | a subname is included exactly when its first TXT RRset carries an ID, and maps to that ID |
| Dns.LabelsLessIrreflexive | internal/app/fluitans/client/dns.go:46-60 | no label list sorts before itself |
| Dns.LabelsLessTransitive | internal/app/fluitans/client/dns.go:46-60 | the label order is transitive |
| Dns.LabelsLessTotal | internal/app/fluitans/client/dns.go:46-60 | distinct label lists are ordered one way or the other |
| Dns.SubnameLessOrder | internal/app/fluitans/client/dns.go:46-60 | the subname order is a strict total order |
| Dns.CompareSubnames | internal/app/fluitans/client/dns.go:46-60 | the comparator's loop computes the reversed-label order, with a proper prefix first |
| Dns.InsertSubname | internal/app/fluitans/client/dns.go:46-60 | inserting into a sorted list keeps it sorted and adds exactly the new key |
| Dns.SortSubnameRRsets | internal/app/fluitans/client/dns.go:39-66 | the keys are the map's keys, each once, in subname order, and `sorted[i]` is the filtered, sorted RRsets of `keys[i]` |
| Networks.CompareSubnamesAndAddresses | internal/app/fluitans/client/networks.go:14-30 | both with subnames: `CompareSubnames` of the first ones; only the first: true; only the second: false; neither: the addresses' order |
| Networks.NetworkOrderStrict | internal/app/fluitans/client/networks.go:14-30 | the network order is irreflexive, and asymmetric whenever the subname comparison is |
| DesecRRsets.ByTypeLastWins | internal/clients/desec/rrsets.go:14-18 | RRsets are filed under their upper-cased type, and a later one replaces an earlier one |
| DesecRRsets.FilterRRsets | internal/clients/desec/rrsets.go:13-27 | the result is the RRsets filed by type, restricted to the configured types |
| DesecRRsets.FilteredKeys | internal/clients/desec/rrsets.go:19-25 | a type survives exactly when it is configured (matched exactly) and some RRset has it |
| DesecRRsets.Kept | internal/clients/desec/rrsets.go:31-37 | the configured types present, in configuration order, no more than configured |
| DesecRRsets.InTypeOrderKept | internal/clients/desec/rrsets.go:31-37 | the output holds one RRset per kept type, in the same positions |
| DesecRRsets.KeptDistinct | internal/clients/desec/rrsets.go:31-37 | without repeated configured types, the output has no repeated types |
| DesecRRsets.FilterAndSortRRsets | internal/clients/desec/rrsets.go:29-39 | the output follows the configured type order |
| DesecRRsets.FilterAndSortTypes | internal/clients/desec/rrsets.go:29-39 | the output has no duplicate types and is no longer than the type list |
| DesecCache.KeyTypeInjective | internal/clients/desec/cache.go:135-137 | for one domain and subname, distinct types have distinct keys |
| DesecCache.KeySubnamesNotRRset | internal/clients/desec/cache.go:49-51 | a subname-list key never equals an RRset key |
| DesecCache.GetRRsetEntry | internal/clients/desec/cache.go:151-162 | a missing key is a miss, a tombstone a hit with no value, a value of another type a decoding error |
| DesecCache.GetSubnamesEntry | internal/clients/desec/cache.go:63-72 | the same for a subname list |
| DesecCache.GetDomainEntry | internal/clients/desec/cache.go:36-45 | the same for a domain |
| DesecCache.RRsetsByNameSettled | internal/clients/desec/cache.go:121-127 | once one type's key is absent or undecodable, the whole read is a miss or an error |
| DesecCache.StoredReadsBack | internal/clients/desec/cache.go:109-131 | reading what was stored yields the stored RRsets in type order, tombstones skipped |
| DesecCache.Cache.constructor | internal/clients/desec/client.go:85-90 | an empty cache with the configured record types |
| DesecCache.Cache.GetDomainByName | internal/clients/desec/cache.go:36-45 | a tombstone is a hit without value |
| DesecCache.Cache.GetSubnames | internal/clients/desec/cache.go:63-72 | nil when the list is missing, a tombstone or undecodable |
| DesecCache.Cache.HasSubname | internal/clients/desec/cache.go:74-86 | false on an error or without a list; otherwise whether the list holds the subname |
| DesecCache.Cache.SetRRsetByNameAndType | internal/clients/desec/cache.go:139-144 | stores the RRset under its key; nothing else changes |
| DesecCache.Cache.SetNonexistentRRsetByNameAndType | internal/clients/desec/cache.go:146-149 | writes a tombstone under the RRset's key; nothing else changes |
| DesecCache.Cache.SetRRsetsByName | internal/clients/desec/cache.go:90-107 | each configured type present is stored and each missing one gets a tombstone; no other key changes |
| DesecCache.Cache.GetRRsetsByName | internal/clients/desec/cache.go:109-131 | a miss if any configured key is absent; otherwise the present values in type order, skipping tombstones |
| DesecCache.Cache.GetRRsetByNameAndType | internal/clients/desec/cache.go:151-162 | a tombstone yields a hit with no value |
| DesecCache.SetThenGet | internal/clients/desec/cache.go:90-131 | storing then reading a subname's RRsets returns `FilterAndSortRRsets` of the input |
| DesecClient.MissingRRsetWritesAsWritten | internal/clients/desec/client.go:38-49 | the cache writes of the 404 handler as written: a tombstone for the whole domain and one for the RRset; every other key is unchanged |
| DesecClient.KeyDomainNotRRset | internal/clients/desec/cache.go:22-24 | a domain key never equals an RRset key |
| DesecClient.MissingRRsetHidesDomain | internal/clients/desec/client.go:42 | after that write a cached domain reads as nonexistent |
| DesecClient.MissingRRsetWrites | internal/clients/desec/client.go:38-49 | the corrected write: only the RRset's tombstone |
| DesecClient.Client.constructor | internal/clients/desec/client.go:78-98 | the domain, cache and read limiter as given |
| DesecClient.Client.GetRRset | internal/clients/desec/rrsets.go:230-242 | a cache hit returns the cached value without touching the read limiter; on a miss every read limiter ends as `SpentWindows` says (advanced to `now`, plus one read exactly when all allowed it); a refused read is an error; a fetched RRset is cached, and a 404 writes the RRset's tombstone (the corrected write) |
| DesecClient.Client.SpendRead | internal/clients/desec/client.go:67-76 | one read is spent exactly when every read limiter allowed it at `now` beforehand; every limiter's new windows are its windows advanced to `now`, plus the read when it was spent; a refused read advances every limiter too, through the wait estimate of client.go:71-73 |
| DesecModels.NewRRsetKey | internal/clients/desec/models.go:19-24 | the key copies subname and type |
| DesecModels.AsDeletionUpsertRRset | internal/clients/desec/models.go:26-32 | empty, non-nil records; it is a deletion upsert; its key is the original key |
| DesecModels.IsDeletionUpsertRRset | internal/clients/desec/models.go:34-36 | true exactly for non-nil, empty records, so false for nil records |
| ZerotierMembers.CalculateNDPAddresses | internal/clients/zerotier/network-members.go:85-110 | nil when neither mode is on; an error of either generator is passed on, 6plane first; otherwise one address per mode on, 6plane before RFC 4193 |
| ZerotierMembers.Append | internal/clients/zerotier/network-members.go:124 | Go's `append`: nil only when both the slice and the appended list are empty |
| ZerotierMembers.CalculateIPAddresses | internal/clients/zerotier/network-members.go:112-125 | a mode is on only for a non-nil true pointer; with nil assignments the result is (ndp, nil); otherwise (ndp ++ assignments, ndp); errors are passed on |
| NetworkAutoIP.Sanitize | internal/app/fluitans/routes/networks/network-autoip.go:30-55 | non-IPv4 ranges are unchanged; a last octet 0 in `from` becomes 1 and 255 in `to` becomes 254, used only if `from <= to` |
| NetworkAutoIP.RoutesEntries | internal/app/fluitans/routes/networks/network-autoip.go:62-86 | an error exactly when some route lacks a target or has an unparseable one, and it is the first such; routes with a `via` are skipped; the entries are disabled and exact |
| NetworkAutoIP.PoolsEntries | internal/app/fluitans/routes/networks/network-autoip.go:87-111 | one enabled entry per pool, with its prefix and exactness from the range; the first unparseable start or end is the error |
| NetworkAutoIP.MergedProperties | internal/app/fluitans/routes/networks/network-autoip.go:97-116 | the output lists distinct ranges in first-insertion order; a range is enabled exactly when some entry for it is |
| NetworkAutoIP.RecordPool | internal/app/fluitans/routes/networks/network-autoip.go:76-110 | a known range keeps its place and its entry, gaining `Enabled` when the new entry has it; a new range is keyed and appended to the order |
| NetworkAutoIP.AddRoutePool | internal/app/fluitans/routes/networks/network-autoip.go:63-85 | one route: its error is `RouteError`; otherwise the keyed map and order take in its entry, none for a route with a `via` |
| NetworkAutoIP.RoutesErrorAt | internal/app/fluitans/routes/networks/network-autoip.go:62-69 | the first route that fails, after routes that all parse, is the error of the whole route list |
| NetworkAutoIP.AddRoutePools | internal/app/fluitans/routes/networks/network-autoip.go:62-86 | the route loop leaves the merged route entries |
| NetworkAutoIP.AddAssignmentPools | internal/app/fluitans/routes/networks/network-autoip.go:87-111 | the pool loop marks known ranges enabled and appends new ones |
| NetworkAutoIP.AddAssignmentPool | internal/app/fluitans/routes/networks/network-autoip.go:88-110 | one pool: its error is `PoolError` (the start first, then the end); otherwise the keyed map and order take in its enabled entry |
| NetworkAutoIP.PoolsErrorAt | internal/app/fluitans/routes/networks/network-autoip.go:87-95 | the first pool that fails, after pools that all parse, is the error of the whole pool list |
| NetworkAutoIP.ParseAssignmentPools | internal/app/fluitans/routes/networks/network-autoip.go:57-118 | route errors first, then pool errors; otherwise the merged list of route and pool entries |
| GoHex.DecodeString | pkg/zerotier/ndp.go:10-13 | succeeds exactly for an even-length all-hex string; an invalid character is reported before an odd length |
| GoHex.EncodeDecode | pkg/zerotier/ndp.go:10-13 | decoding the lower-case encoding gives back the bytes |
| ZerotierNDP.FoldInPlace | pkg/zerotier/ndp.go:15-19 | each byte `i` becomes `id[i] ^ id[i+4]` when `i + 4` is in range |
| ZerotierNDP.BuildAddress | pkg/zerotier/ndp.go:29-37 | 0xfc, the network part, the node part, zeros, then 0x01 |
| ZerotierNDP.SixPlaneBytes | pkg/zerotier/ndp.go:15-37 | the full 16-byte 6plane layout from the decoded bytes |
| ZerotierNDP.Get6Plane | pkg/zerotier/ndp.go:9-47 | an error if and only if the ID or the address is not valid hex, the ID's error first; otherwise byte 0 is 0xfc, bytes 1..4 are the folded ID, bytes 5..9 the address, bytes 10..14 zero and byte 15 0x01 |
| SessionCSRF.XorToken | pkg/godest/session/csrf.go:43-57 | the length is the shorter input's, and each byte is the XOR of the inputs' bytes |
| SessionCSRF.XorTwice | pkg/godest/session/csrf.go:40-42 | XOR with the same pad twice gives the token back when the pad is long enough |
| SessionCSRF.Unmask | pkg/godest/session/csrf.go:61-74 | nil unless the input is exactly 64 bytes; otherwise the XOR of the pad (second half) with the first half |
| SessionCSRF.UnmaskMasked | pkg/godest/session/csrf.go:40-74 | unmasking a masked token with its pad gives the token back |
| SessionCSRF.CompareTokens | pkg/godest/session/csrf.go:78-87 | false on a length mismatch, byte equality otherwise |
| SessionCSRF.CheckAsWritten | pkg/godest/session/csrf.go:132-148 | the check as written: a wrongly sized session token with no error passes |
| SessionCSRF.EmptySessionTokenAccepted | pkg/godest/session/csrf.go:136-137 | an empty session token is accepted as written and refused when corrected |
| SessionCSRF.Check | pkg/godest/session/csrf.go:132-148 | passes exactly when the session holds a 32-byte token, the issued token decodes, and it unmasks to the session token |
| SessionCSRF.IssuedTokenAccepted | pkg/godest/session/csrf.go:40-148 | a token issued by masking the session token passes the check |
| HTTPHeaders.Header.Set | pkg/godest/etags.go:19-28 | the key's values become the single given value; other keys are unchanged |
| Etags.MakeEtag | pkg/godest/etags.go:13-15 | `W/"` plus the segments joined by single spaces plus `"` |
| Etags.EtagSegments | pkg/godest/etags.go:13-15 | the segments can be read back from an etag when they hold no spaces |
| Etags.EtagInjective | pkg/godest/etags.go:13-15 | distinct space-free segment lists give distinct etags |
| Etags.SetUncacheable | pkg/godest/etags.go:19-23 | Cache-Control becomes the no-store value; nothing else changes |
| Etags.SetEtag | pkg/godest/etags.go:25-28 | Cache-Control becomes "private, no-cache" and Etag is set |
| Etags.CheckEtagMatch | pkg/godest/etags.go:30-36 | false if If-None-Match or the etag is empty, exact equality otherwise |
| Etags.SetAndCheckEtag | pkg/godest/etags.go:38-44 | the headers are always set, then the match with the made etag is returned |
| TemplateFiles.TemplateClasses | pkg/godest/template-files.go:21-45 | shared and non-page templates are templates; a template is a page or a non-page, never both |
| TemplateFiles.ClassesDisjoint | pkg/godest/template-files.go:29-63 | partial and layout, template and asset, CSS and JS assets are each disjoint |
| Env.GetBool | pkg/godest/env/parsing.go:16-32 | empty gives (false, no error); TRUE/true/True give true and FALSE/false/False false; anything else is an error |
| Env.GetString | pkg/godest/env/parsing.go:91-98 | the default exactly when the value is empty |
| Env.FormatDecimal | pkg/godest/env/parsing.go:44 | the decimal text of a number is all digits, without a leading zero |
| Env.DecimalRoundTrip | pkg/godest/env/parsing.go:44 | the decimal text reads back as the number |
| Env.ScanDigitsResult | pkg/godest/env/parsing.go:44 | the left-to-right scan of `strconv.ParseUint` overflows exactly when the leading digit run reaches the bound; otherwise it stops at the first non-digit or yields the whole string's value |
| Env.ScanUint | pkg/godest/env/parsing.go:44 | fits exactly on non-empty digit strings below the bound, with their value; out of range exactly when the leading digits reach the bound; a syntax error otherwise |
| Env.ParseUint | pkg/godest/env/parsing.go:44 | succeeds exactly on non-empty digit strings below the width's bound, with their value; a range error exactly when the leading digits already reach the bound, even before a non-digit; a syntax error otherwise |
| Env.LeadingDigitsDecide | pkg/godest/env/parsing.go:44 | digits then a non-digit: a range error when the digits alone reach the bound (as for "5000000000x" at 32 bits), a syntax error otherwise |
| Env.ParseInt64 | pkg/godest/env/parsing.go:64 | succeeds exactly on an optional sign followed by digits whose value is in the signed 64-bit range, with the signed value; a range error when the digits after the sign reach 2^64 or are all digits out of range; a syntax error otherwise |
| Env.ParseInt64RoundTrip | pkg/godest/env/parsing.go:64 | every 64-bit integer's text parses back to it |
| Env.GetInt64 | pkg/godest/env/parsing.go:54-72 | the default on an empty value; otherwise the parsed value or the wrapped parse error |
| Env.GetInt64RoundTrip | pkg/godest/env/parsing.go:54-72 | an environment value written from a 64-bit integer reads back as it |
| Env.GetUint64AsWritten | pkg/godest/env/parsing.go:34-52 | the default on an empty value; otherwise Ok exactly for a string of digits whose value is below 2^32, with that value, and otherwise the wrapped range error (when the leading digits reach 2^32) or syntax error |
| Env.GetUint64AsWrittenRefusesWideValues | pkg/godest/env/parsing.go:42-44 | values from 2^32 to 2^64 - 1 are refused as written |
| Env.GetUint64 | pkg/godest/env/parsing.go:34-52 | the default on an empty value; otherwise Ok exactly for a string of digits whose value is below 2^64, with that value, and otherwise the wrapped range error (when the leading digits reach 2^64) or syntax error |
| Env.GetUint64RoundTrip | pkg/godest/env/parsing.go:34-52 | every 64-bit unsigned value reads back as itself |
| Env.GetURLOrigin | pkg/godest/env/parsing.go:118-135 | a parse error is wrapped with the raw value; otherwise a new URL with a missing scheme filled in and path, user, query and fragment cleared |
| HandlingTurboStreams.CopyData | internal/app/fluitans/handling/turbostreams.go:34-37 | a new map with the same entries; the input's map is not changed |
| HandlingTurboStreams.AddAuthData | internal/app/fluitans/handling/turbostreams.go:15-42 | an error exactly when a non-remove message's data is not a map; otherwise the same length, action and target; remove actions get an empty template and no data; the others keep the template and get a copy of the data plus "Auth" |
| TmplFuncZerotier.IdentifyNetwork | internal/app/fluitans/tmplfunc/zerotier.go:9-14 | the name when its trimmed form is non-empty, otherwise the ID |
| TmplFuncZerotier.GetNetworkHostAddress | internal/app/fluitans/tmplfunc/zerotier.go:16-18 | the first 10 characters of the ID |
| TmplFuncZerotier.GetNetworkNumber | internal/app/fluitans/tmplfunc/zerotier.go:20-22 | the ID after its first 10 characters |
| TmplFuncZerotier.NetworkIDParts | internal/app/fluitans/tmplfunc/zerotier.go:16-22 | host address plus network number is the ID |
| TurboStreams.StreamAccepted | pkg/godest/turbo/streams.go:31-38 | true exactly when some comma-separated, trimmed Accept entry is `text/vnd.turbo-stream.html`; an empty header gives false; an entry with parameters does not match |
| TurboStreams.EntryOrderIrrelevant | pkg/godest/turbo/streams.go:32-36 | the order of the entries does not change the result |

## Left out

- Locks, goroutines and channels are left out: the limiters' and hub's mutexes, the Action Cable
  read/write loops and WebSocket writes, and the broker's `Serve`/`startPub`. Each operation is
  modelled as one sequential step. Channel sends are recorded in sequences: the Action Cable
  `toClient` queue and the hub's `changes`.
- SlidingWindows.Estimate: the float64 weight in `estimateCount` is replaced by exact integer
  arithmetic truncated toward zero. `WaitDuration` is modelled the same way.
- `LocalWindow`'s source is not part of this model. Windows start at time 0 with count 0, and
  syncing does nothing.
- SlidingWindows.WaitDuration: the source divides by the capacity in float64, so a zero capacity
  (reachable through a safety margin of 1 in pkg/desec/rates.go:21-23) with a positive excess
  gives an infinite quotient. Go converts it to a `time.Duration` in an implementation-defined
  way; the model takes amd64's result, the smallest int64, and other platforms are not modelled.
- SlidingWindowsMulti.MultiLimiter.constructor requires positive rate times. Limiters with a zero
  duration make Go's `Truncate` return the time unchanged.
- SlidingWindowsMulti.MultiLimiter.EstimateRateLimiter requires at least one limiter. With none,
  the source indexes an empty slice and panics.
- `EstimateFillRatio`, `EstimateFillRatios` and `Rates` are not modelled: they are floating point
  or plain getters.
- SlidingWindowsMulti.MultiLimiter.Throttled takes the wait as integer nanoseconds. The
  conversion from float64 seconds is left out.
- SlidingWindowsMulti.SortedKeys: `sort.Slice` is modelled as an insertion sort. The order of
  equal durations is not stated.
- TurboStreamsRouter.Router.Find: Go's loop is unbounded. The model takes a `fuel` bound and
  reports running out of it.
- TurboStreamsRouter.Router.Find states soundness only, not completeness. A node it finds ends a
  chain that spells the path, but it is not proved that a route in the tree is always found.
  - The spelling is stated only for trees whose slots hold nodes of their kind (`KindsOk`).
    An escaped ':' can leave a param node in a static slot, and such trees are not covered.
  - The parameter values are stated for matches at static and param nodes. For a match at an
    any node, the value written at the slot of its last name is not related to the trail.
- TurboStreamsRouter.Router.Insert: the survival of the other routes is proved under three
  conditions. The labels must be right before and after, that is, every child's prefix starts
  with the byte it is filed under. The root's prefix must also start with the path's first byte.
  - Every path `Add` inserts starts with '/', so in the source the root condition holds after
    the first route; the model does not prove this.
  - When the root's prefix does not, Go's "at root" branch gives the root the whole search as its
    prefix and the old routes through it change; the model does the same, and promises nothing
    about them.
  - It is not proved that `Insert` keeps the labels right; the condition is checked on the result.
- TurboStreamsRouter.Router.Add: the survival of earlier routes across an `Add` is not stated, and
  neither is a round trip from `Add` to `Find`. `Add` is a sequence of `Insert` calls, but the
  label conditions above are not proved to hold between them, and `Find`'s completeness is left
  out.
- Router and context:
  - an index out of range in the parameter buffer is reported as a panic outcome, not modelled
    further;
  - the context's middleware, `Hub`, `Publish` and writer are not modelled.
- Action Cable:
  - the channel identifier's JSON parsing, the channel factories and the channels' `Subscribe`
    and `Perform` are outside the model, given as results;
  - unsubscribers are numbers.
- ActionCableConnections.Conn.Disconnect always uses `defaultErrorSanitizer` (`SanitizeError`):
  the `WithErrorSanitizer` option, which replaces it with a caller's function, is not modelled.
- ActionCableConnections.Conn.Disconnect and HandlingTurboStreams.CopyData: the map iteration
  order is returned or left open, not fixed.
- PubSubHub.DataHub.Broadcast: the order in which receivers get the message is the set's
  iteration order. Delivery itself is the `receive` parameter.
- Domain names and planning:
  - the order of subnames under an address and of updates within a domain name is map
    iteration order and is not stated;
  - `determineExpectedRRsets`, `GetMemberRecords` and `SortNetworkMembers` are not modelled;
  - the deSEC `CompareSubnames` used by `CompareSubnamesAndAddresses` is a parameter.
- IP parsing is outside the model: `netip.ParseAddr`, `ParsePrefix`, prefix ranges and range
  prefixes are the functions of a `NetIP` value. `address.String()` is taken as the parser's
  text.
- NetworkAutoIP.RoutesEntries: a nil route `Target` is modelled as `None` and gives the
  source's error. Pools carry plain start and end strings: a nil `IpRangeStart` or
  `IpRangeEnd` pointer panics in the source and is not modelled, nor is any other nil pointer.
- ZerotierMembers.CalculateIPAddresses: a nil `member.Address` makes the source panic (it is
  dereferenced before the NDP addresses are computed) and is not modelled; the address is a
  plain string. A nil `IpAssignments` is modelled and gives the NDP addresses alone.
- ZerotierDNS.PlanDNSUpdates, ZerotierDNS.NewMemberNameRRsets and ZerotierDNS.IdentifyDomainNames
  take the member's IP assignments as a plain list: the source dereferences
  `member.IpAssignments` (and `member.Address` in the error messages), so a nil pointer panics
  there; that case is not modelled. `GetMemberRecords` also dereferences `network.Id`, and is
  not modelled at all.
- TmplFuncZerotier.IdentifyNetwork takes the network's name and ID as plain strings: a nil
  `network.Name` or `network.Id` pointer panics in the source and is not modelled.
- ZerotierNDP.Get6Plane requires at least 8 characters of network ID and 10 of address.
  - Shorter valid hex makes the source panic when it slices the decoded bytes. For a 2- or
    3-byte ID the slice stays within capacity and reads leftover bytes; that case is not
    modelled either.
  - Shorter invalid hex is a decoding error in the source, returned before any slicing; the
    model does not cover that input.
  - The result is the 16 bytes. Their text form through `net.IP.String` is not modelled.
- TmplFuncZerotier.GetNetworkHostAddress and TmplFuncZerotier.GetNetworkNumber require an ID
  of at least 10 characters. Shorter IDs make the source panic.
- The deSEC cache (ristretto) is an ideal map: no eviction, expiry, cost or marshalling
  failure. A value of the wrong type reads as a decoding error.
- DesecClient.Client.GetRRset: its 404 branch uses the corrected cache write of the first
  Findings row, `MissingRRsetWrites`, which stores a tombstone for the RRset. The source stores a
  tombstone for the whole domain; that write is modelled by `MissingRRsetWritesAsWritten`.
- DesecClient.Client.GetRRset:
  - the HTTP request, the 429 throttling path and the read rate-limit error's wait value are
    outside the model;
  - the source calls `time.Now()` twice in `tryAddLimitedRead`; the model uses one `now`.
- `GetRRsets`, `GetSubnameRRsets`, `CreateRRset` and `DeleteRRset` in the deSEC client are not
  modelled: they are remote API calls.
- Sessions and CSRF: the cookie store, `securecookie` and base64 decoding are outside the
  model, given as results. The random pad is a parameter.
- HTTPHeaders.Header.Set does not canonicalise keys. Every key the model uses is already in
  canonical form.
- Env: `GetFloat32`, `GetBase64`, `GetKey` and `GetURL` are not modelled (floating point,
  randomness, parsing outside the model); `url.Parse` is a given result.
- Env.GetInt64, Env.ParseInt64, Env.ParseUint, Env.GetUint64 and Env.GetUint64AsWritten: the
  `strconv.NumError` quoting (`strconv.Quote`) is written as plain quotes, so values holding
  quotes or control characters read differently.
- GoHex.DecodeString: the invalid-byte error omits the offending character (`%#U`).
- HandlingTurboStreams.AddAuthData:
  - the error omits the data's type (`%T`);
  - the `Targets` field is dropped, as in the source.
- Strings:
  - Go strings are bytes and Dafny strings are characters. The IDs, hex digits and DNS labels
    here are ASCII, so the two agree.
  - Go's `strings.ToLower`/`ToUpper` are modelled for ASCII only.
  - Go's string `<` is byte order, and the model uses character order.
- NetworkAutoIP.SanitizeIdempotent and TmplFuncZerotier.NetworkIDParts have empty bodies:
  their facts follow from the functions' own contracts.

## Findings

| source | as written | input that shows it | evidently intended | confidence | as-written member | corrected member |
|---|---|---|---|---|---|---|
| internal/clients/desec/client.go:42 | the handler for a 404 on an RRset writes `SetNonexistentDomainByName`, so the cache marks the whole domain as nonexistent | a 404 for any RRset of a cached domain; the domain then reads back as a tombstone | `SetNonexistentRRsetByNameAndType` for the RRset that was missing | medium, not executed | DesecClient.MissingRRsetWritesAsWritten | DesecClient.MissingRRsetWrites |
| pkg/godest/session/csrf.go:136-137 | a session token of the wrong length is turned into `errors.Wrap(err, …)` with a nil `err`, which is nil, so `Check` accepts | a session whose CSRF token is empty (or any length but 32) with no cookie error, and any issued token | reject the request with an error | medium, not executed; only reachable through a server-signed cookie holding a token of another length | SessionCSRF.CheckAsWritten | SessionCSRF.Check |
| pkg/godest/env/parsing.go:42-44 | `GetUint64` parses with bit size 32 | an environment value of 4294967296 (2^32), refused with a range error | bit size 64, as the name and the return type say | low, not executed; the only callers (internal/clients/authn/conf.go:51-64, the Argon2id parameters) later narrow the values to `uint32` or `uint8`, so width 32 may be deliberate | Env.GetUint64AsWritten | Env.GetUint64 |
