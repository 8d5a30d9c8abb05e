# aionbot dispatch core in Dafny

This project models the handler-dispatch core of `aionbot-core`, a chat-bot framework written in Rust, together with the small pure pieces around it.

- **Event queue** (`queue.dfy`, module `Queue`). `EventQueue` is a class with four fields:
  - the binary heap of `(priority, counter, item)` entries;
  - the `entry_finder` index from each pending item to its entry;
  - the monotone `counter`;
  - the `order_queue` of pending items.

  Items are indexed by a key, which stands for the item type's `Eq`/`Hash`. For entries the key is the id. Removal is lazy: `remove` forgets the item, and `pop` skips heap entries whose item is no longer pending. `queue_scenarios.dfy` (module `QueueScenarios`) restates the calls of the unit test of queue.rs and of the lazy-removal cases as clients of the class, and proves that they give the results the test expects.
- **Dispatcher.**
  - `Entry` (`entry.dfy`, module `Entries`): equality and hash by id, ordering by priority.
  - `Handler` (`handler.dfy`, module `Handlers`): `matches` builds a fresh queue of the entries whose router matches. `input` drains that queue, invoking each callback and stopping at the first error.
  - `Core` (`core.dfy`, module `Cores`): runs its handlers in order with the same fail-stop rule.
  - `AionPlugin` (`plugin.dfy`, module `Plugins`): a builder that appends entries.

  Callbacks are named by an id. Their behaviour is a parameter `call: (CallbackId, DynEvent) -> Result<string>`. What was invoked is returned as a trace.
- **Routers** (`routers.dfy`, module `Routers`, with string helpers in `strings.dfy`, module `Strings`).
  - The event's type-erased `content()` is the datatype `Value` with a `TypeOf` tag, so a failed `downcast` is an explicit miss.
  - The routers covered are: the blanket string router, `AllRouter`, `AnyRouter`, `ExactMatchRouter<T>`, the `starts_with` / `contains` / `ends_with` routers, `CommandRouter` and `ErrorRouter<E>`.
- **The superseded router iteration** of router.rs (`legacy_router.dfy`, module `LegacyRouters`). It works over the concrete `Event` of event.rs (`legacy_event.dfy`, module `Events`), whose message renders as the concatenation of its segment texts.
- **OneBot `post_type` classifiers** of the adapter's `MinimalEvent` (`onebot_models.dfy`, module `OneBotModels`).

Four behaviours of the code are easy to misread, and the model states them as the code has them:

- **Ties pop newest first.** The queue pops the smaller `i8` priority first, and among equal priorities the *larger* counter. So ties pop last-in-first-out, not first-in-first-out. The unit test at queue.rs:103-115 pops `e, a, d, b, c`.
- **A re-pushed item may keep its old place.** Re-pushing a pending item leaves its old heap entry behind. The item is still returned only once, but at whichever of its heap entries ranks first. That can be the stale one: see `QueueScenarios.StaleEntryDecidesTurn`.
- **The dispatcher may invoke a replaced entry.** The queue hands back the item stored in the heap entry. So when two entries of a handler share an id and both match, `Handler::input` invokes the callback of whichever of the two ranks first, which may be the replaced one. `Handlers.Dispatched` states which one: of the matched entries sharing an id, the one whose heap entry ranks first is invoked, and the others are never invoked.
- **The ordering disagrees with equality.** `Ord for Entry` compares priorities only, while equality compares ids. Two different entries can therefore compare `Equal` (`Entries.CmpEqualIsNotEq`). The queue never relies on `Entry`'s order, because its heap orders `EventEntry` values by priority and counter.

## Model

| member | source | states |
|---|---|---|
| Queue.Cmp | crates/aionbot-core/src/queue.rs:22-28 | an entry is `Greater` (pops first) iff its priority is smaller, or equal with a larger counter; `Less` and `Equal` likewise, both directions |
| Queue.TopExists | crates/aionbot-core/src/queue.rs:66-70 | every non-empty heap has an entry nothing else is greater than, so the heap's `pop` always has an answer |
| Queue.Without | crates/aionbot-core/src/queue.rs:73 | `retain(x != item)` keeps exactly the elements with another key, and never grows the deque |
| Queue.WithoutAbsent | crates/aionbot-core/src/queue.rs:83 | retaining away a key that is not in the deque leaves it unchanged |
| Queue.KeysOfWithout | crates/aionbot-core/src/queue.rs:83 | after `retain`, the keys in the deque are the old keys minus the removed one |
| Queue.WithoutNewestFirst | crates/aionbot-core/src/queue.rs:73 | removing a key from the deque keeps it ordered newest first |
| Queue.UnindexKeepsInv | crates/aionbot-core/src/queue.rs:80-85 | forgetting an item in the index and the deque keeps the queue invariant |
| Queue.UnindexAbsent | crates/aionbot-core/src/queue.rs:80-85 | `remove` of an item that is not pending changes neither the index nor the deque |
| Queue.IndexKeepsInv | crates/aionbot-core/src/queue.rs:58-62 | indexing a new entry with the current counter, pushing it on the heap and at the front of the deque keeps the invariant |
| Queue.ShrinkKeepsInv | crates/aionbot-core/src/queue.rs:66-76 | discarding only stale heap entries keeps the invariant; an empty heap means nothing is pending |
| Queue.EventQueue.constructor | crates/aionbot-core/src/queue.rs:45-52 | `new` is empty: empty heap, index and deque, counter 0 |
| Queue.EventQueue.Remove | crates/aionbot-core/src/queue.rs:80-85 | the item leaves the index and the deque; the heap and the counter are unchanged (lazy removal) |
| Queue.EventQueue.Push | crates/aionbot-core/src/queue.rs:54-63 | the counter grows by exactly 1; the heap gains `(priority, counter, item)`; the index maps the item to it; the item is at the front of the deque, once |
| Queue.EventQueue.HeapPop | crates/aionbot-core/src/queue.rs:70 | `BinaryHeap::pop` returns nothing exactly on an empty heap, and otherwise a top entry, which leaves the heap |
| Queue.EventQueue.SkipStale | crates/aionbot-core/src/queue.rs:66-76 | the `while let` loop discards stale entries only. It stops at an empty heap, or at a pending entry that outranks every pending entry, having discarded exactly the entries ranked at or above that entry |
| Queue.EventQueue.Pop | crates/aionbot-core/src/queue.rs:65-78 | returns `None` iff nothing is pending, and then leaves the heap empty. Otherwise it returns a pending item whose entry outranks every pending entry, unindexes it, and leaves in the heap exactly the old entries ranked below that entry |
| Queue.EventQueue.IsEmpty | crates/aionbot-core/src/queue.rs:87-89 | true iff the heap is empty, whatever is pending |
| QueueScenarios.PushFiveThenDrain | crates/aionbot-core/src/queue.rs:103-115 | pushing `a1, b2, c3, d2, e1` pops `e, a, d, b, c`, then `None` |
| QueueScenarios.RemoveLeavesStaleEntry | crates/aionbot-core/src/queue.rs:80-89 | after `push(p, x); remove(x)`, `is_empty` is false, yet `pop` returns `None` |
| QueueScenarios.RepushPopsOnce | crates/aionbot-core/src/queue.rs:54-61 | an item pushed twice is popped once, and then the queue is drained |
| QueueScenarios.StaleEntryDecidesTurn | crates/aionbot-core/src/queue.rs:54-77 | pushing `x1, y2, x3` pops `x, y`, then `None`: the stale entry of `x` decides its turn |
| QueueScenarios.RemoveThenPop | crates/aionbot-core/src/queue.rs:80-85 | after `remove(x)`, the next `pop` does not return `x`, and `x` stays not pending |
| QueueScenarios.TwoPops | crates/aionbot-core/src/queue.rs:65-77 | two successive pops return items with different keys, and the second entry ranks strictly below the first |
| QueueScenarios.StaleEntryOutlivesPop | crates/aionbot-core/src/queue.rs:54-89 | after `push(1, y); push(3, x); remove(x)`, a pop returns `y` and `is_empty` is still false; after `push(5, x); push(4, z)` the pops return `x`, `z`, then `None` |
| Common.CompareInt | crates/aionbot-core/src/entry.rs:37 | `Ord::cmp` on integers: `Less`, `Equal` and `Greater` exactly when `<`, `==` and `>` |
| Entries.GetPriority | crates/aionbot-core/src/entry.rs:14-16 | returns the stored priority |
| Entries.GetRouter | crates/aionbot-core/src/entry.rs:18-20 | returns the stored router |
| Entries.GetHandler | crates/aionbot-core/src/entry.rs:22-24 | returns the stored callback |
| Entries.Eq | crates/aionbot-core/src/entry.rs:27-31 | an entry equals `a` iff it is `a`'s id with any priority, router and callback |
| Entries.Hash | crates/aionbot-core/src/entry.rs:47-51 | every entry equal to this one hashes to the same value |
| Entries.EqIsIdEquivalence | crates/aionbot-core/src/entry.rs:27-31 | equality is an equivalence, holds iff the ids are equal, and ignores priority, router and callback |
| Entries.EqualEntriesHashAlike | crates/aionbot-core/src/entry.rs:47-51 | equal entries hash alike under any hasher, because only the id is hashed |
| Entries.Cmp | crates/aionbot-core/src/entry.rs:35-39 | `Less`, `Equal` and `Greater` exactly when the priority is smaller, equal or larger |
| Entries.PartialCmp | crates/aionbot-core/src/entry.rs:41-45 | always `Some(cmp)` |
| Entries.CmpIsTotalOrder | crates/aionbot-core/src/entry.rs:35-39 | the ordering is antisymmetric and transitive |
| Entries.CmpEqualIsNotEq | crates/aionbot-core/src/entry.rs:27-39 | two entries with different ids and the same priority compare `Equal` but are not equal |
| Handlers.Matching | crates/aionbot-core/src/handler.rs:36-40 | the entries kept are exactly those whose router matches the event |
| Handlers.MatchingAppend | crates/aionbot-core/src/handler.rs:36-40 | the filter takes one entry at a time, in order |
| Handlers.IdsOfAppend | crates/aionbot-core/src/handler.rs:36-40 | the ids of the entries seen so far grow by the ids of the next ones |
| Handlers.QueuedPush | crates/aionbot-core/src/handler.rs:37-38 | pushing a matching entry at its own priority, under the counter equal to its position, makes the heap exactly the slots of the matched entries, the counter their number and the pending ids their ids |
| Handlers.QueueOfAppend | crates/aionbot-core/src/handler.rs:36-40 | one more push adds exactly the slot of the new last entry to the heap |
| Handlers.StartDraining | crates/aionbot-core/src/handler.rs:26 | the queue `matches` returns is ready to drain, with nothing invoked and the slot of every matched entry in the heap |
| Handlers.DrainingNoneSkipped | crates/aionbot-core/src/handler.rs:27-28 | while draining, every matched entry whose id was not invoked yet pops after the last invoked entry: no entry is skipped |
| Handlers.RemoveShrinks | crates/aionbot-core/src/handler.rs:27 | each successful pop removes a pending id, so the loop ends |
| Handlers.DrainStep | crates/aionbot-core/src/handler.rs:27-28 | a pop invokes a matched entry not invoked yet, which pops after every entry invoked before, before every entry still in the heap, and before every other matched entry with the same id |
| Handlers.Finished | crates/aionbot-core/src/handler.rs:27-30 | a drained queue with every callback succeeded is an `Ok` dispatch |
| Handlers.Failed | crates/aionbot-core/src/handler.rs:28 | a callback error ends the dispatch with that error |
| Handlers.SucceededExtend | crates/aionbot-core/src/handler.rs:28 | a callback returning `Ok` lets the drain go on |
| Handlers.NoMatchInvokesNothing | crates/aionbot-core/src/handler.rs:25-31 | with no matching entry nothing is invoked and the result is `Ok` |
| Handlers.OkInvokedEachOnce | crates/aionbot-core/src/handler.rs:25-31 | an `Ok` result means every matched id was invoked exactly once and every callback succeeded |
| Handlers.InvokedAt | crates/aionbot-core/src/handler.rs:25-31 | when the matched ids are distinct, an `Ok` dispatch invoked every matched entry at some turn |
| Handlers.InvokedIdAt | crates/aionbot-core/src/handler.rs:27-28 | a matched entry with a unique id whose id was invoked has a turn in the trace |
| Handlers.EarlierCallsSucceeded | crates/aionbot-core/src/handler.rs:28 | in any dispatch, every callback before the last one returned `Ok` |
| Handlers.DispatchedNonEmpty | crates/aionbot-core/src/handler.rs:25-31 | with at least one matched entry, a dispatch invokes something |
| Handlers.LowerFirstOfTwo | crates/aionbot-core/src/handler.rs:27-28 | of two matched entries with distinct ids and increasing priorities, the first is invoked first, and the second, if at all, second |
| Handlers.FirstFailureStops | crates/aionbot-core/src/handler.rs:27-29 | of those two, when the first callback fails only it is invoked and its error is returned |
| Handlers.SecondFailureAfterFirst | crates/aionbot-core/src/handler.rs:27-29 | of those two, when the first callback succeeds and the second fails, both are invoked in that order and the second error is returned |
| Handlers.FailureStopsAtFirstInPopOrder | crates/aionbot-core/src/handler.rs:25-31 | `a` at priority 0 and `b` at priority 1: if `a` fails, the trace is `[a]` with `a`'s error; if `a` succeeds and `b` fails, the trace is `[a, b]` with `b`'s error |
| Handlers.EqualPrioritiesLaterFirst | crates/aionbot-core/src/handler.rs:25-42 | when the matched ids are distinct, an `Ok` dispatch invokes the later of two matched entries with the same priority first |
| Handlers.TiedPairLaterFirst | crates/aionbot-core/src/handler.rs:25-42 | two matched entries with distinct ids and the same priority: an `Ok` dispatch invokes exactly the second, then the first |
| Handlers.TiedPairInvokesSecondFirst | crates/aionbot-core/src/handler.rs:25-42 | two matching entries `a`, `b` registered in that order at priority 0: an `Ok` dispatch invokes exactly `b`, then `a` |
| Handlers.DuplicateIdFirstSlotWins | crates/aionbot-core/src/handler.rs:25-42 | three matched entries at increasing priorities where the first and the third share an id: an `Ok` dispatch invokes exactly the first, then the second; the third is never invoked |
| Handlers.DuplicateIdRunsOnce | crates/aionbot-core/src/handler.rs:25-42 | matching entries `a`@0, `b`@1, `a`@2 in that order: an `Ok` dispatch invokes exactly `a`@0, then `b`@1 |
| Handlers.Handler.constructor | crates/aionbot-core/src/handler.rs:13-15 | `new` stores the entries |
| Handlers.Handler.Empty | crates/aionbot-core/src/handler.rs:17-19 | `empty` has no entries |
| Handlers.Handler.Extend | crates/aionbot-core/src/handler.rs:21-23 | the new entries follow the old ones, in order |
| Handlers.Handler.Matches | crates/aionbot-core/src/handler.rs:34-42 | a fresh valid queue whose heap holds exactly the matching entries, the `k`-th of them at its own priority under counter `k`; its counter is their number and its pending ids are their ids; `entries` is not modified |
| Handlers.QueueMatching | crates/aionbot-core/src/handler.rs:36-40 | one turn of the `for` loop makes the heap exactly the slots of the entries matched so far, the counter their number and the pending ids their ids |
| Handlers.Handler.Input | crates/aionbot-core/src/handler.rs:25-31 | the dispatch is `Dispatched`: matched entries only, distinct ids, in pop order (a lower priority first, and among equal priorities the entry registered later first); of matched entries sharing an id, only the one that pops first is invoked, and the later ones are skipped; no entry skipped (every matched id not invoked pops after the last invoked entry); every invocation but the last succeeded; the error of the last one, so the first failure in pop order, is returned; `Ok` means every matched id was invoked |
| Handlers.InvokeNext | crates/aionbot-core/src/handler.rs:27-29 | one turn of the `while let` loop either ends the dispatch as `Dispatched` or keeps draining with a smaller index |
| Handlers.PopNext | crates/aionbot-core/src/handler.rs:27 | a pop either finds every matched id invoked, or yields the next entry in pop order |
| Handlers.Invoke | crates/aionbot-core/src/handler.rs:28 | the callback runs on the event; on `Err` the `?` ends the dispatch with that error |
| Cores.Core.Input | crates/aionbot-core/src/core.rs:12-17 | handlers run in order, each dispatching as `Handler::input` (within a handler, the pop order is followed without skipping any id, only the first-popping entry of each id runs, and the dispatch stops at the first failing callback); all outcomes but the last are `Ok`; the first error is returned; `Ok` iff every handler ran and returned `Ok` (with no handler, `Ok` and nothing ran) |
| Plugins.AionPlugin.Default | crates/aionbot-core/src/plugin.rs:3-7 | the default plugin has an empty name and no entries |
| Plugins.AionPlugin.constructor | crates/aionbot-core/src/plugin.rs:10-15 | `new(name)` stores the name and has no entries |
| Plugins.AionPlugin.Name | crates/aionbot-core/src/plugin.rs:17-19 | returns the stored name |
| Plugins.AionPlugin.Entries | crates/aionbot-core/src/plugin.rs:21-23 | returns exactly the stored entries |
| Plugins.AionPlugin.InvokeHandler | crates/aionbot-core/src/plugin.rs:25-28 | appends the entries in order after the old ones, keeps the name, and hands back the same plugin |
| Strings.Contains | crates/aionbot-core/src/router/matcher.rs:70 | `str::contains` holds iff the pattern occurs at some offset |
| Strings.OccursInTail | crates/aionbot-core/src/router/matcher.rs:70 | when the pattern is not at the front, it occurs iff it occurs in the tail |
| Strings.StartsWithContains | crates/aionbot-core/src/router/matcher.rs:44 | a prefix occurs in the string |
| Strings.EndsWithContains | crates/aionbot-core/src/router/matcher.rs:96 | a suffix occurs in the string |
| Strings.EmptyPatternEverywhere | crates/aionbot-core/src/router/matcher.rs:42-100 | the empty pattern starts, ends and occurs in every string |
| Strings.StartsWith | crates/aionbot-core/src/router/matcher.rs:44 | `starts_with` holds iff the pattern is no longer than the text and agrees with it index by index from the front |
| Strings.EndsWith | crates/aionbot-core/src/router/matcher.rs:96 | `ends_with` holds iff the pattern is no longer than the text and agrees with it index by index from the back |
| Strings.StartsWithConcat | crates/aionbot-core/src/router/command.rs:42-44 | `starts_with(p)` followed by `strip_prefix(p).starts_with(c)` is `starts_with(p + c)`, both directions |
| Routers.Downcast | crates/aionbot-core/src/lib.rs:19 | `downcast` gives the value iff its type is the requested one |
| Routers.AsStr | crates/aionbot-core/src/lib.rs:19 | `downcast::<&str>` gives text iff the content is a `&str`; a `String` content gives nothing |
| Routers.Matches | crates/aionbot-core/src/lib.rs:18-24 | text routers only match `&str` content; `ExactMatchRouter` matches iff the content equals its value; `ErrorRouter` iff the content is an error of its own kind; `AllRouter` always |
| Routers.PatternMatchesIff | crates/aionbot-core/src/lib.rs:18-24 | a string pattern matches iff the content is the `&str` equal to it, with no trimming or space folding; other content misses |
| Routers.PatternAgreesWithExactMatch | crates/aionbot-core/src/router/matcher.rs:16-22 | the blanket string router and `ExactMatchRouter<&str>` agree on every event |
| Routers.AllAndEmptyAny | crates/aionbot-core/src/router/logic.rs:10-24 | `AllRouter` matches every event; `AnyRouter` with no children matches none |
| Routers.AnyOfAppend | crates/aionbot-core/src/router/logic.rs:20-24 | `AnyRouter` over a concatenation is the disjunction of its two parts, both directions |
| Routers.AnyOfOrderIndependent | crates/aionbot-core/src/router/logic.rs:22 | the children in any order give the same answer |
| Routers.AnyOfWithAll | crates/aionbot-core/src/router/logic.rs:10-24 | an `AnyRouter` with an `AllRouter` child always matches |
| Routers.ExactMatchIff | crates/aionbot-core/src/router/matcher.rs:16-22 | matches iff the content has the pattern's type and equals it; a type mismatch misses |
| Routers.TextRoutersMissOtherTypes | crates/aionbot-core/src/router/matcher.rs:43-47 | every text router misses content that is not a `&str` |
| Routers.StringMatchersIff | crates/aionbot-core/src/router/matcher.rs:41-101 | `starts_with`, `ends_with` and `contains` routers match iff the `&str` content starts with, ends with or contains the pattern |
| Routers.AffixMatchImpliesContains | crates/aionbot-core/src/router/matcher.rs:41-101 | a starts-with or ends-with match is a contains match |
| Routers.EmptyPatternMatchesText | crates/aionbot-core/src/router/matcher.rs:41-101 | the empty pattern matches every `&str` content in all three routers |
| Routers.AnyCommandStarts | crates/aionbot-core/src/router/command.rs:44 | `any` over the commands holds iff some command starts the rest |
| Routers.CommandMatches | crates/aionbot-core/src/router/command.rs:41-49 | the prefix loop succeeds iff some prefix followed by some command starts the text |
| Routers.DefaultCommand | crates/aionbot-core/src/router/command.rs:10-17 | `default()` matches exactly the `&str` texts starting with `/help` |
| Routers.NewCommand | crates/aionbot-core/src/router/command.rs:20-28 | `new(prefixes, command)` matches iff some prefix followed by some command starts the `&str` text |
| Routers.CommandWith | crates/aionbot-core/src/router/command.rs:30-35 | `command(cs)` keeps the `/` prefix: it matches iff `/` followed by some command starts the text |
| Routers.EmptyCommandNeverMatches | crates/aionbot-core/src/router/command.rs:41-49 | with no prefix or no command nothing matches |
| Routers.CommandIgnoresSuffix | crates/aionbot-core/src/router/command.rs:44 | a matching text still matches with anything appended |
| Routers.DefaultCommandTest | crates/aionbot-core/src/router/command.rs:62-66 | `default()` rejects `help` and `/not help` and accepts `/help` and `/help@bot` |
| Routers.CommandWithTestHits | crates/aionbot-core/src/router/command.rs:68-73 | `command(["cmd", "command"])` accepts `/cmd`, `/cmd@bot` and `/command` |
| Routers.CommandWithTestMisses | crates/aionbot-core/src/router/command.rs:68-72 | `command(["cmd", "command"])` rejects `help` and `/not cmd` |
| Routers.NewCommandTestHits | crates/aionbot-core/src/router/command.rs:75-78 | `new(["!"], ["cmd"])` accepts `!cmd` and `!cmd@bot` |
| Routers.NewCommandTestMisses | crates/aionbot-core/src/router/command.rs:75-80 | `new(["!"], ["cmd"])` rejects `help`, `!not cmd` and `/cmd arg1 arg2` |
| Routers.DefaultErrorRouter | crates/aionbot-core/src/router/error.rs:17-29 | the default error router matches iff the content is an error of its kind |
| Routers.NewErrorRouter | crates/aionbot-core/src/router/error.rs:11-15 | `new()` is `default()` |
| Routers.ErrorKindIff | crates/aionbot-core/src/router/error.rs:25-29 | matches iff the content is an error value of the kind, whatever its message |
| Routers.ErrorKindsExclusive | crates/aionbot-core/src/router/error.rs:27 | routers for two different kinds never both match |
| Events.SegmentFrom | crates/aionbot-core/src/event.rs:11-27 | `From<&str>` and `From<String>` keep the text and set the kind to `"text"` |
| Events.Texts | crates/aionbot-core/src/event.rs:35-42 | the segment texts written in turn give `""` iff every text is empty, and are no shorter than any one text |
| Events.Render | crates/aionbot-core/src/event.rs:35-42 | a message renders as `""` iff all its segment texts are empty, and no shorter than any of them |
| Events.RenderAppend | crates/aionbot-core/src/event.rs:35-42 | rendering distributes over concatenation of segment lists |
| Events.RenderSnoc | crates/aionbot-core/src/event.rs:37-39 | one more segment appends its text to the rendering |
| Events.RenderReadsOnlyTexts | crates/aionbot-core/src/event.rs:29-42 | messages with the same segment texts render alike, whatever their entity and segment kinds |
| Events.RenderBasics | crates/aionbot-core/src/event.rs:29-42 | the default message and the default event render as `""`; a one-segment message renders as its text |
| LegacyRouters.NewExactMatch | crates/aionbot-core/src/router.rs:39-46 | `new` stores the pattern and the flag |
| LegacyRouters.RemoveSpaces | crates/aionbot-core/src/router.rs:52 | `replace(" ", "")` keeps exactly the characters other than U+0020, and never lengthens |
| LegacyRouters.Matches | crates/aionbot-core/src/router.rs:7-57 | `AnyRouter` matches every event; any other router matches a message equal to its pattern, and matches only messages equal to the pattern once spaces are deleted from both |
| LegacyRouters.RemoveSpacesAppend | crates/aionbot-core/src/router.rs:52 | deleting spaces distributes over concatenation |
| LegacyRouters.RemoveSpacesKeepsSpaceless | crates/aionbot-core/src/router.rs:52 | a string without spaces is unchanged, so deletion is idempotent on it |
| LegacyRouters.OnlySpaceIsDeleted | crates/aionbot-core/src/router.rs:52 | a tab or a no-break space is kept |
| LegacyRouters.TextMatchesIff | crates/aionbot-core/src/router.rs:7-23 | the `str`, `&str` and `String` routers match iff the rendered message equals the pattern, as an exact match without `ignore_spaces` does |
| LegacyRouters.AnyMatchesEvery | crates/aionbot-core/src/router.rs:25-32 | this iteration's `AnyRouter` matches every event |
| LegacyRouters.ExactMatchIff | crates/aionbot-core/src/router.rs:48-57 | without `ignore_spaces` the router matches iff the message equals the pattern; with it, iff they are equal once spaces are deleted from both |
| LegacyRouters.ExactImpliesIgnoreSpaces | crates/aionbot-core/src/router.rs:48-57 | an exact match implies an ignore-spaces match; without spaces on either side the two agree |
| LegacyRouters.IgnoreSpacesTellsLettersApart | crates/aionbot-core/src/router.rs:51-52 | a non-space letter in one side only makes the ignore-spaces router miss |
| LegacyRouters.TestEventTexts | crates/aionbot-core/src/router.rs:211-241 | the test events render as `hello`, `world`, `hello world` and `hello world!` |
| LegacyRouters.TestLetters | crates/aionbot-core/src/router.rs:252-258 | the letters `w`, `h` and `!` tell the texts of the ignore-spaces test apart |
| LegacyRouters.ExactMatchRouterTest | crates/aionbot-core/src/router.rs:243-249 | `"hello"` matches the `hello` event only |
| LegacyRouters.ExactMatchRouterIgnoreSpacesTestHit | crates/aionbot-core/src/router.rs:252-254 | `"hello world"` with `ignore_spaces` matches `["hello", " ", "world"]` |
| LegacyRouters.IgnoreSpacesRejectsHello | crates/aionbot-core/src/router.rs:255 | it rejects `["hello"]` |
| LegacyRouters.IgnoreSpacesRejectsWorld | crates/aionbot-core/src/router.rs:256 | it rejects `["world"]` |
| LegacyRouters.IgnoreSpacesRejectsHappy | crates/aionbot-core/src/router.rs:257 | it rejects `["hello", " ", "world!"]` |
| OneBotModels.AtMostOneKind | crates/aionbot-adapter-onebot/src/models.rs:10-25 | at most one of `is_message`, `is_notice`, `is_request`, `is_meta_event` holds, and exactly one iff `post_type` is one of the four kinds |
| OneBotModels.KindIgnoresTimeAndSelf | crates/aionbot-adapter-onebot/src/models.rs:4-25 | the classifiers read `post_type` only, not `time` or `self_id` |
| OneBotModels.IsMessage | crates/aionbot-adapter-onebot/src/models.rs:11-13 | a message is not a notice, a request or a meta event |
| OneBotModels.IsNotice | crates/aionbot-adapter-onebot/src/models.rs:15-17 | a notice is not a message, a request or a meta event |
| OneBotModels.IsRequest | crates/aionbot-adapter-onebot/src/models.rs:19-21 | a request is not a message, a notice or a meta event |
| OneBotModels.IsMetaEvent | crates/aionbot-adapter-onebot/src/models.rs:23-25 | a meta event is not a message, a notice or a request |

## Left out

- **The adapter and the runtime.** crates/aionbot-adapter-onebot/src/bot.rs, ws.rs and lib.rs, and crates/aionbot-core/src/runtime.rs are websocket I/O, broadcast channels, spawned tasks and unsafe sharing. They are not part of this model.
- **`RegexRouter` (router.rs:59-75).** It is a thin wrapper over the `regex` crate.
- **Other files.** The macros crate, its tests, the logger and the `main`/`lib` wiring of the `aionbot` crate are not part of this model.
- **Async, parallelism and serde.**
  - Callbacks are plain functions from a callback id and the event to `Ok` or `Err`, with no awaiting. Their side effects are represented by the returned trace.
  - The rayon `par_iter().any` of `AnyRouter` is a plain existential.
  - The serde derives of models.rs are not modelled, and neither are its other structs, which are plain data.
- **`std::collections::BinaryHeap`** is a set of entries with `pop` taking a top entry under `Ord`, not an array heap. Counters are unique, so a set loses nothing.
- **The matcher routers' `new` constructors** (matcher.rs:29-31, 55-57, 81-83, 107-109) and `AnyRouter::new` (logic.rs:26-30) store their argument. They are the constructors of the `Router` datatype.
- **`Queue.EventQueue.Push`: the counter is a `nat`.** After 2^64 pushes the source's `usize` counter overflows: a debug build panics and a release build wraps. Neither is modelled.
- **`Queue.EventQueue.Remove`: the reassignment `entry.item = item.clone()` is left out.** It writes to a copy that has already been removed from the map, so it has no effect.
- **`Queue.EventQueue.Pop`: the `Option` wrapper is dropped.** The index stores entries, not the `Option<EventEntry>` of the source, because the source only ever stores `Some`.
- **Event content.** An event is seen only through `content()`, the `DynEvent` of the model. The other methods of the `Event` trait are not part of this model.
- **Test inputs in command.rs.** The unit test there passes `String` values. The model assumes their content is seen as a `&str`, since a `String` content fails `downcast::<&str>` (`Routers.AsStr`).
- **`Cores.Core`: no constructor.** The source gives `Core` no constructor; the model reads its `handlers` field as given.
- **The `Event` struct of event.rs** is a datatype. `variables`, a JSON value, is represented by its text.
