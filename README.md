# A verified model of vue-mvvm-domo's core

vue-mvvm-domo is a small Vue-style framework written in TypeScript. This project models its
core in Dafny and proves properties of the model:

- **Reactivity.** The effect store of `watchEffect` (`track`, `trigger`, `cleanup`) holds dependency sets keyed by target and key (`effect.dfy`). The `computed` cell is a cache behind a dirty flag (`computed.dfy`). `watch` has an invalidation hook and a cycle-safe `traverse` (`watch.dfy`).
- **Component layer.** The batched job queue `queueJob` (`scheduler.dfy`). Prop change detection, the prop update of `patchComponent`, the current-instance lifecycle hooks, the render-context read and write rules, and the `emit` handler name (`component.dfy`). The component layer exists twice, in `src/components/component.ts` and in an older copy, `src/renderer/component.ts`. The rules modelled are the same line for line in both copies, so one member models each rule and its row cites the newer copy. In the older copy these rules sit at lines 180-199 (`queueJob`), 236-253 (`hasPropsChanged`), 204-231 (`patchComponent`), 265-272 (`onMounted`) and 96-126 (the render-context proxy).
- **Renderer.** The class serialiser `normalize`, the `resolveProps` partition and `shouldSetAsDomProps` (`props.dfy`). The block stack with `createVNode` and `createBlock` (`blocks.dfy`). The hyperscript helper `h` (`h.dfy`). The decisions of `patch`, `patchElement` and `patchChild` (`patch.dfy`). The keyed quick `diff` (`diff.dfy`). The increasing-subsequence routine `getSequence` (`sequence.dfy`).
- **Template compiler.** The `tokenize` state machine (`tokenize.dfy`). The template parser: `parseChildren`, `parseElement`, `parseTag`, `parseAttributes` and `parseText` (`parser.dfy`). The two ASTs and their constructors (`ast.dfy`). The transforms and `traverseNode` (`transform.dfy`). The code generator (`generate.dfy`).
- **Shared values.** `js.dfy` holds the JavaScript values and plain-object records the rest of the model works on.

The model follows the code as written, with its defects included. Code that changes state is modelled as classes and methods. Each such method is proved against a specification function of the old state. Pure code is modelled as functions and lemmas.

Some source loops can make no progress and then run forever:
- the tokenizer on a character its state does not accept;
- the attribute loop when the name pattern fails;
- the whole of `parseElement`.

These loops end in an explicit `Diverges` (or `Stuck`) outcome. Reading a property of `undefined` ends in `Throws`.

## Model

| member | source | states |
|---|---|---|
| Effects.Add | src/core/effect/watchEffect.ts:33 | `deps.add(activeEffect)`: the set afterwards holds exactly its old members and the effect, still without repetitions |
| Effects.Remove | src/core/effect/watchEffect.ts:54 | `deps.delete(effectFn)`: exactly the other members remain, without repetitions; deleting an absent member changes nothing |
| Effects.RemoveTwice | src/core/effect/watchEffect.ts:54 | deleting twice is the same as deleting once |
| Effects.TrackStore | src/core/effect/watchEffect.ts:21-39 | with no active effect `track` changes nothing; otherwise the target gets a key map, the dep set holds the active effect, the effect's `deps` list grows by that set, and the store invariant is kept |
| Effects.TrackAllEffect | src/core/effect/watchEffect.ts:21-39 | a run of `track` calls keeps the invariant and the active effect, registers the active effect in every set it touches, and appends exactly those sets, in order, to its `deps` list |
| Effects.TrackAllKeeps | src/core/effect/watchEffect.ts:33 | later `track` calls never take an effect out of a dep set |
| Effects.TrackAllDepsOther | src/core/effect/watchEffect.ts:35-38 | `track` only ever extends the `deps` list of the active effect |
| Effects.RemoveFromEffect | src/core/effect/watchEffect.ts:53-55 | the deletion loop takes the effect out of exactly the sets its list names and leaves every other set and the key maps alone |
| Effects.CleanupEffect | src/core/effect/watchEffect.ts:51-57 | `cleanup` removes the effect from every set in its `deps` list, empties that list, leaves every other effect's membership unchanged, and does nothing to an effect without a list |
| Effects.CleanupConsistent | src/core/effect/watchEffect.ts:51-57 | `cleanup` keeps the store invariant |
| Effects.CleanupEmptyIsNoOp | src/core/effect/watchEffect.ts:16 | an effect whose `deps` list is empty is left as it is by `cleanup`, so the first run of a fresh wrapper removes nothing |
| Effects.TriggerRunsOnce | src/core/effect/watchEffect.ts:46-47 | the snapshot `trigger` iterates has no repetitions, so each effect in the set runs once |
| Effects.Runtime.constructor | src/core/effect/watchEffect.ts:5-6 | the runtime starts with an empty bucket and no active effect |
| Effects.Runtime.Track | src/core/effect/watchEffect.ts:21-39 | the method's new state is `TrackStore` of the old one, with the invariant kept |
| Effects.Runtime.RunBody | src/core/effect/watchEffect.ts:13 | running a body performs its reads' `track` calls in order |
| Effects.Runtime.Trigger | src/core/effect/watchEffect.ts:41-49 | `trigger` returns false exactly when the target has no key map; otherwise it runs the snapshot of the dep set once each, in insertion order, and the state is what those runs' `track` calls make it |
| Effects.Runtime.Cleanup | src/core/effect/watchEffect.ts:51-57 | the method's new state is `CleanupStore` of the old one |
| Effects.Runtime.WatchEffect | src/core/effect/watchEffect.ts:9-19 | the wrapper gets an empty `deps` list and runs once: the user function becomes active, is registered in every set it reads, and those sets are appended to its own `deps` list (not the wrapper's) |
| Computed.ComputedRef.constructor | src/reactivity/computed.ts:5-20 | the lazy effect is not run at creation; the cell starts dirty with no cached value |
| Computed.ComputedRef.Value | src/reactivity/computed.ts:21-28 | a dirty read runs the effect once, caches and returns its result and clears the flag; a clean read returns the cached value without running it; every read tracks `value` |
| Computed.ComputedRef.Scheduler | src/reactivity/computed.ts:12-17 | the scheduler marks the cell dirty and triggers `value` only on a clean-to-dirty change; the cache is kept |
| Watch.Traverse | src/reactivity/watch.ts:66-74 | `traverse` visits each reachable object at most once, never one already visited, starts with the value itself when it is a fresh object, ignores primitives and null, and leaves every visited object's object fields visited too |
| Watch.GetterResult | src/reactivity/watch.ts:15-20 | a function source is the getter; for any other source the getter is `() => traverse(target)`, which yields undefined |
| Watch.Watcher.constructor | src/reactivity/watch.ts:54-58 | with `immediate` the callback runs once with an undefined old value; otherwise the getter runs once and its result becomes the old value |
| Watch.Watcher.Schedule | src/reactivity/watch.ts:29-38 | `schedule` calls the stored invalidate function (it is never cleared), runs the getter, calls the callback with the new and previous values, and the new value becomes the old one |
| Watch.Watcher.OnInvalidate | src/reactivity/watch.ts:25-27 | only the most recently registered invalidate function is kept |
| Watch.Watcher.SchedulerFired | src/reactivity/watch.ts:43-51 | with `flush: 'post'` the run is deferred and nothing else changes; otherwise `schedule` runs at once: the stored invalidate function, the getter and the callback with (new, old) are called, the new value becomes the old one, and a function registered during the callback replaces the stored one |
| Watch.Watcher.RunDeferred | src/reactivity/watch.ts:46-47 | a deferred `schedule` runs, making the same calls and state change as `Schedule`, and one fewer run is pending |
| Scheduler.JobQueue.constructor | src/components/component.ts:209-213 | the queue starts empty and not flushing |
| Scheduler.JobQueue.QueueJob | src/components/component.ts:218-237 | a job already queued leaves the queue unchanged, a new one is appended; a flush is scheduled only when none is pending, and the flag is set at once |
| Scheduler.JobQueue.Flush | src/components/component.ts:226-235 | the flush runs the queued jobs once each in insertion order, stopping after a job that throws; either way the flag is cleared and the queue emptied |
| Scheduler.EnqueuedDedups | src/components/component.ts:220 | a burst of enqueues queues every job it names exactly once, keeps what was queued first, in order, and nothing else |
| Scheduler.QueueAll | src/components/component.ts:218-237 | a burst of enqueues with no flush in between leaves the queue as `Enqueued` says and schedules at most one flush |
| Components.HasPropsChanged | src/components/component.ts:274-291 | the method returns true exactly when the key counts differ or some key of the second object maps to a different value |
| Components.PropsChangedIrreflexive | src/components/component.ts:274-291 | an object never differs from itself |
| Components.PropsUnchangedAgree | src/components/component.ts:274-291 | when no change is reported, the counts agree and every key of the second object reads the same in both |
| Components.RenamedUndefinedKeyUnnoticed | src/components/component.ts:283-289 | only the second object's keys are read: renaming a key whose new value is undefined is not reported as a change |
| Components.Instance.constructor | src/components/component.ts:54-68 | a fresh instance holds the given props and empty hook lists |
| Components.Instance.AssignAll | src/components/component.ts:252-254 | after the first loop every key of `newProps` holds its new value, and every other key keeps its old value |
| Components.Instance.DeleteAbsent | src/components/component.ts:256-260 | after the second loop exactly the keys that `newProps` also has remain, with their values unchanged |
| Components.ComponentVNode.constructor | src/components/component.ts:242-244 | a component vnode starts without an instance |
| Components.PatchComponent | src/components/component.ts:242-269 | the new vnode takes the old one's instance; with none, an error is logged; when the two vnodes compare as changed, the instance props end up with exactly the keys and values of the resolved new props (or `resolveProps` throws); otherwise the props are untouched |
| Components.Lifecycle.constructor | src/components/component.ts:296-298 | no instance is current at first |
| Components.Lifecycle.SetCurrentInstance | src/components/component.ts:296-298 | the given instance (or none) becomes current |
| Components.Lifecycle.OnMounted | src/components/component.ts:417-424 | the hook is appended to the current instance's mounted list; with no current instance nothing changes |
| Components.Lifecycle.OnUnmounted | src/components/component.ts:429-435 | the hook is appended to the current instance's unmounted list; with no current instance nothing changes |
| Components.RegisterDuringSetup | src/components/component.ts:92-113 | hooks registered while the instance is current end up on it in order; hooks registered after `setCurrentInstance(null)` are dropped |
| Components.ContextGet | src/components/component.ts:120-134 | `$slots` yields the slots; otherwise the data state is read before the props; a key in neither is a miss |
| Components.ContextSet | src/components/component.ts:135-151 | a write succeeds exactly when the key is in the data state, or else (not in the props) in the setup state; a props key is refused and nothing changes |
| Components.ContextSetThenGet | src/components/component.ts:120-151 | a data-state key written through the context reads back as the written value |
| Components.ContextPropsReadOnly | src/components/component.ts:140-142 | writing a key only the props hold fails and changes nothing |
| Components.ContextStateShadowsProps | src/components/component.ts:127-139 | the data state shadows the props for both reads and writes |
| Components.ContextSetupStateWriteOnly | src/components/component.ts:143-146 | a write that lands in the setup state succeeds, yet the same key still cannot be read through the context |
| Components.Capitalise | src/components/component.ts:76 | `toUpperCase` on the event's first character: a lower-case ASCII letter becomes its capital, any other character is kept |
| Components.HandlerName | src/components/component.ts:76 | the handler name is "on" followed by the event with its first character capitalised; the empty event has none |
| Components.HandlerNameSame | src/components/component.ts:76 | two events reach the same handler exactly when they differ only in the case of their first character |
| Components.Emit | src/components/component.ts:75-84 | `emit` calls the truthy handler found under the name, logs its absence otherwise, and throws on the empty event |
| Components.EmitReachesHandler | src/components/component.ts:75-80 | a handler passed as `onFoo` is reached by `emit("foo")` |
| Props.ShouldSetAsDomPropsRule | src/renderer/props.ts:9-12 | `shouldSetAsDomProps` (`Props.ShouldSetAsDomProps`): `form` on an INPUT is never set as a DOM property; otherwise a key is set as one exactly when the element has it |
| Props.Join | src/renderer/props.ts:109 | `join(" ")` of no words is empty and of one word is that word |
| Props.SplitJoin | src/renderer/props.ts:109 | the class string of a list of class tokens splits back into the same tokens, so no class name is lost or merged |
| Props.TrueKeysMembers | src/renderer/props.ts:97-110 | `normalizeObject` lists a key exactly when its value is the boolean `true` |
| Props.TrueKeysNoDup | src/renderer/props.ts:97-110 | each key is listed at most once |
| Props.NormalizeObject | src/renderer/props.ts:97-110 | the loop over the keys returns the keys set to `true`, in key order, joined with spaces |
| Props.IndexRecord | src/renderer/props.ts:119-121 | an array given to `normalizeObject` is read as an object keyed by its decimal indices |
| Props.ItemPart | src/renderer/props.ts:116-126 | an array item contributes itself when a string, its normalisation when an object and not empty, nothing when of another type, and throws when null |
| Props.ArrayPartsProperties | src/renderer/props.ts:115-130 | an array of class values throws exactly when it holds a null, and otherwise contributes no empty object normalisation |
| Props.ArrayPartsAppend | src/renderer/props.ts:116 | the parts of a concatenation of arrays are the concatenated parts |
| Props.NormalizeArray | src/renderer/props.ts:115-130 | the loop returns the parts of the items joined with spaces, or throws on a null item |
| Props.Normalize | src/renderer/props.ts:81-92 | a string is returned unchanged, an object and an array go to their normalisers, null throws, any other type gives undefined |
| Props.Partition | src/renderer/props.ts:143-152 | each half keeps at most the entries of the data |
| Props.PartitionExact | src/renderer/props.ts:138-156 | every entry of the data lands, with its value, in exactly one of props (declared or `on…` keys) and attrs; the sizes add up; both halves are well-formed objects |
| Props.PartitionFresh | src/renderer/props.ts:143-152 | the key being assigned is not yet in either half, so every assignment appends |
| Props.ResolveProps | src/renderer/props.ts:138-156 | the loop returns the two halves of `Partition`; with no declared options and non-empty data the `in` test throws |
| Hyperscript.IsVNodeCases | src/renderer/h.ts:32-40 | `isVNode` holds only for an object, and for an object exactly when it has all of `type`, `props`, `children` and `el`; primitives, null and arrays never are vnodes |
| Hyperscript.H | src/renderer/h.ts:10-27 | as written the two-argument branch is always taken: a vnode second argument becomes the only child, a plain object or null the props, anything else the children |
| Hyperscript.ThirdArgumentIgnored | src/renderer/h.ts:11 | neither the argument count nor the third argument changes the result |
| Hyperscript.HIntended | src/renderer/h.ts:10-27 | with the count compared, two arguments behave as before; otherwise the second argument is the props and the third the children, wrapped when it is a vnode |
| Hyperscript.TextChildDropped | src/renderer/h.ts:11-17 | `h('div', {id: 'app'}, 'hello')` loses its text child as written and keeps it with the comparison |
| Blocks.FlagValue | src/renderer/vnode/dynamic.ts:6-10 | `PatchFlags`: TEXT, CLASS and STYLE are 1, 2 and 3 |
| Blocks.FlagValuesDistinct | src/renderer/vnode/dynamic.ts:6-10 | the three flags are told apart by their values |
| Blocks.PropsObject.constructor | src/renderer/vnode/vnode.ts:6 | a props object holds the given entries |
| Blocks.Collection.constructor | src/renderer/vnode/dynamic.ts:21 | a dynamic-children array starts empty |
| Blocks.VNode.constructor | src/renderer/vnode/vnode.ts:13-19 | a vnode holds the given tag, props, children, key and flag, and no dynamic children |
| Blocks.BlockTracker.constructor | src/renderer/vnode/dynamic.ts:13-15 | the stack starts empty and no array is current |
| Blocks.BlockTracker.OpenBlock | src/renderer/vnode/dynamic.ts:20-22 | a fresh empty array becomes current and is pushed on the stack |
| Blocks.BlockTracker.CloseBlock | src/renderer/vnode/dynamic.ts:27-29 | as written, the popped array, the one just closed, becomes current; an empty stack leaves none current |
| Blocks.BlockTracker.CloseBlockToParent | src/renderer/vnode/dynamic.ts:27-29 | closing pops the stack and makes the parent block's array current |
| Blocks.BlockTracker.CreateVNode | src/renderer/vnode/vnode.ts:4-27 | the key is taken from the props (null props give null) and deleted from them; a vnode with a patch flag is appended to the current array, one without is not; the stack is unchanged |
| Blocks.BlockTracker.CreateBlock | src/renderer/vnode/vnode.ts:32-43 | the block is an unflagged vnode whose dynamic children are the array current before the call, which it does not join; then the block is closed |
| Blocks.ClosedBlockCollects | src/renderer/vnode/dynamic.ts:27-29 | as written, after an inner block closes, a flagged vnode is still collected into the inner block's array and not the outer one's |
| Blocks.ParentBlockCollects | src/renderer/vnode/dynamic.ts:27-29 | with the parent restored on close, that vnode lands in the outer block's array |
| Sequence.GetSequence | src/renderer/patch.ts:341-392 | `getSequence([])` returns `[0]`; otherwise the result is a non-empty, strictly increasing run of positions whose values strictly increase and are never 0 except at position 0, which the run starts from (a -1 placeholder can be part of it) |
| Sequence.Place | src/renderer/patch.ts:348-381 | one pass of the main loop keeps the tails ordered by value, each starting a valid backward run as long as its position, and grows the tails by at most one |
| Sequence.SearchTail | src/renderer/patch.ts:362-371 | the binary search returns the first tail whose value is not below the current entry |
| Sequence.ReadBack | src/renderer/patch.ts:384-389 | walking the predecessor links back from the last tail yields an increasing run as long as the tails |
| Sequence.ChainFrame | src/renderer/patch.ts:356 | overwriting the predecessor of a later position never breaks a run through earlier positions |
| Patch.PlanPatch | src/renderer/patch.ts:41-108 | an old node is unmounted exactly when its type differs from the new one; fresh DOM is created only for a missing or replaced old node, never over an old node of the same type |
| Patch.TypeMismatchMountsFresh | src/renderer/patch.ts:43-47 | an old node of another type is unmounted, and the new node is then handled exactly as a first mount |
| Patch.SameTypePatches | src/renderer/patch.ts:50-72 | an old node of the same type is kept: an element is patched by `patchElement`, a component by `patchComponent` |
| Patch.FragmentTakenAsElement | src/renderer/patch.ts:50-95 | a node typed "Fragment" passes the string test first, so it is mounted and patched as a `<Fragment>` element |
| Patch.PatchElementProps | src/renderer/patch.ts:147-162 | `patchProps` is called exactly for the keys whose value changed, was added or was removed, once per key, with the old value and the new value (null for a removed key); null props on one side throw unless the other side is empty |
| Patch.ChangedProps | src/renderer/patch.ts:152-156 | the first loop calls `patchProps` exactly for the new keys whose value is not `===` the old one, once each, with both values |
| Patch.RemovedProps | src/renderer/patch.ts:158-162 | the second loop calls `patchProps` exactly for the old keys the new props lack, once each, with null |
| Patch.OldKeys | src/renderer/patch.ts:195-205 | the keys `diff` reads off old children: text children are a string whose characters have no `key`; missing children have none |
| Patch.PatchChild | src/renderer/patch.ts:168-192 | new text: every old array child is unmounted, then the text is set; new array: the keyed diff runs once (and throws on missing old children); no new children: old array children are unmounted, or old text is cleared |
| Patch.UnmountAll | src/renderer/patch.ts:174-186 | every old child is unmounted, once, in order |
| Diff.PrefixStopMeaning | src/renderer/patch.ts:205-212 | the scan from the front passes exactly the common prefix of the two key lists |
| Diff.SuffixStopMeaning | src/renderer/patch.ts:222-228 | the scan from the ends passes exactly the common suffix, and stops at a pair of differing keys |
| Diff.ScanPrefix | src/renderer/patch.ts:199-212 | the loop patches each leading pair of equal keys in place, and stops where the keys differ or a list ends |
| Diff.ScanSuffix | src/renderer/patch.ts:215-228 | the loop patches each trailing pair of equal keys, from the ends inwards, and stops where the keys differ |
| Diff.ScanThrowsIff | src/renderer/patch.ts:205-222 | as written, the scans throw exactly when one key list is a prefix or a suffix of the other (equal and empty lists included) |
| Diff.PrefixAll | src/renderer/patch.ts:205-212 | the scan from the front reaches the end of a list exactly when one list is a prefix of the other |
| Diff.SuffixAll | src/renderer/patch.ts:222-228 | the scan from the ends runs below the start exactly when one list is a suffix of the other |
| Diff.BoundedNeverThrows | src/renderer/patch.ts:205-248 | with the scans bounded by the ends of the lists and by each other, neither the scans nor the count can throw |
| Diff.DuplicateKeysThrow | src/renderer/patch.ts:247-248 | with duplicate keys the unbounded scans overlap and the general case asks for an array of negative length |
| Diff.MountRange | src/renderer/patch.ts:236-238 | the new children s..ne are mounted in order before one anchor, and nothing else is done |
| Diff.UnmountRange | src/renderer/patch.ts:242-244 | the old children s..oe are unmounted in order, and nothing else is done |
| Diff.LastWithKey | src/renderer/patch.ts:257-260 | the key index entry for a property name is the last new position with that key string, or none |
| Diff.BuildKeyIndex | src/renderer/patch.ts:256-260 | the loop maps the string form of each new key to the last new position holding it, and nothing else |
| Diff.KeyIndexIndexes | src/renderer/patch.ts:256-260 | the key index holds exactly the key strings of s..ne, each at its last position |
| Diff.MatchPass | src/renderer/patch.ts:265-295 | the pass over the old children takes one step per old position |
| Diff.MatchPassLogged | src/renderer/patch.ts:265-295 | the pass patches or unmounts every old position it visits, touches nothing outside them and the new positions s..ne, and pairs only matched keys |
| Diff.InvertedSnoc | src/renderer/patch.ts:280-284 | `moved` becomes true exactly when a patch lands before the last index, which is kept as the largest new position so far |
| Diff.MatchOne | src/renderer/patch.ts:266-293 | one turn of the pass extends the steps by the step the old child calls for, and keeps `source`, `lastIndex` and `moved` in line with them |
| Diff.MatchOld | src/renderer/patch.ts:247-295 | `source` starts all -1; after the pass it records, for each new position, the old position patched into it; `moved` says whether some patch landed before an earlier one |
| Diff.MatchRange | src/renderer/patch.ts:265-295 | the loop over old positions keeps the pass state from its start to oe |
| Diff.Unset | src/renderer/patch.ts:248-249 | `new Array(count).fill(-1)`: count entries, all -1 |
| Diff.AnchorAfter | src/renderer/patch.ts:313-317 | the anchor of a position is the next new child, or the end of the parent after the last one |
| Diff.Reorder | src/renderer/patch.ts:298-331 | the final loop mounts exactly the new positions with no old counterpart and moves exactly those off the increasing run, each before its successor |
| Diff.MountUnmatched | src/renderer/patch.ts:318-321 | the mount step of the final loop on its own: every unmatched new position is mounted before its successor |
| Diff.FinishGeneral | src/renderer/patch.ts:297-331 | after the pass, the final loop runs only when something moved |
| Diff.GeneralCase | src/renderer/patch.ts:245-333 | the general case patches or unmounts every old position in range, pairs only matched keys, never both patches and mounts a new child, and mounts something only when the pass found a node out of order |
| Diff.Middle | src/renderer/patch.ts:231-333 | with bounded scans, everything between them accounts for every old and every new child in range and anchors every insertion soundly |
| Diff.JoinScans | src/renderer/patch.ts:194-334 | the log of a diff is the two scans' logs followed by the middle's, and what each says carries over to the whole |
| Diff.Diff | src/renderer/patch.ts:194-334 | the corrected diff never throws, patches the common prefix in place, patches or unmounts every old child, patches or mounts every new child, never both mounts and patches a new child, and anchors every insertion before the node that follows it |
| Diff.MiddleAsWritten | src/renderer/patch.ts:231-333 | as written, a negative count throws before any step, the mounted range always goes to the end of the parent, and new children are otherwise mounted only by the final loop |
| Diff.DiffAsWritten | src/renderer/patch.ts:194-334 | as written the diff throws exactly when a scan runs off a list or the count is negative; it pairs only matched keys; when it completes every old child is patched or unmounted, but an unmatched new child is mounted only in the range case or when some node moves |
| Diff.UnchangedListThrows | src/renderer/patch.ts:205-211 | re-rendering `[a]` as `[a]` throws |
| Diff.UnchangedListPatched | src/renderer/patch.ts:205-211 | the corrected diff patches the unchanged child in place |
| Diff.ReplacedChildSkipped | src/renderer/patch.ts:298-321 | `[a, b, c]` to `[a, x, c]` completes without patching or mounting the new child `x` |
| Diff.ReplacedChildMounted | src/renderer/patch.ts:298-321 | the corrected diff mounts `x` |
| Diff.InsertedChildAppended | src/renderer/patch.ts:233-234 | `[a, c]` to `[a, b, c]` mounts `b` at the end of the parent, after `c` |
| Diff.InsertedChildAnchored | src/renderer/patch.ts:233-234 | the corrected diff mounts `b` before `c` |
| Diff.MatchPassKeyed | src/renderer/patch.ts:265-295 | every patch the pass logs pairs an old and a new child with the same key |
| Diff.MatchPassCovers | src/renderer/patch.ts:265-295 | every old position the pass has visited is patched or unmounted |
| Diff.MatchPassBounds | src/renderer/patch.ts:265-295 | the pass touches only the old positions it has visited and new positions inside s..ne |
| Diff.MatchPassKinds | src/renderer/patch.ts:265-295 | every step of the pass is a patch or an unmount: nothing is mounted or moved there |
| Props.PartitionMembers | src/renderer/props.ts:143-152 | an entry is in a half exactly when it is in the data and its key is (or is not) a prop |
| Props.PartitionSize | src/renderer/props.ts:143-152 | the two halves together hold as many entries as the data |
| Props.PartitionWellFormed | src/renderer/props.ts:143-152 | each half of data without repeated keys has no repeated keys |
| Tokenizer.IsAlphaLetters | src/compiler/parse/parse.ts:44-46 | `isAlpha` (`Tokenizer.IsAlpha`) holds exactly for the 52 ASCII letters |
| Tokenizer.Step | src/compiler/parse/parse.ts:65-187 | a pass of the state machine emits at most one token, and it empties the buffer whenever it emits one |
| Tokenizer.Pass | src/compiler/parse/parse.ts:65-187 | the `switch` consumes the character exactly when the current state accepts it, and then moves as `Step` says; otherwise every variable keeps its value |
| Tokenizer.Tokenize | src/compiler/parse/parse.ts:51-191 | `tokenize` never ends exactly when the run reaches a character the current state does not accept; otherwise it returns the tokens of the run |
| Tokenizer.RunStep | src/compiler/parse/parse.ts:61-187 | one turn of the loop: a rejected character leaves the run stuck, an accepted one puts the pass's token in front of the rest of the run |
| Tokenizer.PrintAppend | src/compiler/parse/parse.ts:51-191 | printing tokens distributes over concatenation |
| Tokenizer.StepLossless | src/compiler/parse/parse.ts:65-187 | a pass loses nothing: the buffered text plus the character is the emitted token's text plus the new buffered text, and the buffer stays letters |
| Tokenizer.FinalFragment | src/compiler/parse/parse.ts:131-189 | what is left in the buffer at the end is nothing, letters, or an unfinished tag |
| Tokenizer.RunLossless | src/compiler/parse/parse.ts:51-191 | the input is exactly the printed tokens followed by the text left in the buffer; every token is a non-empty run of letters |
| Tokenizer.RoundTrip | src/compiler/parse/parse.ts:51-191 | a well-formed token sequence, printed, tokenizes back to itself with nothing left over |
| Tokenizer.TagOpen | src/compiler/parse/parse.ts:87-128 | `<name>` is read as one tag token, followed by the tokens of what comes after |
| Tokenizer.TagRoundTrip | src/compiler/parse/parse.ts:87-128 | `<name>` followed by input that tokenizes in full gives the tag token, then that input's tokens |
| Tokenizer.TextAtEnd | src/compiler/parse/parse.ts:131-136 | letters at the end of the input stay in the buffer and are never emitted |
| Tokenizer.TagEndOpen | src/compiler/parse/parse.ts:87-104 | `</` moves the machine to the end-tag state without emitting anything |
| Tokenizer.TagEndRoundTrip | src/compiler/parse/parse.ts:153-184 | `</name>` followed by input that tokenizes in full gives an end-tag token, then that input's tokens |
| Tokenizer.TextRoundTrip | src/compiler/parse/parse.ts:131-150 | letters followed by a tag give one text token, then the tag's tokens |
| Tokenizer.ParagraphTokens | src/compiler/parse/parse.ts:51-191 | `tokenize("<p>Vue</p>")` yields tag p, text "Vue" and end tag p |
| Tokenizer.TrailingTextDropped | src/compiler/parse/parse.ts:131-189 | `tokenize("<p>Vue")` yields only the tag: the trailing text is dropped |
| Tokenizer.SpaceNeverConsumed | src/compiler/parse/parse.ts:61-187 | a space is accepted by no state, so `tokenize("<p> </p>")` never ends |
| Parser.Span | src/compiler/parse/parseUtils.ts:147 | the longest prefix with no stopping character: nothing before it stops, and it ends at the input's end or at a stopping character |
| Parser.Drop | src/compiler/parse/parse.ts:205-208 | `slice(n)` is the suffix after n characters, or empty past the end |
| Parser.SkipSpaces | src/compiler/parse/parse.ts:211-218 | `advanceSpaces` removes exactly the leading whitespace: the result is a suffix that starts with no whitespace and everything removed was whitespace |
| Parser.IndexOf | src/compiler/parse/parseUtils.ts:174 | `indexOf` is -1 exactly when the character is absent, otherwise the position of its first occurrence |
| Parser.IndexOfOpen | src/compiler/parse/parseUtils.ts:70 | `indexOf('{{')` is -1 or a position where "{{" starts, with no "{{" before it |
| Parser.ParseText | src/compiler/parse/parseUtils.ts:64-90 | the text is a prefix with no '<' and no "{{" in it, ending at the input's end, at a '<' or at a "{{" |
| Parser.MatchTag | src/compiler/parse/parseUtils.ts:99-107 | a matched tag name starts with a letter, holds no whitespace, '/' or '>', and follows `<` (or `</`) at the start of the source |
| Parser.TagNameHasNoSpace | src/compiler/parse/parseUtils.ts:99-107 | a tag name the pattern captures never holds a space |
| Parser.AttrNameLength | src/compiler/parse/parseUtils.ts:147 | the name pattern matches exactly when the source starts with whitespace, '/' or '>', and the rest of the name holds no name-ending character |
| Parser.ReadValue | src/compiler/parse/parseUtils.ts:162-195 | reading a value leaves a suffix of the source |
| Parser.AttributeStep | src/compiler/parse/parseUtils.ts:145-210 | a pass of the attribute loop fails exactly when the name pattern fails; otherwise it consumes input and pushes an attribute whose name is the matched text |
| Parser.AttributeStepIs | src/compiler/parse/parseUtils.ts:145-210 | a pass skips the name, spaces, the '=' and spaces, reads the value, then skips spaces |
| Parser.ScanAttributes | src/compiler/parse/parseUtils.ts:138-215 | a loop that ends stops at '>' or "/>" |
| Parser.ScanStep | src/compiler/parse/parseUtils.ts:141-210 | one pass of the loop puts its attribute in front of what the rest of the loop collects |
| Parser.AttributeNames | src/compiler/parse/parseUtils.ts:145-150 | every collected name starts with the separator the pattern begins with and holds no name-ending character after it |
| Parser.AngleNeverConsumed | src/compiler/parse/parseUtils.ts:107-150 | a source starting with '<', as `parseTag` leaves it, makes the attribute loop spin |
| Parser.StepAfterName | src/compiler/parse/parseUtils.ts:152-195 | after a name and an '=' with no whitespace around it, the value is read from what follows |
| Parser.ReadQuoted | src/compiler/parse/parseUtils.ts:166-184 | a quoted value is read up to the matching quote, and both quotes are consumed |
| Parser.ReadUnquoted | src/compiler/parse/parseUtils.ts:187-195 | an unquoted value is the maximal run without whitespace and '>' |
| Parser.QuotedValue | src/compiler/parse/parseUtils.ts:145-195 | `name="value"` is pushed as that attribute, with the rest left |
| Parser.UnquotedValue | src/compiler/parse/parseUtils.ts:145-195 | `name=value` is pushed as that attribute, with the rest left |
| Parser.TagScanAsWritten | src/compiler/parse/parseUtils.ts:106-113 | after any matched tag the attribute scan starts on the '<' itself, since `advanceBy(match[0])` slices at 0, and it never makes progress |
| Parser.TagScanIntended | src/compiler/parse/parseUtils.ts:106-113 | with the matched length passed to `advanceBy`, the scan starts after the tag name, and when it finishes it stops at '>' or "/>" |
| Parser.IntendedTagScanReachesEnd | src/compiler/parse/parseUtils.ts:106-113 | with the length passed, a tag name followed by '>' reaches the end of the tag at once, with no attributes |
| Parser.ParagraphTagScan | src/compiler/parse/parseUtils.ts:99-113 | on `<p>Vue</p>` the tag name is `p`; as written the scan spins, and with the length it stops at `>Vue</p>` |
| Parser.RawTextHasSpace | src/compiler/parse/parseUtils.ts:16 | every alternative of the raw-text pattern holds a space, so only a tag holding a space can match it |
| Parser.ModeForTag | src/compiler/parse/parseUtils.ts:13-22 | RCDATA is chosen exactly for `textarea` and `title`; RAWTEXT only for a tag holding a space |
| Parser.RawTextNeverSelected | src/compiler/parse/parseUtils.ts:13-22 | no tag name `parseTag` can capture selects RAWTEXT: `style` and the others get DATA |
| Parser.Repeat | src/compiler/parse/parse.ts:244-291 | n copies of the node |
| Parser.IsEndCases | src/compiler/parse/parse.ts:299-308 | `isEnd` stops on an empty source and on the closing tag of the innermost open element; at the top level, on text and on a start tag it never stops |
| Parser.ChildrenSpec | src/compiler/parse/parse.ts:236-297 | `parseChildren`, when it returns, returns at most 21 nodes, every one the text node of the source it started from |
| Parser.ParseContext.constructor | src/compiler/parse/parse.ts:196-203 | the context starts with the template, DATA mode and no ancestors |
| Parser.ParseContext.AdvanceBy | src/compiler/parse/parse.ts:205-208 | the source loses its first `num` characters; nothing else changes |
| Parser.ParseContext.AdvanceSpaces | src/compiler/parse/parse.ts:211-218 | the source loses its leading whitespace; nothing else changes |
| Parser.ParseContext.ParseAttributeValue | src/compiler/parse/parseUtils.ts:162-195 | the value read and the source left are those `ReadValue` gives |
| Parser.ParseContext.ParseQuotedValue | src/compiler/parse/parseUtils.ts:166-184 | a quoted value and the source left are those `ReadValue` gives, an unclosed quote taking the rest |
| Parser.ParseContext.ParseAttributes | src/compiler/parse/parseUtils.ts:138-215 | the loop never ends exactly when the scan makes no progress; otherwise it returns the scanned attributes and leaves the source at '>' or "/>" |
| Parser.ParseContext.ParseTag | src/compiler/parse/parseUtils.ts:95-133 | with no match `parseTag` returns nothing and leaves the source; with a match the source is not advanced and the attribute loop spins |
| Parser.ParseContext.ParseElement | src/compiler/parse/parseUtils.ts:8-38 | `parseElement` spins when a start tag matches and throws otherwise, leaving the source |
| Parser.ParseContext.ElementBody | src/compiler/parse/parseUtils.ts:10-37 | a self-closing element is returned at once; otherwise the mode is set for the tag and the children are parsed with the element on the ancestors; a throw or spin of the children is passed on; after them the element is returned, except that when the source starts with its closing tag and the end-tag pattern matches, the end-tag `parseTag` spins; a missing closing tag is only logged |
| Parser.ParseContext.ParseChildren | src/compiler/parse/parse.ts:236-297 | the loop returns what `ChildrenSpec` says, leaving the source and ancestors as they were |
| Parser.Parse | src/compiler/parse/parse.ts:196-229 | `parse` gives a Root over the children `ChildrenSpec` says, or throws or spins when they do |
| Parser.StartTagNeverParsed | src/compiler/parse/parse.ts:236-297 | any template starting with `<` and a letter makes the parser spin |
| Parser.ParagraphNeverParsed | src/compiler/parse/parse.ts:196-229 | `parse("<p>Vue</p>")` never returns |
| Parser.TextRepeated | src/compiler/parse/parse.ts:239-291 | `parse("Vue")` gives 21 copies of the text node "Vue" |
| Parser.LoneAngleThrows | src/compiler/parse/parse.ts:258-261 | `parse("<")` throws: the missing second character passes the letter test as "undefined" |
| Parser.SlashSkipped | src/compiler/parse/parse.ts:265-268 | a template whose second character is '/' gives no nodes |
| Ast.ChildrenOf | src/compiler/utils.ts:48-56 | a traversal visits no children of a Text node and every child of the others |
| Ast.CreateStringLiteral | src/compiler/parse/ast.ts:7-12 | a string literal holding the value |
| Ast.CreateIdentifier | src/compiler/parse/ast.ts:17-22 | an identifier holding the name |
| Ast.CreateArrayExpression | src/compiler/parse/ast.ts:27-32 | an array expression with the elements in the given order |
| Ast.CreateCallExpression | src/compiler/parse/ast.ts:37-43 | a call whose callee is the identifier of the name and whose arguments are those given |
| Ast.CallExpressionInjective | src/compiler/parse/ast.ts:37-43 | two calls build the same node exactly when they get the same callee and arguments |
| Transform.TransformTextNode | src/compiler/transform/transform.ts:84-92 | a Text node gets a string literal of its content; any other node is left as it is |
| Transform.TransformTextIdempotent | src/compiler/transform/transform.ts:84-92 | running `transformText` again changes nothing, so the second call per node is harmless |
| Transform.CallTransform | src/compiler/transform/transform.ts:50-98 | `transformRoot` and `transformElement` leave the node and return their callback; `transformText` sets the literal and returns nothing |
| Transform.JsNodes | src/compiler/transform/transform.ts:70 | the `jsNode` of each child, in order |
| Transform.ChildArguments | src/compiler/transform/transform.ts:64-72 | no argument when the first child has no JS node; the child's JS node when it is the only one; otherwise an array of all children's JS nodes |
| Transform.ElementCallAsWritten | src/compiler/transform/transform.ts:52-77 | an Element gets `h('tag', ...)` with the child arguments, and the callback throws exactly when the Element has no children; other nodes are left |
| Transform.ElementCall | src/compiler/transform/transform.ts:52-77 | the same callback never throws: a childless Element gets `h('tag')`, and on every other node it agrees with the code as written |
| Transform.ChildlessElementThrows | src/compiler/transform/transform.ts:64 | on `<br/>` the callback as written throws; with the guard it yields `h(br)` |
| Transform.ChildlessElementTraversalThrows | src/compiler/transform/transform.ts:64 | transforming a Root holding `<br/>` throws, because the traversal runs the element callback as written |
| Transform.RenderDecl | src/compiler/transform/transform.ts:107-118 | `function render() { return ret }` with no parameters |
| Transform.RootCall | src/compiler/transform/transform.ts:98-125 | a Root gets `render` returning its first child's JS node, and the callback throws exactly when the Root has no children; other nodes are left |
| Transform.Callbacks | src/compiler/transform/transform.ts:10-14 | at most one callback per transform |
| Transform.EnterKeeps | src/compiler/utils.ts:37-46 | the transforms register the callbacks of the list in order, leave every node but a Text one unchanged, and give a Text node its literal exactly when `transformText` is in the list |
| Transform.EnterTextAgain | src/compiler/utils.ts:37-46 | once a Text node has its literal, the transforms leave it alone |
| Transform.Drain | src/compiler/utils.ts:58-62 | running the callbacks, last registered first, ends with a node or a throw; the element callback is the one as written, so it throws on an Element without children |
| Transform.Traverse | src/compiler/utils.ts:27-63 | a traversal ends with a node or a throw; a callback that throws, such as the element callback on a childless Element, ends it |
| Transform.TraverseChildren | src/compiler/utils.ts:48-56 | traversing the children gives one node per child |
| Transform.SpliceOne | src/compiler/transform/transform.ts:34 | `splice(start, 1)` removes the one child at the start position (counted from the end when negative) and keeps the others in order |
| Transform.TransformContext.constructor | src/compiler/transform/transform.ts:9-18 | the context holds the three transforms in order, no current node, child index 0 and no parent |
| Transform.TransformContext.ReplaceNode | src/compiler/transform/transform.ts:20-29 | the node takes the current child's place in the parent and becomes current; with no children array nothing changes |
| Transform.TransformContext.RemoveNode | src/compiler/transform/transform.ts:31-40 | the current child is spliced out and there is no current node; with no children array nothing changes |
| Transform.TransformContext.RunTransforms | src/compiler/utils.ts:37-46 | the `forEach` gives the node and callbacks `Enter` says and keeps the node current |
| Transform.TransformContext.TraverseNode | src/compiler/utils.ts:27-63 | `traverseNode` returns what `Traverse` says, and leaves the context's frame as the last node visited set it |
| Transform.RunExits | src/compiler/utils.ts:58-62 | the `while (i--)` loop runs the callbacks from the last to the first and stops at the first throw, as `Drain` says |
| Transform.EnterStep | src/compiler/utils.ts:37-46 | one transform's call on a node, then the rest of the list on the result |
| Transform.FinalFrameChildren | src/compiler/utils.ts:48-56 | the frame after a node is the frame after its last child, or the node's own when it has none |
| Transform.TransformAst | src/compiler/transform/transform.ts:8-45 | `transform` gives what `Traverse` gives with the three transforms, throwing wherever the callbacks as written throw |
| Transform.DrainStandard | src/compiler/utils.ts:58-62 | with the standard transforms the element callback as written runs first, then the root callback on its result; a throw of the first skips the second |
| Transform.TraverseStandard | src/compiler/utils.ts:27-63 | a traversal with the standard transforms: the children are traversed, the node gets its literal if it is Text, then the element callback as written and the root callback run; any throw ends it |
| Transform.TraverseGivesJsNode | src/compiler/utils.ts:27-63 | every tree with no childless Element and no inner Root is transformed to a node with a JS node, Text nodes to their literal, keeping the number of children |
| Transform.ChildrenGiveJsNodes | src/compiler/utils.ts:48-56 | such children are each traversed to a node with a JS node |
| Transform.RenderExample | src/compiler/transform/transform.ts:8-126 | a Root holding `<div>hello</div>` becomes `render` returning `h('div', 'hello')` |
| Generate.Spaces | src/compiler/generate/generate.ts:22 | `'  '.repeat(k)` is 2k spaces |
| Generate.NewlineCode | src/compiler/generate/generate.ts:21-23 | `newline` throws exactly at a negative level; otherwise it appends a line break and two spaces per level |
| Generate.Then | src/compiler/generate/generate.ts:45-69 | two pieces in a row succeed exactly when both do, and give their concatenation |
| Generate.DeclCode | src/compiler/generate/generate.ts:74-89 | a function declaration is its first line followed by its body and closing brace |
| Generate.DeclAppend | src/compiler/generate/generate.ts:74-89 | appending the two halves appends the whole declaration |
| Generate.GenContext.constructor | src/compiler/generate/generate.ts:12-35 | the context starts with no code at level 0 |
| Generate.GenContext.Push | src/compiler/generate/generate.ts:15-17 | the code is extended by the text; the level stays |
| Generate.GenContext.Newline | src/compiler/generate/generate.ts:21-23 | the code is extended by `NewlineCode` of the level, failing exactly when it throws |
| Generate.GenContext.Indent | src/compiler/generate/generate.ts:25-28 | the level goes up by one, then a newline at the new level |
| Generate.GenContext.DeIndent | src/compiler/generate/generate.ts:30-33 | the level goes down by one, then a newline at the new level |
| Generate.GenContext.GenNode | src/compiler/generate/generate.ts:45-69 | `genNode` fails exactly when `Code` throws (a missing node, a missing callee or id, a negative level), and otherwise appends `Code` of the node and keeps the level |
| Generate.GenContext.GenFunctionDecl | src/compiler/generate/generate.ts:74-89 | the declaration is appended as `Code` says, failing exactly when it throws |
| Generate.GenContext.GenDeclHead | src/compiler/generate/generate.ts:75-81 | `function name(params) {` is appended as `DeclHead` says; a missing id fails before anything is appended |
| Generate.GenContext.GenDeclBlock | src/compiler/generate/generate.ts:82-88 | the body one level deeper and the closing brace are appended as `DeclBlock` says |
| Generate.GenContext.GenBody | src/compiler/generate/generate.ts:84 | the statements are appended one after the other, as `Body` says |
| Generate.GenContext.GenNodeList | src/compiler/generate/generate.ts:94-105 | the nodes are appended with ", " between them, as `List` says |
| Generate.GenContext.GenReturnStatement | src/compiler/generate/generate.ts:110-114 | `return ` and the value are appended as `Code` says |
| Generate.GenContext.GenCallExpression | src/compiler/generate/generate.ts:119-127 | the callee's name and the parenthesised arguments are appended as `Code` says; a missing callee fails before anything is appended |
| Generate.GenContext.GenStringLiteral | src/compiler/generate/generate.ts:132-135 | the value is appended without quotes |
| Generate.GenContext.GenArrayExpression | src/compiler/generate/generate.ts:140-145 | the bracketed elements, as `Code` says |
| Generate.ListThrows | src/compiler/generate/generate.ts:94-105 | once a pass of the list throws, the list does |
| Generate.BodyThrows | src/compiler/generate/generate.ts:84 | once a statement of the body throws, the body does |
| Generate.GenerateCode | src/compiler/generate/generate.ts:11-43 | `generate` returns `Code` of the node at level 0, or throws when it does, which is exactly when a node it reads is missing |
| Generate.CountChar | src/compiler/generate/generate.ts:100-102 | the number of occurrences of a character, at most the length: the measure `SeparatorCount` uses to count the ", " separators `genNodeList` pushes |
| Generate.SeparatorCount | src/compiler/generate/generate.ts:94-105 | a list of n comma-free literals is emitted with exactly n - 1 commas |
| Generate.FunctionDeclShape | src/compiler/generate/generate.ts:74-89 | a declaration opens a line one level deeper and closes its brace on a line at its own level |
| Generate.CodeDoneIff | src/compiler/generate/generate.ts:45-145 | from a non-negative level the generator finishes exactly when no node it reads is missing: no undefined node, list element, statement or returned value, and no undefined callee or function id |
| Generate.ListDoneIff | src/compiler/generate/generate.ts:94-105 | a list of nodes is emitted exactly when none of them has a missing node |
| Generate.BodyDoneIff | src/compiler/generate/generate.ts:84 | a function body is emitted exactly when none of its statements has a missing node |
| Generate.MissingReturnValueThrows | src/compiler/generate/generate.ts:110-114 | a `render` function whose return statement has no value throws |
| Generate.HelloCall | src/compiler/generate/generate.ts:119-135 | `h('div', 'hello')` generates `h(div, hello)`: string literals lose their quotes |
| Generate.RenderShape | src/compiler/generate/generate.ts:74-114 | the `render` function generates three lines: the head, `return` one level in, and the closing brace |
| Generate.DivHelloCode | src/compiler/generate/generate.ts:11-145 | transforming `<div>hello</div>` and generating gives `function render() {\n  return h(div, hello)\n}` |

## Left out

- DOM work. `mountElement`, the DOM removal in `unmount`, `patchProps`' attribute and event code, `hydrate`, `Teleport`, `Transition`, `KeepAlive`, the renderer entry point and `MVVM` are not part of this model. Renderer decisions are recorded as logs of patch, mount, unmount, move and set-text operations.
- Children in the diff are reduced to their keys. Only primitive keys are modelled; the key index uses a key's string form, as the source's object lookup does.
- Microtasks. The `queueJob` flush and the `flush: 'post'` deferral of `watch` are explicit steps (`Scheduler.JobQueue.Flush`, `Watch.Watcher.RunDeferred`). Jobs are opaque and do not enqueue further jobs.
- `defineAsyncComponent` is promises, timers and retries, and is not part of this model.
- The bodies of `mountComponent` are not part of this model: user `data`, `setup`, `render` and hooks, plus the effect wiring. Only the lookup and registration rules around them are modelled.
- The option-taking `watchEffect(fn, {lazy, scheduler})` and the three-argument `trigger` used by `computed` and `watch` come from `src/core/index.ts`, which is not part of this model. They appear as an interface: the lazy run's result is a parameter, and the scheduler is an entry point.
- Effect bodies, user callbacks and render functions are opaque. An effect body is reduced to the (target, key) pairs it reads.
- `reactive.ts`, `ref.ts`, `instrumentation.ts` and the `dataProxy` test helper are not part of this model. They are Proxy and `defineProperty` forwarding that does not run as written.
- JavaScript objects are records of string keys in insertion order. Prototype keys, getters, integer-like key ordering and `NaN` are not modelled.
- `TextModes` is imported from `ast.ts` but not defined there; the three modes are modelled as distinct values.
- `parseComment`, `parseCDATA` and `parseInterpolation` have empty bodies and return nothing. The model gives them no operation; `parseChildren` then falls back to `parseText`, as the source does.
- Parser.ParseContext.ElementBody: the part of `parseElement` after `parseTag` is modelled, but `parseTag` never returns an element, so no call ever reaches it. Within it, only a missing closing tag lets the element be returned: when the closing tag is there, the end-tag `parseTag` spins. The error logged for a missing closing tag is not modelled.
- Parser.ParseContext.ParseElement: the `Diverges` outcome does not say what the source holds while the attribute loop spins.
- The tokenizer's and the parser's endless loops are modelled as `Stuck` and `Diverges` outcomes, not as runs.
- Logging is not modelled: `console.log`, `console.error`, and the `dump` debugging printer.
- `src/compiler/index.ts` is glue and is not part of this model. It does not call `generate`; the model composes `transform` and `generate` only in lemmas.
- Transform nodes are values: `jsNode` assignments return the updated node, and the traversal rebuilds each parent from its traversed children. Aliasing of AST nodes between the tree and the context is not modelled.
- `traverseNode` looks up a child's index with `indexOf` and finds its first occurrence. The model passes the child's position instead; the two differ only when a parent holds the same node object twice.
- `traverseNode` reads `ctx.currentNode` once before visiting the children. A transform that replaces or removes the node mid-pass is modelled on that snapshot.
- Transform.TransformContext.ReplaceNode: it requires the child index to be inside the parent's children, because an assignment past the end that leaves holes is not modelled.
- Patch.PatchChild: for new array children the contract says only that the keyed diff ran (and that it throws on old empty children). It does not tie the outcome to `Diff.DiffAsWritten` of the keys.
- Components.Capitalise: only ASCII letters are upper-cased. JavaScript's `toUpperCase` also maps other letters (é to É) and can lengthen the string (ß to SS).
- Diff.Diff: the contract does not say that each new child is patched at most once. With two old children of the same key, both are patched against the one new child that key indexes.
- Sequence.GetSequence: the contract states that the result is an increasing run with increasing values. It does not state that the run is a longest one, because as written it is not: entries equal to 0 are skipped, yet position 0 starts the run whatever its value, so `getSequence([0])` is `[0]` and a run can hold a 0 at position 0.

## Findings

| source | as written | input that shows it | evidently intended | confidence | as-written member | corrected member |
|---|---|---|---|---|---|---|
| src/renderer/patch.ts:205-228 | the prefix and suffix scans of `diff` compare keys with no bounds check, so they read `.key` of `undefined` once they run past a list | re-rendering `[a]` as `[a]`: after the first pair the prefix scan reads position 1 of both lists and throws | each scan stops at the end of the shorter list and at the other scan | high, not executed | Diff.UnchangedListThrows, Diff.DiffAsWritten | Diff.UnchangedListPatched, Diff.Diff |
| src/renderer/patch.ts:297-321 | new children with no old counterpart are mounted only inside `if (moved)` | `[a, b, c]` to `[a, x, c]`: nothing moves, so `x` is neither patched nor mounted | every unmatched new child is mounted whether or not something moves | high, not executed | Diff.ReplacedChildSkipped | Diff.ReplacedChildMounted |
| src/renderer/patch.ts:233-234 | the anchor of the mounted range tests `newEndIndex + 1 < newEndIndex`, which never holds, so the anchor is always null | `[a, c]` to `[a, b, c]`: `b` is mounted at the end of the parent, after `c` | the anchor is the child after the range when there is one | high, not executed | Diff.InsertedChildAppended | Diff.InsertedChildAnchored |
| src/renderer/vnode/dynamic.ts:27-29 | `closeBlock` makes the popped array current, so the block just closed stays current | open a block, open an inner block, close it, create a flagged vnode: it lands in the closed inner array | the parent block's array becomes current again | high, not executed | Blocks.ClosedBlockCollects, Blocks.BlockTracker.CloseBlock | Blocks.ParentBlockCollects, Blocks.BlockTracker.CloseBlockToParent |
| src/renderer/h.ts:11 | `arguments.length = 2` assigns instead of comparing, so the two-argument branch always runs and the third argument is ignored | `h('div', { id: 'app' }, 'hello')` gives a vnode without children | compare the count with `===` | high, not executed | Hyperscript.TextChildDropped, Hyperscript.H | Hyperscript.HIntended |
| src/compiler/transform/transform.ts:64 | the element callback reads `node.children[0].jsNode` whenever `children` exists, including when it is empty | `<br/>` (an Element with no children) throws | test that there is a first child before reading it | medium, not executed | Transform.ChildlessElementThrows, Transform.ChildlessElementTraversalThrows, Transform.ElementCallAsWritten | Transform.ElementCall |
| src/compiler/parse/parseUtils.ts:109 | `parseTag` passes the matched text to `advanceBy`, which slices at `Number("<p")`, that is NaN, so nothing is consumed and the attribute loop spins on the '<' | `parse("<p>Vue</p>")` never returns | pass the length of the matched text | high, not executed | Parser.TagScanAsWritten, Parser.ParagraphTagScan, Parser.StartTagNeverParsed | Parser.TagScanIntended, Parser.IntendedTagScanReachesEnd |
