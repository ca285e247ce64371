# directory-watcher in Dafny

A model of the core of `directory-watcher`, a small Java library that watches a
directory tree through the JDK `WatchService` and tells subscribers which
entries were created, modified or deleted.

- **`DirectoryWatcher`** (module `Watcher`, class `DirectoryWatcher`):
  - holds a base path, its subscribers, its include and exclude patterns, and the set of watch keys it tracks;
  - `compileFilter` (module `Glob`) turns a glob such as `foo/**/*.json` into an anchored regex;
  - `shouldTrack` (module `Filters`) decides whether a relative path passes the filters;
  - the `handle*Event` methods ignore keys the watcher does not track, resolve the event's entry against the key's directory, make it relative to the base path, filter it, and call the matching hook of every subscriber in subscription order;
  - a created directory is walked: every directory in it is registered, and every entry in it is reported as created.
- **The regex side**, modules `Regex` and `Shapes`:
  - `Regex` gives the meaning of the five regex fragments `compileFilter` emits under `Matcher.matches()`;
  - `Shapes` derives what common filter shapes accept, in plain string terms;
  - `FilterExamples` proves the assertions of `DirectoryWatcherFilterTest` from these.
- **Subscribers** (module `Subscribers`):
  - a `DirectoryWatcherSubscriber` has three hooks that do nothing unless overridden;
  - a `DirectoryChangedSubscriber` forwards all three hooks to `directoryChanged`.
- **`AbstractDirectoryWatchService`**, modules `Dispatch` and `Service`:
  - `newWatcher` appends a watcher and `close` clears the list;
  - `handleWatchKey` turns each polled event of a key into one handler call on every watcher, in list order. OVERFLOW is skipped, MODIFY and CREATE have their own handlers, and any other kind is a delete;
  - if the key cannot be reset, every watcher is told that the key is invalid.
- **`DirectoryWatcherFactory`**, the older router (module `Factory`):
  - it keeps a `dirs` set of directories created under watched keys;
  - it suppresses MODIFY and DELETE events on those directories;
  - it forwards everything else to every watcher through `directoryCreated`, `fileCreated` and the like;
  - when a key cannot be reset, it reports `directoryDeleted`;
  - an `IOException` from a callee ends that one event.

Classes whose methods update fields are Dafny classes. Each method is specified
by a pure function of the old state: `Step` for a watcher's handlers, and
`After`/`Made` for the service's routing. `Routing`, `RouteEvent` and
`RouteKey` cover the routers. The lemmas prove the promised properties about
those functions. The file system is an immutable tree given as a parameter.
Watch keys are identified by the directory they watch. Events and the result of
`reset()` are inputs. Calls that reach user code are returned as a sequence of
`Callback`s, and calls the factory makes on watchers as a sequence of `Notice`s.

Behaviour of the code that the model keeps as written:
- `handleKeyInvalid` only drops the key. No subscriber hears that the directory went away.
- `compileFilter` splits on `|` as well as on `/` and `\`.
- `**` becomes `.*?`, which matches any characters, not whole path segments. So `**/file.json` also accepts `xfile.json`.
- `.` and `.*?` do not match line terminators, because the patterns are compiled without DOTALL.
- `close` clears only the watcher list. Each watcher's keys and subscribers stay as they were.

Paths in the table are relative to the repository root.

## Model

| member | source | states |
|---|---|---|
| Glob.DropTrailingEmpty | src/main/java/com/darylteo/nio/DirectoryWatcher.java:108 | `String.split` keeps a prefix of the pieces, ends on a non-empty piece, and drops only empty ones |
| Glob.PiecesRoundTrip | src/main/java/com/darylteo/nio/DirectoryWatcher.java:108 | joining the split pieces with the separator gives back the filter with each `/`, `\|` and `\` replaced by the separator: the split loses nothing else |
| Glob.PiecesAround | src/main/java/com/darylteo/nio/DirectoryWatcher.java:108 | each of `/`, `\|` and `\` is a splitter: the pieces of `a c b` are the pieces of `a` followed by those of `b` |
| Glob.SplitOfJoin | src/main/java/com/darylteo/nio/DirectoryWatcher.java:108 | splitting names joined with `/` gives the names back when none contains a splitter and the last is non-empty |
| Glob.Compiled | src/main/java/com/darylteo/nio/DirectoryWatcher.java:109-131 | every compiled pattern starts with `^` and ends with `$` |
| Glob.CompileFilter | src/main/java/com/darylteo/nio/DirectoryWatcher.java:103-133 | the StringBuilder loop with its `appendDelimiter` flag builds exactly `Compiled(filter, sep)` |
| Glob.TrailingSeparator | src/main/java/com/darylteo/nio/DirectoryWatcher.java:104-106 | a filter ending in `/` or `\` compiles as if `**` were appended |
| Glob.CompiledBodyJoin | src/main/java/com/darylteo/nio/DirectoryWatcher.java:110-122 | the pattern of pieces `a + b` is that of `a`, then one separator unless the last piece of `a` is `**`, then that of `b` |
| Glob.TranslateRenders | src/main/java/com/darylteo/nio/DirectoryWatcher.java:123-127 | the three `replace` calls, in order, write each character of a piece as its own fragment: `.` as `\.`, `?` as `.`, `*` as `[^sep]*?`, anything else as itself |
| Glob.BodyFragsLiteral | src/main/java/com/darylteo/nio/DirectoryWatcher.java:110-127 | pieces without `*` or `?` compile to the literal text of the pieces joined with the separator |
| Glob.CompiledRenders | src/main/java/com/darylteo/nio/DirectoryWatcher.java:103-133 | the compiled text is `^`, the rendering of the filter's fragment sequence, and `$` |
| Glob.FragmentsFit | src/main/java/com/darylteo/nio/DirectoryWatcher.java:123-127 | for a glob of ordinary characters, every fragment is written in a form the regex engine reads back as that fragment |
| Glob.CompiledMatches | src/main/java/com/darylteo/nio/DirectoryWatcher.java:150 | `matcher(s).matches()` on the compiled filter holds exactly when the filter's fragment sequence matches all of `s` |
| Regex.RenderedMatches | src/main/java/com/darylteo/nio/DirectoryWatcher.java:164 | a rendered fragment sequence, read by the regex engine, matches exactly the strings the fragments match |
| Regex.RunMatches | src/main/java/com/darylteo/nio/DirectoryWatcher.java:120 | a lazy run followed by more pattern matches exactly what the run fragment followed by the rest matches |
| Regex.LiteralThen | src/main/java/com/darylteo/nio/DirectoryWatcher.java:123-124 | literal fragments then `rest` match `s` iff `s` starts with that text and `rest` matches the remainder |
| Regex.LiteralMatchesItself | src/main/java/com/darylteo/nio/DirectoryWatcher.java:123-124 | literal fragments match their own text and nothing else |
| Regex.RunThen | src/main/java/com/darylteo/nio/DirectoryWatcher.java:120 | a run then `rest` matches `s` iff some prefix of admitted characters is followed by a match of `rest` |
| Regex.RunThenLiteral | src/main/java/com/darylteo/nio/DirectoryWatcher.java:126 | a run then a literal matches exactly the strings that end in the literal after admitted characters only |
| Regex.AnyRunMatches | src/main/java/com/darylteo/nio/DirectoryWatcher.java:120 | `.*?` alone matches exactly the strings without a line terminator |
| Regex.RunWithoutMatches | src/main/java/com/darylteo/nio/DirectoryWatcher.java:126 | `[^c]*?` alone matches exactly the strings that do not contain `c` |
| Regex.LitAppears | src/main/java/com/darylteo/nio/DirectoryWatcher.java:123-124 | a literal fragment's character occurs in every string the fragments match |
| Shapes.LiteralFilter | src/main/java/com/darylteo/nio/DirectoryWatcher.java:103-133 | a filter without wildcards accepts exactly its own text with splitters written as the separator |
| Shapes.AnyOnly | src/main/java/com/darylteo/nio/DirectoryWatcher.java:119-121 | the filter `**` accepts exactly the strings without a line terminator |
| Shapes.StarThen | src/main/java/com/darylteo/nio/DirectoryWatcher.java:126 | `*` then a plain name `t` accepts exactly the strings ending in `t` with no separator before it |
| Shapes.DirectoryThen | src/main/java/com/darylteo/nio/DirectoryWatcher.java:112-117 | `d/g` accepts exactly `d`, one separator, then a string `g` accepts |
| Shapes.AnyDirectoriesThen | src/main/java/com/darylteo/nio/DirectoryWatcher.java:119-121 | `**/g` accepts exactly a prefix without line terminators followed by a string `g` accepts; no separator is required between them |
| Shapes.DirectoryAndBelow | src/main/java/com/darylteo/nio/DirectoryWatcher.java:104-121 | `d/**` accepts exactly `d`, one separator, then anything without a line terminator; `d` alone is not accepted |
| Shapes.AnyPrefixThen | src/main/java/com/darylteo/nio/DirectoryWatcher.java:119-127 | `**/t` accepts exactly the strings ending in `t` after a prefix without line terminators |
| Shapes.FilterCharsOccur | src/main/java/com/darylteo/nio/DirectoryWatcher.java:123-127 | every character of a filter other than a wildcard or splitter occurs in every path the filter accepts |
| Filters.AnyMatchesAppend | src/main/java/com/darylteo/nio/DirectoryWatcher.java:149-153 | one more pattern matches `s` iff an earlier one did or the new one does |
| Filters.NoFiltersTrackAll | src/test/java/com/darylteo/nio/tests/DirectoryWatcherFilterTest.java:34-42 | with no includes and no excludes every path is tracked |
| Filters.ExcludeNarrows | src/main/java/com/darylteo/nio/DirectoryWatcher.java:140-170 | adding an exclude tracks exactly what was tracked and the new pattern does not match |
| Filters.IncludeAdds | src/main/java/com/darylteo/nio/DirectoryWatcher.java:140-156 | adding an include: the first one restricts tracking to its matches; later ones add their matches, excludes still applying |
| Filters.OneInclude | src/main/java/com/darylteo/nio/DirectoryWatcher.java:140-156 | with a single include and no exclude, a path is tracked iff it matches |
| Filters.OneExclude | src/main/java/com/darylteo/nio/DirectoryWatcher.java:140-170 | with no include and a single exclude, a path is tracked iff it does not match |
| Paths.ActualPath | src/main/java/com/darylteo/nio/DirectoryWatcher.java:274-279 | a missing context resolves to the key's directory itself |
| Paths.CommonPrefix | src/main/java/com/darylteo/nio/DirectoryWatcher.java:281-283 | the count of leading names two paths share, and no more |
| Paths.Parents | src/main/java/com/darylteo/nio/DirectoryWatcher.java:281-283 | `k` names, each `..` |
| Paths.RelativizeResolve | src/main/java/com/darylteo/nio/DirectoryWatcher.java:274-283 | relativizing against the base a path resolved from the base gives back the relative path |
| Paths.ResolveRelativize | src/main/java/com/darylteo/nio/DirectoryWatcher.java:274-283 | for a path under the base, resolving its relative path gives it back |
| Paths.RelativizeOutside | src/main/java/com/darylteo/nio/DirectoryWatcher.java:281-283 | a path outside the base relativizes to a path that starts with `..` |
| Paths.PrefixTransitive | src/main/java/com/darylteo/nio/DirectoryWatcher.java:185-207 | "lies below" is transitive |
| FileTree.Child | src/main/java/com/darylteo/nio/DirectoryWatcher.java:185 | a child found by name is one of the entries and has that name |
| FileTree.WalkNodeUnder | src/main/java/com/darylteo/nio/DirectoryWatcher.java:203-204 | every entry the walk visits lies at or below its start |
| FileTree.WalkChildrenUnder | src/main/java/com/darylteo/nio/DirectoryWatcher.java:203-204 | every entry visited among a directory's children lies strictly below it |
| FileTree.WalkNodePrefix | src/main/java/com/darylteo/nio/DirectoryWatcher.java:203-206 | a walk that meets an unreadable entry visits a prefix of the complete walk; one that does not fail visits all of it |
| FileTree.WalkChildrenPrefix | src/main/java/com/darylteo/nio/DirectoryWatcher.java:203-206 | the same for the walk of a directory's children |
| FileTree.WalkNodeReadable | src/main/java/com/darylteo/nio/DirectoryWatcher.java:203-206 | when nothing at or below the start is unreadable, the walk does not fail |
| FileTree.WalkChildrenReadable | src/main/java/com/darylteo/nio/DirectoryWatcher.java:203-206 | the same for the walk of a directory's children |
| FileTree.WalkStartsAtDirectory | src/main/java/com/darylteo/nio/DirectoryWatcher.java:185-193 | the walk of a readable directory visits that directory first, as a directory |
| Subscribers.Invoke | src/main/java/com/darylteo/nio/DirectoryWatcherSubscriber.java:21-44 | a hook not overridden makes no call; an overridden one makes exactly one; a `DirectoryChangedSubscriber` makes one `directoryChanged` with the same watcher and entry |
| Subscribers.AllChanged | src/main/java/com/darylteo/nio/DirectoryChangedSubscriber.java:23-36 | with only `DirectoryChangedSubscriber`s, every hook call yields one `directoryChanged` per subscriber, in order, with the same watcher and entry |
| Subscribers.FanOutOrder | src/main/java/com/darylteo/nio/DirectoryWatcher.java:241-243 | a dispatch calls user code once for every reacting subscriber, in subscription order, with the same watcher and entry |
| Subscribers.CreatedOnly | src/test/java/com/darylteo/nio/tests/DirectoryWatcherTest.java:124-139 | a subscriber overriding only `entryCreated` observes Created dispatches and nothing else |
| Subscribers.RemoveFirstCount | src/main/java/com/darylteo/nio/DirectoryWatcher.java:90-92 | `unsubscribe` removes one occurrence of the subscriber if there is one, and nothing else |
| Subscribers.RemoveFirstAt | src/main/java/com/darylteo/nio/DirectoryWatcher.java:90-92 | the removed occurrence is the first one |
| Watcher.DirKeysMembers | src/main/java/com/darylteo/nio/DirectoryWatcher.java:188-189 | the walk registers the key of every directory it visits and no other key |
| Watcher.DirectoryWatcher.constructor | src/main/java/com/darylteo/nio/DirectoryWatcher.java:44-55 | a new watcher has no subscribers or filters and tracks the key of every directory of its tree |
| Watcher.DirectoryWatcher.Register | src/main/java/com/darylteo/nio/DirectoryWatcher.java:63-75 | the directory's key joins the set; registering it again adds nothing |
| Watcher.DirectoryWatcher.Deregister | src/main/java/com/darylteo/nio/DirectoryWatcher.java:77-79 | the key leaves the set; nothing else changes |
| Watcher.DirectoryWatcher.Subscribe | src/main/java/com/darylteo/nio/DirectoryWatcher.java:86-88 | the subscriber is appended |
| Watcher.DirectoryWatcher.Unsubscribe | src/main/java/com/darylteo/nio/DirectoryWatcher.java:90-92 | the first equal subscriber is removed, if any |
| Watcher.DirectoryWatcher.Include | src/main/java/com/darylteo/nio/DirectoryWatcher.java:95-97 | the compiled filter is appended to the includes |
| Watcher.DirectoryWatcher.Exclude | src/main/java/com/darylteo/nio/DirectoryWatcher.java:99-101 | the compiled filter is appended to the excludes |
| Watcher.DirectoryWatcher.ShouldInclude | src/main/java/com/darylteo/nio/DirectoryWatcher.java:144-156 | true iff there are no includes or one of them matches |
| Watcher.DirectoryWatcher.ShouldExclude | src/main/java/com/darylteo/nio/DirectoryWatcher.java:158-170 | true iff one of the excludes matches |
| Watcher.DirectoryWatcher.ShouldTrack | src/main/java/com/darylteo/nio/DirectoryWatcher.java:136-142 | included and not excluded |
| Watcher.DirectoryWatcher.IsTrackingKey | src/main/java/com/darylteo/nio/DirectoryWatcher.java:270-272 | membership in the key set |
| Watcher.DirectoryWatcher.EntryChanged | src/main/java/com/darylteo/nio/DirectoryWatcher.java:234-268 | the entry is relativized and, if tracked, the hook of every subscriber is called in order; otherwise nothing happens |
| Watcher.DirectoryWatcher.HandleCreateEvent | src/main/java/com/darylteo/nio/DirectoryWatcher.java:173-208 | new state and callbacks are `CreateStep`: an untracked key or a non-directory does nothing; a directory is walked |
| Watcher.DirectoryWatcher.RegisterWalk | src/main/java/com/darylteo/nio/DirectoryWatcher.java:185-206 | the visitor registers exactly the visited directories and reports each visited entry as created, in walk order |
| Watcher.DirectoryWatcher.Visited | src/main/java/com/darylteo/nio/DirectoryWatcher.java:186-200 | one visit: a directory is registered, then the entry is reported as created |
| Watcher.DirectoryWatcher.HandleModifyEvent | src/main/java/com/darylteo/nio/DirectoryWatcher.java:210-216 | on a tracked key, `entryModified` of the resolved path; otherwise nothing |
| Watcher.DirectoryWatcher.HandleDeleteEvent | src/main/java/com/darylteo/nio/DirectoryWatcher.java:218-224 | on a tracked key, `entryDeleted` of the resolved path; otherwise nothing |
| Watcher.DirectoryWatcher.HandleKeyInvalid | src/main/java/com/darylteo/nio/DirectoryWatcher.java:226-232 | a tracked key is dropped; nothing else changes |
| Watcher.DirectoryWatcher.Handle | src/main/java/com/darylteo/nio/DirectoryWatcher.java:173-232 | each handler call changes the watcher and calls user code as `Step` says |
| Watcher.NotifyIgnoresKeys | src/main/java/com/darylteo/nio/DirectoryWatcher.java:234-244 | the key set plays no part in a dispatch, so registering during the walk does not change its reports |
| Watcher.WalkStep | src/main/java/com/darylteo/nio/DirectoryWatcher.java:186-200 | one more visit adds its directory key and its report at the end |
| Watcher.ForeignKeyIgnored | src/main/java/com/darylteo/nio/DirectoryWatcher.java:173-232 | every handler ignores a key the watcher does not track: no change, no callback |
| Watcher.KeyInvalidRemovesOnlyThatKey | src/main/java/com/darylteo/nio/DirectoryWatcher.java:226-232 | `handleKeyInvalid` removes that key alone and makes no callback |
| Watcher.CreateOfNonDirectory | src/main/java/com/darylteo/nio/DirectoryWatcher.java:185-207 | a create event for something that is not a directory changes nothing and reports nothing |
| Watcher.NotifyEntry | src/main/java/com/darylteo/nio/DirectoryWatcher.java:234-283 | every callback gets this watcher and the entry relative to the base; a tracked entry reaches each reacting subscriber once, an untracked one nobody |
| Watcher.CreateRegistersSubtree | src/main/java/com/darylteo/nio/DirectoryWatcher.java:185-207 | a created readable directory is registered, every new key lies inside it, and nothing but the keys changes |
| Watcher.CreateReachesWholeSubtree | src/main/java/com/darylteo/nio/DirectoryWatcher.java:185-207 | when nothing in the new directory is unreadable, every directory of it is registered and every entry reported as created, in preorder |
| WatcherExamples.CreateNestedDirectories | src/test/java/com/darylteo/nio/tests/DirectoryWatcherTest.java:141-159 | the create event for `newdir1` (containing `newdir2`) reports Created for exactly `newdir1` and `newdir1/newdir2` and registers both |
| WatcherExamples.ModifiedFileReachesDirectoryChanged | src/test/java/com/darylteo/nio/tests/DirectoryWatcherTest.java:285-302 | a modify of `file` reaches `directoryChanged` once with the path `file` |
| Dispatch.BroadcastViewsAt | src/main/java/com/darylteo/nio/AbstractDirectoryWatchService.java:118-120 | after one call is made on every watcher, each watcher is in the state its own handler produced |
| Dispatch.BroadcastViewAt | src/main/java/com/darylteo/nio/AbstractDirectoryWatchService.java:118-120 | the same for one watcher |
| Dispatch.BroadcastStep | src/main/java/com/darylteo/nio/AbstractDirectoryWatchService.java:118-120 | the loop over watchers: the next watcher's callbacks come after those of the earlier ones |
| Dispatch.NullKey | src/main/java/com/darylteo/nio/AbstractDirectoryWatchService.java:105-107 | a null key changes no watcher and makes no callback |
| Dispatch.EventRouting | src/main/java/com/darylteo/nio/AbstractDirectoryWatchService.java:110-136 | OVERFLOW makes no call; MODIFY makes `handleModifyEvent`, CREATE `handleCreateEvent`, any other kind `handleDeleteEvent` |
| Dispatch.SingleEvent | src/main/java/com/darylteo/nio/AbstractDirectoryWatchService.java:110-136 | a lone event's handler call is made on every watcher in list order |
| Dispatch.SingleCall | src/main/java/com/darylteo/nio/AbstractDirectoryWatchService.java:118-120 | routing one call is one broadcast of it |
| Dispatch.Snoc | src/main/java/com/darylteo/nio/AbstractDirectoryWatchService.java:110-143 | one more call: its broadcast is made from the state the earlier calls left |
| Dispatch.AfterAppend | src/main/java/com/darylteo/nio/AbstractDirectoryWatchService.java:110-143 | routing calls `a` then `b` is routing `b` from the state `a` left, callbacks in that order |
| Dispatch.EventCallsSnoc | src/main/java/com/darylteo/nio/AbstractDirectoryWatchService.java:110-136 | events are handled in order: one more event adds its call at the end |
| Dispatch.EventCallsOne | src/main/java/com/darylteo/nio/AbstractDirectoryWatchService.java:110-136 | a lone event makes the call its kind names, or none |
| Dispatch.EventCallsCount | src/main/java/com/darylteo/nio/AbstractDirectoryWatchService.java:113-115 | OVERFLOW events make no call and processing continues; every other event makes exactly one, for the signalled key, and none is a key-invalid call |
| Dispatch.RoutingReset | src/main/java/com/darylteo/nio/AbstractDirectoryWatchService.java:139-143 | a key that resets is not reported invalid |
| Dispatch.KeyInvalidLast | src/main/java/com/darylteo/nio/AbstractDirectoryWatchService.java:139-143 | `handleKeyInvalid` is called iff `reset()` fails, and then once, after all events |
| Service.ViewsOf | src/main/java/com/darylteo/nio/AbstractDirectoryWatchService.java:118 | the watchers' states, in list order |
| Service.DeliverToAll | src/main/java/com/darylteo/nio/AbstractDirectoryWatchService.java:118-120 | calling a handler on every watcher in list order leaves each in the state its handler makes and returns the callbacks in order |
| Service.DeliverOne | src/main/java/com/darylteo/nio/AbstractDirectoryWatchService.java:119 | one handler call changes that watcher only |
| Service.BroadcastOfSteps | src/main/java/com/darylteo/nio/AbstractDirectoryWatchService.java:118-120 | the states the loop leaves are the broadcast's |
| Service.DeliverEvent | src/main/java/com/darylteo/nio/AbstractDirectoryWatchService.java:111-135 | one polled event advances the routing by that event's call |
| Service.DeliverEvents | src/main/java/com/darylteo/nio/AbstractDirectoryWatchService.java:110-136 | the event loop makes exactly the events' calls, in order |
| Service.DeliverKey | src/main/java/com/darylteo/nio/AbstractDirectoryWatchService.java:104-144 | a null key does nothing; otherwise the events' calls, then key-invalid if `reset()` fails |
| Service.DirectoryWatchService.constructor | src/main/java/com/darylteo/nio/AbstractDirectoryWatchService.java:29-33 | a new service has no watchers |
| Service.DirectoryWatchService.NewWatcher | src/main/java/com/darylteo/nio/AbstractDirectoryWatchService.java:93-102 | a failed walk creates nothing; otherwise exactly one new watcher, with the caller's separator, is appended to the end of the list |
| Service.DirectoryWatchService.Close | src/main/java/com/darylteo/nio/AbstractDirectoryWatchService.java:147-150 | the watcher list is empty afterwards |
| Service.DirectoryWatchService.HandleWatchKey | src/main/java/com/darylteo/nio/AbstractDirectoryWatchService.java:104-144 | every watcher ends in the state the routed calls produce; the callbacks are theirs, in order |
| Service.BroadcastForeign | src/main/java/com/darylteo/nio/AbstractDirectoryWatchService.java:117-135 | a call for a key no watcher tracks changes nothing and calls nobody |
| Service.ForeignKeyIgnoredByAll | src/main/java/com/darylteo/nio/AbstractDirectoryWatchService.java:110-143 | the same for any sequence of calls for that key |
| Service.ForeignWatchKey | src/main/java/com/darylteo/nio/AbstractDirectoryWatchService.java:104-144 | `handleWatchKey` for a key no watcher tracks has no effect at all |
| Service.ModifyKeepsViews | src/main/java/com/darylteo/nio/AbstractDirectoryWatchService.java:117-123 | `handleModifyEvent` changes no watcher's state |
| Service.ModifyFansOut | src/main/java/com/darylteo/nio/AbstractDirectoryWatchService.java:117-123 | a MODIFY event makes `handleModifyEvent` alone, on every watcher in list order |
| Factory.DirectoryWatcherFactory.constructor | src/main/java/com/darylteo/nio/DirectoryWatcherFactory.java:24-37 | a new factory has no watchers, no recorded directories and no calls made |
| Factory.DirectoryWatcherFactory.NewWatcher | src/main/java/com/darylteo/nio/DirectoryWatcherFactory.java:39-44 | a failed walk creates nothing; otherwise the new watcher is appended |
| Factory.DirectoryWatcherFactory.Deliver | src/main/java/com/darylteo/nio/DirectoryWatcherFactory.java:132-159 | one `for` loop over the watchers: calls in list order up to the first that throws |
| Factory.DirectoryWatcherFactory.HandleDirectoryCreated | src/main/java/com/darylteo/nio/DirectoryWatcherFactory.java:130-135 | the directory joins `dirs` before any watcher is told; the `IOException` escapes exactly when one watcher's `directoryCreated` throws |
| Factory.DirectoryWatcherFactory.HandleDirectoryDeleted | src/main/java/com/darylteo/nio/DirectoryWatcherFactory.java:137-142 | the directory leaves `dirs`, then every watcher gets `directoryDeleted(key)`; the `IOException` escapes exactly when one of those calls throws |
| Factory.DirectoryWatcherFactory.HandleEvent | src/main/java/com/darylteo/nio/DirectoryWatcherFactory.java:87-128 | state and calls are those of `RouteEvent`, and an `IOException` escapes exactly when one of the calls made threw |
| Factory.DirectoryWatcherFactory.HandleKey | src/main/java/com/darylteo/nio/DirectoryWatcherFactory.java:67-83 | state and calls are those of `RouteKey`: the events in order, each failure skipping only its event, then the reset branch |
| Factory.BroadcastOrder | src/main/java/com/darylteo/nio/DirectoryWatcherFactory.java:132-159 | the calls made are a prefix of one call per watcher in list order; it stops early exactly when a call throws, and that call is the last |
| Factory.AbortedIffAnyThrows | src/main/java/com/darylteo/nio/DirectoryWatcherFactory.java:130-147 | a loop over the watchers is cut short exactly when one of the calls it made threw |
| Factory.AbortedCons | src/main/java/com/darylteo/nio/DirectoryWatcherFactory.java:132-147 | a loop is cut short iff the first watcher's call throws or the rest's loop is cut short |
| Factory.AllNoticesCons | src/main/java/com/darylteo/nio/DirectoryWatcherFactory.java:132-159 | one call per watcher: the first watcher's, then the others' |
| Factory.FileChangesReachAll | src/main/java/com/darylteo/nio/DirectoryWatcherFactory.java:150-160 | `fileDeleted` and `fileModified` cannot throw, so every watcher gets them |
| Factory.RecordedDirectorySuppressed | src/main/java/com/darylteo/nio/DirectoryWatcherFactory.java:109-125 | a MODIFY or DELETE event on a recorded directory changes nothing and tells nobody |
| Factory.RouteEventEffect | src/main/java/com/darylteo/nio/DirectoryWatcherFactory.java:87-128 | OVERFLOW is ignored; otherwise the path is the key's directory resolved with the context, and the calls are the kind's route to the watchers in order |
| Factory.RouteEventsAppend | src/main/java/com/darylteo/nio/DirectoryWatcherFactory.java:67-73 | handling events `a` then `b` is handling `b` from the state `a` left |
| Factory.RouteEventsAppendStep | src/main/java/com/darylteo/nio/DirectoryWatcherFactory.java:67-73 | the step of that argument: one more event of `b` |
| Factory.FailureSkipsOnlyThatEvent | src/main/java/com/darylteo/nio/DirectoryWatcherFactory.java:67-73 | after an event, the next one is still handled, from the state the earlier ones left, whatever was thrown |
| Factory.DirsGrowByCreatedDirectories | src/main/java/com/darylteo/nio/DirectoryWatcherFactory.java:98-105 | `dirs` only grows while events are handled, and only by directories that a CREATE event of the key named |
| Factory.ResetFailure | src/main/java/com/darylteo/nio/DirectoryWatcherFactory.java:76-83 | when `reset` fails the key's directory leaves `dirs` and, after the events' calls, each watcher in order is told `directoryDeleted(key)` once, until one throws |
| Factory.ResetSuccess | src/main/java/com/darylteo/nio/DirectoryWatcherFactory.java:76 | a successful `reset` leaves the state the events left |
| FilterExamples.StarReads | src/test/java/com/darylteo/nio/tests/DirectoryWatcherFilterTest.java:77-86 | `*` accepts exactly the paths without a separator |
| FilterExamples.StarStarReads | src/test/java/com/darylteo/nio/tests/DirectoryWatcherFilterTest.java:88-97 | `**` accepts exactly the paths without a line terminator |
| FilterExamples.SlashLiteral | src/test/java/com/darylteo/nio/tests/DirectoryWatcherFilterTest.java:44-64 | a filter without wildcards and `/` as its only splitter accepts exactly itself |
| FilterExamples.JsonReads | src/test/java/com/darylteo/nio/tests/DirectoryWatcherFilterTest.java:66-75 | `*.json` accepts exactly names in the base ending in `.json` |
| FilterExamples.FooStarReads | src/test/java/com/darylteo/nio/tests/DirectoryWatcherFilterTest.java:99-108 | `foo/*` accepts exactly `foo/` then a name without a separator |
| FilterExamples.FooStarStarReads | src/test/java/com/darylteo/nio/tests/DirectoryWatcherFilterTest.java:143-153 | `foo/**` accepts exactly `foo/` then anything on one line |
| FilterExamples.AnyFileJsonReads | src/test/java/com/darylteo/nio/tests/DirectoryWatcherFilterTest.java:121-130 | `**/file.json` accepts exactly a one-line prefix followed by `file.json` |
| FilterExamples.AnyFileJsonAcceptsLongerName | src/main/java/com/darylteo/nio/DirectoryWatcher.java:119-121 | the `**` piece leaves no separator before the next piece, so `**/file.json` accepts `xfile.json` |
| FilterExamples.AnyJsonReads | src/test/java/com/darylteo/nio/tests/DirectoryWatcherFilterTest.java:132-141 | `**/*.json` accepts exactly a one-line prefix followed by a base name ending in `.json` |
| FilterExamples.FooAnyJsonReads | src/test/java/com/darylteo/nio/tests/DirectoryWatcherFilterTest.java:155-164 | `foo/**/*.json` accepts exactly `foo/` then what `**/*.json` accepts |
| FilterExamples.BarJsonReads | src/test/java/com/darylteo/nio/tests/DirectoryWatcherFilterTest.java:166-175 | `bar/*.json` accepts exactly `bar/` then a base name ending in `.json` |
| FilterExamples.AnyBarJsonReads | src/test/java/com/darylteo/nio/tests/DirectoryWatcherFilterTest.java:166-175 | `**/bar/*.json` accepts exactly a one-line prefix then what `bar/*.json` accepts |
| FilterExamples.FooAnyBarJsonReads | src/test/java/com/darylteo/nio/tests/DirectoryWatcherFilterTest.java:177-186 | `foo/**/bar/*.json` accepts exactly `foo/` then what `**/bar/*.json` accepts |
| FilterExamples.AnyFooAnyBarJsonReads | src/test/java/com/darylteo/nio/tests/DirectoryWatcherFilterTest.java:177-186 | `**/foo/**/bar/*.json` accepts exactly a one-line prefix then what `foo/**/bar/*.json` accepts |
| FilterExamples.Lacks | src/test/java/com/darylteo/nio/tests/DirectoryWatcherFilterTest.java:121-186 | a path lacking a literal character of the filter is not accepted |
| FilterExamples.Includes1 | src/test/java/com/darylteo/nio/tests/DirectoryWatcherFilterTest.java:44-53 | include `file` tracks exactly `file` among the test paths |
| FilterExamples.Includes2 | src/test/java/com/darylteo/nio/tests/DirectoryWatcherFilterTest.java:55-64 | include `file.json` tracks exactly `file.json` |
| FilterExamples.Includes3 | src/test/java/com/darylteo/nio/tests/DirectoryWatcherFilterTest.java:66-75 | include `*.json` tracks exactly `file.json` |
| FilterExamples.Includes4 | src/test/java/com/darylteo/nio/tests/DirectoryWatcherFilterTest.java:77-86 | include `*` tracks `file` and `file.json` but not `foo/file` or deeper paths |
| FilterExamples.Includes5 | src/test/java/com/darylteo/nio/tests/DirectoryWatcherFilterTest.java:88-97 | include `**` tracks every test path |
| FilterExamples.Includes6 | src/test/java/com/darylteo/nio/tests/DirectoryWatcherFilterTest.java:99-108 | include `foo/*` tracks exactly `foo/file` and `foo/file.json` |
| FilterExamples.Includes7 | src/test/java/com/darylteo/nio/tests/DirectoryWatcherFilterTest.java:110-119 | include `foo/file.json` tracks exactly `foo/file.json` |
| FilterExamples.Includes8 | src/test/java/com/darylteo/nio/tests/DirectoryWatcherFilterTest.java:121-130 | include `**/file.json` tracks exactly the three paths ending in `file.json` |
| FilterExamples.Includes9 | src/test/java/com/darylteo/nio/tests/DirectoryWatcherFilterTest.java:132-141 | include `**/*.json` tracks exactly the three `.json` paths |
| FilterExamples.Includes10 | src/test/java/com/darylteo/nio/tests/DirectoryWatcherFilterTest.java:143-153 | include `foo/**` tracks the three paths below `foo` but not `foo` itself |
| FilterExamples.Includes11 | src/test/java/com/darylteo/nio/tests/DirectoryWatcherFilterTest.java:155-164 | include `foo/**/*.json` tracks exactly `foo/file.json` and `foo/bar/file.json` |
| FilterExamples.Includes12 | src/test/java/com/darylteo/nio/tests/DirectoryWatcherFilterTest.java:166-175 | include `**/bar/*.json` tracks exactly `foo/bar/file.json` |
| FilterExamples.Includes13 | src/test/java/com/darylteo/nio/tests/DirectoryWatcherFilterTest.java:177-186 | include `**/foo/**/bar/*.json` tracks exactly `foo/bar/file.json` |
| FilterExamples.Excludes1 | src/test/java/com/darylteo/nio/tests/DirectoryWatcherFilterTest.java:188-197 | exclude `**` tracks nothing |
| FilterExamples.Excludes2 | src/test/java/com/darylteo/nio/tests/DirectoryWatcherFilterTest.java:199-208 | exclude `*` tracks exactly the paths with a directory part |
| FilterExamples.Excludes3 | src/test/java/com/darylteo/nio/tests/DirectoryWatcherFilterTest.java:210-219 | exclude `foo/*` tracks exactly `file`, `file.json` and `foo/bar/file.json` |
| FilterExamples.Excludes4 | src/test/java/com/darylteo/nio/tests/DirectoryWatcherFilterTest.java:221-230 | exclude `foo/**` tracks exactly `file` and `file.json` |

## Left out

- Threads: `ThreadPoolDirectoryWatchService`, the blocking `take()` loop of `DirectoryWatcherFactory.WatcherThread.run` (only its event loop and reset branch are modelled), the executor, and `PollingDirectoryWatchService`. Everything is modelled as one sequential call.
- JDK I/O: the `WatchService`, `WatchKey.pollEvents` and `reset`, `Path.register` and `Files.isDirectory`. The file tree, the polled events and the result of `reset()` are parameters. `Files.walkFileTree` is a preorder walk of the tree that fails at the first unreadable entry.
- `close` of the watch service itself and `shutdown` of the factory's executor are I/O and threads. For `AbstractDirectoryWatchService.close` only the clearing of the list is modelled.
- java.util.regex in general: only the five fragments `compileFilter` emits are given a meaning. A glob holding another regex metacharacter (`+`, `(`, `[`, `{` …) would be read by Java as regex syntax.
- Glob.CompiledMatches: stated only for globs of ordinary characters and for a separator that is not a regex metacharacter. So `\` as the separator is left out, since it makes `[^\]*?` malformed. The `Shapes` and `FilterExamples` lemmas inherit this restriction.
- Glob.CompiledRenders: stated for any separator except `.`. The separator is appended to the pattern raw, so a `.` separator means "any character" there, while the fragment sequence reads it as the literal `.`.
- Separators: `DirectoryWatcher.java` defines only the two-argument constructor `DirectoryWatcher(WatchService, Path)`, which `Watcher.DirectoryWatcher.constructor` models. Its `sep` stands for `File.separator` in `compileFilter` (DirectoryWatcher.java:114 and :126), and it is also the separator `Path.toString` joins names with. The factory passes one `sep` to every watcher it creates.
- The three-argument constructor `DirectoryWatcher(WatchService, Path, String)` that `AbstractDirectoryWatchService.newWatcher` calls is not part of this model. `Service.DirectoryWatchService.NewWatcher` assumes that constructor uses the caller's separator both in `compileFilter` and for the path strings it filters. What it does with a `null` separator, which the overloads without one pass, is unknown, so the model always takes an explicit separator character.
- `directoryCreated`, `directoryDeleted`, `fileCreated`, `fileDeleted` and `fileModified`, which the factory calls, are not part of this model. Each call is recorded as a `Notice`. Which of the calls declared `throws IOException` do throw is the parameter `failing`.
- Factory.DirectoryWatcherFactory.HandleEvent: requires every non-OVERFLOW event to carry a context. The JDK always gives one, and a null one would make `resolve` throw.
- Watcher.DirectoryWatcher.constructor: requires the initial walk to succeed. When it fails the Java constructor throws and no watcher is returned, which `NewWatcher` models by returning `null`. The partly registered keys of a walk that failed are not modelled.
- Service.DirectoryWatchService.HandleWatchKey: requires the watchers to be distinct objects. `NewWatcher` only ever appends fresh ones, so this always holds.
- An exception thrown by a subscriber's own hook is not modelled: subscriber code is only observed through the calls it receives. The library has no isolation between subscribers either.
- Timing, latches and background threads in `DirectoryWatcherTest`: only the assertions of the create and `DirectoryChangedSubscriber` tests are stated, as scenarios on a concrete tree.
- `getPath`, `getSubscribers` and `getWatchers` are getters. The `DirectoryWatchService` interface has no logic.
