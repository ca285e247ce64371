/**
 * `DirectoryWatcher`: the watched base path, its subscribers, its include
 * and exclude patterns, and the set of watch keys it tracks. Event handlers
 * ignore keys it does not track, resolve the event's context against the
 * key's directory, make the result relative to the base path, filter it,
 * and call the matching hook of every subscriber in subscription order.
 *
 * Each handler method is specified by a function on a `WatcherView` (the
 * watcher's fields as a value): `Step` says what a handler call does to the
 * view and which user callbacks it makes.
 */
module Watcher {
  import opened Wrappers
  import opened Regex
  import opened Glob
  import opened Paths
  import opened FileTree
  import opened Subscribers
  import opened Events
  import opened Filters

  /** The fields of a `DirectoryWatcher`, as a value. */
  datatype WatcherView = WatcherView(
    path: Path,
    sep: char,
    subscribers: seq<Subscriber>,
    includes: seq<string>,
    excludes: seq<string>,
    keys: set<WatchKey>)

  /** A call of one of the package-private handlers. */
  datatype WatcherCall =
    | CreateCall(key: WatchKey, context: Option<Path>)   // handleCreateEvent
    | ModifyCall(key: WatchKey, context: Option<Path>)   // handleModifyEvent
    | DeleteCall(key: WatchKey, context: Option<Path>)   // handleDeleteEvent
    | KeyInvalidCall(key: WatchKey)                      // handleKeyInvalid

  type Callbacks = seq<Callback<DirectoryWatcher>>

  /** The keys the walk registers, in walk order. */
  function DirKeys(visits: seq<Visit>): set<WatchKey> {
    if visits == [] then {}
    else
      var n := |visits|;
      DirKeys(visits[..n - 1]) + (if visits[n - 1].isDir then {WatchKey(visits[n - 1].path)} else {})
  }

  /** A walk registers the key of every directory it visits, and no other key. */
  lemma {:induction false} DirKeysMembers(visits: seq<Visit>)
    ensures forall k :: k in DirKeys(visits) <==> exists i :: 0 <= i < |visits| && visits[i].isDir && k == WatchKey(visits[i].path)
  {
    if visits != [] {
      var n := |visits|;
      var init := visits[..n - 1];
      DirKeysMembers(init);
      assert forall i :: 0 <= i < n - 1 ==> init[i] == visits[i];
    }
  }

  class DirectoryWatcher {
    const path: Path
    const sep: char
    var subscribers: seq<Subscriber>
    var includes: seq<string>
    var excludes: seq<string>
    var keys: set<WatchKey>

    function View(): WatcherView
      reads this
    {
      WatcherView(path, sep, subscribers, includes, excludes, keys)
    }

    /**
     * The constructor walks the tree under `dir` and registers every
     * directory it visits. A walk that fails makes the constructor throw;
     * callers check for that first.
     */
    constructor (fs: FileSystem, dir: Path, sep: char)
      requires !Walk(fs, dir).failed
      ensures View() == WatcherView(dir, sep, [], [], [], DirKeys(Walk(fs, dir).visits))
    {
      path := dir;
      this.sep := sep;
      subscribers := [];
      includes := [];
      excludes := [];
      keys := {};
      new;
      var visits := Walk(fs, dir).visits;
      var i := 0;
      while i < |visits|
        invariant 0 <= i <= |visits|
        invariant View() == WatcherView(dir, sep, [], [], [], DirKeys(visits[..i]))
      {
        if visits[i].isDir {
          Register(visits[i].path);
        }
        assert visits[..i + 1][..i] == visits[..i];
        i := i + 1;
      }
      assert visits[..i] == visits;
    }

    /** `register`: the key of `dir` joins the set; a second registration adds nothing. */
    method Register(dir: Path)
      modifies this
      ensures View() == old(View()).(keys := old(keys) + {WatchKey(dir)})
    {
      keys := keys + {WatchKey(dir)};
    }

    /** `deregister`. */
    method Deregister(key: WatchKey)
      modifies this
      ensures View() == old(View()).(keys := old(keys) - {key})
    {
      keys := keys - {key};
    }

    method Subscribe(s: Subscriber)
      modifies this
      ensures View() == old(View()).(subscribers := old(subscribers) + [s])
    {
      subscribers := subscribers + [s];
    }

    /** `unsubscribe`: `List.remove` looks for the first equal element and removes it. */
    method Unsubscribe(s: Subscriber)
      modifies this
      ensures View() == old(View()).(subscribers := RemoveFirst(old(subscribers), s))
    {
      var i := 0;
      while i < |subscribers| && subscribers[i] != s
        invariant 0 <= i <= |subscribers|
        invariant s !in subscribers[..i]
      {
        assert subscribers[..i + 1] == subscribers[..i] + [subscribers[i]];
        i := i + 1;
      }
      RemoveFirstAt(subscribers, s, i);
      if i < |subscribers| {
        subscribers := subscribers[..i] + subscribers[i + 1..];
      }
    }

    method Include(filter: string)
      modifies this
      ensures View() == old(View()).(includes := old(includes) + [Compiled(filter, sep)])
    {
      var pattern := CompileFilter(filter, sep);
      includes := includes + [pattern];
    }

    method Exclude(filter: string)
      modifies this
      ensures View() == old(View()).(excludes := old(excludes) + [Compiled(filter, sep)])
    {
      var pattern := CompileFilter(filter, sep);
      excludes := excludes + [pattern];
    }

    method ShouldInclude(s: string) returns (b: bool)
      ensures b == Included(includes, s)
    {
      if includes == [] {
        return true;
      }
      var i := 0;
      while i < |includes|
        invariant 0 <= i <= |includes|
        invariant forall j :: 0 <= j < i ==> !Matches(includes[j], s)
      {
        if Matches(includes[i], s) {
          return true;
        }
        i := i + 1;
      }
      return false;
    }

    method ShouldExclude(s: string) returns (b: bool)
      ensures b == Excluded(excludes, s)
    {
      if excludes == [] {
        return false;
      }
      var i := 0;
      while i < |excludes|
        invariant 0 <= i <= |excludes|
        invariant forall j :: 0 <= j < i ==> !Matches(excludes[j], s)
      {
        if Matches(excludes[i], s) {
          return true;
        }
        i := i + 1;
      }
      return false;
    }

    /** `shouldTrack(String)`; `shouldTrack(Path)` passes `path.toString()`. */
    method ShouldTrack(s: string) returns (b: bool)
      ensures b == Tracked(includes, excludes, s)
    {
      b := ShouldInclude(s);
      if b {
        var excluded := ShouldExclude(s);
        b := !excluded;
      }
    }

    method IsTrackingKey(key: WatchKey) returns (b: bool)
      ensures b == (key in keys)
    {
      b := key in keys;
    }

    /**
     * `entryCreated`, `entryModified` and `entryDeleted`: relativize the
     * entry against the base path, stop if it is not tracked, otherwise call
     * the `kind` hook of every subscriber in order.
     */
    method EntryChanged(kind: Kind, entry: Path) returns (calls: Callbacks)
      ensures calls == Notify(this, View(), kind, entry)
    {
      var rel := Relativize(path, entry);
      var tracked := ShouldTrack(PathString(rel, sep));
      if !tracked {
        return [];
      }
      calls := [];
      var i := 0;
      while i < |subscribers|
        invariant 0 <= i <= |subscribers|
        invariant calls == FanOut(subscribers[..i], kind, this, rel)
      {
        calls := calls + Invoke(subscribers[i], kind, this, rel);
        FanOutStep(subscribers, i, kind, this, rel);
        i := i + 1;
      }
      assert subscribers[..i] == subscribers;
    }

    /**
     * `handleCreateEvent`: on a tracked key, if the new entry is a
     * directory, walk it; every directory visited is registered, and every
     * entry visited (the directory itself first) is reported as created. An
     * `IOException` ends the walk silently after the visits made so far.
     */
    method HandleCreateEvent(fs: FileSystem, key: WatchKey, context: Option<Path>) returns (calls: Callbacks)
      modifies this
      ensures (View(), calls) == CreateStep(this, old(View()), fs, key, context)
    {
      var tracking := IsTrackingKey(key);
      if !tracking {
        return [];
      }
      var p := ActualPath(key.dir, context);
      if !IsDirectory(fs, p) {
        return [];
      }
      calls := RegisterWalk(Walk(fs, p).visits);
    }

    /** The visitor of `handleCreateEvent`: register each directory, report each entry. */
    method RegisterWalk(visits: seq<Visit>) returns (calls: Callbacks)
      modifies this
      ensures View() == old(View()).(keys := old(keys) + DirKeys(visits))
      ensures calls == NotifyCreated(this, old(View()), visits)
    {
      ghost var v0 := View();
      calls := [];
      var i := 0;
      while i < |visits|
        invariant 0 <= i <= |visits|
        invariant View() == v0.(keys := v0.keys + DirKeys(visits[..i]))
        invariant calls == NotifyCreated(this, v0, visits[..i])
      {
        var c := Visited(visits[i], v0);
        calls := calls + c;
        WalkStep(this, v0, visits, i);
        i := i + 1;
      }
      assert visits[..i] == visits;
    }

    /**
     * One visit of that walk: a directory is registered, then the entry is
     * reported as created as the watcher stood when the walk began.
     */
    method Visited(visit: Visit, ghost v0: WatcherView) returns (calls: Callbacks)
      requires View().(keys := v0.keys) == v0
      modifies this
      ensures View() == old(View()).(keys := old(keys) + if visit.isDir then {WatchKey(visit.path)} else {})
      ensures calls == Notify(this, v0, Created, visit.path)
    {
      if visit.isDir {
        Register(visit.path);
      }
      var c := EntryChanged(Created, visit.path);
      NotifyIgnoresKeys(this, v0, keys, Created, visit.path);
      calls := c;
    }

    /** `handleModifyEvent`. */
    method HandleModifyEvent(key: WatchKey, context: Option<Path>) returns (calls: Callbacks)
      ensures calls == Notified(this, View(), Modified, key, context)
    {
      var tracking := IsTrackingKey(key);
      if !tracking {
        return [];
      }
      calls := EntryChanged(Modified, ActualPath(key.dir, context));
    }

    /** `handleDeleteEvent`. */
    method HandleDeleteEvent(key: WatchKey, context: Option<Path>) returns (calls: Callbacks)
      ensures calls == Notified(this, View(), Deleted, key, context)
    {
      var tracking := IsTrackingKey(key);
      if !tracking {
        return [];
      }
      calls := EntryChanged(Deleted, ActualPath(key.dir, context));
    }

    /** `handleKeyInvalid`: a tracked key is dropped; nobody is told. */
    method HandleKeyInvalid(key: WatchKey)
      modifies this
      ensures View() == Invalidated(old(View()), key)
    {
      var tracking := IsTrackingKey(key);
      if !tracking {
        return;
      }
      Deregister(key);
    }

    /** Whichever handler `call` names. */
    method Handle(fs: FileSystem, call: WatcherCall) returns (calls: Callbacks)
      modifies this
      ensures (View(), calls) == Step(this, old(View()), fs, call)
    {
      match call
      case CreateCall(key, context) =>
        calls := HandleCreateEvent(fs, key, context);
      case ModifyCall(key, context) =>
        calls := HandleModifyEvent(key, context);
      case DeleteCall(key, context) =>
        calls := HandleDeleteEvent(key, context);
      case KeyInvalidCall(key) =>
        HandleKeyInvalid(key);
        calls := [];
    }
  }

  // ---------------------------------------------------------------------
  // The handlers as functions of the view.

  /** What `entryCreated` (`kind` Created) and its siblings do for the absolute path `entry`. */
  function Notify(w: DirectoryWatcher, v: WatcherView, kind: Kind, entry: Path): Callbacks {
    var rel := Relativize(v.path, entry);
    if Tracked(v.includes, v.excludes, PathString(rel, v.sep)) then FanOut(v.subscribers, kind, w, rel) else []
  }

  /** The keys play no part in a dispatch. */
  lemma NotifyIgnoresKeys(w: DirectoryWatcher, v: WatcherView, keys: set<WatchKey>, kind: Kind, entry: Path)
    ensures Notify(w, v.(keys := keys), kind, entry) == Notify(w, v, kind, entry)
  {
  }

  /** Created reports for the visits of a walk, in walk order. */
  function NotifyCreated(w: DirectoryWatcher, v: WatcherView, visits: seq<Visit>): Callbacks {
    if visits == [] then []
    else NotifyCreated(w, v, visits[..|visits| - 1]) + Notify(w, v, Created, visits[|visits| - 1].path)
  }

  /** One more visit of the walk: its key, if a directory, and its report come last. */
  lemma WalkStep(w: DirectoryWatcher, v: WatcherView, visits: seq<Visit>, i: nat)
    requires i < |visits|
    ensures DirKeys(visits[..i + 1]) == DirKeys(visits[..i]) + (if visits[i].isDir then {WatchKey(visits[i].path)} else {})
    ensures NotifyCreated(w, v, visits[..i + 1]) == NotifyCreated(w, v, visits[..i]) + Notify(w, v, Created, visits[i].path)
  {
    assert visits[..i + 1][..i] == visits[..i];
  }

  /** `handleModifyEvent` and `handleDeleteEvent`. */
  function Notified(w: DirectoryWatcher, v: WatcherView, kind: Kind, key: WatchKey, context: Option<Path>): Callbacks {
    if key in v.keys then Notify(w, v, kind, ActualPath(key.dir, context)) else []
  }

  /** `handleKeyInvalid`. */
  function Invalidated(v: WatcherView, key: WatchKey): WatcherView {
    if key in v.keys then v.(keys := v.keys - {key}) else v
  }

  /** `handleCreateEvent`. */
  function CreateStep(w: DirectoryWatcher, v: WatcherView, fs: FileSystem, key: WatchKey, context: Option<Path>): (WatcherView, Callbacks) {
    if key !in v.keys then (v, [])
    else
      var p := ActualPath(key.dir, context);
      if !IsDirectory(fs, p) then (v, [])
      else
        var visits := Walk(fs, p).visits;
        (v.(keys := v.keys + DirKeys(visits)), NotifyCreated(w, v, visits))
  }

  /** One handler call: the watcher's new fields and the user callbacks made. */
  function Step(w: DirectoryWatcher, v: WatcherView, fs: FileSystem, call: WatcherCall): (WatcherView, Callbacks) {
    match call
    case CreateCall(key, context) => CreateStep(w, v, fs, key, context)
    case ModifyCall(key, context) => (v, Notified(w, v, Modified, key, context))
    case DeleteCall(key, context) => (v, Notified(w, v, Deleted, key, context))
    case KeyInvalidCall(key) => (Invalidated(v, key), [])
  }

  // ---------------------------------------------------------------------
  // Lemmas.

  /** Every handler ignores a key the watcher does not track: no change, no callback. */
  lemma ForeignKeyIgnored(w: DirectoryWatcher, v: WatcherView, fs: FileSystem, call: WatcherCall)
    requires call.key !in v.keys
    ensures Step(w, v, fs, call) == (v, [])
  {
  }

  /** `handleKeyInvalid` removes that key alone and makes no callback. */
  lemma KeyInvalidRemovesOnlyThatKey(w: DirectoryWatcher, v: WatcherView, fs: FileSystem, key: WatchKey)
    ensures Step(w, v, fs, KeyInvalidCall(key)) == (v.(keys := v.keys - {key}), [])
  {
    if key !in v.keys {
      assert v.keys - {key} == v.keys;
    }
  }

  /** A create event for something that is not a directory reports nothing and registers nothing. */
  lemma CreateOfNonDirectory(w: DirectoryWatcher, v: WatcherView, fs: FileSystem, key: WatchKey, context: Option<Path>)
    requires !IsDirectory(fs, ActualPath(key.dir, context))
    ensures Step(w, v, fs, CreateCall(key, context)) == (v, [])
  {
  }

  /**
   * Every callback a handler makes goes to this watcher with the entry
   * relative to the base path; for an entry under the base that is the
   * entry's own relative path.
   */
  lemma NotifyEntry(w: DirectoryWatcher, v: WatcherView, kind: Kind, r: Path)
    ensures forall c :: c in Notify(w, v, kind, Resolve(v.path, r)) ==> c.watcher == w && c.entry == r
    ensures Tracked(v.includes, v.excludes, PathString(r, v.sep)) ==>
      |Notify(w, v, kind, Resolve(v.path, r))| == |Reacting(v.subscribers, kind)|
    ensures !Tracked(v.includes, v.excludes, PathString(r, v.sep)) ==> Notify(w, v, kind, Resolve(v.path, r)) == []
  {
    RelativizeResolve(v.path, r);
    FanOutOrder(v.subscribers, kind, w, r);
    forall c | c in Notify(w, v, kind, Resolve(v.path, r)) ensures c.watcher == w && c.entry == r {
      var cs := Notify(w, v, kind, Resolve(v.path, r));
      var i :| 0 <= i < |cs| && cs[i] == c;
    }
  }

  /**
   * A create event for a readable directory registers that directory and
   * only directories below it, and changes nothing else.
   */
  lemma CreateRegistersSubtree(w: DirectoryWatcher, v: WatcherView, fs: FileSystem, key: WatchKey, context: Option<Path>)
    requires key in v.keys
    requires var p := ActualPath(key.dir, context); IsDirectory(fs, p) && p !in fs.unreadable
    ensures var p := ActualPath(key.dir, context);
      var v' := Step(w, v, fs, CreateCall(key, context)).0;
      WatchKey(p) in v'.keys && v.keys <= v'.keys &&
      (forall k :: k in v'.keys - v.keys ==> IsPrefix(p, k.dir)) &&
      v' == v.(keys := v'.keys)
  {
    var p := ActualPath(key.dir, context);
    WalkStartsAtDirectory(fs, p);
    var visits := Walk(fs, p).visits;
    WalkNodeUnder(Lookup(fs, p).value, p, fs.unreadable);
    DirKeysMembers(visits);
    assert visits[0].isDir && WatchKey(p) == WatchKey(visits[0].path);
    forall k | k in DirKeys(visits) ensures IsPrefix(p, k.dir) {
      var i :| 0 <= i < |visits| && visits[i].isDir && k == WatchKey(visits[i].path);
      assert visits[i] in visits;
    }
  }

  /**
   * When nothing below the new directory is unreadable, the walk completes:
   * every directory of the subtree is registered and every entry of it is
   * reported as created, in preorder.
   */
  lemma CreateReachesWholeSubtree(w: DirectoryWatcher, v: WatcherView, fs: FileSystem, key: WatchKey, context: Option<Path>)
    requires key in v.keys
    requires var p := ActualPath(key.dir, context); IsDirectory(fs, p) && ReadableBelow(p, fs.unreadable)
    ensures var p := ActualPath(key.dir, context);
      var all := WalkNode(Lookup(fs, p).value, p, {}).visits;
      Step(w, v, fs, CreateCall(key, context)) == (v.(keys := v.keys + DirKeys(all)), NotifyCreated(w, v, all))
  {
    var p := ActualPath(key.dir, context);
    var n := Lookup(fs, p).value;
    WalkNodeReadable(n, p, fs.unreadable);
    WalkNodePrefix(n, p, fs.unreadable);
  }
}
