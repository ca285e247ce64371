/**
 * `DirectoryWatcherFactory`, the older event router. It remembers the
 * directories created under watched keys (`dirs`), suppresses MODIFY and
 * DELETE events on them, and forwards everything else to every watcher by
 * calling `directoryCreated`, `directoryDeleted`, `fileCreated`,
 * `fileDeleted` or `fileModified`. Those callees are not part of
 * `DirectoryWatcher` as shown, so each call is recorded in a notification
 * log, and which of the calls declared to throw `IOException` do throw is
 * an input (`failing`).
 */
module Factory {
  import opened Wrappers
  import opened Paths
  import opened FileTree
  import opened Events
  import opened Watcher
  import opened Seqs

  /** A call the factory makes on a watcher. */
  datatype FactoryCall =
    | DirectoryCreated(key: WatchKey, dir: Path)
    | DirectoryDeleted(key: WatchKey)
    | FileCreated(key: WatchKey, file: Path)
    | FileDeleted(key: WatchKey, file: Path)
    | FileModified(key: WatchKey, file: Path)

  /** One entry of the notification log: a call made on one watcher. */
  datatype Notice = Notice(watcher: DirectoryWatcher, call: FactoryCall)

  /** The helpers that declare `throws IOException`; `fileDeleted` and `fileModified` cannot throw it. */
  predicate MayThrow(call: FactoryCall) {
    call.DirectoryCreated? || call.DirectoryDeleted? || call.FileCreated?
  }

  predicate Throws(n: Notice, failing: set<Notice>) {
    MayThrow(n.call) && n in failing
  }

  /** The calls of one `for (DirectoryWatcher watcher : watchers)` loop when none throws. */
  function AllNotices(ws: seq<DirectoryWatcher>, call: FactoryCall): seq<Notice> {
    seq(|ws|, i requires 0 <= i < |ws| => Notice(ws[i], call))
  }

  /** Some watcher's call throws, which ends the loop. */
  predicate Aborted(ws: seq<DirectoryWatcher>, call: FactoryCall, failing: set<Notice>) {
    exists i :: 0 <= i < |ws| && Throws(Notice(ws[i], call), failing)
  }

  /** The calls one loop makes: up to and including the first that throws. */
  function Broadcast(ws: seq<DirectoryWatcher>, call: FactoryCall, failing: set<Notice>): seq<Notice> {
    if ws == [] then []
    else if Throws(Notice(ws[0], call), failing) then [Notice(ws[0], call)]
    else [Notice(ws[0], call)] + Broadcast(ws[1..], call, failing)
  }

  /** One of the calls made threw `IOException`. */
  predicate AnyThrows(ns: seq<Notice>, failing: set<Notice>) {
    exists i :: 0 <= i < |ns| && Throws(ns[i], failing)
  }

  /** A loop is cut short exactly when one of the calls it made threw. */
  lemma {:induction false} AbortedIffAnyThrows(ws: seq<DirectoryWatcher>, call: FactoryCall, failing: set<Notice>)
    ensures AnyThrows(Broadcast(ws, call, failing), failing) <==> Aborted(ws, call, failing)
  {
    if ws != [] && !Throws(Notice(ws[0], call), failing) {
      var b := Broadcast(ws[1..], call, failing);
      AbortedIffAnyThrows(ws[1..], call, failing);
      if AnyThrows(b, failing) {
        var i :| 0 <= i < |b| && Throws(b[i], failing);
        assert ([Notice(ws[0], call)] + b)[i + 1] == b[i];
      }
      if AnyThrows([Notice(ws[0], call)] + b, failing) {
        var i :| 0 <= i < |b| + 1 && Throws(([Notice(ws[0], call)] + b)[i], failing);
        assert i > 0 && ([Notice(ws[0], call)] + b)[i] == b[i - 1];
      }
      if Aborted(ws, call, failing) {
        var i :| 0 <= i < |ws| && Throws(Notice(ws[i], call), failing);
        assert ws[1..][i - 1] == ws[i];
      }
      if Aborted(ws[1..], call, failing) {
        var i :| 0 <= i < |ws[1..]| && Throws(Notice(ws[1..][i], call), failing);
        assert ws[1..][i] == ws[i + 1];
      }
    } else if ws != [] {
      assert Broadcast(ws, call, failing)[0] == Notice(ws[0], call);
    }
  }

  /** A non-OVERFLOW event carries the entry's name; `resolve(null)` would throw. */
  predicate HasContext(e: WatchEvent) {
    e.kind.Overflow? || e.context.Some?
  }

  /** The `dirs` set and the calls made, after some events. */
  datatype Routed = Routed(dirs: set<Path>, notices: seq<Notice>)

  /** `handleEvent` for one event; an `IOException` from a callee only cuts its loop short. */
  function RouteEvent(dirs: set<Path>, ws: seq<DirectoryWatcher>, key: WatchKey, e: WatchEvent,
                      fs: FileSystem, failing: set<Notice>): Routed
    requires HasContext(e)
  {
    if e.kind.Overflow? then Routed(dirs, [])
    else
      var path := Resolve(key.dir, e.context.value);
      if e.kind.EntryCreate? then
        if IsDirectory(fs, path) then Routed(dirs + {path}, Broadcast(ws, DirectoryCreated(key, path), failing))
        else Routed(dirs, Broadcast(ws, FileCreated(key, path), failing))
      else if e.kind.EntryModify? then
        if path in dirs then Routed(dirs, []) else Routed(dirs, Broadcast(ws, FileModified(key, path), failing))
      else if path in dirs then Routed(dirs, [])
      else Routed(dirs, Broadcast(ws, FileDeleted(key, path), failing))
  }

  /** The `pollEvents` loop of `run`: the events in order, each from the state the previous ones left. */
  function RouteEvents(dirs: set<Path>, ws: seq<DirectoryWatcher>, key: WatchKey, events: seq<WatchEvent>,
                       fs: FileSystem, failing: set<Notice>): Routed
    requires forall i :: 0 <= i < |events| ==> HasContext(events[i])
  {
    if events == [] then Routed(dirs, [])
    else
      var n := |events|;
      var before := RouteEvents(dirs, ws, key, events[..n - 1], fs, failing);
      var last := RouteEvent(before.dirs, ws, key, events[n - 1], fs, failing);
      Routed(last.dirs, before.notices + last.notices)
  }

  /** One pass of `run` for a key: its events, then `handleDirectoryDeleted` if `reset` fails. */
  function RouteKey(dirs: set<Path>, ws: seq<DirectoryWatcher>, key: WatchKey, events: seq<WatchEvent>,
                    resetOk: bool, fs: FileSystem, failing: set<Notice>): Routed
    requires forall i :: 0 <= i < |events| ==> HasContext(events[i])
  {
    var r := RouteEvents(dirs, ws, key, events, fs, failing);
    if resetOk then r
    else Routed(r.dirs - {key.dir}, r.notices + Broadcast(ws, DirectoryDeleted(key), failing))
  }

  class DirectoryWatcherFactory {
    /** `File.separator`, for the watchers it creates. */
    const sep: char
    var dirs: set<Path>
    var watchers: seq<DirectoryWatcher>
    /** Every call made on a watcher, in order. */
    var log: seq<Notice>

    constructor (sep: char)
      ensures this.sep == sep && dirs == {} && watchers == [] && log == []
    {
      this.sep := sep;
      dirs := {};
      watchers := [];
      log := [];
    }

    /** `newWatcher`: the new watcher goes at the end of the list; a failing walk throws. */
    method NewWatcher(fs: FileSystem, dir: Path) returns (w: DirectoryWatcher?)
      modifies this
      ensures dirs == old(dirs) && log == old(log)
      ensures Walk(fs, dir).failed ==> w == null && watchers == old(watchers)
      ensures !Walk(fs, dir).failed ==>
        w != null && fresh(w) && watchers == old(watchers) + [w] &&
        w.View() == WatcherView(dir, sep, [], [], [], DirKeys(Walk(fs, dir).visits))
    {
      if Walk(fs, dir).failed {
        return null;
      }
      w := new DirectoryWatcher(fs, dir, sep);
      watchers := watchers + [w];
    }

    /** One loop over the watchers; `thrown` says whether a callee threw and ended it. */
    method Deliver(call: FactoryCall, failing: set<Notice>) returns (thrown: bool)
      modifies this
      ensures dirs == old(dirs) && watchers == old(watchers)
      ensures log == old(log) + Broadcast(watchers, call, failing)
      ensures thrown <==> Aborted(watchers, call, failing)
    {
      var i := 0;
      while i < |watchers|
        invariant 0 <= i <= |watchers| && dirs == old(dirs) && watchers == old(watchers)
        invariant log + Broadcast(watchers[i..], call, failing) == old(log) + Broadcast(watchers, call, failing)
        invariant forall j :: 0 <= j < i ==> !Throws(Notice(watchers[j], call), failing)
      {
        var n := Notice(watchers[i], call);
        assert watchers[i..][1..] == watchers[i + 1..];
        log := log + [n];
        if Throws(n, failing) {
          return true;
        }
        i := i + 1;
      }
      return false;
    }

    method HandleDirectoryCreated(key: WatchKey, dir: Path, failing: set<Notice>) returns (thrown: bool)
      modifies this
      ensures dirs == old(dirs) + {dir} && watchers == old(watchers)
      ensures log == old(log) + Broadcast(watchers, DirectoryCreated(key, dir), failing)
      ensures thrown <==> Aborted(watchers, DirectoryCreated(key, dir), failing)
    {
      dirs := dirs + {dir};
      thrown := Deliver(DirectoryCreated(key, dir), failing);
    }

    method HandleDirectoryDeleted(key: WatchKey, dir: Path, failing: set<Notice>) returns (thrown: bool)
      modifies this
      ensures dirs == old(dirs) - {dir} && watchers == old(watchers)
      ensures log == old(log) + Broadcast(watchers, DirectoryDeleted(key), failing)
      ensures thrown <==> Aborted(watchers, DirectoryDeleted(key), failing)
    {
      dirs := dirs - {dir};
      thrown := Deliver(DirectoryDeleted(key), failing);
    }

    /** `handleEvent`; `thrown` is the `IOException` it lets escape. */
    method HandleEvent(key: WatchKey, e: WatchEvent, fs: FileSystem, failing: set<Notice>) returns (thrown: bool)
      requires HasContext(e)
      modifies this
      ensures watchers == old(watchers)
      ensures dirs == RouteEvent(old(dirs), watchers, key, e, fs, failing).dirs
      ensures log == old(log) + RouteEvent(old(dirs), watchers, key, e, fs, failing).notices
      ensures thrown <==> AnyThrows(RouteEvent(old(dirs), watchers, key, e, fs, failing).notices, failing)
    {
      if e.kind.Overflow? {
        return false;
      }
      var path := Resolve(key.dir, e.context.value);
      if e.kind.EntryCreate? {
        if IsDirectory(fs, path) {
          AbortedIffAnyThrows(watchers, DirectoryCreated(key, path), failing);
          thrown := HandleDirectoryCreated(key, path, failing);
          return;
        }
        AbortedIffAnyThrows(watchers, FileCreated(key, path), failing);
        thrown := Deliver(FileCreated(key, path), failing);
        return;
      }
      if e.kind.EntryModify? {
        if path in dirs {
          return false;
        }
        AbortedIffAnyThrows(watchers, FileModified(key, path), failing);
        thrown := Deliver(FileModified(key, path), failing);
        return;
      }
      if path in dirs {
        return false;
      }
      AbortedIffAnyThrows(watchers, FileDeleted(key, path), failing);
      thrown := Deliver(FileDeleted(key, path), failing);
    }

    /** The body of `run` for one key: an event that throws is skipped, then the `reset` branch. */
    method HandleKey(key: WatchKey, events: seq<WatchEvent>, resetOk: bool, fs: FileSystem, failing: set<Notice>)
      requires forall i :: 0 <= i < |events| ==> HasContext(events[i])
      modifies this
      ensures watchers == old(watchers)
      ensures dirs == RouteKey(old(dirs), watchers, key, events, resetOk, fs, failing).dirs
      ensures log == old(log) + RouteKey(old(dirs), watchers, key, events, resetOk, fs, failing).notices
    {
      var i := 0;
      while i < |events|
        invariant 0 <= i <= |events| && watchers == old(watchers)
        invariant dirs == RouteEvents(old(dirs), watchers, key, events[..i], fs, failing).dirs
        invariant log == old(log) + RouteEvents(old(dirs), watchers, key, events[..i], fs, failing).notices
      {
        assert events[..i + 1][..i] == events[..i];
        var _ := HandleEvent(key, events[i], fs, failing);
        i := i + 1;
      }
      assert events[..i] == events;
      if !resetOk {
        var _ := HandleDirectoryDeleted(key, key.dir, failing);
      }
    }
  }

  // ---------------------------------------------------------------------
  // Lemmas.

  /**
   * A loop calls the watchers in list order, each once, and stops exactly
   * after the first call that throws; calls that cannot throw reach every
   * watcher.
   */
  lemma {:induction false} BroadcastOrder(ws: seq<DirectoryWatcher>, call: FactoryCall, failing: set<Notice>)
    ensures var r := Broadcast(ws, call, failing);
      |r| <= |ws| && r == AllNotices(ws, call)[..|r|] &&
      (forall i :: 0 <= i < |r| - 1 ==> !Throws(r[i], failing)) &&
      (Aborted(ws, call, failing) <==> |r| > 0 && Throws(r[|r| - 1], failing)) &&
      (!Aborted(ws, call, failing) ==> r == AllNotices(ws, call))
  {
    if ws != [] {
      BroadcastOrder(ws[1..], call, failing);
      AbortedCons(ws, call, failing);
      AllNoticesCons(ws, call);
      var n := Notice(ws[0], call);
      if !Throws(n, failing) {
        var t := Broadcast(ws[1..], call, failing);
        ConsPrefix(n, t, AllNotices(ws[1..], call));
      }
    }
  }

  /** The loop's first call throws, or a later one does. */
  lemma AbortedCons(ws: seq<DirectoryWatcher>, call: FactoryCall, failing: set<Notice>)
    requires ws != []
    ensures Aborted(ws, call, failing) <==> Throws(Notice(ws[0], call), failing) || Aborted(ws[1..], call, failing)
  {
    if Aborted(ws, call, failing) && !Throws(Notice(ws[0], call), failing) {
      var i :| 0 <= i < |ws| && Throws(Notice(ws[i], call), failing);
      assert Throws(Notice(ws[1..][i - 1], call), failing);
    }
    if Aborted(ws[1..], call, failing) {
      var i :| 0 <= i < |ws[1..]| && Throws(Notice(ws[1..][i], call), failing);
      assert Throws(Notice(ws[i + 1], call), failing);
    }
  }

  lemma AllNoticesCons(ws: seq<DirectoryWatcher>, call: FactoryCall)
    requires ws != []
    ensures AllNotices(ws, call) == [Notice(ws[0], call)] + AllNotices(ws[1..], call)
  {
  }

  /** `fileModified` and `fileDeleted` never throw, so they reach every watcher. */
  lemma FileChangesReachAll(ws: seq<DirectoryWatcher>, call: FactoryCall, failing: set<Notice>)
    requires call.FileModified? || call.FileDeleted?
    ensures Broadcast(ws, call, failing) == AllNotices(ws, call)
  {
    BroadcastOrder(ws, call, failing);
  }

  /** A MODIFY or DELETE of a recorded directory is dropped: no calls, and `dirs` stays as it is. */
  lemma RecordedDirectorySuppressed(dirs: set<Path>, ws: seq<DirectoryWatcher>, key: WatchKey, e: WatchEvent,
                                    fs: FileSystem, failing: set<Notice>)
    requires HasContext(e) && !e.kind.Overflow? && !e.kind.EntryCreate?
    requires Resolve(key.dir, e.context.value) in dirs
    ensures RouteEvent(dirs, ws, key, e, fs, failing) == Routed(dirs, [])
  {
  }

  /**
   * What one event does to `dirs` and which calls it makes: a created
   * directory is recorded before any watcher is told, every call concerns
   * the event's key and its resolved path, and the calls follow the list.
   */
  lemma RouteEventEffect(dirs: set<Path>, ws: seq<DirectoryWatcher>, key: WatchKey, e: WatchEvent,
                         fs: FileSystem, failing: set<Notice>)
    requires HasContext(e)
    ensures var r := RouteEvent(dirs, ws, key, e, fs, failing);
      (e.kind.Overflow? ==> r == Routed(dirs, [])) &&
      (!e.kind.Overflow? ==>
        var path := Resolve(key.dir, e.context.value);
        var call :=
          if e.kind.EntryCreate? then (if IsDirectory(fs, path) then DirectoryCreated(key, path) else FileCreated(key, path))
          else if e.kind.EntryModify? then FileModified(key, path)
          else FileDeleted(key, path);
        r.dirs == (if call.DirectoryCreated? then dirs + {path} else dirs) &&
        |r.notices| <= |ws| && r.notices == AllNotices(ws, call)[..|r.notices|] &&
        (!e.kind.EntryCreate? && path !in dirs ==> r.notices == AllNotices(ws, call)))
  {
    if !e.kind.Overflow? {
      var path := Resolve(key.dir, e.context.value);
      if e.kind.EntryCreate? {
        BroadcastOrder(ws, if IsDirectory(fs, path) then DirectoryCreated(key, path) else FileCreated(key, path), failing);
      } else if e.kind.EntryModify? {
        BroadcastOrder(ws, FileModified(key, path), failing);
      } else {
        BroadcastOrder(ws, FileDeleted(key, path), failing);
      }
    }
  }

  /**
   * Handling a key's events in two parts is handling them all: in
   * particular an event whose loop was cut short by an `IOException`
   * does not keep the later events from being handled.
   */
  lemma {:induction false} RouteEventsAppend(dirs: set<Path>, ws: seq<DirectoryWatcher>, key: WatchKey,
                                             a: seq<WatchEvent>, b: seq<WatchEvent>, fs: FileSystem, failing: set<Notice>)
    requires forall i :: 0 <= i < |a| ==> HasContext(a[i])
    requires forall i :: 0 <= i < |b| ==> HasContext(b[i])
    ensures forall i :: 0 <= i < |a + b| ==> HasContext((a + b)[i])
    ensures var mid := RouteEvents(dirs, ws, key, a, fs, failing);
      var rest := RouteEvents(mid.dirs, ws, key, b, fs, failing);
      RouteEvents(dirs, ws, key, a + b, fs, failing) == Routed(rest.dirs, mid.notices + rest.notices)
  {
    if b == [] {
      AppendEmpty(a, b);
      var mid := RouteEvents(dirs, ws, key, a, fs, failing);
      AppendEmpty(mid.notices, []);
    } else {
      var m := |b|;
      RouteEventsAppend(dirs, ws, key, a, b[..m - 1], fs, failing);
      RouteEventsAppendStep(dirs, ws, key, a, b[..m - 1], b, fs, failing);
    }
  }

  /** The inductive step of `RouteEventsAppend`: the last event of `b` is the last event of `a + b`. */
  lemma RouteEventsAppendStep(dirs: set<Path>, ws: seq<DirectoryWatcher>, key: WatchKey,
                              a: seq<WatchEvent>, init: seq<WatchEvent>, b: seq<WatchEvent>, fs: FileSystem, failing: set<Notice>)
    requires b != [] && init == b[..|b| - 1]
    requires forall i :: 0 <= i < |a| ==> HasContext(a[i])
    requires forall i :: 0 <= i < |b| ==> HasContext(b[i])
    requires forall i :: 0 <= i < |a + init| ==> HasContext((a + init)[i])
    requires forall i :: 0 <= i < |a + b| ==> HasContext((a + b)[i])
    requires var mid := RouteEvents(dirs, ws, key, a, fs, failing);
      var rest := RouteEvents(mid.dirs, ws, key, init, fs, failing);
      RouteEvents(dirs, ws, key, a + init, fs, failing) == Routed(rest.dirs, mid.notices + rest.notices)
    ensures var mid := RouteEvents(dirs, ws, key, a, fs, failing);
      var rest := RouteEvents(mid.dirs, ws, key, b, fs, failing);
      RouteEvents(dirs, ws, key, a + b, fs, failing) == Routed(rest.dirs, mid.notices + rest.notices)
  {
    var e := b[|b| - 1];
    DropLastOfAppend(a, b);
    LastOfAppend(a, b);
    var mid := RouteEvents(dirs, ws, key, a, fs, failing);
    var restInit := RouteEvents(mid.dirs, ws, key, init, fs, failing);
    var last := RouteEvent(restInit.dirs, ws, key, e, fs, failing);
    assert RouteEvents(dirs, ws, key, a + b, fs, failing) == Routed(last.dirs, (mid.notices + restInit.notices) + last.notices);
    assert RouteEvents(mid.dirs, ws, key, b, fs, failing) == Routed(last.dirs, restInit.notices + last.notices);
    AppendAssoc3(mid.notices, restInit.notices, last.notices);
  }

  /** A throwing event is skipped and the next one is still handled, from the state it left. */
  lemma FailureSkipsOnlyThatEvent(dirs: set<Path>, ws: seq<DirectoryWatcher>, key: WatchKey,
                                  events: seq<WatchEvent>, i: nat, fs: FileSystem, failing: set<Notice>)
    requires forall j :: 0 <= j < |events| ==> HasContext(events[j])
    requires i + 1 < |events|
    ensures var before := RouteEvents(dirs, ws, key, events[..i + 1], fs, failing);
      var next := RouteEvent(before.dirs, ws, key, events[i + 1], fs, failing);
      RouteEvents(dirs, ws, key, events[..i + 2], fs, failing) == Routed(next.dirs, before.notices + next.notices)
  {
    assert events[..i + 2][..i + 1] == events[..i + 1];
  }

  /**
   * `dirs` only grows while events are handled, and only by directories
   * that a CREATE event of the key named.
   */
  lemma {:induction false} DirsGrowByCreatedDirectories(dirs: set<Path>, ws: seq<DirectoryWatcher>, key: WatchKey,
                                                        events: seq<WatchEvent>, fs: FileSystem, failing: set<Notice>)
    requires forall i :: 0 <= i < |events| ==> HasContext(events[i])
    ensures var r := RouteEvents(dirs, ws, key, events, fs, failing);
      dirs <= r.dirs &&
      forall p :: p in r.dirs && p !in dirs ==>
        IsDirectory(fs, p) &&
        exists i :: 0 <= i < |events| && events[i].kind.EntryCreate? && events[i].context.Some? &&
          p == Resolve(key.dir, events[i].context.value)
  {
    if events != [] {
      var n := |events|;
      var init := events[..n - 1];
      DirsGrowByCreatedDirectories(dirs, ws, key, init, fs, failing);
      var before := RouteEvents(dirs, ws, key, init, fs, failing);
      var r := RouteEvents(dirs, ws, key, events, fs, failing);
      forall p | p in r.dirs && p !in dirs
        ensures IsDirectory(fs, p) &&
          exists i :: 0 <= i < n && events[i].kind.EntryCreate? && events[i].context.Some? &&
            p == Resolve(key.dir, events[i].context.value)
      {
        if p in before.dirs {
          var i :| 0 <= i < |init| && init[i].kind.EntryCreate? && init[i].context.Some? &&
            p == Resolve(key.dir, init[i].context.value);
          assert events[i] == init[i];
        } else {
          var e := events[n - 1];
          assert e.kind.EntryCreate? && p == Resolve(key.dir, e.context.value);
        }
      }
    }
  }

  /**
   * When `reset` fails the key's directory leaves `dirs` and, after the
   * key's events, every watcher in order is told `directoryDeleted(key)`
   * once, until one of them throws.
   */
  lemma ResetFailure(dirs: set<Path>, ws: seq<DirectoryWatcher>, key: WatchKey, events: seq<WatchEvent>,
                     fs: FileSystem, failing: set<Notice>)
    requires forall i :: 0 <= i < |events| ==> HasContext(events[i])
    ensures var ev := RouteEvents(dirs, ws, key, events, fs, failing);
      var r := RouteKey(dirs, ws, key, events, false, fs, failing);
      var tail := r.notices[|ev.notices|..];
      key.dir !in r.dirs && r.dirs == ev.dirs - {key.dir} &&
      r.notices[..|ev.notices|] == ev.notices &&
      |tail| <= |ws| && tail == AllNotices(ws, DirectoryDeleted(key))[..|tail|] &&
      (!Aborted(ws, DirectoryDeleted(key), failing) ==> tail == AllNotices(ws, DirectoryDeleted(key)))
  {
    BroadcastOrder(ws, DirectoryDeleted(key), failing);
    var ev := RouteEvents(dirs, ws, key, events, fs, failing);
    var r := RouteKey(dirs, ws, key, events, false, fs, failing);
    assert r.notices == ev.notices + Broadcast(ws, DirectoryDeleted(key), failing);
  }

  /** A successful `reset` leaves the state the events left. */
  lemma ResetSuccess(dirs: set<Path>, ws: seq<DirectoryWatcher>, key: WatchKey, events: seq<WatchEvent>,
                     fs: FileSystem, failing: set<Notice>)
    requires forall i :: 0 <= i < |events| ==> HasContext(events[i])
    ensures RouteKey(dirs, ws, key, events, true, fs, failing) == RouteEvents(dirs, ws, key, events, fs, failing)
  {
  }
}
