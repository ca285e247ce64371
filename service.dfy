/**
 * The routing of `AbstractDirectoryWatchService.handleWatchKey`: each
 * polled event (except OVERFLOW) becomes one handler call, made on every
 * watcher in list order; a key that cannot be reset is then reported
 * invalid to every watcher. The routing is stated for any handler function
 * `step`; module `Service` uses the watcher's own handlers.
 */
module Dispatch {
  import opened Wrappers
  import opened Events
  import opened Watcher
  import opened Seqs

  /** What one handler call does to one watcher: its new view and the callbacks made. */
  type StepFn = (DirectoryWatcher, WatcherView, WatcherCall) -> (WatcherView, Callbacks)

  /** The handler call one polled event becomes: none for OVERFLOW, delete for any kind not named. */
  function EventCall(key: WatchKey, e: WatchEvent): Option<WatcherCall> {
    match e.kind
    case Overflow => None
    case EntryModify => Some(ModifyCall(key, e.context))
    case EntryCreate => Some(CreateCall(key, e.context))
    case _ => Some(DeleteCall(key, e.context))
  }

  /** The calls of the event loop, in event order. */
  function EventCalls(key: WatchKey, events: seq<WatchEvent>): seq<WatcherCall> {
    if events == [] then []
    else
      var n := |events|;
      EventCalls(key, events[..n - 1]) + match EventCall(key, events[n - 1]) case None => [] case Some(c) => [c]
  }

  /** Every handler call `handleWatchKey` makes on each watcher, in order. */
  function Routing(key: Option<WatchKey>, events: seq<WatchEvent>, resetOk: bool): seq<WatcherCall> {
    match key
    case None => []
    case Some(k) => EventCalls(k, events) + if resetOk then [] else [KeyInvalidCall(k)]
  }

  /** The OVERFLOW events among `events`. */
  function Overflows(events: seq<WatchEvent>): seq<WatchEvent> {
    if events == [] then []
    else Overflows(events[..|events| - 1]) + if events[|events| - 1].kind.Overflow? then [events[|events| - 1]] else []
  }

  /** One call made on every watcher: each watcher's new view is what its own handler makes of it. */
  function BroadcastViews(step: StepFn, ws: seq<DirectoryWatcher>, views: seq<WatcherView>, call: WatcherCall): (r: seq<WatcherView>)
    requires |ws| == |views|
    ensures |r| == |ws|
  {
    if ws == [] then []
    else
      var n := |ws|;
      BroadcastViews(step, ws[..n - 1], views[..n - 1], call) + [step(ws[n - 1], views[n - 1], call).0]
  }

  /** The callbacks of one call made on every watcher, in list order. */
  function BroadcastCallbacks(step: StepFn, ws: seq<DirectoryWatcher>, views: seq<WatcherView>, call: WatcherCall): Callbacks
    requires |ws| == |views|
  {
    if ws == [] then []
    else
      var n := |ws|;
      BroadcastCallbacks(step, ws[..n - 1], views[..n - 1], call) + step(ws[n - 1], views[n - 1], call).1
  }

  /** The views after a sequence of calls, each made on every watcher in turn. */
  function After(step: StepFn, ws: seq<DirectoryWatcher>, views: seq<WatcherView>, calls: seq<WatcherCall>): (r: seq<WatcherView>)
    requires |ws| == |views|
    ensures |r| == |ws|
  {
    if calls == [] then views
    else
      var m := |calls|;
      BroadcastViews(step, ws, After(step, ws, views, calls[..m - 1]), calls[m - 1])
  }

  /** The callbacks made by that sequence of calls, in order. */
  function Made(step: StepFn, ws: seq<DirectoryWatcher>, views: seq<WatcherView>, calls: seq<WatcherCall>): Callbacks
    requires |ws| == |views|
  {
    if calls == [] then []
    else
      var m := |calls|;
      Made(step, ws, views, calls[..m - 1]) + BroadcastCallbacks(step, ws, After(step, ws, views, calls[..m - 1]), calls[m - 1])
  }

  // ---------------------------------------------------------------------
  // Lemmas.

  /** Watchers do not interact: each watcher's new view depends on its own view alone. */
  lemma {:induction false} BroadcastViewsAt(step: StepFn, ws: seq<DirectoryWatcher>, views: seq<WatcherView>, call: WatcherCall)
    requires |ws| == |views|
    ensures forall i :: 0 <= i < |ws| ==> BroadcastViews(step, ws, views, call)[i] == step(ws[i], views[i], call).0
  {
    if ws != [] {
      var n := |ws|;
      BroadcastViewsAt(step, ws[..n - 1], views[..n - 1], call);
    }
  }

  /** The view `BroadcastViews` gives one watcher is that watcher's own step. */
  lemma BroadcastViewAt(step: StepFn, ws: seq<DirectoryWatcher>, views: seq<WatcherView>, call: WatcherCall, i: nat)
    requires |ws| == |views| && i < |ws|
    ensures BroadcastViews(step, ws, views, call)[i] == step(ws[i], views[i], call).0
  {
    BroadcastViewsAt(step, ws, views, call);
  }

  /** One more watcher: its callbacks come after the others'. */
  lemma BroadcastStep(step: StepFn, ws: seq<DirectoryWatcher>, views: seq<WatcherView>, call: WatcherCall, i: nat)
    requires |ws| == |views| && i < |ws|
    ensures BroadcastCallbacks(step, ws[..i + 1], views[..i + 1], call) ==
      BroadcastCallbacks(step, ws[..i], views[..i], call) + step(ws[i], views[i], call).1
  {
    assert ws[..i + 1][..i] == ws[..i] && views[..i + 1][..i] == views[..i];
  }

  /** One more call: its broadcast comes after the others'. */
  lemma Snoc(step: StepFn, ws: seq<DirectoryWatcher>, views: seq<WatcherView>, calls: seq<WatcherCall>, call: WatcherCall)
    requires |ws| == |views|
    ensures var before := After(step, ws, views, calls);
      After(step, ws, views, calls + [call]) == BroadcastViews(step, ws, before, call) &&
      Made(step, ws, views, calls + [call]) == Made(step, ws, views, calls) + BroadcastCallbacks(step, ws, before, call)
  {
    assert (calls + [call])[..|calls|] == calls;
  }

  /** A null key makes no call at all. */
  lemma NullKey(step: StepFn, ws: seq<DirectoryWatcher>, views: seq<WatcherView>, events: seq<WatchEvent>, resetOk: bool)
    requires |ws| == |views|
    ensures After(step, ws, views, Routing(None, events, resetOk)) == views
    ensures Made(step, ws, views, Routing(None, events, resetOk)) == []
  {
  }

  /** A single call is one broadcast. */
  lemma SingleCall(step: StepFn, ws: seq<DirectoryWatcher>, views: seq<WatcherView>, call: WatcherCall)
    requires |ws| == |views|
    ensures After(step, ws, views, [call]) == BroadcastViews(step, ws, views, call)
    ensures Made(step, ws, views, [call]) == BroadcastCallbacks(step, ws, views, call)
  {
    assert [call][..0] == [];
    EmptyAppend(Made(step, ws, views, []), BroadcastCallbacks(step, ws, views, call));
  }

  /** A key whose one event makes one call, and which resets, broadcasts that call once. */
  lemma SingleEvent(step: StepFn, ws: seq<DirectoryWatcher>, views: seq<WatcherView>, key: WatchKey, e: WatchEvent, call: WatcherCall)
    requires |ws| == |views| && EventCall(key, e) == Some(call)
    ensures var calls := Routing(Some(key), [e], true);
      calls == [call] &&
      After(step, ws, views, calls) == BroadcastViews(step, ws, views, call) &&
      Made(step, ws, views, calls) == BroadcastCallbacks(step, ws, views, call)
  {
    EventCallsOne(key, e);
    RoutingReset(key, [e]);
    SingleCall(step, ws, views, call);
  }

  /** Running two sequences of calls one after the other is running their concatenation. */
  lemma {:induction false} AfterAppend(step: StepFn, ws: seq<DirectoryWatcher>, views: seq<WatcherView>, a: seq<WatcherCall>, b: seq<WatcherCall>)
    requires |ws| == |views|
    ensures var mid := After(step, ws, views, a);
      After(step, ws, views, a + b) == After(step, ws, mid, b) &&
      Made(step, ws, views, a + b) == Made(step, ws, views, a) + Made(step, ws, mid, b)
  {
    if b == [] {
      AppendEmpty(a, b);
      AppendEmpty(Made(step, ws, views, a), []);
    } else {
      var m := |b|;
      AfterAppend(step, ws, views, a, b[..m - 1]);
      AfterAppendStep(step, ws, views, a, b);
    }
  }

  /** The inductive step of `AfterAppend`: the last call of `b` is the last call of `a + b`. */
  lemma AfterAppendStep(step: StepFn, ws: seq<DirectoryWatcher>, views: seq<WatcherView>, a: seq<WatcherCall>, b: seq<WatcherCall>)
    requires |ws| == |views| && b != []
    requires var mid := After(step, ws, views, a);
      var init := b[..|b| - 1];
      After(step, ws, views, a + init) == After(step, ws, mid, init) &&
      Made(step, ws, views, a + init) == Made(step, ws, views, a) + Made(step, ws, mid, init)
    ensures var mid := After(step, ws, views, a);
      After(step, ws, views, a + b) == After(step, ws, mid, b) &&
      Made(step, ws, views, a + b) == Made(step, ws, views, a) + Made(step, ws, mid, b)
  {
    var init, last := b[..|b| - 1], b[|b| - 1];
    DropLastOfAppend(a, b);
    LastOfAppend(a, b);
    var mid := After(step, ws, views, a);
    var before := After(step, ws, mid, init);
    assert After(step, ws, views, a + b) == BroadcastViews(step, ws, before, last);
    var x, y, z := Made(step, ws, views, a), Made(step, ws, mid, init), BroadcastCallbacks(step, ws, before, last);
    assert Made(step, ws, views, a + b) == x + y + z;
    AppendAssoc3(x, y, z);
  }

  /** The event loop handles the events one at a time, in order. */
  lemma EventCallsSnoc(key: WatchKey, events: seq<WatchEvent>, i: nat)
    requires i < |events|
    ensures EventCalls(key, events[..i + 1]) == EventCalls(key, events[..i]) + EventCalls(key, [events[i]])
  {
    assert events[..i + 1][..i] == events[..i];
    assert [events[i]][..0] == [];
  }

  /** One event makes the call `EventCall` names, or none. */
  lemma EventCallsOne(key: WatchKey, e: WatchEvent)
    ensures EventCalls(key, [e]) == match EventCall(key, e) case None => [] case Some(c) => [c]
  {
    assert [e][..0] == [];
  }

  /** A key that resets is not reported invalid: the calls are the events' own. */
  lemma RoutingReset(key: WatchKey, events: seq<WatchEvent>)
    ensures Routing(Some(key), events, true) == EventCalls(key, events)
  {
    AppendEmpty(EventCalls(key, events), []);
  }

  /**
   * A lone event on a key that resets: OVERFLOW makes no call, MODIFY a
   * `handleModifyEvent`, CREATE a `handleCreateEvent`, and any other kind a
   * `handleDeleteEvent`, each with the event's context.
   */
  lemma EventRouting(key: WatchKey, e: WatchEvent)
    ensures var calls := Routing(Some(key), [e], true);
      (e.kind.Overflow? ==> calls == []) &&
      (e.kind.EntryModify? ==> calls == [ModifyCall(key, e.context)]) &&
      (e.kind.EntryCreate? ==> calls == [CreateCall(key, e.context)]) &&
      (!e.kind.Overflow? && !e.kind.EntryModify? && !e.kind.EntryCreate? ==> calls == [DeleteCall(key, e.context)])
  {
    RoutingReset(key, [e]);
    EventCallsOne(key, e);
  }

  /** OVERFLOW events make no call; every other event makes exactly one, for the signalled key. */
  lemma {:induction false} EventCallsCount(key: WatchKey, events: seq<WatchEvent>)
    ensures |EventCalls(key, events)| == |events| - |Overflows(events)|
    ensures forall c :: c in EventCalls(key, events) ==> c.key == key && !c.KeyInvalidCall?
  {
    if events != [] {
      EventCallsCount(key, events[..|events| - 1]);
    }
  }

  /** Watchers learn of an invalid key exactly when `reset` fails, after all the key's events. */
  lemma KeyInvalidLast(key: WatchKey, events: seq<WatchEvent>, resetOk: bool)
    ensures var r := Routing(Some(key), events, resetOk);
      (KeyInvalidCall(key) in r <==> !resetOk) &&
      (!resetOk ==> r[|r| - 1] == KeyInvalidCall(key)) &&
      (forall i :: 0 <= i < |r| - 1 ==> !r[i].KeyInvalidCall?)
  {
    EventCallsCount(key, events);
    var ec := EventCalls(key, events);
    var r := Routing(Some(key), events, resetOk);
    forall i | 0 <= i < |r| - 1 ensures !r[i].KeyInvalidCall? {
      assert r[i] == ec[i];
      assert ec[i] in ec;
    }
  }
}

/**
 * `AbstractDirectoryWatchService`: the list of watchers it created, and
 * `handleWatchKey` on that list. The events `pollEvents` returns and the
 * outcome of `reset` are inputs.
 */
module Service {
  import opened Wrappers
  import opened Paths
  import opened FileTree
  import opened Events
  import opened Watcher
  import opened Dispatch
  import opened Seqs

  /** The handlers of `DirectoryWatcher`, on the file system `fs`. */
  function Handlers(fs: FileSystem): StepFn {
    (w: DirectoryWatcher, v: WatcherView, call: WatcherCall) => Step(w, v, fs, call)
  }

  /** The views of the watchers in the list. */
  function ViewsOf(ws: seq<DirectoryWatcher>): (r: seq<WatcherView>)
    reads ws
    ensures |r| == |ws| && forall i :: 0 <= i < |ws| ==> r[i] == ws[i].View()
  {
    if ws == [] then [] else ViewsOf(ws[..|ws| - 1]) + [ws[|ws| - 1].View()]
  }

  predicate Distinct(ws: seq<DirectoryWatcher>) {
    forall i, j :: 0 <= i < j < |ws| ==> ws[i] != ws[j]
  }

  /** One `for (DirectoryWatcher watcher : getWatchers())` loop. */
  method DeliverToAll(ws: seq<DirectoryWatcher>, fs: FileSystem, call: WatcherCall) returns (calls: Callbacks)
    requires Distinct(ws)
    modifies ws
    ensures ViewsOf(ws) == BroadcastViews(Handlers(fs), ws, old(ViewsOf(ws)), call)
    ensures calls == BroadcastCallbacks(Handlers(fs), ws, old(ViewsOf(ws)), call)
  {
    ghost var v0 := ViewsOf(ws);
    calls := [];
    var i := 0;
    while i < |ws|
      invariant 0 <= i <= |ws|
      invariant forall j :: i <= j < |ws| ==> ws[j].View() == v0[j]
      invariant forall j :: 0 <= j < i ==> ws[j].View() == Step(ws[j], v0[j], fs, call).0
      invariant calls == BroadcastCallbacks(Handlers(fs), ws[..i], v0[..i], call)
    {
      var c := DeliverOne(ws, i, fs, call);
      calls := calls + c;
      BroadcastStep(Handlers(fs), ws, v0, call, i);
      i := i + 1;
    }
    assert ws[..i] == ws && v0[..i] == v0;
    BroadcastOfSteps(fs, ws, v0, call, ViewsOf(ws));
  }

  /** One iteration of that loop: the `i`-th watcher handles the call, the others keep their state. */
  method DeliverOne(ws: seq<DirectoryWatcher>, i: nat, fs: FileSystem, call: WatcherCall) returns (calls: Callbacks)
    requires Distinct(ws) && i < |ws|
    modifies ws[i]
    ensures (ws[i].View(), calls) == Step(ws[i], old(ws[i].View()), fs, call)
    ensures forall j :: 0 <= j < |ws| && j != i ==> ws[j].View() == old(ws[j].View())
  {
    calls := ws[i].Handle(fs, call);
  }

  /** Views that are each watcher's own step are the broadcast's views. */
  lemma BroadcastOfSteps(fs: FileSystem, ws: seq<DirectoryWatcher>, v0: seq<WatcherView>, call: WatcherCall, after: seq<WatcherView>)
    requires |ws| == |v0| == |after|
    requires forall j :: 0 <= j < |ws| ==> after[j] == Step(ws[j], v0[j], fs, call).0
    ensures after == BroadcastViews(Handlers(fs), ws, v0, call)
  {
    BroadcastViewsAt(Handlers(fs), ws, v0, call);
  }

  /** One iteration of the event loop of `handleWatchKey`. */
  method DeliverEvent(ws: seq<DirectoryWatcher>, fs: FileSystem, key: WatchKey, event: WatchEvent,
                      ghost v0: seq<WatcherView>, ghost done: seq<WatcherCall>) returns (calls: Callbacks)
    requires Distinct(ws) && |v0| == |ws|
    requires ViewsOf(ws) == After(Handlers(fs), ws, v0, done)
    modifies ws
    ensures ViewsOf(ws) == After(Handlers(fs), ws, v0, done + EventCalls(key, [event]))
    ensures Made(Handlers(fs), ws, v0, done + EventCalls(key, [event])) == Made(Handlers(fs), ws, v0, done) + calls
  {
    assert [event][..0] == [];
    if event.kind.Overflow? {
      assert done + EventCalls(key, [event]) == done;
      return [];
    }
    var call;
    if event.kind.EntryModify? {
      call := ModifyCall(key, event.context);
    } else if event.kind.EntryCreate? {
      call := CreateCall(key, event.context);
    } else {
      call := DeleteCall(key, event.context);
    }
    assert EventCalls(key, [event]) == [call];
    calls := DeliverToAll(ws, fs, call);
    Snoc(Handlers(fs), ws, v0, done, call);
  }

  /** The event loop of `handleWatchKey`: each polled event in turn, on every watcher. */
  method DeliverEvents(ws: seq<DirectoryWatcher>, fs: FileSystem, key: WatchKey, events: seq<WatchEvent>) returns (calls: Callbacks)
    requires Distinct(ws)
    modifies ws
    ensures ViewsOf(ws) == After(Handlers(fs), ws, old(ViewsOf(ws)), EventCalls(key, events))
    ensures calls == Made(Handlers(fs), ws, old(ViewsOf(ws)), EventCalls(key, events))
  {
    ghost var v0 := ViewsOf(ws);
    calls := [];
    var i := 0;
    while i < |events|
      invariant 0 <= i <= |events|
      invariant ViewsOf(ws) == After(Handlers(fs), ws, v0, EventCalls(key, events[..i]))
      invariant calls == Made(Handlers(fs), ws, v0, EventCalls(key, events[..i]))
    {
      EventCallsSnoc(key, events, i);
      var c := DeliverEvent(ws, fs, key, events[i], v0, EventCalls(key, events[..i]));
      calls := calls + c;
      i := i + 1;
    }
    assert events[..i] == events;
  }

  class DirectoryWatchService {
    var watchers: seq<DirectoryWatcher>

    ghost predicate Valid()
      reads this
    {
      Distinct(watchers)
    }

    constructor ()
      ensures Valid() && watchers == []
    {
      watchers := [];
    }

    /**
     * `newWatcher(dir, separator)`: a watcher whose constructor walk fails is
     * not created (the `IOException` propagates); otherwise the new watcher,
     * with the caller's separator, is added at the end of the list.
     */
    method NewWatcher(fs: FileSystem, dir: Path, sep: char) returns (w: DirectoryWatcher?)
      requires Valid()
      modifies this
      ensures Valid()
      ensures Walk(fs, dir).failed ==> w == null && watchers == old(watchers)
      ensures !Walk(fs, dir).failed ==>
        w != null && fresh(w) && watchers == old(watchers) + [w] &&
        w.View() == WatcherView(dir, sep, [], [], [], DirKeys(Walk(fs, dir).visits))
    {
      if Walk(fs, dir).failed {
        return null;
      }
      w := new DirectoryWatcher(fs, dir, sep);
      watchers := watchers + [w];
    }

    /** `close`: the watch service is closed and the list cleared. */
    method Close()
      modifies this
      ensures Valid() && watchers == []
    {
      watchers := [];
    }

    /**
     * `handleWatchKey`, given the events `pollEvents` returns and the
     * result of `reset`. A null key does nothing.
     */
    method HandleWatchKey(key: Option<WatchKey>, events: seq<WatchEvent>, resetOk: bool, fs: FileSystem) returns (calls: Callbacks)
      requires Valid()
      modifies watchers
      ensures ViewsOf(watchers) == After(Handlers(fs), watchers, old(ViewsOf(watchers)), Routing(key, events, resetOk))
      ensures calls == Made(Handlers(fs), watchers, old(ViewsOf(watchers)), Routing(key, events, resetOk))
    {
      calls := DeliverKey(watchers, fs, key, events, resetOk);
    }
  }

  /** `handleWatchKey` on the watcher list: a null key does nothing; otherwise its events, then the reset. */
  method DeliverKey(ws: seq<DirectoryWatcher>, fs: FileSystem, k: Option<WatchKey>, events: seq<WatchEvent>, resetOk: bool) returns (calls: Callbacks)
    requires Distinct(ws)
    modifies ws
    ensures ViewsOf(ws) == After(Handlers(fs), ws, old(ViewsOf(ws)), Routing(k, events, resetOk))
    ensures calls == Made(Handlers(fs), ws, old(ViewsOf(ws)), Routing(k, events, resetOk))
  {
    ghost var v0 := ViewsOf(ws);
    if k.None? {
      NullKey(Handlers(fs), ws, v0, events, resetOk);
      return [];
    }
    var key := k.value;
    ghost var done := EventCalls(key, events);
    calls := DeliverEvents(ws, fs, key, events);
    if resetOk {
      RoutingReset(key, events);
    } else {
      var c := DeliverToAll(ws, fs, KeyInvalidCall(key));
      Snoc(Handlers(fs), ws, v0, done, KeyInvalidCall(key));
      calls := calls + c;
    }
  }

  // ---------------------------------------------------------------------
  // Lemmas.

  /** A call for a key no watcher tracks changes no watcher and calls nobody. */
  lemma {:induction false} BroadcastForeign(fs: FileSystem, ws: seq<DirectoryWatcher>, views: seq<WatcherView>, call: WatcherCall)
    requires |ws| == |views|
    requires forall i :: 0 <= i < |views| ==> call.key !in views[i].keys
    ensures BroadcastViews(Handlers(fs), ws, views, call) == views
    ensures BroadcastCallbacks(Handlers(fs), ws, views, call) == []
  {
    if ws != [] {
      var n := |ws|;
      BroadcastForeign(fs, ws[..n - 1], views[..n - 1], call);
      ForeignKeyIgnored(ws[n - 1], views[n - 1], fs, call);
      SplitLast(views);
    } else {
      assert views == [];
    }
  }

  /** Calls for a key that no watcher tracks are ignored by all of them. */
  lemma {:induction false} ForeignKeyIgnoredByAll(fs: FileSystem, ws: seq<DirectoryWatcher>, views: seq<WatcherView>, key: WatchKey, calls: seq<WatcherCall>)
    requires |ws| == |views|
    requires forall i :: 0 <= i < |views| ==> key !in views[i].keys
    requires forall c :: c in calls ==> c.key == key
    ensures After(Handlers(fs), ws, views, calls) == views && Made(Handlers(fs), ws, views, calls) == []
  {
    if calls != [] {
      var m := |calls|;
      assert forall c :: c in calls[..m - 1] ==> c in calls;
      ForeignKeyIgnoredByAll(fs, ws, views, key, calls[..m - 1]);
      assert calls[m - 1] in calls;
      BroadcastForeign(fs, ws, views, calls[m - 1]);
    }
  }

  /** The whole of `handleWatchKey` for a key no watcher tracks: nothing happens. */
  lemma ForeignWatchKey(fs: FileSystem, ws: seq<DirectoryWatcher>, views: seq<WatcherView>, key: WatchKey, events: seq<WatchEvent>, resetOk: bool)
    requires |ws| == |views|
    requires forall i :: 0 <= i < |views| ==> key !in views[i].keys
    ensures var calls := Routing(Some(key), events, resetOk);
      After(Handlers(fs), ws, views, calls) == views && Made(Handlers(fs), ws, views, calls) == []
  {
    EventCallsCount(key, events);
    ForeignKeyIgnoredByAll(fs, ws, views, key, Routing(Some(key), events, resetOk));
  }

  /** `handleModifyEvent` changes no watcher's state. */
  lemma {:induction false} ModifyKeepsViews(fs: FileSystem, ws: seq<DirectoryWatcher>, views: seq<WatcherView>, key: WatchKey, context: Option<Path>)
    requires |ws| == |views|
    ensures BroadcastViews(Handlers(fs), ws, views, ModifyCall(key, context)) == views
  {
    if ws != [] {
      var n := |ws|;
      ModifyKeepsViews(fs, ws[..n - 1], views[..n - 1], key, context);
      SplitLast(views);
    } else {
      assert views == [];
    }
  }

  /** A MODIFY event changes no watcher; every watcher in list order handles it as `handleModifyEvent`. */
  lemma ModifyFansOut(fs: FileSystem, ws: seq<DirectoryWatcher>, views: seq<WatcherView>, key: WatchKey, context: Option<Path>)
    requires |ws| == |views|
    ensures var calls := Routing(Some(key), [WatchEvent(EntryModify, context)], true);
      calls == [ModifyCall(key, context)] &&
      After(Handlers(fs), ws, views, calls) == views &&
      Made(Handlers(fs), ws, views, calls) == BroadcastCallbacks(Handlers(fs), ws, views, ModifyCall(key, context))
  {
    var m := ModifyCall(key, context);
    var ev := WatchEvent(EntryModify, context);
    SingleEvent(Handlers(fs), ws, views, key, ev, m);
    ModifyKeepsViews(fs, ws, views, key, context);
  }
}
