/**
 * Subscribers: `DirectoryWatcherSubscriber`, whose three hooks do nothing
 * unless a subclass overrides them, and `DirectoryChangedSubscriber`, which
 * forwards all three hooks to `directoryChanged`. What user code does in a
 * hook is not visible here; the model records each call that reaches user
 * code as a `Callback`.
 */
module Subscribers {
  import opened Paths
  import opened Seqs

  datatype Kind = Created | Modified | Deleted

  /**
   * A subscriber object. `Hooks` is a subclass of `DirectoryWatcherSubscriber`
   * overriding the hooks in `overrides`; `Changed` is a subclass of
   * `DirectoryChangedSubscriber`. `id` stands for the object's identity.
   */
  datatype Subscriber = Hooks(id: nat, overrides: set<Kind>) | Changed(id: nat)

  /** The user code a hook call reaches: an overridden hook, or `directoryChanged`. */
  datatype Handler = Hook(kind: Kind) | DirectoryChanged

  /** One call into user code, with the watcher and entry it was given. */
  datatype Callback<W> = Callback(subscriber: Subscriber, handler: Handler, watcher: W, entry: Path)

  /** Whether the `kind` hook of `sub` reaches user code. */
  predicate Reacts(sub: Subscriber, kind: Kind) {
    sub.Changed? || kind in sub.overrides
  }

  function HandlerFor(sub: Subscriber, kind: Kind): Handler {
    if sub.Changed? then DirectoryChanged else Hook(kind)
  }

  /**
   * `sub.entryCreated(watcher, entry)` (or `entryModified`, `entryDeleted`):
   * a hook that is not overridden does nothing; a `DirectoryChangedSubscriber`
   * makes exactly one `directoryChanged` call with the same watcher and entry.
   */
  function Invoke<W>(sub: Subscriber, kind: Kind, watcher: W, entry: Path): (r: seq<Callback<W>>)
    ensures |r| == (if Reacts(sub, kind) then 1 else 0)
    ensures sub.Changed? ==> r == [Callback(sub, DirectoryChanged, watcher, entry)]
    ensures sub.Hooks? && kind !in sub.overrides ==> r == []
  {
    match sub
    case Hooks(_, overrides) => if kind in overrides then [Callback(sub, Hook(kind), watcher, entry)] else []
    case Changed(_) => [Callback(sub, DirectoryChanged, watcher, entry)]
  }

  /** The `for` loop over the subscribers in subscription order. */
  function FanOut<W>(subs: seq<Subscriber>, kind: Kind, watcher: W, entry: Path): seq<Callback<W>> {
    if subs == [] then []
    else FanOut(subs[..|subs| - 1], kind, watcher, entry) + Invoke(subs[|subs| - 1], kind, watcher, entry)
  }

  /** The subscribers whose `kind` hook reaches user code, in order. */
  function Reacting(subs: seq<Subscriber>, kind: Kind): seq<Subscriber> {
    if subs == [] then []
    else Reacting(subs[..|subs| - 1], kind) + (if Reacts(subs[|subs| - 1], kind) then [subs[|subs| - 1]] else [])
  }

  /** `subscribe` appends and `unsubscribe` (`List.remove`) drops the first equal element. */
  function RemoveFirst(subs: seq<Subscriber>, s: Subscriber): seq<Subscriber> {
    if subs == [] then []
    else if subs[0] == s then subs[1..]
    else [subs[0]] + RemoveFirst(subs[1..], s)
  }

  // ---------------------------------------------------------------------
  // Lemmas.

  /**
   * A dispatch calls user code once for every reacting subscriber, in
   * subscription order, each time with the same watcher and entry.
   */
  lemma {:induction false} FanOutOrder<W>(subs: seq<Subscriber>, kind: Kind, watcher: W, entry: Path)
    ensures var r := FanOut(subs, kind, watcher, entry);
      var rs := Reacting(subs, kind);
      |r| == |rs| &&
      forall i :: 0 <= i < |r| ==> r[i] == Callback(rs[i], HandlerFor(rs[i], kind), watcher, entry)
  {
    if subs != [] {
      FanOutOrder(subs[..|subs| - 1], kind, watcher, entry);
    }
  }

  /** The loop reaches one more subscriber: its calls come after the others'. */
  lemma FanOutStep<W>(subs: seq<Subscriber>, i: nat, kind: Kind, watcher: W, entry: Path)
    requires i < |subs|
    ensures FanOut(subs[..i + 1], kind, watcher, entry) == FanOut(subs[..i], kind, watcher, entry) + Invoke(subs[i], kind, watcher, entry)
  {
    assert subs[..i + 1][..i] == subs[..i];
  }

  /** With only `DirectoryChangedSubscriber`s, each subscriber gets one `directoryChanged`, in order. */
  lemma {:induction false} AllChanged<W>(subs: seq<Subscriber>, kind: Kind, watcher: W, entry: Path)
    requires forall i :: 0 <= i < |subs| ==> subs[i].Changed?
    ensures var r := FanOut(subs, kind, watcher, entry);
      |r| == |subs| && forall i :: 0 <= i < |r| ==> r[i] == Callback(subs[i], DirectoryChanged, watcher, entry)
  {
    if subs != [] {
      AllChanged(subs[..|subs| - 1], kind, watcher, entry);
    }
  }

  /** A subscriber overriding only `entryCreated` observes Created dispatches and nothing else. */
  lemma CreatedOnly<W>(id: nat, kind: Kind, watcher: W, entry: Path)
    ensures FanOut([Hooks(id, {Created})], kind, watcher, entry) ==
      if kind == Created then [Callback(Hooks(id, {Created}), Hook(Created), watcher, entry)] else []
  {
    assert [Hooks(id, {Created})][..0] == [];
  }

  /** Unsubscribing removes one occurrence of the subscriber, if there is one, and nothing else. */
  lemma {:induction false} RemoveFirstCount(subs: seq<Subscriber>, s: Subscriber)
    ensures multiset(RemoveFirst(subs, s)) == multiset(subs) - multiset{s}
    ensures s !in subs ==> RemoveFirst(subs, s) == subs
  {
    if subs != [] {
      var t := subs[1..];
      RemoveFirstCount(t, s);
      assert subs == [subs[0]] + t;
      assert multiset(subs) == multiset{subs[0]} + multiset(t);
      if subs[0] != s {
        assert RemoveFirst(subs, s) == [subs[0]] + RemoveFirst(t, s);
        assert multiset(RemoveFirst(subs, s)) == multiset{subs[0]} + multiset(RemoveFirst(t, s));
      }
    }
  }

  /** Where the first occurrence sits, `RemoveFirst` cuts it out. */
  lemma {:induction false} RemoveFirstAt(subs: seq<Subscriber>, s: Subscriber, i: nat)
    requires i <= |subs| && s !in subs[..i] && (i < |subs| ==> subs[i] == s)
    ensures RemoveFirst(subs, s) == if i < |subs| then subs[..i] + subs[i + 1..] else subs
  {
    if subs != [] {
      if i == 0 {
        assert subs[..0] == [];
      } else {
        var t := subs[1..];
        SliceOfTail(subs, i);
        assert s !in t[..i - 1];
        RemoveFirstAt(t, s, i - 1);
        if i < |subs| {
          AppendAssoc3([subs[0]], t[..i - 1], t[i..]);
        }
      }
    }
  }
}
