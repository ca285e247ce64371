/**
 * The event scenarios of `DirectoryWatcherTest`, on a watcher of the test
 * folder `watcher_test` with no filters and one subscriber.
 */
module WatcherExamples {
  import opened Wrappers
  import opened Paths
  import opened FileTree
  import opened Subscribers
  import opened Events
  import opened Filters
  import opened Watcher

  const Root: Path := ["watcher_test"]
  const RootKey := WatchKey(Root)

  /**
   * A watcher of the test folder with a single subscriber, tracking only the
   * folder's own key.
   */
  function Fresh(sub: Subscriber): WatcherView {
    WatcherView(Root, '/', [sub], [], [], {RootKey})
  }

  /**
   * A test folder holding only `newdir1/newdir2`. The fixture's other
   * entries are left out; a create of `newdir1` does not walk them.
   */
  const NestedDirs := FileSystem([Dir("watcher_test", [Dir("newdir1", [Dir("newdir2", [])])])], {})

  /** The subscriber of the create tests: it overrides `entryCreated` only. */
  const CreateListener := Hooks(0, {Created})

  const NewDir1: Path := Root + ["newdir1"]
  const NewDir2: Path := Root + ["newdir1", "newdir2"]

  /** The walk of the new directory visits it and then its subdirectory. */
  lemma NestedWalk()
    ensures IsDirectory(NestedDirs, NewDir1)
    ensures Walk(NestedDirs, NewDir1).visits == [Visit(NewDir1, true), Visit(NewDir2, true)]
  {
    var n2 := Dir("newdir2", []);
    var n1 := Dir("newdir1", [n2]);
    var top := Dir("watcher_test", [n1]);
    assert LookupFrom(n1, []) == Some(n1);
    assert Child([n1], "newdir1") == Some(n1);
    assert NewDir1[1..] == ["newdir1"] && NewDir1[1..][1..] == [];
    assert LookupFrom(top, ["newdir1"]) == Some(n1);
    assert Child(NestedDirs.root, "watcher_test") == Some(top);
    assert Lookup(NestedDirs, NewDir1) == Some(n1);
    assert NewDir1 + [n2.name] == NewDir2;
    assert WalkNode(n2, NewDir2, {}) == Walked([Visit(NewDir2, true)], false);
    assert WalkChildren([n2], NewDir1, {}) == Walked([Visit(NewDir2, true)], false);
  }

  lemma NestedKeys(visits: seq<Visit>)
    requires visits == [Visit(NewDir1, true), Visit(NewDir2, true)]
    ensures DirKeys(visits) == {WatchKey(NewDir1), WatchKey(NewDir2)}
  {
    assert visits[..1] == [Visit(NewDir1, true)];
    assert visits[..1][..0] == [];
    assert DirKeys(visits[..1]) == {WatchKey(NewDir1)};
    assert |visits| == 2 && visits[1].isDir && visits[1].path == NewDir2;
  }

  /** A tracked entry below the root reaches the create listener with its relative path. */
  lemma CreatedReport(w: DirectoryWatcher, r: Path)
    ensures Notify(w, Fresh(CreateListener), Created, Root + r) == [Callback(CreateListener, Hook(Created), w, r)]
  {
    assert Root + r == Resolve(Root, r);
    RelativizeResolve(Root, r);
    NoFiltersTrackAll(PathString(r, '/'));
    assert [CreateListener][..0] == [];
    assert FanOut([CreateListener], Created, w, r) == [Callback(CreateListener, Hook(Created), w, r)];
  }

  lemma NestedReports(w: DirectoryWatcher, visits: seq<Visit>)
    requires visits == [Visit(NewDir1, true), Visit(NewDir2, true)]
    ensures NotifyCreated(w, Fresh(CreateListener), visits) ==
      [Callback(CreateListener, Hook(Created), w, ["newdir1"]),
       Callback(CreateListener, Hook(Created), w, ["newdir1", "newdir2"])]
  {
    var v := Fresh(CreateListener);
    CreatedReport(w, ["newdir1"]);
    CreatedReport(w, ["newdir1", "newdir2"]);
    assert visits[..1] == [Visit(NewDir1, true)];
    assert visits[..1][..0] == [];
    assert NotifyCreated(w, v, visits[..1]) == [Callback(CreateListener, Hook(Created), w, ["newdir1"])];
  }

  /**
   * Creating `newdir1/newdir2`: the create event for `newdir1` walks the new
   * directory, registers both directories, and reports `newdir1` and then
   * `newdir1/newdir2` as created, and nothing else.
   */
  lemma CreateNestedDirectories(w: DirectoryWatcher)
    ensures Step(w, Fresh(CreateListener), NestedDirs, CreateCall(RootKey, Some(["newdir1"]))) ==
      (Fresh(CreateListener).(keys := {RootKey, WatchKey(NewDir1), WatchKey(NewDir2)}),
       [Callback(CreateListener, Hook(Created), w, ["newdir1"]),
        Callback(CreateListener, Hook(Created), w, ["newdir1", "newdir2"])])
  {
    assert ActualPath(RootKey.dir, Some(["newdir1"])) == NewDir1;
    NestedWalk();
    var visits := Walk(NestedDirs, NewDir1).visits;
    NestedKeys(visits);
    NestedReports(w, visits);
    var v := Fresh(CreateListener);
    assert RootKey in v.keys;
    assert CreateStep(w, v, NestedDirs, RootKey, Some(["newdir1"])) ==
      (v.(keys := v.keys + DirKeys(visits)), NotifyCreated(w, v, visits));
    assert v.keys + DirKeys(visits) == {RootKey, WatchKey(NewDir1), WatchKey(NewDir2)};
  }

  /** The subscriber of the `DirectoryChangedSubscriber` test. */
  const ChangeListener := Changed(0)

  /**
   * Writing to `file` in the test folder: the modify event for it reaches
   * `directoryChanged` once, with the path `file`, and changes no key.
   */
  lemma ModifiedFileReachesDirectoryChanged(w: DirectoryWatcher, fs: FileSystem)
    ensures Step(w, Fresh(ChangeListener), fs, ModifyCall(RootKey, Some(["file"]))) ==
      (Fresh(ChangeListener), [Callback(ChangeListener, DirectoryChanged, w, ["file"])])
  {
    var v := Fresh(ChangeListener);
    var entry := ActualPath(RootKey.dir, Some(["file"]));
    assert entry == Resolve(Root, ["file"]);
    RelativizeResolve(Root, ["file"]);
    NoFiltersTrackAll(PathString(["file"], '/'));
    assert [ChangeListener][..0] == [];
    var r := [Callback(ChangeListener, DirectoryChanged, w, ["file"])];
    assert FanOut([ChangeListener], Modified, w, ["file"]) == r;
    assert Notify(w, v, Modified, entry) == r;
    assert Notified(w, v, Modified, RootKey, Some(["file"])) == r;
  }
}
