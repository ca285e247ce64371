/**
 * What the JDK `WatchService` hands over: keys and the events polled from
 * them. Registering a directory again returns its existing key, so a key is
 * identified by the directory it watches (`key.watchable()`).
 */
module Events {
  import opened Wrappers
  import opened Paths

  datatype WatchKey = WatchKey(dir: Path)

  /** `StandardWatchEventKinds`, and any other kind an event might carry. */
  datatype EventKind = Overflow | EntryCreate | EntryModify | EntryDelete | OtherKind(name: string)

  /** A polled event; `context` is the entry's name relative to the key's directory (absent for OVERFLOW). */
  datatype WatchEvent = WatchEvent(kind: EventKind, context: Option<Path>)
}
