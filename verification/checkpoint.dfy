/**
 * The detection checkpoint of ph/last_timestamp.py: at most one stored
 * timestamp (the start of the next detection window), with a default
 * derived from the current time when nothing is stored. Timestamps are
 * epoch seconds; the current time is a parameter.
 */
module Checkpoint {
  import opened Wrappers

  /** `PH_search_interval_minutes` when the environment does not set it. */
  const DefaultSearchIntervalMinutes: int := 30

  /** The checkpoint file: absent, or holding one timestamp. */
  type Store = Option<int>

  /** `load()`: the stored timestamp, else twice the search interval before `now`. */
  function Load(store: Store, now: int, searchIntervalMinutes: int): (t: int)
    ensures store.Some? ==> t == store.value
    ensures store.None? ==> now - t == 2 * searchIntervalMinutes * 60
  {
    match store
    case Some(ts) => ts
    case None => now - searchIntervalMinutes * 2 * 60
  }

  /** `save(ts)`: overwrite the file. */
  function Save(store: Store, ts: int): (s: Store)
    ensures s.Some?
  {
    Some(ts)
  }

  /** `remove()`: delete the file if present. */
  function Remove(store: Store): (s: Store)
    ensures s.None?
  {
    None
  }

  /** A saved timestamp is what the next load returns, whatever the clock says. */
  lemma LoadAfterSave(store: Store, ts: int, now: int, interval: int)
    ensures Load(Save(store, ts), now, interval) == ts
  {
  }

  /** The last save wins. */
  lemma SaveOverwrites(store: Store, a: int, b: int)
    ensures Save(Save(store, a), b) == Save(store, b)
  {
  }

  /** After a remove the load falls back to the default window, and removing again changes nothing. */
  lemma LoadAfterRemove(store: Store, now: int, interval: int)
    ensures Load(Remove(store), now, interval) == now - 2 * interval * 60
    ensures Remove(Remove(store)) == Remove(store)
    ensures Remove(None) == None
  {
  }
}
