/**
 * The one unfinished name registration, whose salt exists nowhere but in its
 * file: `pecu-core/src/registration.rs`, with the order of calls that
 * `pecu-core/src/lib.rs` makes around it.
 */
module Registration {
  import opened Wrappers
  import opened FileStore

  datatype Step = Reserved | Committed

  /** The part of the SDK's pending value that matters here: the salt, and what polling changes. */
  datatype PendingName = PendingName(salt: string, progress: string)

  datatype Record = Record(name: string, keyLabel: string, step: Step, pending: PendingName)

  function Parsed(file: File<Record>): Option<Record> {
    match file
    case Absent => None
    case Torn => None
    case Unsynced(r) => Some(r)
    case Whole(r) => Some(r)
  }

  /** What opening holds: a file that cannot be read is taken for no record. */
  function OpenedAs(file: File<Record>, readable: bool): Option<Record> {
    if readable then Parsed(file) else None
  }

  function Persisted(record: Option<Record>, disk: Disk<Record>, fate: Fate): Disk<Record> {
    if record.None? then disk else Replace(disk, record.value, fate)
  }

  function PersistOutcome(record: Option<Record>, fate: Fate): Outcome {
    if record.None? then Done else ReplaceOutcome(fate)
  }

  /** Removing the file either happens or does not; nothing else of the disk moves. */
  function Removed(disk: Disk<Record>, removed: bool): Disk<Record> {
    if removed then disk.(main := Absent) else disk
  }

  class Reservation {
    const store: Store<Record>
    var record: Option<Record>

    constructor Open(store: Store<Record>, readable: bool)
      ensures record == OpenedAs(store.main, readable) && this.store == store
    {
      this.store := store;
      record := if readable then Parsed(store.main) else None;
    }

    method Persist(fate: Fate) returns (r: Outcome)
      modifies store
      ensures store.View() == Persisted(record, old(store.View()), fate)
      ensures r == PersistOutcome(record, fate)
    {
      if record.None? {
        return Done;
      }
      r := store.ReplaceWith(record.value, fate);
    }

    /** Called before the commitment is broadcast, which must not happen unless this returns `Done`. */
    method Reserve(name: string, keyLabel: string, pending: PendingName, fate: Fate) returns (r: Outcome)
      modifies this, store
      ensures record == Some(Record(name, keyLabel, Reserved, pending))
      ensures store.View() == Persisted(record, old(store.View()), fate)
      ensures r == PersistOutcome(record, fate)
    {
      record := Some(Record(name, keyLabel, Reserved, pending));
      r := Persist(fate);
    }

    method MarkCommitted(fate: Fate) returns (r: Outcome)
      modifies this, store
      ensures record == (if old(record).None? then None else Some(old(record).value.(step := Committed)))
      ensures store.View() == Persisted(record, old(store.View()), fate)
      ensures r == PersistOutcome(record, fate)
    {
      if record.Some? {
        record := Some(record.value.(step := Committed));
      }
      r := Persist(fate);
    }

    method Update(pending: PendingName, fate: Fate) returns (r: Outcome)
      modifies this, store
      ensures record == (if old(record).None? then None else Some(old(record).value.(pending := pending)))
      ensures store.View() == Persisted(record, old(store.View()), fate)
      ensures r == PersistOutcome(record, fate)
    {
      if record.Some? {
        record := Some(record.value.(pending := pending));
      }
      r := Persist(fate);
    }

    method Finish(removed: bool)
      modifies this, store
      ensures record == None
      ensures store.View() == Removed(old(store.View()), removed)
    {
      record := None;
      if removed {
        store.main := Absent;
      }
    }
  }
}
