/** Every run of the reservation: a salt whose commitment was broadcast is never lost before it is finished with. */
module RegistrationRuns {
  import opened Wrappers
  import opened FileStore
  import opened Registration

  /**
   * `process` is the record a running process holds; `owed` the broadcast salt,
   * until finished with; a `blind` process could not read the file and has not
   * replaced it.
   */
  datatype World = World(disk: Disk<Record>, process: Option<Option<Record>>, owed: Option<string>, blind: bool)

  datatype Op =
    | Open(readable: bool)
    | Reserve(name: string, keyLabel: string, pending: PendingName, fate: Fate)
    | MarkCommitted(fate: Fate)
    | Update(pending: PendingName, fate: Fate)
    | Finish(removed: bool)
    | Die(left: Disk<Record>)

  predicate Writes(op: Op) {
    op.Reserve? || op.MarkCommitted? || op.Update?
  }

  function After(record: Option<Record>, op: Op): Option<Record>
    requires Writes(op)
  {
    match op
    case Reserve(name, keyLabel, pending, _) => Some(Record(name, keyLabel, Reserved, pending))
    case MarkCommitted(_) => if record.None? then None else Some(record.value.(step := Committed))
    case Update(pending, _) => if record.None? then None else Some(record.value.(pending := pending))
  }

  predicate Holds(record: Option<Record>, salt: string) {
    record.Some? && record.value.pending.salt == salt
  }

  /** Finishing is with what the process holds: a salt it does not know of is still owed. */
  function Step(w: World, op: Op): World {
    match op
    case Open(readable) => w.(process := Some(OpenedAs(w.disk.main, readable)), blind := !readable)
    case Die(left) => w.(disk := left, process := None, blind := false)
    case Finish(removed) =>
      if w.process.None? then w
      else World(Removed(w.disk, removed), Some(None),
                 if w.owed.Some? && Holds(w.process.value, w.owed.value) then None else w.owed, w.blind)
    case _ =>
      if w.process.None? then w
      else
        var after := After(w.process.value, op);
        var outcome := PersistOutcome(after, op.fate);
        World(Persisted(after, w.disk, op.fate),
              if outcome == Died then None else Some(after),
              if op.Reserve? && outcome == Done then Some(op.pending.salt) else w.owed,
              w.blind && !(after.Some? && op.fate.steps >= 4))
  }

  /** The step leaves the file its salt: nothing is replaced or removed, or only by what holds the same one. */
  predicate SparesTheSalt(w: World, op: Op, salt: string)
    requires w.process.Some?
  {
    if Writes(op) then
      After(w.process.value, op).None? || op.fate.steps < 4 || Holds(After(w.process.value, op), salt)
    else op.Finish? ==> !op.removed || Holds(w.process.value, salt)
  }

  /**
   * What the caller and the SDK do: never reserve over a registration they know
   * to be in progress, never change a salt. And a blind process spares the salt
   * on a file it could not read.
   */
  predicate Ordinary(w: World, op: Op) {
    && (op.Die? ==> PowerCut(w.disk, op.left))
    && (w.process.Some? && op.Reserve? ==> w.process.value.None?)
    && (w.process.Some? && w.process.value.Some? && op.Update? ==>
        op.pending.salt == w.process.value.value.pending.salt)
    && (w.process.Some? && w.blind && w.owed.Some? ==> SparesTheSalt(w, op, w.owed.value))
  }

  predicate Sound(w: World) {
    && !w.disk.main.Unsynced?
    && (w.owed.Some? ==>
          && Holds(Parsed(w.disk.main), w.owed.value)
          && (w.process.Some? && !w.blind ==> Holds(w.process.value, w.owed.value)))
  }

  /** Whatever the process knows of the file, a step leaves a broadcast salt there exactly when it spares it. */
  lemma SaltStaysExactlyWhenSpared(w: World, op: Op, salt: string)
    requires !w.disk.main.Unsynced? && Holds(Parsed(w.disk.main), salt) && w.process.Some?
    requires Writes(op) || op.Finish?
    requires op.Finish? ==> !Holds(w.process.value, salt)
    ensures Holds(Parsed(Step(w, op).disk.main), salt) <==> SparesTheSalt(w, op, salt)
  {
    if Writes(op) {
      var after := After(w.process.value, op);
      if after.Some? {
        ReplaceIsAtomic(w.disk, after.value, op.fate, Persisted(after, w.disk, op.fate));
      }
    }
  }

  lemma StepIsSound(w: World, op: Op)
    requires Sound(w) && Ordinary(w, op)
    ensures Sound(Step(w, op))
  {
    if Writes(op) && w.process.Some? {
      var after := After(w.process.value, op);
      if after.Some? {
        ReplaceIsAtomic(w.disk, after.value, op.fate, Persisted(after, w.disk, op.fate));
      }
    }
  }

  function Run(w: World, ops: seq<Op>): World
    decreases |ops|
  {
    if ops == [] then w else Run(Step(w, ops[0]), ops[1..])
  }

  predicate OrdinaryRun(w: World, ops: seq<Op>)
    decreases |ops|
  {
    ops == [] || (Ordinary(w, ops[0]) && OrdinaryRun(Step(w, ops[0]), ops[1..]))
  }

  /** Over every ordinary run, reading the file recovers the salt of the commitment that was broadcast. */
  lemma {:induction false} BroadcastSaltIsRecovered(w: World, ops: seq<Op>)
    requires Sound(w) && OrdinaryRun(w, ops)
    ensures Sound(Run(w, ops))
    ensures Run(w, ops).owed.Some? ==> Holds(Parsed(Run(w, ops).disk.main), Run(w, ops).owed.value)
    decreases |ops|
  {
    if ops != [] {
      StepIsSound(w, ops[0]);
      BroadcastSaltIsRecovered(Step(w, ops[0]), ops[1..]);
    }
  }

  /**
   * The store itself does not refuse a second reservation, so the caller's guard
   * is needed. Reserving in a live process over a broadcast salt keeps it exactly when
   * the salt is the same one, or the process died before the rename.
   */
  lemma ReservingOverASalt(w: World, name: string, keyLabel: string, pending: PendingName, fate: Fate)
    requires Sound(w) && w.owed.Some? && w.process.Some?
    ensures var after := Step(w, Reserve(name, keyLabel, pending, fate));
            Holds(Parsed(after.disk.main), w.owed.value) <==> pending.salt == w.owed.value || fate.steps < 4
  {}

  /**
   * A name is reserved and its commitment sent, the process ends, the next one
   * cannot read the file and reserves a name of its own. The first salt is gone.
   */
  lemma BlindReserveLosesASalt(first: PendingName, second: PendingName)
    requires first.salt != second.salt
    ensures var launched := World(Disk(Absent, Absent), Some(None), None, false);
            var reserved := Step(launched, Reserve("a", "key", first, Fate(4, false)));
            var died := Die(reserved.disk);
            var blind := Step(Step(reserved, died), Open(false));
            var again := Step(blind, Reserve("b", "key", second, Fate(4, false)));
            && Sound(reserved) && Ordinary(reserved, died) && blind.owed == Some(first.salt)
            && blind.process == Some(None) && !Holds(Parsed(again.disk.main), first.salt)
  {
  }

  /** Once finished with, and its file removed, a registration is not found again. */
  lemma FinishedIsNotFound(w: World, readable: bool)
    requires w.process.Some?
    ensures Step(Step(w, Finish(true)), Open(readable)).process == Some(None)
  {}

  /** Marking and updating change the step and the pending part of what is held, and leave whose it is. */
  lemma OnlyProgressChanges(record: Record, op: Op)
    requires op.MarkCommitted? || op.Update?
    ensures var after := After(Some(record), op).value;
            && after.name == record.name && after.keyLabel == record.keyLabel
            && (op.MarkCommitted? ==> after.step == Committed && after.pending == record.pending)
            && (op.Update? ==> after.step == record.step && after.pending == op.pending)
  {}
}
