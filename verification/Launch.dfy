/**
 * The one unfinished currency launch and its best-effort file:
 * `pecu-core/src/launch.rs`, driven as `pecu-core/src/lib.rs` drives it.
 */
module Launch {
  import opened Wrappers
  import opened FileStore

  datatype Step = AwaitingIdentity | ReadyToDefine

  /** `draft` is the form as it stood when the launch was begun, carried whole. */
  datatype Record = Record(identity: string, keyLabel: string, step: Step, draft: string)

  function Parsed(file: File<Record>): Option<Record> {
    match file
    case Absent => None
    case Torn => None
    case Unsynced(r) => Some(r)
    case Whole(r) => Some(r)
  }

  /** What opening holds: a file that cannot be read is taken for no record. */
  function OpenedAs(file: File<Record>, readable: bool): Option<Record> {
    if readable then Parsed(file) else None
  }

  function Persisted(record: Option<Record>, disk: Disk<Record>, fate: Fate): Disk<Record> {
    if record.None? then disk else Replace(disk, record.value, fate)
  }

  function Landed(record: Option<Record>): Option<Record> {
    if record.None? then None else Some(record.value.(step := ReadyToDefine))
  }

  /** A best-effort write: the caller is told nothing, and goes on unless the process itself died. */
  function Survives(record: Option<Record>, fate: Fate): bool {
    record.None? || ReplaceOutcome(fate) != Died
  }

  class Intent {
    const store: Store<Record>
    var record: Option<Record>

    constructor Open(store: Store<Record>, readable: bool)
      ensures record == OpenedAs(store.main, readable) && this.store == store
    {
      this.store := store;
      record := if readable then Parsed(store.main) else None;
    }

    method Persist(fate: Fate) returns (alive: bool)
      modifies store
      ensures store.View() == Persisted(record, old(store.View()), fate)
      ensures alive == Survives(record, fate)
    {
      if record.None? {
        return true;
      }
      var outcome := store.ReplaceWith(record.value, fate);
      return outcome != Died;
    }

    method Begin(identity: string, keyLabel: string, draft: string, fate: Fate) returns (alive: bool)
      modifies this, store
      ensures record == Some(Record(identity, keyLabel, AwaitingIdentity, draft))
      ensures store.View() == Persisted(record, old(store.View()), fate)
      ensures alive == Survives(record, fate)
    {
      record := Some(Record(identity, keyLabel, AwaitingIdentity, draft));
      alive := Persist(fate);
    }

    method IdentityExists(fate: Fate) returns (alive: bool)
      modifies this, store
      ensures record == Landed(old(record))
      ensures store.View() == Persisted(record, old(store.View()), fate)
      ensures alive == Survives(record, fate)
    {
      if record.Some? {
        record := Some(record.value.(step := ReadyToDefine));
      }
      alive := Persist(fate);
    }

    method Finish(removed: bool)
      modifies this, store
      ensures record == None
      ensures store.View() == (if removed then old(store.View()).(main := Absent) else old(store.View()))
    {
      record := None;
      if removed {
        store.main := Absent;
      }
    }
  }

  /** A best-effort write ends nothing but a process that dies in it. */
  lemma OnlyDeathEnds(record: Option<Record>, fate: Fate)
    ensures Survives(record, fate) <==> record.None? || !fate.dies
  {}

  // ---- runs ----

  /**
   * `decided` is the decision a write of which landed, until it is finished
   * with; `landed` whether its name has been reported to exist, and `noted`
   * whether a write made since then landed too. A `blind` process could not
   * read the file and has not replaced it: what it does is not to the decision.
   */
  datatype World = World(disk: Disk<Record>, process: Option<Option<Record>>,
                         decided: Option<Record>, landed: bool, noted: bool, blind: bool)

  datatype Op =
    | Open(readable: bool)
    | Begin(identity: string, keyLabel: string, draft: string, fate: Fate)
    | IdentityExists(fate: Fate)
    | Finish(removed: bool)
    | Die(left: Disk<Record>)

  function Run1(w: World, op: Op): World {
    match op
    case Open(readable) => w.(process := Some(OpenedAs(w.disk.main, readable)), blind := !readable)
    case Die(left) => w.(disk := left, process := None, blind := false)
    case Finish(removed) =>
      if w.process.None? then w
      else
        var disk := if removed then w.disk.(main := Absent) else w.disk;
        if w.blind then w.(disk := disk, process := Some(None)) else World(disk, Some(None), None, false, false, false)
    case Begin(identity, keyLabel, draft, fate) =>
      if w.process.None? then w
      else
        var record := Record(identity, keyLabel, AwaitingIdentity, draft);
        var written := fate.steps >= 4;
        World(Replace(w.disk, record, fate), if fate.dies then None else Some(Some(record)),
              if written then Some(record) else w.decided,
              w.landed && w.blind && !written, w.noted && w.blind && !written, w.blind && !written)
    case IdentityExists(fate) =>
      if w.process.None? then w
      else
        var record := Landed(w.process.value);
        var written := record.Some? && fate.steps >= 4;
        World(Persisted(record, w.disk, fate), if Survives(record, fate) then Some(record) else None,
              if written then record else w.decided,
              w.landed || written || (record.Some? && !w.blind), w.noted || written, w.blind && !written)
  }

  /** The step writes or removes the file. */
  predicate Touches(w: World, op: Op)
    requires w.process.Some?
  {
    match op
    case Begin(_, _, _, fate) => fate.steps >= 4
    case IdentityExists(fate) => w.process.value.Some? && fate.steps >= 4
    case Finish(removed) => removed
    case _ => false
  }

  /**
   * The caller begins nothing while it knows a launch to be in progress, and a
   * blind process leaves a decision's file alone.
   */
  predicate Ordinary(w: World, op: Op) {
    && (op.Die? ==> PowerCut(w.disk, op.left))
    && (op.Begin? && w.process.Some? ==> w.process.value.None?)
    && (w.process.Some? && w.blind && w.decided.Some? ==> !Touches(w, op))
  }

  function StepOf(far: bool): Step {
    if far then ReadyToDefine else AwaitingIdentity
  }

  predicate Sound(w: World) {
    && !w.disk.main.Unsynced?
    && (w.noted ==> w.landed)
    && (w.decided.Some? ==>
          && Parsed(w.disk.main) == Some(w.decided.value.(step := StepOf(w.noted)))
          && (w.process.Some? && !w.blind ==>
                w.process.value in {Some(w.decided.value.(step := StepOf(w.noted))),
                                    Some(w.decided.value.(step := StepOf(w.landed)))}))
  }

  lemma StepIsSound(w: World, op: Op)
    requires Sound(w) && Ordinary(w, op)
    ensures Sound(Run1(w, op))
  {}

  function Run(w: World, ops: seq<Op>): World
    decreases |ops|
  {
    if ops == [] then w else Run(Run1(w, ops[0]), ops[1..])
  }

  predicate OrdinaryRun(w: World, ops: seq<Op>)
    decreases |ops|
  {
    ops == [] || (Ordinary(w, ops[0]) && OrdinaryRun(Run1(w, ops[0]), ops[1..]))
  }

  /**
   * Over every ordinary run, a decision once written is recovered as it was
   * typed until it is finished with, whatever later writes do. What is recovered says the name exists only
   * if that was reported, and exactly when a write made after the report
   * landed: a report whose writes all failed is forgotten, and the launch it
   * was for cannot be resumed.
   */
  lemma {:induction false} DecisionIsRecovered(w: World, ops: seq<Op>)
    requires Sound(w) && OrdinaryRun(w, ops)
    ensures var after := Run(w, ops);
            && Sound(after)
            && (after.decided.Some? ==>
                  && Parsed(after.disk.main) == Some(after.decided.value.(step := StepOf(after.noted)))
                  && (Parsed(after.disk.main).value.step == ReadyToDefine ==> after.landed))
    decreases |ops|
  {
    if ops != [] {
      StepIsSound(w, ops[0]);
      DecisionIsRecovered(Run1(w, ops[0]), ops[1..]);
    }
  }

  /**
   * A name that landed, reported in a write that failed: after a restart the
   * launch is still waiting for a name it already has.
   */
  lemma ALandedNameIsForgotten(identity: string, keyLabel: string, draft: string)
    ensures var record := Record(identity, keyLabel, AwaitingIdentity, draft);
            var begun := Run1(World(Disk(Absent, Absent), Some(None), None, false, false, false),
                              Begin(identity, keyLabel, draft, Fate(4, false)));
            var reported := Run1(begun, IdentityExists(Fate(2, false)));
            var died := Die(Disk(Whole(record), Torn));
            var reopened := Run1(Run1(reported, died), Open(true));
            && Sound(begun) && Ordinary(reported, died)
            && reported.process == Some(Some(record.(step := ReadyToDefine)))
            && reopened.process == Some(Some(record)) && reopened.landed && !reopened.noted
  {
    var record := Record(identity, keyLabel, AwaitingIdentity, draft);
    var begun := World(Disk(Whole(record), Absent), Some(Some(record)), Some(record), false, false, false);
    assert Run1(begun, IdentityExists(Fate(2, false))).disk ==
        Disk(Whole(record), Unsynced(record.(step := ReadyToDefine)));
  }

  /** A decision that was written, and a process that could not read it and begins another: the first is gone. */
  lemma BlindBeginReplaces(first: Record, second: Record)
    requires first.step == second.step == AwaitingIdentity && first != second
    ensures var blind := Run1(World(Disk(Whole(first), Absent), None, Some(first), false, false, false), Open(false));
            var begun := Run1(blind, Begin(second.identity, second.keyLabel, second.draft, Fate(4, false)));
            Sound(blind) && blind.process == Some(None) && Parsed(begun.disk.main) == Some(second)
  {}
}
