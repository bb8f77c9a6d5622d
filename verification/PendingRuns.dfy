/**
 * Every run of the pending ledger: writes that stop anywhere, power cuts,
 * restarts, resends. What has been handed to a node stays recoverable.
 */
module PendingRuns {
  import opened Wrappers
  import opened FileStore
  import opened Pending

  /**
   * The disk, the running process if there is one, what is owed (the payments
   * handed to a node and not yet confirmed and forgotten), and whether the
   * process is blind: it could not read the file and has not replaced it.
   */
  datatype World = World(disk: Disk<seq<Record>>, process: Option<Memory>, owed: set<Payment>, blind: bool)

  datatype Op =
    | Open(readable: bool)
    | Commit(txid: string, hex: string, to: string, amount: string, now: nat, fate: Fate)
    | SetState(id: nat, state: State, fate: Fate)
    | NoteCheck(id: nat, fate: Fate)
    | Forget(fate: Fate)
    | Resend(id: nat)
    | Die(left: Disk<seq<Record>>)

  predicate Writes(op: Op) {
    op.Commit? || op.SetState? || op.NoteCheck? || op.Forget?
  }

  /** What a writing operation makes of the records in memory. */
  function After(m: Memory, op: Op): Memory
    requires Writes(op)
  {
    match op
    case Commit(txid, hex, to, amount, now, _) => Added(m, NewRecord(m, txid, hex, to, amount, now))
    case SetState(id, state, _) => WithState(m, id, state)
    case NoteCheck(id, _) => WithCheck(m, id)
    case Forget(_) => WithoutConfirmed(m)
  }

  function ConfirmedPayments(records: seq<Record>): set<Payment> {
    set r | r in records && r.state == Confirmed :: PaymentOf(r)
  }

  /** A caller broadcasts what it committed when, and only when, the commit returned `Done`. */
  function Owed(w: World, m: Memory, op: Op): set<Payment>
    requires Writes(op)
  {
    match op
    case Commit(txid, hex, to, amount, now, fate) =>
      if PersistOutcome(After(m, op), w.disk, fate) == Done
      then w.owed + {PaymentOf(NewRecord(m, txid, hex, to, amount, now))} else w.owed
    case Forget(_) => w.owed - ConfirmedPayments(m.records)
    case _ => w.owed
  }

  function Step(w: World, op: Op): World {
    match op
    case Open(readable) => w.(process := Some(OpenedAs(w.disk, readable)), blind := !readable)
    case Die(left) => w.(disk := left, process := None, blind := false)
    case Resend(id) =>
      if w.process.None? then w
      else
        var records := w.process.value.records;
        var i := IndexOf(records, id);
        if i < |records| then w.(owed := w.owed + {PaymentOf(records[i])}) else w
    case _ =>
      if w.process.None? then w
      else
        var m := w.process.value;
        var after := After(m, op);
        World(Persisted(after, w.disk, op.fate),
              if PersistOutcome(after, w.disk, op.fate) == Died then None else Some(after),
              Owed(w, m, op), w.blind && !Renames(w, op))
  }

  /** The write gets as far as replacing the file. */
  predicate Renames(w: World, op: Op)
    requires Writes(op) && w.process.Some?
  {
    op.fate.steps >= 4 && !NothingToWrite(After(w.process.value, op), w.disk)
  }

  /** The payment a step commits. */
  function Commits(w: World, op: Op): set<Payment> {
    if op.Commit? && w.process.Some?
    then {PaymentOf(NewRecord(w.process.value, op.txid, op.hex, op.to, op.amount, op.now))} else {}
  }

  /** A blind process replaces the file only with one that has every owed payment. */
  predicate ReplacesNothingOwed(w: World, op: Op) {
    Writes(op) && w.process.Some? && w.blind && Renames(w, op) ==>
      w.owed <= Payments(w.process.value.records) + Commits(w, op)
  }

  /** A death leaves what a power cut may leave. */
  predicate Possible(w: World, op: Op) {
    op.Die? ==> PowerCut(w.disk, op.left)
  }

  /** The record a resend takes its bytes from is also on disk. */
  predicate OnRecord(w: World, op: Op) {
    op.Resend? && w.process.Some? ==>
      var records := w.process.value.records;
      var i := IndexOf(records, op.id);
      i < |records| ==> PaymentOf(records[i]) in Payments(Parsed(w.disk.main))
  }

  ghost predicate DistinctIds(records: seq<Record>) {
    forall i, j :: 0 <= i < j < |records| ==> records[i].id != records[j].id
  }

  ghost predicate Sound(w: World) {
    && !w.disk.main.Unsynced?
    && DistinctIds(Parsed(w.disk.main))
    && w.owed <= Payments(Parsed(w.disk.main))
    && (w.process.Some? ==>
          && DistinctIds(w.process.value.records)
          && (forall r :: r in w.process.value.records ==> r.id < w.process.value.next)
          && (!w.blind ==> w.owed <= Payments(w.process.value.records)))
  }

  lemma {:induction false} UnconfirmedMembers(records: seq<Record>)
    ensures forall r :: r in Unconfirmed(records) <==> r in records && r.state != Confirmed
    ensures DistinctIds(records) ==> DistinctIds(Unconfirmed(records))
  {
    if records != [] {
      UnconfirmedMembers(records[1..]);
      assert records == [records[0]] + records[1..];
      if DistinctIds(records) {
        var rest := Unconfirmed(records[1..]);
        forall j | 0 <= j < |rest|
          ensures rest[j].id != records[0].id
        {
          assert rest[j] in records[1..];
        }
      }
    }
  }

  /** How a record may differ after an operation: never in what was paid, never with fewer checks. */
  predicate Descends(before: Record, after: Record) {
    PaymentOf(before) == PaymentOf(after) && before.checks <= after.checks
  }

  /** No operation loses a record, except that forgetting drops the confirmed ones. */
  lemma OnlyConfirmedLeave(m: Memory, op: Op, r: Record)
    requires Writes(op) && r in m.records
    requires op.Forget? ==> r.state != Confirmed
    ensures exists s :: s in After(m, op).records && Descends(r, s)
  {
    var i :| 0 <= i < |m.records| && m.records[i] == r;
    if op.Forget? {
      UnconfirmedMembers(m.records);
      assert Descends(r, r);
    } else {
      var s := After(m, op).records[i];
      assert s in After(m, op).records && Descends(r, s);
    }
  }

  /** And none invents or rewrites one, except the commit of a new payment under a new id. */
  lemma OnlyCommitsAppear(m: Memory, op: Op, s: Record)
    requires Writes(op) && s in After(m, op).records
    ensures || (exists r :: r in m.records && Descends(r, s))
            || (op.Commit? && s == NewRecord(m, op.txid, op.hex, op.to, op.amount, op.now))
  {
    var after := After(m, op).records;
    var i :| 0 <= i < |after| && after[i] == s;
    if op.Forget? {
      UnconfirmedMembers(m.records);
      assert Descends(s, s);
    } else if i < |m.records| {
      assert m.records[i] in m.records && Descends(m.records[i], s);
    }
  }

  lemma AfterKeepsIds(m: Memory, op: Op)
    requires Writes(op) && DistinctIds(m.records)
    requires forall r :: r in m.records ==> r.id < m.next
    ensures DistinctIds(After(m, op).records)
    ensures forall r :: r in After(m, op).records ==> r.id < After(m, op).next
  {
    UnconfirmedMembers(m.records);
    var after := After(m, op);
    if op.Commit? {
      forall i | 0 <= i < |m.records|
        ensures after.records[i].id < m.next
      {
        assert m.records[i] in m.records;
      }
    } else if !op.Forget? {
      assert forall i :: 0 <= i < |after.records| ==>
               m.records[i] in m.records && after.records[i].id == m.records[i].id;
    }
  }

  /** What was owed and what is newly owed is in memory after the operation. */
  lemma AfterKeepsOwed(w: World, m: Memory, op: Op)
    requires Writes(op) && w.process == Some(m) && w.owed <= Payments(m.records) + Commits(w, op)
    ensures Owed(w, m, op) <= Payments(After(m, op).records)
  {
    forall p | p in Owed(w, m, op)
      ensures p in Payments(After(m, op).records)
    {
      if p in Payments(m.records) {
        var r :| r in m.records && PaymentOf(r) == p;
        if !(op.Forget? && r.state == Confirmed) {
          OnlyConfirmedLeave(m, op, r);
        }
      } else {
        var r := NewRecord(m, op.txid, op.hex, op.to, op.amount, op.now);
        assert After(m, op).records[|m.records|] == r;
      }
    }
  }

  lemma AfterHoldsNoMore(w: World, m: Memory, op: Op)
    requires Writes(op) && w.process == Some(m) && Owed(w, m, op) <= Payments(After(m, op).records)
    ensures w.owed <= Payments(m.records) + Commits(w, op)
  {
    forall p | p in w.owed
      ensures p in Payments(m.records) + Commits(w, op)
    {
      if !(op.Forget? && p in ConfirmedPayments(m.records)) {
        assert p in Owed(w, m, op);
        var s :| s in After(m, op).records && PaymentOf(s) == p;
        OnlyCommitsAppear(m, op, s);
      }
    }
  }

  /**
   * Whatever the process knows of the file, a write keeps every owed payment on
   * it if and only if it stops before the rename, has nothing to write, or comes
   * from a memory that, with what it commits, holds them all.
   */
  lemma WriteKeepsOwedExactlyWhen(w: World, op: Op)
    requires Writes(op) && w.process.Some? && !w.disk.main.Unsynced? && w.owed <= Payments(Parsed(w.disk.main))
    ensures Step(w, op).owed <= Payments(Parsed(Step(w, op).disk.main)) <==>
              !Renames(w, op) || w.owed <= Payments(w.process.value.records) + Commits(w, op)
  {
    var m := w.process.value;
    var after := After(m, op);
    if Renames(w, op) {
      assert Step(w, op).disk.main == Whole(after.records);
      if w.owed <= Payments(m.records) + Commits(w, op) {
        AfterKeepsOwed(w, m, op);
      } else if Owed(w, m, op) <= Payments(after.records) {
        AfterHoldsNoMore(w, m, op);
      }
    } else {
      UnrenamedOwesNoMore(w, m, op);
    }
  }

  lemma UnrenamedOwesNoMore(w: World, m: Memory, op: Op)
    requires Writes(op) && w.process == Some(m) && !w.disk.main.Unsynced? && !Renames(w, op)
    ensures Owed(w, m, op) <= w.owed && Step(w, op).disk.main == w.disk.main
  {}

  /** A write that landed put the whole of memory on disk, and opening it again brings exactly that back. */
  lemma LandedWriteIsRestored(m: Memory, disk: Disk<seq<Record>>, fate: Fate)
    requires PersistOutcome(m, disk, fate) == Done
    ensures Opened(Persisted(m, disk, fate)).records == m.records
  {}

  /**
   * A restart goes on numbering where it stopped exactly when the newest record is
   * still held: a forgotten id can return.
   */
  lemma RestartKeepsNumberingExactlyWhen(m: Memory, disk: Disk<seq<Record>>, fate: Fate)
    requires PersistOutcome(m, disk, fate) == Done && m.next >= 1
    requires forall r :: r in m.records ==> r.id < m.next
    ensures var reopened := Opened(Persisted(m, disk, fate)).next;
            && reopened <= m.next
            && (reopened == m.next <==>
                  (exists r :: r in m.records && r.id == m.next - 1) || (m.records == [] && m.next == 1))
  {
    LandedWriteIsRestored(m, disk, fate);
  }

  /** One step, but for a careless resend or a blind replacement, keeps every owed payment on disk and in memory. */
  lemma StepIsSound(w: World, op: Op)
    requires Sound(w) && Possible(w, op) && OnRecord(w, op) && ReplacesNothingOwed(w, op)
    ensures Sound(Step(w, op))
  {
    if Writes(op) && w.process.Some? {
      var m := w.process.value;
      AfterKeepsIds(m, op);
      WriteKeepsOwedExactlyWhen(w, op);
      if w.owed <= Payments(m.records) + Commits(w, op) {
        AfterKeepsOwed(w, m, op);
      }
      var after := After(m, op);
      if !NothingToWrite(after, w.disk) {
        ReplaceIsAtomic(w.disk, after.records, op.fate, Persisted(after, w.disk, op.fate));
      }
    }
  }

  /** For a resend the condition is exact: it is safe if and only if its record is on disk. */
  lemma ResendIsSoundExactlyOnRecord(w: World, id: nat)
    requires Sound(w)
    ensures Sound(Step(w, Resend(id))) <==> OnRecord(w, Resend(id))
  {
    if OnRecord(w, Resend(id)) {
      StepIsSound(w, Resend(id));
    }
  }

  function Run(w: World, ops: seq<Op>): World {
    if ops == [] then w else Step(Run(w, ops[..|ops| - 1]), ops[|ops| - 1])
  }

  ghost predicate Ordinary(w: World, ops: seq<Op>) {
    forall i :: 0 <= i < |ops| ==>
      && Possible(Run(w, ops[..i]), ops[i]) && OnRecord(Run(w, ops[..i]), ops[i])
      && ReplacesNothingOwed(Run(w, ops[..i]), ops[i])
  }

  /**
   * Write before send: at every point of a run, whatever stopped and however
   * often the process died, reading the file recovers the exact bytes of every
   * payment that was handed to a node and not confirmed and forgotten. The runs
   * are all those in which a resend takes its bytes from a record on file, and
   * a process that could not read the file replaces nothing owed.
   */
  lemma {:induction false} EveryOwedPaymentIsRecovered(w: World, ops: seq<Op>)
    requires Sound(w) && Ordinary(w, ops)
    ensures Sound(Run(w, ops))
    ensures Run(w, ops).owed <= Payments(Opened(Run(w, ops).disk).records)
  {
    if ops != [] {
      var before := ops[..|ops| - 1];
      assert forall i :: 0 <= i < |before| ==> before[..i] == ops[..i];
      EveryOwedPaymentIsRecovered(w, before);
      StepIsSound(Run(w, before), ops[|ops| - 1]);
    }
  }

  // ---- what a caller can watch instead ----

  /** Whether the last write this process made, if it made one, returned `Done`. */
  predicate Landed(w: World, ops: seq<Op>) {
    if ops == [] then w.process.None?
    else
      var before, op := ops[..|ops| - 1], ops[|ops| - 1];
      var was := Run(w, before);
      match op
      case Open(readable) => readable
      case Die(_) => true
      case Resend(_) => Landed(w, before)
      case _ =>
        if was.process.None? then Landed(w, before)
        else PersistOutcome(After(was.process.value, op), was.disk, op.fate) == Done
  }

  lemma {:induction false} LandedMeansAllOnDisk(w: World, ops: seq<Op>)
    requires Landed(w, ops)
    ensures var now := Run(w, ops);
            now.process.Some? ==> now.process.value.records == Parsed(now.disk.main)
  {
    if ops != [] {
      var before, op := ops[..|ops| - 1], ops[|ops| - 1];
      var was := Run(w, before);
      if op.Resend? || (Writes(op) && was.process.None?) {
        LandedMeansAllOnDisk(w, before);
      }
    }
  }

  /** Refusing a resend while the last write has not landed is enough. */
  lemma ResendAfterLandedWriteIsSafe(w: World, ops: seq<Op>, id: nat)
    requires Landed(w, ops)
    ensures OnRecord(Run(w, ops), Resend(id))
  {
    LandedMeansAllOnDisk(w, ops);
    var now := Run(w, ops);
    if now.process.Some? {
      var records := now.process.value.records;
      var i := IndexOf(records, id);
      assert i < |records| ==> records[i] in records;
    }
  }

  /**
   * A commit whose write failed leaves its record in memory, where a resend
   * finds it. The bytes go out, the process dies, and nothing recovers them.
   */
  lemma ResendOfAnUnsavedCommitIsLost()
    ensures var launched := Step(World(Disk(Absent, Absent), None, {}, false), Open(true));
            var failed := Step(launched, Commit("tx", "00", "R", "1", 0, Fate(2, false)));
            var resent := Step(failed, Resend(1));
            var died := Die(Disk(Absent, Torn));
            var reopened := Step(Step(resent, died), Open(true));
            && Sound(launched) && Sound(failed) && Possible(resent, died)
            && Payment(1, "tx", "00", "R", "1", 0) in reopened.owed
            && reopened.process == Some(Memory([], 1))
  {
    var launched := Step(World(Disk(Absent, Absent), None, {}, false), Open(true));
    assert launched == World(Disk(Absent, Absent), Some(Memory([], 1)), {}, false);
    var r := Record(1, "tx", "00", "R", "1", 0, 0, Uncertain);
    assert [] + [r] == [r];
    var failed := Step(launched, Commit("tx", "00", "R", "1", 0, Fate(2, false)));
    assert failed == World(Disk(Absent, Unsynced([r])), Some(Memory([r], 2)), {}, false);
    assert IndexOf([r], 1) == 0;
    assert Step(failed, Resend(1)) == failed.(owed := {PaymentOf(r)});
  }

  // ---- a file that could not be read ----

  /**
   * A file nothing could be made of is not left alone: it is there until the
   * first write that gets as far as its rename.
   */
  lemma TornFileIsKeptExactlyWhen(w: World, op: Op)
    requires Writes(op) && w.process.Some? && w.disk.main.Torn?
    ensures Step(w, op).disk.main.Torn? <==> op.fate.steps < 4
  {}

  /**
   * A payment is committed and sent, the process ends, the next one cannot read
   * the file and commits a payment of its own. The first is on no file.
   */
  lemma BlindCommitLosesAPayment()
    ensures var launched := World(Disk(Absent, Absent), Some(Memory([], 1)), {}, false);
            var paid := Step(launched, Commit("first", "00", "R", "1", 0, Fate(4, false)));
            var died := Die(paid.disk);
            var again := Step(Step(Step(paid, died), Open(false)), Commit("second", "01", "R", "1", 0, Fate(4, false)));
            && Sound(paid) && Possible(paid, died)
            && Payment(1, "first", "00", "R", "1", 0) in again.owed
            && Payment(1, "first", "00", "R", "1", 0) !in Payments(Opened(again.disk).records)
  {
    var first := Record(1, "first", "00", "R", "1", 0, 0, Uncertain);
    var second := Record(1, "second", "01", "R", "1", 0, 0, Uncertain);
    var launched := World(Disk(Absent, Absent), Some(Memory([], 1)), {}, false);
    assert [] + [first] == [first] && [] + [second] == [second];
    var paid := Step(launched, Commit("first", "00", "R", "1", 0, Fate(4, false)));
    assert paid == World(Disk(Whole([first]), Absent), Some(Memory([first], 2)), {PaymentOf(first)}, false);
    var blind := Step(Step(paid, Die(paid.disk)), Open(false));
    assert blind == World(paid.disk, Some(Memory([], 1)), {PaymentOf(first)}, true);
    var again := Step(blind, Commit("second", "01", "R", "1", 0, Fate(4, false)));
    assert again.disk.main == Whole([second]);
    assert Payments([second]) == {PaymentOf(second)};
    assert "00" != "01" by { assert "00"[1] != "01"[1]; }
  }
}
