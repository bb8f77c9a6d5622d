/**
 * The ledger's records over whole runs: which are still there, which a caller
 * may resend, and how an id comes round again.
 */
module PendingHistory {
  import opened Wrappers
  import opened FileStore
  import opened Pending
  import opened PendingRuns

  // ---- records only ever move on ----

  /** A record came of this one: the same payment, checked at least as often. */
  ghost predicate HasHeir(r: Record, records: seq<Record>) {
    exists s :: s in records && Descends(r, s)
  }

  /** Payments a step takes from memory: those it confirms away, and those on a file it opens and cannot read. */
  function Drops(w: World, op: Op): set<Payment> {
    if op.Forget? && w.process.Some? then ConfirmedPayments(w.process.value.records)
    else if op == Open(false) then Payments(Parsed(w.disk.main))
    else {}
  }

  /** What a run dropped after its first `i` steps. */
  function DroppedSince(w: World, ops: seq<Op>, i: nat): set<Payment> {
    if |ops| <= i then {}
    else
      var before := ops[..|ops| - 1];
      DroppedSince(w, before, i) + Drops(Run(w, before), ops[|ops| - 1])
  }

  /** What it committed after them. */
  function CommittedSince(w: World, ops: seq<Op>, i: nat): set<Payment> {
    if |ops| <= i then {}
    else
      var before := ops[..|ops| - 1];
      CommittedSince(w, before, i) + Commits(Run(w, before), ops[|ops| - 1])
  }

  /** What the process now running has dropped: a restart reads back whatever the file still holds, if it can. */
  function DroppedHere(w: World, ops: seq<Op>): set<Payment> {
    if ops == [] then {}
    else if ops[|ops| - 1].Open? then Drops(Run(w, ops[..|ops| - 1]), ops[|ops| - 1])
    else
      var before := ops[..|ops| - 1];
      DroppedHere(w, before) + Drops(Run(w, before), ops[|ops| - 1])
  }

  lemma DescentIsTransitive(a: Record, b: Record, c: Record)
    requires Descends(a, b) && Descends(b, c)
    ensures Descends(a, c)
  {}

  /** A record with an heir in memory has one after a writing step, unless that step forgets it. */
  lemma HeirsGoOn(m: Memory, op: Op, r: Record)
    requires Writes(op) && HasHeir(r, m.records)
    ensures HasHeir(r, After(m, op).records) || (op.Forget? && PaymentOf(r) in ConfirmedPayments(m.records))
  {
    var s :| s in m.records && Descends(r, s);
    if !(op.Forget? && s.state == Confirmed) {
      OnlyConfirmedLeave(m, op, s);
      var t :| t in After(m, op).records && Descends(s, t);
      DescentIsTransitive(r, s, t);
    }
  }

  /** The record has an heir wherever the ledger is kept, or its payment was dropped. */
  ghost predicate Kept(w: World, r: Record, gone: set<Payment>) {
    PaymentOf(r) in gone ||
    (HasHeir(r, Parsed(w.disk.main)) && (w.process.Some? ==> HasHeir(r, w.process.value.records)))
  }

  /** A write leaves the file as it was or makes it what memory is. */
  lemma FileIsOldOrNew(w: World, op: Op)
    requires !w.disk.main.Unsynced? && Possible(w, op)
    ensures var after := Step(w, op);
            && !after.disk.main.Unsynced?
            && (Parsed(after.disk.main) == Parsed(w.disk.main)
                || (Writes(op) && w.process.Some? && Parsed(after.disk.main) == After(w.process.value, op).records))
  {
    if Writes(op) && w.process.Some? {
      var m := After(w.process.value, op);
      if !NothingToWrite(m, w.disk) {
        ReplaceIsAtomic(w.disk, m.records, op.fate, Persisted(m, w.disk, op.fate));
      }
    }
  }

  lemma KeptGoesOn(w: World, op: Op, r: Record, gone: set<Payment>)
    requires !w.disk.main.Unsynced? && Possible(w, op) && Kept(w, r, gone)
    ensures Kept(Step(w, op), r, gone + Drops(w, op))
  {
    FileIsOldOrNew(w, op);
    if PaymentOf(r) !in gone && Writes(op) && w.process.Some? {
      HeirsGoOn(w.process.value, op, r);
    }
  }

  ghost predicate PossibleRun(w: World, ops: seq<Op>) {
    forall i :: 0 <= i < |ops| ==> Possible(Run(w, ops[..i]), ops[i])
  }

  lemma PossibleBefore(w: World, ops: seq<Op>)
    requires ops != [] && PossibleRun(w, ops)
    ensures PossibleRun(w, ops[..|ops| - 1])
    ensures Possible(Run(w, ops[..|ops| - 1]), ops[|ops| - 1])
  {
    var before := ops[..|ops| - 1];
    assert forall i :: 0 <= i < |before| ==> before[..i] == ops[..i];
  }

  lemma {:induction false} RunStaysSynced(w: World, ops: seq<Op>)
    requires !w.disk.main.Unsynced? && PossibleRun(w, ops)
    ensures !Run(w, ops).disk.main.Unsynced?
  {
    if ops != [] {
      PossibleBefore(w, ops);
      RunStaysSynced(w, ops[..|ops| - 1]);
      FileIsOldOrNew(Run(w, ops[..|ops| - 1]), ops[|ops| - 1]);
    }
  }

  /** A running process holds everything on file but what it has itself dropped. */
  lemma {:induction false} FileIsInMemory(w: World, ops: seq<Op>, r: Record)
    requires w.process.None? && !w.disk.main.Unsynced? && PossibleRun(w, ops)
    requires r in Parsed(Run(w, ops).disk.main)
    ensures Kept(Run(w, ops), r, DroppedHere(w, ops))
  {
    assert Descends(r, r);
    if ops != [] {
      var before, op := ops[..|ops| - 1], ops[|ops| - 1];
      PossibleBefore(w, ops);
      RunStaysSynced(w, before);
      FileIsOldOrNew(Run(w, before), op);
      if r in Parsed(Run(w, before).disk.main) {
        FileIsInMemory(w, before, r);
        KeptGoesOn(Run(w, before), op, r, DroppedHere(w, before));
      }
    }
  }

  /**
   * Over every run and between any two moments of it: a record on file at the
   * first is on file at the second, the same payment checked at least as
   * often, unless its payment was confirmed and forgotten, or was on a file
   * that could not be read, in between or by the process running at the first.
   */
  lemma {:induction false} OnlyDroppedRecordsLeave(w: World, ops: seq<Op>, i: nat, r: Record)
    requires w.process.None? && !w.disk.main.Unsynced? && PossibleRun(w, ops) && i <= |ops|
    requires r in Parsed(Run(w, ops[..i]).disk.main)
    ensures Kept(Run(w, ops), r, DroppedHere(w, ops[..i]) + DroppedSince(w, ops, i))
  {
    if i == |ops| {
      assert ops[..i] == ops;
      FileIsInMemory(w, ops, r);
    } else {
      var before, gone := ops[..|ops| - 1], DroppedHere(w, ops[..i]);
      assert before[..i] == ops[..i];
      PossibleBefore(w, ops);
      RunStaysSynced(w, before);
      OnlyDroppedRecordsLeave(w, before, i, r);
      KeptGoesOn(Run(w, before), ops[|ops| - 1], r, gone + DroppedSince(w, before, i));
      assert gone + DroppedSince(w, before, i) + Drops(Run(w, before), ops[|ops| - 1]) ==
          gone + DroppedSince(w, ops, i);
    }
  }

  // ---- and none comes from nowhere ----

  /** Everything a world holds, on file and in memory. */
  function Held(w: World): seq<Record> {
    Parsed(w.disk.main) + if w.process.Some? then w.process.value.records else []
  }

  /** A record descends from one of these, or is of one of these payments. */
  ghost predicate Accounted(s: Record, from: seq<Record>, added: set<Payment>) {
    PaymentOf(s) in added || exists r :: r in from && Descends(r, s)
  }

  lemma AccountsGoOn(w: World, op: Op, s: Record, from: seq<Record>, added: set<Payment>)
    requires !w.disk.main.Unsynced? && Possible(w, op)
    requires forall h :: h in Held(w) ==> Accounted(h, from, added)
    requires s in Held(Step(w, op))
    ensures Accounted(s, from, added + Commits(w, op))
  {
    FileIsOldOrNew(w, op);
    if s in Held(w) {
      assert Accounted(s, from, added);
    } else {
      var m := w.process.value;
      OnlyCommitsAppear(m, op, s);
      if h :| h in m.records && Descends(h, s) {
        assert h in Held(w) && Accounted(h, from, added);
        if r :| r in from && Descends(r, h) {
          DescentIsTransitive(r, h, s);
        }
      }
    }
  }

  /**
   * And nothing on file or in memory is of unknown origin: each record comes of
   * one held at the earlier moment, or of a payment committed since.
   */
  lemma {:induction false} OnlyCommittedRecordsAppear(w: World, ops: seq<Op>, i: nat, s: Record)
    requires !w.disk.main.Unsynced? && PossibleRun(w, ops) && i <= |ops|
    requires s in Held(Run(w, ops))
    ensures Accounted(s, Held(Run(w, ops[..i])), CommittedSince(w, ops, i))
  {
    var from := Held(Run(w, ops[..i]));
    if i == |ops| {
      assert ops[..i] == ops && Descends(s, s);
    } else {
      var before := ops[..|ops| - 1];
      assert before[..i] == ops[..i];
      PossibleBefore(w, ops);
      RunStaysSynced(w, before);
      forall h | h in Held(Run(w, before))
        ensures Accounted(h, from, CommittedSince(w, before, i))
      {
        OnlyCommittedRecordsAppear(w, before, i, h);
      }
      AccountsGoOn(Run(w, before), ops[|ops| - 1], s, from, CommittedSince(w, before, i));
    }
  }

  // ---- which records may be resent ----

  function Ids(records: seq<Record>): set<nat> {
    set r | r in records :: r.id
  }

  /** How one step changes them. */
  function SavedAfter(w: World, op: Op, saved: set<nat>): set<nat> {
    var now := Step(w, op);
    if now.process.None? then {}
    else if op.Open? || (Writes(op) && PersistOutcome(now.process.value, w.disk, op.fate) == Done)
    then Ids(now.process.value.records)
    else saved
  }

  /**
   * The ids a caller has seen safely written: those its process opened with,
   * and all those held whenever one of its writes came back `Done`.
   */
  function Saved(w: World, ops: seq<Op>): set<nat> {
    if ops == [] then {}
    else
      var before := ops[..|ops| - 1];
      SavedAfter(Run(w, before), ops[|ops| - 1], Saved(w, before))
  }

  ghost predicate AllBelow(records: seq<Record>, next: nat) {
    forall r :: r in records ==> r.id < next
  }

  /** Of what memory holds, the file has exactly what was saved. */
  ghost predicate OnFileAreSaved(m: Memory, file: seq<Record>, saved: set<nat>) {
    && DistinctIds(m.records) && AllBelow(m.records, m.next) && AllBelow(file, m.next)
    && (forall id :: id in saved ==> id < m.next)
    && forall r :: r in m.records ==> (r.id in saved <==> PaymentOf(r) in Payments(file))
  }

  ghost predicate Told(w: World, saved: set<nat>) {
    && !w.disk.main.Unsynced? && DistinctIds(Parsed(w.disk.main))
    && (w.process.Some? ==>
          DistinctIds(w.process.value.records) && AllBelow(w.process.value.records, w.process.value.next))
    && (w.process.Some? && !w.blind ==> OnFileAreSaved(w.process.value, Parsed(w.disk.main), saved))
    && (w.blind ==> saved == {})
  }

  lemma AllSaved(m: Memory)
    requires DistinctIds(m.records) && AllBelow(m.records, m.next)
    ensures OnFileAreSaved(m, m.records, Ids(m.records))
  {}

  /** A write that did not land: the file is as it was, and only a new record is not on it. */
  lemma UnlandedWrite(m: Memory, op: Op, file: seq<Record>, saved: set<nat>)
    requires Writes(op) && OnFileAreSaved(m, file, saved)
    ensures OnFileAreSaved(After(m, op), file, saved)
  {
    AfterKeepsIds(m, op);
    var after := After(m, op);
    forall r | r in after.records
      ensures r.id in saved <==> PaymentOf(r) in Payments(file)
    {
      OnlyCommitsAppear(m, op, r);
      if h :| h in m.records && Descends(h, r) {
        assert h.id == r.id;
      } else {
        assert r.id == m.next;
      }
    }
  }

  /** Memory after a write, the file and what is saved, with the file as it was or with all of memory on it. */
  lemma WriteIsTold(m: Memory, op: Op, disk: Disk<seq<Record>>, saved: set<nat>)
    requires Writes(op) && !disk.main.Unsynced? && DistinctIds(Parsed(disk.main))
    requires OnFileAreSaved(m, Parsed(disk.main), saved)
    ensures var after := After(m, op);
            var file := Parsed(Persisted(after, disk, op.fate).main);
            && DistinctIds(file)
            && match PersistOutcome(after, disk, op.fate)
               case Done => OnFileAreSaved(after, file, Ids(after.records))
               case Failed => OnFileAreSaved(after, file, saved)
               case Died => true
  {
    var after := After(m, op);
    AfterKeepsIds(m, op);
    AllSaved(after);
    UnlandedWrite(m, op, Parsed(disk.main), saved);
    if !NothingToWrite(after, disk) {
      ReplaceIsAtomic(disk, after.records, op.fate, Persisted(after, disk, op.fate));
    }
  }

  lemma SeeingWriteIsTold(w: World, op: Op, saved: set<nat>)
    requires Told(w, saved) && Writes(op) && w.process.Some? && !w.blind
    ensures Told(Step(w, op), SavedAfter(w, op, saved))
  {
    FileIsOldOrNew(w, op);
    AfterKeepsIds(w.process.value, op);
    WriteIsTold(w.process.value, op, w.disk, saved);
  }

  lemma BlindReplacementIsTold(w: World, op: Op, saved: set<nat>)
    requires Told(w, saved) && Writes(op) && w.process.Some? && Renames(w, op)
    ensures Told(Step(w, op), SavedAfter(w, op, saved))
  {
    var after := After(w.process.value, op);
    AfterKeepsIds(w.process.value, op);
    AllSaved(after);
    assert Step(w, op).disk.main == Whole(after.records) && !Step(w, op).blind;
  }

  lemma BlindFailureIsTold(w: World, op: Op)
    requires Told(w, {}) && Writes(op) && w.process.Some? && w.blind && !Renames(w, op)
    ensures Told(Step(w, op), SavedAfter(w, op, {}))
  {
    var after := After(w.process.value, op);
    AfterKeepsIds(w.process.value, op);
    UnrenamedOwesNoMore(w, w.process.value, op);
    if PersistOutcome(after, w.disk, op.fate) == Done {
      assert after.records == [] && Ids(after.records) == {};
    }
  }

  lemma ToldGoesOn(w: World, op: Op, saved: set<nat>)
    requires Told(w, saved) && Possible(w, op)
    ensures Told(Step(w, op), SavedAfter(w, op, saved))
  {
    FileIsOldOrNew(w, op);
    if op.Open? {
      AllSaved(Opened(w.disk));
    } else if Writes(op) && w.process.Some? {
      if !w.blind {
        SeeingWriteIsTold(w, op, saved);
      } else if Renames(w, op) {
        BlindReplacementIsTold(w, op, saved);
      } else {
        BlindFailureIsTold(w, op);
      }
    }
  }

  lemma {:induction false} SavedAreToldOverRuns(w: World, ops: seq<Op>)
    requires w.process.None? && Told(w, {}) && PossibleRun(w, ops)
    ensures Told(Run(w, ops), Saved(w, ops))
  {
    if ops != [] {
      PossibleBefore(w, ops);
      SavedAreToldOverRuns(w, ops[..|ops| - 1]);
      ToldGoesOn(Run(w, ops[..|ops| - 1]), ops[|ops| - 1], Saved(w, ops[..|ops| - 1]));
    }
  }

  /**
   * What a caller can watch is enough, and no more than enough: over every run
   * a resend keeps the guarantee exactly when its record was read from the file
   * by this process or was held at a write that came back `Done`. A blind
   * process has no such record, and its resend is sound only if the very
   * payment happens to be on the file it could not read.
   */
  lemma ResendIsSoundExactlyWhenSaved(w: World, ops: seq<Op>, id: nat)
    requires w.process.None? && Sound(w) && Ordinary(w, ops)
    requires var now := Run(w, ops);
             now.process.Some? && IndexOf(now.process.value.records, id) < |now.process.value.records|
    ensures var now := Run(w, ops);
            var resent := PaymentOf(now.process.value.records[IndexOf(now.process.value.records, id)]);
            && (!now.blind ==> (Sound(Step(now, Resend(id))) <==> id in Saved(w, ops)))
            && (now.blind ==> id !in Saved(w, ops)
                              && (Sound(Step(now, Resend(id))) <==> resent in Payments(Parsed(now.disk.main))))
  {
    var now := Run(w, ops);
    EveryOwedPaymentIsRecovered(w, ops);
    SavedAreToldOverRuns(w, ops);
    ResendIsSoundExactlyOnRecord(now, id);
    var records := now.process.value.records;
    assert records[IndexOf(records, id)] in records;
  }

  // ---- an id that comes round again ----

  function Holding(records: seq<Record>, next: nat, owed: set<Payment>): World {
    World(Disk(Whole(records), Absent), Some(Memory(records, next)), owed, false)
  }

  lemma CommitToEmpty(disk: Disk<seq<Record>>, r: Record, now: nat)
    requires r == Record(1, r.txid, r.hex, r.toAddress, r.amountDisplay, now, 0, Uncertain)
    ensures Step(World(disk, Some(Memory([], 1)), {}, false),
                 Commit(r.txid, r.hex, r.toAddress, r.amountDisplay, now, Fate(4, false)))
              == Holding([r], 2, {PaymentOf(r)})
  {
    assert [] + [r] == [r];
  }

  lemma ConfirmTheOne(r: Record)
    ensures Step(Holding([r], 2, {PaymentOf(r)}), SetState(r.id, Confirmed, Fate(4, false)))
              == Holding([r.(state := Confirmed)], 2, {PaymentOf(r)})
  {
    var after := r.(state := Confirmed);
    assert IndexOf([r], r.id) == 0 && [r][0 := after] == [after];
  }

  lemma ForgetTheOne(r: Record)
    requires r.state == Confirmed
    ensures Step(Holding([r], 2, {PaymentOf(r)}), Forget(Fate(4, false))) == Holding([], 2, {})
  {
    assert [r][1..] == [] && Unconfirmed([r]) == [] + Unconfirmed([]);
    assert ConfirmedPayments([r]) == {PaymentOf(r)};
  }

  /** Confirming and forgetting the one record, and starting again, is starting from nothing. */
  function RoundTheOne(w: World): World {
    var go := Fate(4, false);
    Step(Step(Step(Step(w, SetState(1, Confirmed, go)), Forget(go)), Die(Disk(Whole([]), Absent))), Open(true))
  }

  lemma RoundToNothing(r: Record)
    requires r.id == 1
    ensures RoundTheOne(Holding([r], 2, {PaymentOf(r)}))
              == World(Disk(Whole([]), Absent), Some(Memory([], 1)), {}, false)
    ensures Possible(Holding([], 2, {}), Die(Disk(Whole([]), Absent)))
  {
    ConfirmTheOne(r);
    ForgetTheOne(r.(state := Confirmed));
  }

  /** Pay, confirm, forget, restart and pay again: both payments are record 1. */
  lemma AnIdComesRoundAgain()
    ensures var launched := World(Disk(Absent, Absent), Some(Memory([], 1)), {}, false);
            var paid := Step(launched, Commit("first", "00", "R", "1", 0, Fate(4, false)));
            var again := Step(RoundTheOne(paid), Commit("second", "01", "R", "1", 0, Fate(4, false)));
            && launched == Step(World(Disk(Absent, Absent), None, {}, false), Open(true))
            && paid.owed == {Payment(1, "first", "00", "R", "1", 0)}
            && again.owed == {Payment(1, "second", "01", "R", "1", 0)}
  {
    var first := Record(1, "first", "00", "R", "1", 0, 0, Uncertain);
    var second := Record(1, "second", "01", "R", "1", 0, 0, Uncertain);
    CommitToEmpty(Disk(Absent, Absent), first, 0);
    RoundToNothing(first);
    CommitToEmpty(Disk(Whole([]), Absent), second, 0);
  }
}
