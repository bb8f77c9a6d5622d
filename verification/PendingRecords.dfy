/** What each operation on the ledger does to the one record it is about, and to the others. */
module PendingRecords {
  import opened Wrappers
  import opened FileStore
  import opened Pending
  import opened PendingRuns

  /** The record held under an id, when ids are distinct. */
  lemma HeldUnderItsId(records: seq<Record>, k: nat)
    requires DistinctIds(records) && k < |records|
    ensures IndexOf(records, records[k].id) == k
  {
    assert forall j :: 0 <= j < k ==> records[j].id != records[k].id;
  }

  /** Setting a state sets that of the record with the id, and nothing else of it or of any other. */
  lemma StateReachesItsRecord(m: Memory, k: nat, state: State)
    requires DistinctIds(m.records) && k < |m.records|
    ensures WithState(m, m.records[k].id, state)
              == m.(records := m.records[k := m.records[k].(state := state)])
  {
    HeldUnderItsId(m.records, k);
  }

  /** An id nothing is held under changes nothing. */
  lemma UnknownIdChangesNothing(m: Memory, id: nat, state: State)
    requires forall r :: r in m.records ==> r.id != id
    ensures WithState(m, id, state) == m && WithCheck(m, id) == m
  {
    forall k | 0 <= k < |m.records|
      ensures m.records[k].id != id
    {
      assert m.records[k] in m.records;
    }
  }

  function CheckedTimes(m: Memory, id: nat, n: nat): Memory {
    if n == 0 then m else WithCheck(CheckedTimes(m, id, n - 1), id)
  }

  /** Noting `n` checks of a record raises its count by `n`, to the ceiling, and touches nothing else. */
  lemma {:induction false} ChecksAreCounted(m: Memory, k: nat, n: nat)
    requires DistinctIds(m.records) && k < |m.records|
    ensures var (r, counted) := (m.records[k], m.records[k].checks + n);
            CheckedTimes(m, r.id, n)
              == m.(records := m.records[k := r.(checks := if counted < U32_MAX then counted else U32_MAX)])
  {
    var r := m.records[k];
    if n > 0 {
      ChecksAreCounted(m, k, n - 1);
      var before := CheckedTimes(m, r.id, n - 1);
      assert forall i :: 0 <= i < |m.records| ==> before.records[i].id == m.records[i].id;
      HeldUnderItsId(before.records, k);
    }
  }

  /** Forgetting keeps what is left in its order. */
  lemma {:induction false} ForgettingIsPiecewise(a: seq<Record>, b: seq<Record>)
    ensures Unconfirmed(a + b) == Unconfirmed(a) + Unconfirmed(b)
  {
    if a == [] {
      assert a + b == b;
    } else {
      var head := if a[0].state == Confirmed then [] else [a[0]];
      calc {
        Unconfirmed(a + b);
        { assert (a + b)[0] == a[0] && (a + b)[1..] == a[1..] + b; }
        head + Unconfirmed(a[1..] + b);
        { ForgettingIsPiecewise(a[1..], b); }
        head + (Unconfirmed(a[1..]) + Unconfirmed(b));
        Unconfirmed(a) + Unconfirmed(b);
      }
    }
  }

  /** A ledger that never had anything to hold never makes a file, whatever is asked of it. */
  lemma NoFileForNothing(m: Memory, disk: Disk<seq<Record>>, op: Op)
    requires m.records == [] && disk.main.Absent? && Writes(op) && !op.Commit?
    ensures Persisted(After(m, op), disk, op.fate) == disk
    ensures PersistOutcome(After(m, op), disk, op.fate) == Done
  {
    assert IndexOf([], 0) == 0;
  }

  /** And one that holds something, or had a file, writes it. */
  lemma SomethingIsWritten(m: Memory, disk: Disk<seq<Record>>)
    requires m.records != [] || !disk.main.Absent?
    ensures Persisted(m, disk, Fate(4, false)) == Disk(Whole(m.records), Absent)
  {}
}
