/** The ledger of payments whose fate is unknown: `pecu-core/src/pending.rs`. */
module Pending {
  import opened FileStore

  const U32_MAX: nat := 0xffff_ffff

  /** A `u32` that saturates. */
  type Count = n: nat | n <= U32_MAX

  datatype State = Uncertain | Confirmed | Missing | Resent | Abandoned

  datatype Record = Record(id: nat, txid: string, hex: string, toAddress: string, amountDisplay: string,
                           created: nat, checks: Count, state: State)

  /** What must never change about a record, and what a broadcast puts at stake. */
  datatype Payment = Payment(id: nat, txid: string, hex: string, toAddress: string, amountDisplay: string, created: nat)

  function PaymentOf(r: Record): Payment {
    Payment(r.id, r.txid, r.hex, r.toAddress, r.amountDisplay, r.created)
  }

  function Payments(records: seq<Record>): set<Payment> {
    set r | r in records :: PaymentOf(r)
  }

  /** What `open` makes of a file. One it cannot parse reads as no records and is left where it is. */
  function Parsed(file: File<seq<Record>>): seq<Record> {
    match file
    case Absent => []
    case Torn => []
    case Unsynced(records) => records
    case Whole(records) => records
  }

  /** One past the largest id held, or one. */
  function NextId(records: seq<Record>): (n: nat)
    ensures records == [] ==> n == 1
    ensures forall r :: r in records ==> r.id < n
    ensures records != [] ==> exists r :: r in records && r.id + 1 == n
  {
    if records == [] then 1
    else
      var rest := NextId(records[1..]);
      var mine := records[0].id + 1;
      assert forall r :: r in records ==> r == records[0] || r in records[1..];
      if |records| == 1 || rest < mine then mine else rest
  }

  datatype Memory = Memory(records: seq<Record>, next: nat)

  function Opened(disk: Disk<seq<Record>>): Memory {
    Memory(Parsed(disk.main), NextId(Parsed(disk.main)))
  }

  /** Opening, when the file can be read; a read that fails starts an empty ledger over a file it knows nothing of. */
  function OpenedAs(disk: Disk<seq<Record>>, readable: bool): Memory {
    if readable then Opened(disk) else Memory([], 1)
  }

  /** The first position holding `id`, or the length of the list. */
  function IndexOf(records: seq<Record>, id: nat): (i: nat)
    ensures i <= |records|
    ensures i < |records| ==> records[i].id == id
    ensures forall j :: 0 <= j < i ==> records[j].id != id
  {
    if records == [] || records[0].id == id then 0 else 1 + IndexOf(records[1..], id)
  }

  function NewRecord(m: Memory, txid: string, hex: string, to: string, amount: string, created: nat): Record {
    Record(m.next, txid, hex, to, amount, created, 0, Uncertain)
  }

  function Added(m: Memory, r: Record): Memory {
    Memory(m.records + [r], m.next + 1)
  }

  function WithState(m: Memory, id: nat, state: State): Memory {
    var i := IndexOf(m.records, id);
    if i < |m.records| then m.(records := m.records[i := m.records[i].(state := state)]) else m
  }

  function Checked(r: Record): Record {
    r.(checks := if r.checks < U32_MAX then r.checks + 1 else U32_MAX)
  }

  function WithCheck(m: Memory, id: nat): Memory {
    var i := IndexOf(m.records, id);
    if i < |m.records| then m.(records := m.records[i := Checked(m.records[i])]) else m
  }

  function Unconfirmed(records: seq<Record>): seq<Record> {
    if records == [] then []
    else (if records[0].state == Confirmed then [] else [records[0]]) + Unconfirmed(records[1..])
  }

  function WithoutConfirmed(m: Memory): Memory {
    m.(records := Unconfirmed(m.records))
  }

  /** An empty ledger that never had a file writes none. */
  predicate NothingToWrite(m: Memory, disk: Disk<seq<Record>>) {
    m.records == [] && disk.main.Absent?
  }

  function Persisted(m: Memory, disk: Disk<seq<Record>>, fate: Fate): Disk<seq<Record>> {
    if NothingToWrite(m, disk) then disk else Replace(disk, m.records, fate)
  }

  function PersistOutcome(m: Memory, disk: Disk<seq<Record>>, fate: Fate): Outcome {
    if NothingToWrite(m, disk) then Done else ReplaceOutcome(fate)
  }

  class Ledger {
    const store: Store<seq<Record>>
    var records: seq<Record>
    var next: nat

    function View(): Memory
      reads this
    {
      Memory(records, next)
    }

    constructor Open(store: Store<seq<Record>>, readable: bool)
      ensures View() == OpenedAs(store.View(), readable) && this.store == store
    {
      this.store := store;
      records := if readable then Parsed(store.main) else [];
      next := NextId(if readable then Parsed(store.main) else []);
    }

    method Persist(fate: Fate) returns (r: Outcome)
      modifies store
      ensures store.View() == Persisted(View(), old(store.View()), fate)
      ensures r == PersistOutcome(View(), old(store.View()), fate)
    {
      if records == [] && store.main.Absent? {
        return Done;
      }
      r := store.ReplaceWith(records, fate);
    }

    /** Written before anything is sent. On anything but `Done` the caller must not broadcast. */
    method Commit(txid: string, hex: string, to: string, amount: string, now: nat, fate: Fate)
      returns (id: nat, r: Outcome)
      modifies this, store
      ensures id == old(next)
      ensures View() == Added(old(View()), NewRecord(old(View()), txid, hex, to, amount, now))
      ensures store.View() == Persisted(View(), old(store.View()), fate)
      ensures r == PersistOutcome(View(), old(store.View()), fate)
    {
      id := next;
      next := next + 1;
      records := records + [Record(id, txid, hex, to, amount, now, 0, Uncertain)];
      r := Persist(fate);
    }

    method Find(id: nat) returns (i: nat)
      ensures i == IndexOf(records, id)
    {
      i := 0;
      while i < |records| && records[i].id != id
        invariant i <= |records|
        invariant forall j :: 0 <= j < i ==> records[j].id != id
      {
        i := i + 1;
      }
    }

    method SetState(id: nat, state: State, fate: Fate) returns (r: Outcome)
      modifies this`records, store
      ensures View() == WithState(old(View()), id, state)
      ensures store.View() == Persisted(View(), old(store.View()), fate)
      ensures r == PersistOutcome(View(), old(store.View()), fate)
    {
      var i := Find(id);
      if i < |records| {
        records := records[i := records[i].(state := state)];
      }
      r := Persist(fate);
    }

    method NoteCheck(id: nat, fate: Fate) returns (r: Outcome)
      modifies this`records, store
      ensures View() == WithCheck(old(View()), id)
      ensures store.View() == Persisted(View(), old(store.View()), fate)
      ensures r == PersistOutcome(View(), old(store.View()), fate)
    {
      var i := Find(id);
      if i < |records| {
        var checks := records[i].checks;
        records := records[i := records[i].(checks := if checks < U32_MAX then checks + 1 else U32_MAX)];
      }
      r := Persist(fate);
    }

    method ForgetConfirmed(fate: Fate) returns (r: Outcome)
      modifies this`records, store
      ensures View() == WithoutConfirmed(old(View()))
      ensures store.View() == Persisted(View(), old(store.View()), fate)
      ensures r == PersistOutcome(View(), old(store.View()), fate)
    {
      var kept: seq<Record> := [];
      var i := 0;
      while i < |records|
        invariant i <= |records| && records == old(records)
        invariant kept + Unconfirmed(records[i..]) == Unconfirmed(records)
      {
        assert records[i..][1..] == records[i + 1..];
        if records[i].state != Confirmed {
          kept := kept + [records[i]];
        }
        i := i + 1;
      }
      records := kept;
      r := Persist(fate);
    }
  }
}
