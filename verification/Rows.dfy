/**
 * The activity list, newest first, with a heading on the first row of each day:
 * `rows_from` and `restamp` in `pecu-core/src/portfolio.rs`. Which calendar day
 * a time falls on, and how a time is worded, belong to the machine's clock and
 * locale: they are `Wording`, shared by both.
 */
module Rows {

  datatype Note = Note(code: string, args: seq<string>)

  const NONE: Note := Note("", [])

  datatype Wording = Wording(day: (int, int) -> Note, when: (int, int) -> string) {
    /** No day is worded as nothing. */
    ghost predicate Names() {
      forall time, now :: day(time, now) != NONE
    }
  }

  /** A transaction, with the parts of its row that do not depend on the time of reading left as text. */
  datatype Entry = Entry(txid: string, blockTime: int, display: string)

  datatype Row = Row(txid: string, blockTime: int, display: string, whenDisplay: string, group: Note, kind: string)

  function RowOf(w: Wording, e: Entry, now: int): Row {
    Row(e.txid, e.blockTime, e.display, w.when(e.blockTime, now), NONE, "payment")
  }

  /** Newest first, of one kind, not yet headed. */
  function Listed(w: Wording, entries: seq<Entry>, now: int, kind: string): seq<Row> {
    if entries == [] then []
    else
      var last := |entries| - 1;
      var row := RowOf(w, entries[last], now);
      (if kind == "all" || row.kind == kind then [row] else []) + Listed(w, entries[..last], now, kind)
  }

  /** Row `i` heads its day: it is the first row, or the row before it falls on another day. */
  predicate Heads(w: Wording, rows: seq<Row>, now: int, i: nat)
    requires i < |rows|
  {
    i == 0 || w.day(rows[i - 1].blockTime, now) != w.day(rows[i].blockTime, now)
  }

  function Headed(w: Wording, rows: seq<Row>, now: int): seq<Row> {
    seq(|rows|, i requires 0 <= i < |rows| =>
      rows[i].(group := if Heads(w, rows, now, i) then w.day(rows[i].blockTime, now) else NONE))
  }

  function RowsAt(w: Wording, entries: seq<Entry>, now: int, kind: string): seq<Row> {
    Headed(w, Listed(w, entries, now, kind), now)
  }

  function Retimed(w: Wording, rows: seq<Row>, now: int): seq<Row> {
    seq(|rows|, i requires 0 <= i < |rows| => rows[i].(whenDisplay := w.when(rows[i].blockTime, now)))
  }

  /** What rewording rows at a later time gives. */
  function Reworded(w: Wording, rows: seq<Row>, now: int): seq<Row> {
    Headed(w, Retimed(w, rows, now), now)
  }

  /** First pass: reversed, worded and filtered. */
  method ListRows(w: Wording, entries: seq<Entry>, now: int, kind: string) returns (rows: seq<Row>)
    ensures rows == Listed(w, entries, now, kind)
  {
    rows := [];
    var at := |entries|;
    assert entries[..at] == entries;
    while at > 0
      invariant 0 <= at <= |entries|
      invariant rows + Listed(w, entries[..at], now, kind) == Listed(w, entries, now, kind)
    {
      assert entries[..at][..at - 1] == entries[..at - 1];
      at := at - 1;
      var row := RowOf(w, entries[at], now);
      if kind == "all" || row.kind == kind {
        rows := rows + [row];
      }
    }
  }

  /** Second pass: a heading on the first row of each day, rows not yet headed being left bare. */
  method AddHeadings(w: Wording, listed: seq<Row>, now: int) returns (rows: seq<Row>)
    requires forall r :: r in listed ==> r.group == NONE
    ensures rows == Headed(w, listed, now)
  {
    rows := listed;
    var previous := NONE;
    var known := false;
    for i := 0 to |rows|
      invariant |rows| == |listed| && (known <==> i > 0)
      invariant known ==> previous == w.day(listed[i - 1].blockTime, now)
      invariant forall j :: 0 <= j < i ==> rows[j] == Headed(w, listed, now)[j]
      invariant forall j :: i <= j < |rows| ==> rows[j] == listed[j]
    {
      assert listed[i] in listed;
      var day := w.day(rows[i].blockTime, now);
      if !known || previous != day {
        rows := rows[i := rows[i].(group := day)];
        previous, known := day, true;
      }
    }
  }

  method RowsFrom(w: Wording, entries: seq<Entry>, now: int, kind: string) returns (rows: seq<Row>)
    ensures rows == RowsAt(w, entries, now, kind)
  {
    rows := ListRows(w, entries, now, kind);
    AllUngrouped(w, entries, now, kind);
    rows := AddHeadings(w, rows, now);
  }

  lemma {:induction false} AllUngrouped(w: Wording, entries: seq<Entry>, now: int, kind: string)
    ensures forall r :: r in Listed(w, entries, now, kind) ==> r.group == NONE
  {
    if entries != [] {
      AllUngrouped(w, entries[..|entries| - 1], now, kind);
    }
  }

  lemma {:induction false} ListedAreTheEntries(w: Wording, entries: seq<Entry>, now: int, kind: string)
    ensures kind == "all" || kind == "payment" ==> |Listed(w, entries, now, kind)| == |entries|
    ensures kind != "all" && kind != "payment" ==> Listed(w, entries, now, kind) == []
    ensures forall i :: 0 <= i < |Listed(w, entries, now, kind)| ==>
              IsRowOf(w, Listed(w, entries, now, kind)[i], entries[|entries| - 1 - i], now)
    decreases |entries|
  {
    if entries != [] {
      ListedAreTheEntries(w, entries[..|entries| - 1], now, kind);
    }
  }

  /** A row carries its entry's identity and text, worded for the time it is read at. */
  predicate IsRowOf(w: Wording, row: Row, e: Entry, now: int) {
    && row.txid == e.txid && row.blockTime == e.blockTime && row.display == e.display
    && row.whenDisplay == w.when(e.blockTime, now) && row.kind == "payment"
  }

  /**
   * The list, without how it is built: every entry for everything or for
   * payments, none for any other kind; newest first; and headed with its day
   * exactly where that is first or not the day of the entry listed above it.
   */
  lemma RowsAreTheEntries(w: Wording, entries: seq<Entry>, now: int, kind: string, i: nat)
    ensures |RowsAt(w, entries, now, kind)| == if kind in {"all", "payment"} then |entries| else 0
    ensures i < |RowsAt(w, entries, now, kind)| ==>
              var (row, at) := (RowsAt(w, entries, now, kind)[i], |entries| - 1 - i);
              && 0 <= at && IsRowOf(w, row, entries[at], now)
              && var today := w.day(entries[at].blockTime, now);
                 row.group == if i > 0 && w.day(entries[at + 1].blockTime, now) == today then NONE else today
  {
    ListedAreTheEntries(w, entries, now, kind);
    var listed := Listed(w, entries, now, kind);
    if i < |listed| {
      assert IsRowOf(w, listed[i], entries[|entries| - 1 - i], now);
      assert i > 0 ==> IsRowOf(w, listed[i - 1], entries[|entries| - i], now);
    }
  }

  method Restamp(w: Wording, rows: array<Row>, now: int)
    modifies rows
    ensures rows[..] == Reworded(w, old(rows[..]), now)
  {
    ghost var was := rows[..];
    var previous := NONE;
    var known := false;
    var i := 0;
    while i < rows.Length
      invariant i <= rows.Length
      invariant known <==> i > 0
      invariant known ==> previous == w.day(was[i - 1].blockTime, now)
      invariant forall j :: 0 <= j < i ==> rows[j] == Reworded(w, was, now)[j]
      invariant forall j :: i <= j < rows.Length ==> rows[j] == was[j]
    {
      var row := rows[i].(whenDisplay := w.when(rows[i].blockTime, now));
      var day := w.day(row.blockTime, now);
      if known && previous == day {
        rows[i] := row.(group := NONE);
      } else {
        rows[i] := row.(group := day);
        previous, known := day, true;
      }
      i := i + 1;
    }
  }

  /** Only the wording of a listed row depends on when it was listed. */
  lemma {:induction false} ListedLater(w: Wording, entries: seq<Entry>, cachedAt: int, now: int, kind: string)
    ensures |Listed(w, entries, cachedAt, kind)| == |Listed(w, entries, now, kind)|
    ensures forall i :: 0 <= i < |Listed(w, entries, now, kind)| ==>
              var (a, b) := (Listed(w, entries, cachedAt, kind)[i], Listed(w, entries, now, kind)[i]);
              b == a.(whenDisplay := w.when(a.blockTime, now))
  {
    if entries != [] {
      ListedLater(w, entries[..|entries| - 1], cachedAt, now, kind);
    }
  }

  /** Headings depend on the times of the rows and on nothing they were headed with before. */
  lemma HeadingIgnoresOldHeadings(w: Wording, a: seq<Row>, b: seq<Row>, now: int)
    requires |a| == |b| && forall i :: 0 <= i < |a| ==> a[i].(group := NONE) == b[i].(group := NONE)
    ensures Headed(w, a, now) == Headed(w, b, now)
  {
    forall i | 0 <= i < |a|
      ensures Headed(w, a, now)[i] == Headed(w, b, now)[i]
    {
      assert a[i].blockTime == a[i].(group := NONE).blockTime == b[i].(group := NONE).blockTime == b[i].blockTime;
      if i > 0 {
        assert a[i - 1].(group := NONE) == b[i - 1].(group := NONE);
        assert a[i - 1].blockTime == b[i - 1].blockTime;
      }
      assert Heads(w, a, now, i) == Heads(w, b, now, i);
    }
  }

  /** Restamping a cached list is rebuilding it: whenever it was cached, of whatever kind, no stale word survives. */
  lemma RestampingIsRebuilding(w: Wording, entries: seq<Entry>, cachedAt: int, now: int, kind: string)
    ensures Reworded(w, RowsAt(w, entries, cachedAt, kind), now) == RowsAt(w, entries, now, kind)
  {
    ListedLater(w, entries, cachedAt, now, kind);
    HeadingIgnoresOldHeadings(w, Retimed(w, RowsAt(w, entries, cachedAt, kind), now), Listed(w, entries, now, kind),
                              now);
  }

  lemma {:induction false} ListedJoins(w: Wording, older: seq<Entry>, newer: seq<Entry>, now: int, kind: string)
    ensures Listed(w, older + newer, now, kind) == Listed(w, newer, now, kind) + Listed(w, older, now, kind)
  {
    if newer == [] {
      assert older + newer == older;
      assert [] + Listed(w, older, now, kind) == Listed(w, older, now, kind);
    } else {
      var last := |newer| - 1;
      var row := RowOf(w, newer[last], now);
      var head := if kind == "all" || row.kind == kind then [row] else [];
      calc {
        Listed(w, older + newer, now, kind);
        { assert (older + newer)[..|older| + last] == older + newer[..last]; }
        head + Listed(w, older + newer[..last], now, kind);
        { ListedJoins(w, older, newer[..last], now, kind); }
        head + (Listed(w, newer[..last], now, kind) + Listed(w, older, now, kind));
        Listed(w, newer, now, kind) + Listed(w, older, now, kind);
      }
    }
  }

  /** Two lists headed apart and headed together differ at most where they meet. */
  lemma HeadedJoins(w: Wording, above: seq<Row>, below: seq<Row>, now: int)
    requires w.Names() && above != [] && below != []
    ensures Headed(w, above + below, now) == Headed(w, above, now) + Headed(w, below, now)
            <==> w.day(above[|above| - 1].blockTime, now) != w.day(below[0].blockTime, now)
  {
    var joined, n := above + below, |above|;
    var whole, parts := Headed(w, joined, now), Headed(w, above, now) + Headed(w, below, now);
    assert joined[n - 1] == above[n - 1] && joined[n] == below[0];
    forall i | 0 <= i < |joined| && i != n
      ensures whole[i] == parts[i]
    {
      if i < n {
        assert joined[i] == above[i] && (i > 0 ==> joined[i - 1] == above[i - 1]);
        assert parts[i] == Headed(w, above, now)[i];
      } else {
        assert joined[i] == below[i - n] && joined[i - 1] == below[i - n - 1];
        assert parts[i] == Headed(w, below, now)[i - n];
      }
    }
    assert parts[n] == Headed(w, below, now)[0];
    assert whole[n] == parts[n] <==> Heads(w, joined, now, n);
    if Heads(w, joined, now, n) {
      assert whole == parts;
    }
  }

  /**
   * Why an older page is grouped together with what is on screen: putting its
   * own rows underneath gives the same list exactly when a day ends between
   * the two, or one of them shows nothing.
   */
  lemma PagesJoinExactlyBetweenDays(w: Wording, older: seq<Entry>, newer: seq<Entry>, now: int, kind: string)
    requires w.Names()
    ensures var above, below := Listed(w, newer, now, kind), Listed(w, older, now, kind);
            RowsAt(w, older + newer, now, kind) == RowsAt(w, newer, now, kind) + RowsAt(w, older, now, kind)
            <==> (above == [] || below == []
                  || w.day(above[|above| - 1].blockTime, now) != w.day(below[0].blockTime, now))
  {
    var above, below := Listed(w, newer, now, kind), Listed(w, older, now, kind);
    ListedJoins(w, older, newer, now, kind);
    if above == [] {
      assert above + below == below;
      assert Headed(w, above, now) + Headed(w, below, now) == Headed(w, below, now);
    } else if below == [] {
      assert above + below == above;
      assert Headed(w, above, now) + Headed(w, below, now) == Headed(w, above, now);
    } else {
      HeadedJoins(w, above, below, now);
    }
  }
}
