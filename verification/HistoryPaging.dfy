/**
 * Paging a history all the way down: that it ends, and what the list holds
 * when each page is asked for from the last one's `scannedTo` itself, as the
 * scan's own description has it.
 */
module HistoryPaging {
  import opened HistoryPage

  // ---- it ends ----

  lemma {:induction false} LoadingGoesDown(at: Blocks, pages: Pager, want: nat, tip: nat, n: nat)
    requires forall before :: IsExact(at, pages(before), before, want)
    ensures var s := Loaded(pages, tip, n);
            s.complete || (s.scannedTo >= 1 && s.scannedTo + n <= tip)
  {
    if n == 0 {
      assert IsExact(at, pages(tip), tip, want);
    } else {
      LoadingGoesDown(at, pages, want, tip, n - 1);
      var s := Loaded(pages, tip, n - 1);
      if !s.complete {
        assert IsExact(at, pages(s.scannedTo - 1), s.scannedTo - 1, want);
      }
    }
  }

  /** Loading older reaches the start, in no more presses than there are blocks. */
  lemma LoadingReachesTheStart(at: Blocks, want: nat, tip: nat)
    requires want > 0
    ensures Loaded(Pages(at, want), tip, tip).complete
  {
    PagesAreExact(at, want);
    LoadingGoesDown(at, Pages(at, want), want, tip, tip);
  }

  // ---- an empty stretch ----

  function Pow2(n: nat): nat {
    if n == 0 then 1 else 2 * Pow2(n - 1)
  }

  /** The width of request `k` after `k` that found nothing: doubled each time, to the ceiling. */
  function Width(k: nat): nat {
    if WINDOW_BLOCKS * Pow2(k) < MAX_WINDOW_BLOCKS then WINDOW_BLOCKS * Pow2(k) else MAX_WINDOW_BLOCKS
  }

  /** How many blocks the requests from the `k`th on cover: each its width, and the block it starts on. */
  function Reach(k: nat): nat
    decreases MAX_REQUESTS - k
  {
    if k >= MAX_REQUESTS then 0 else Width(k) + 1 + Reach(k + 1)
  }

  ghost predicate Empty(at: Blocks, top: nat) {
    forall h :: 1 <= h <= top ==> at(h) == []
  }

  lemma {:induction false} NothingBetween(at: Blocks, lo: nat, hi: nat)
    requires 1 <= lo && forall h :: lo <= h <= hi ==> at(h) == []
    ensures Between(at, lo, hi) == []
  {
    if lo <= hi {
      NothingBetween(at, lo, hi - 1);
    }
  }

  lemma NextIsWider(k: nat)
    ensures NextWindow(Width(k), true) == Width(k + 1) && Width(k) > 0
  {
    Pow2Positive(k);
  }

  lemma {:induction false} Pow2Positive(k: nat)
    ensures Pow2(k) >= 1
  {
    if k > 0 {
      Pow2Positive(k - 1);
    }
  }

  /** The page an empty stretch gives: out of requests above its bottom, or at the start. */
  function EmptyEnd(end: nat, reach: nat): Page {
    if end > reach then Page([], end - reach, false) else Page([], 0, true)
  }

  lemma EmptyStep(scan: Scanner, at: Blocks, end: nat, width: nat, k: nat, want: nat)
    requires scan == Scans(at, want) && end > 0 && width > 0 && want > 0 && Empty(at, end)
    ensures scan(Scanning(end, width, k, [])) ==
              if end <= width + 1 then Page([], 0, true)
              else if k + 1 >= MAX_REQUESTS then Page([], end - width - 1, false)
              else scan(Scanning(end - width - 1, NextWindow(width, true), k + 1, []))
  {
    NothingBetween(at, WindowStart(end, width), end);
    ScanBranches(scan, at, end, width, k, [], want, WindowStart(end, width), []);
  }

  lemma {:induction false} EmptyScan(scan: Scanner, at: Blocks, k: nat, end: nat, want: nat)
    requires scan == Scans(at, want) && k < MAX_REQUESTS && Empty(at, end) && want > 0
    ensures scan(Scanning(end, Width(k), k, [])) == EmptyEnd(end, Reach(k))
    decreases MAX_REQUESTS - k
  {
    if end == 0 {
      ScanAtTheBottom(scan, at, Width(k), k, [], want);
    } else {
      NextIsWider(k);
      EmptyStep(scan, at, end, Width(k), k, want);
      if end > Width(k) + 1 && k + 1 < MAX_REQUESTS {
        EmptyScan(scan, at, k + 1, end - Width(k) - 1, want);
      }
    }
  }

  /** One page crosses an empty stretch as far as twenty-four doubling windows reach, and not a block more. */
  lemma EmptyPageReaches(at: Blocks, before: nat, want: nat)
    requires Empty(at, before) && want > 0
    ensures PageFrom(at, before, want) == EmptyEnd(before, 34_550_024)
  {
    var scan := TheScan(at, before, want);
    EmptyScan(scan, at, 0, before, want);
    ReachOfAPage();
  }

  lemma {:induction false} WidthAtTheCeiling(k: nat)
    requires k >= 8
    ensures Width(k) == MAX_WINDOW_BLOCKS && Pow2(k) >= 256
  {
    if k == 8 {
      assert Pow2(4) == 16 && Pow2(8) == 256;
    } else {
      WidthAtTheCeiling(k - 1);
    }
  }

  lemma {:induction false} ReachAtTheCeiling(k: nat)
    requires 8 <= k <= MAX_REQUESTS
    ensures Reach(k) == (MAX_REQUESTS - k) * (MAX_WINDOW_BLOCKS + 1)
    decreases MAX_REQUESTS - k
  {
    if k < MAX_REQUESTS {
      WidthAtTheCeiling(k);
      ReachAtTheCeiling(k + 1);
    }
  }

  /** Eight doubled windows, and sixteen at the ceiling. */
  lemma ReachOfAPage()
    ensures Reach(0) == 34_550_024
  {
    ReachAtTheCeiling(8);
    assert Pow2(4) == 16;
    assert Reach(4) == 160_000 + 320_000 + 640_000 + 1_280_000 + 4 + Reach(8);
  }

  // ---- paging from scannedTo itself ----

  function OlderFrom(pages: Pager, s: Shown): Shown {
    if s.complete then s
    else
      var p := pages(s.scannedTo);
      Shown(p.entries + s.entries, p.scannedTo, p.reachedStart)
  }

  function LoadedFrom(pages: Pager, tip: nat, n: nat): Shown {
    if n == 0 then Shown(pages(tip).entries, pages(tip).scannedTo, pages(tip).reachedStart)
    else OlderFrom(pages, LoadedFrom(pages, tip, n - 1))
  }

  /** Whether the last page behind such a list gave up. */
  predicate FromGaveUp(pages: Pager, want: nat, tip: nat, n: nat) {
    if n == 0 then GaveUp(pages(tip), want)
    else
      var s := LoadedFrom(pages, tip, n - 1);
      if s.complete then FromGaveUp(pages, want, tip, n - 1) else GaveUp(pages(s.scannedTo), want)
  }

  /** The blocks two pages both hold: where one ended without giving up and another was asked for. */
  function Repeated(pages: Pager, want: nat, tip: nat, n: nat): set<nat> {
    if n == 0 then {}
    else
      var s := LoadedFrom(pages, tip, n - 1);
      var before := Repeated(pages, want, tip, n - 1);
      if s.complete || FromGaveUp(pages, want, tip, n - 1) then before else before + {s.scannedTo}
  }

  function Twice(at: Blocks, repeated: set<nat>): Blocks {
    (h: nat) => if h in repeated then at(h) + at(h) else at(h)
  }

  lemma {:induction false} ScanGoesDown(at: Blocks, s: Scanning, want: nat)
    requires s.window > 0
    ensures var p := Scan(at, s, want); !p.reachedStart ==> p.scannedTo < s.end
    decreases MAX_REQUESTS - s.requests
  {
    if s.end > 0 {
      var start := WindowStart(s.end, s.window);
      var found := Between(at, start, s.end);
      ScanTurns(at, s, want, start, found);
      var turn := TurnOn(s, start, found, want);
      if turn.Go? {
        ScanGoesDown(at, turn.next, want);
      }
    }
  }

  /** A page is exact, and one that does not reach the start ends below where it began. */
  ghost predicate GoesDown(at: Blocks, p: Page, before: nat, want: nat) {
    IsExact(at, p, before, want) && (!p.reachedStart ==> p.scannedTo < before)
  }

  lemma PagesGoDown(at: Blocks, want: nat)
    requires want > 0
    ensures forall before :: GoesDown(at, Pages(at, want)(before), before, want)
  {
    forall before
      ensures GoesDown(at, Pages(at, want)(before), before, want)
    {
      PageIsExact(at, before, want);
      ScanGoesDown(at, Scanning(before, WINDOW_BLOCKS, 0, []), want);
    }
  }

  /** The list is the chain's entries from `floor` to `tip`, with the blocks in `repeated` twice over. */
  ghost predicate ListsTwice(at: Blocks, entries: seq<Entry>, repeated: set<nat>, floor: nat, tip: nat) {
    && floor <= tip + 1
    && (forall h :: h in repeated ==> floor <= h <= tip)
    && entries == Between(Twice(at, repeated), floor, tip)
  }

  lemma FirstBlock(at: Blocks, top: nat, tip: nat)
    requires 1 <= top <= tip
    ensures Between(at, top, tip) == at(top) + Between(at, top + 1, tip)
  {
    BetweenSplits(at, top, top, tip);
    assert Between(at, top, top) == Between(at, top, top - 1) + at(top);
    assert [] + at(top) == at(top);
  }

  lemma TwoCopies(below: seq<Entry>, block: seq<Entry>, above: seq<Entry>,
                  lower: seq<Entry>, upper: seq<Entry>, doubled: seq<Entry>, whole: seq<Entry>)
    requires lower == below + block && upper == block + above
    requires doubled == below + (block + block) && whole == doubled + above
    ensures lower + upper == whole
  {}

  /** Two runs of blocks that share one, joined where it is held twice. */
  lemma SharedBlock(a: Blocks, b: Blocks, both: Blocks, low: nat, top: nat, tip: nat)
    requires 1 <= top && low <= top <= tip
    requires forall h :: low <= h < top ==> both(h) == a(h)
    requires forall h :: top < h <= tip ==> both(h) == b(h)
    requires b(top) == a(top) && both(top) == a(top) + a(top)
    ensures Between(a, low, top) + Between(b, top, tip) == Between(both, low, tip)
  {
    EndsDoubled(a, both, low, top);
    BeginsSame(b, both, top, tip);
    LastBlock(a, low, top);
    JoinedAt(both, low, top, tip);
    TwoCopies(Between(a, low, top - 1), a(top), Between(both, top + 1, tip),
              Between(a, low, top), Between(b, top, tip), Between(both, low, top), Between(both, low, tip));
  }

  lemma EndsDoubled(a: Blocks, both: Blocks, low: nat, top: nat)
    requires 1 <= top && low <= top && both(top) == a(top) + a(top)
    requires forall h :: low <= h < top ==> both(h) == a(h)
    ensures Between(both, low, top) == Between(a, low, top - 1) + (a(top) + a(top))
  {
    LastBlock(both, low, top);
    BetweenDependsOnRange(a, both, low, top - 1);
  }

  lemma BeginsSame(b: Blocks, both: Blocks, top: nat, tip: nat)
    requires 1 <= top <= tip && forall h :: top < h <= tip ==> both(h) == b(h)
    ensures Between(b, top, tip) == b(top) + Between(both, top + 1, tip)
  {
    FirstBlock(b, top, tip);
    BetweenDependsOnRange(b, both, top + 1, tip);
  }

  lemma LastBlock(at: Blocks, low: nat, top: nat)
    requires 1 <= top && low <= top
    ensures Between(at, low, top) == Between(at, low, top - 1) + at(top)
  {}

  lemma JoinedAt(at: Blocks, low: nat, top: nat, tip: nat)
    requires low <= top <= tip
    ensures Between(at, low, tip) == Between(at, low, top) + Between(at, top + 1, tip)
  {
    BetweenSplits(at, low, top, tip);
  }

  /** A page put below a list, touching it or sharing its lowest block. */
  lemma PageOverlaps(at: Blocks, entries: seq<Entry>, repeated: set<nat>, top: nat, tip: nat, low: nat, bottom: nat)
    requires ListsTwice(at, entries, repeated, top, tip) && low <= bottom + 1
    requires bottom + 1 == top || (1 <= bottom == top && top !in repeated && low <= bottom <= tip)
    ensures ListsTwice(at, Between(at, low, bottom) + entries,
                       if bottom == top then repeated + {top} else repeated, low, tip)
  {
    var now := if bottom == top then repeated + {top} else repeated;
    var seen := Twice(at, now);
    if bottom == top {
      SharedBlock(at, Twice(at, repeated), seen, low, top, tip);
    } else {
      BetweenDependsOnRange(at, seen, low, bottom);
      if low <= top - 1 {
        BetweenSplits(seen, low, bottom, tip);
      } else {
        assert Between(seen, low, bottom) + entries == entries;
      }
    }
  }

  /** The list after `n` pages: exact but for the repeats, and able to take another. */
  ghost predicate ListsFrom(at: Blocks, pages: Pager, want: nat, tip: nat, n: nat) {
    var (s, gaveUp) := (LoadedFrom(pages, tip, n), FromGaveUp(pages, want, tip, n));
    && ListsTwice(at, s.entries, Repeated(pages, want, tip, n), Floor(s, gaveUp), tip)
    && (!s.complete ==> 1 <= s.scannedTo <= tip && s.scannedTo !in Repeated(pages, want, tip, n))
  }

  lemma PageFromTheLast(at: Blocks, want: nat, tip: nat, s: Shown, gaveUp: bool, repeated: set<nat>, p: Page)
    requires !s.complete && 1 <= s.scannedTo <= tip && s.scannedTo !in repeated && GoesDown(at, p, s.scannedTo, want)
    requires ListsTwice(at, s.entries, repeated, Floor(s, gaveUp), tip)
    ensures var now := if gaveUp then repeated else repeated + {s.scannedTo};
            && ListsTwice(at, p.entries + s.entries, now, Lowest(p, want), tip)
            && (!p.reachedStart ==> 1 <= p.scannedTo <= tip && p.scannedTo !in now)
  {
    PageOverlaps(at, s.entries, repeated, Floor(s, gaveUp), tip, Lowest(p, want), s.scannedTo);
  }

  lemma OneMoreFrom(at: Blocks, pages: Pager, want: nat, tip: nat, n: nat, p: Page)
    requires n > 0 && ListsFrom(at, pages, want, tip, n - 1) && !LoadedFrom(pages, tip, n - 1).complete
    requires p == pages(LoadedFrom(pages, tip, n - 1).scannedTo)
    requires GoesDown(at, p, LoadedFrom(pages, tip, n - 1).scannedTo, want)
    ensures ListsFrom(at, pages, want, tip, n)
  {
    var s, gaveUp := LoadedFrom(pages, tip, n - 1), FromGaveUp(pages, want, tip, n - 1);
    PageFromTheLast(at, want, tip, s, gaveUp, Repeated(pages, want, tip, n - 1), p);
    assert LoadedFrom(pages, tip, n) == Shown(p.entries + s.entries, p.scannedTo, p.reachedStart);
    assert FromGaveUp(pages, want, tip, n) == GaveUp(p, want);
    assert Floor(LoadedFrom(pages, tip, n), GaveUp(p, want)) == Lowest(p, want);
  }

  lemma {:induction false} LoadedFromDescendingPages(at: Blocks, pages: Pager, want: nat, tip: nat, n: nat)
    requires forall before :: GoesDown(at, pages(before), before, want)
    ensures ListsFrom(at, pages, want, tip, n)
  {
    if n == 0 {
      assert GoesDown(at, pages(tip), tip, want);
      BetweenDependsOnRange(at, Twice(at, {}), Lowest(pages(tip), want), tip);
    } else {
      LoadedFromDescendingPages(at, pages, want, tip, n - 1);
      var s := LoadedFrom(pages, tip, n - 1);
      if !s.complete {
        OneMoreFrom(at, pages, want, tip, n, pages(s.scannedTo));
      }
    }
  }

  /**
   * After any number of pages asked for this way the list has no gap: it is
   * the chain's entries down to its floor, each block that one page ended on
   * and the next began with held twice, and nothing else repeated.
   */
  lemma PagingAsDescribedRepeatsExactly(at: Blocks, want: nat, tip: nat, n: nat)
    requires want > 0
    ensures var pages := Pages(at, want);
            var s := LoadedFrom(pages, tip, n);
            s.entries == Between(Twice(at, Repeated(pages, want, tip, n)),
                                 Floor(s, FromGaveUp(pages, want, tip, n)), tip)
  {
    PagesGoDown(at, want);
    LoadedFromDescendingPages(at, Pages(at, want), want, tip, n);
  }
}
