/**
 * Scanning an address's history backwards in windows: `history_page` in
 * `pecu-core/src/portfolio.rs`, and the paging `pecu-core/src/lib.rs` does with it.
 */
module HistoryPage {
  import opened Wrappers

  datatype Entry = Entry(txid: string, height: nat)

  /** What a chain holds for the wallet's addresses, block by block. */
  type Blocks = nat -> seq<Entry>

  const PAGE_ROWS: nat := 60
  const WINDOW_BLOCKS: nat := 10_000
  const MAX_WINDOW_BLOCKS: nat := 2_000_000
  const MAX_REQUESTS: nat := 24

  datatype Page = Page(entries: seq<Entry>, scannedTo: nat, reachedStart: bool)

  /** The entries of blocks `lo` to `hi`, oldest first. */
  function Between(at: Blocks, lo: nat, hi: nat): seq<Entry> {
    if lo > hi then []
    else if hi == 0 then at(0)
    else Between(at, lo, hi - 1) + at(hi)
  }

  /** A node that, when it answers about a range, answers with the chain's entries there. */
  ghost predicate Honest(node: (nat, nat) -> Result<seq<Entry>, string>, at: Blocks) {
    forall lo: nat, hi: nat :: 1 <= lo <= hi && node(lo, hi).Ok? ==> node(lo, hi).value == Between(at, lo, hi)
  }

  /** Never zero: the node refuses a zero bound. */
  function WindowStart(end: nat, window: nat): (start: nat)
    ensures start >= 1
    ensures end >= 1 ==> start <= end
  {
    if end > window then end - window else 1
  }

  function NextWindow(window: nat, foundNothing: bool): nat {
    if !foundNothing then window
    else if window * 2 < MAX_WINDOW_BLOCKS then window * 2 else MAX_WINDOW_BLOCKS
  }

  /** Where a scan stands: what is left below, how wide to ask, how often it has asked, what it has. */
  datatype Scanning = Scanning(end: nat, window: nat, requests: nat, entries: seq<Entry>)

  datatype Turn = Stop(page: Page) | Go(next: Scanning)

  /** One turn of the scan, given what the request in it found. */
  function TurnOn(s: Scanning, start: nat, found: seq<Entry>, want: nat): Turn
    requires start >= 1
  {
    var entries := found + s.entries;
    if start <= 1 then Stop(Page(entries, 0, true))
    else if |entries| >= want then Stop(Page(entries, start, false))
    else if s.requests + 1 >= MAX_REQUESTS then Stop(Page(entries, start - 1, false))
    else Go(Scanning(start - 1, NextWindow(s.window, found == []), s.requests + 1, entries))
  }

  /** What the scan returns when every request is answered. */
  function Scan(at: Blocks, s: Scanning, want: nat): Page
    decreases MAX_REQUESTS - s.requests
  {
    if s.end == 0 then Page(s.entries, 0, true)
    else
      var start := WindowStart(s.end, s.window);
      match TurnOn(s, start, Between(at, start, s.end), want)
      case Stop(page) => page
      case Go(next) => Scan(at, next, want)
  }

  lemma ScanTurns(at: Blocks, s: Scanning, want: nat, start: nat, found: seq<Entry>)
    requires s.end > 0 && start == WindowStart(s.end, s.window) && found == Between(at, start, s.end)
    ensures var turn := TurnOn(s, start, found, want);
            Scan(at, s, want) == if turn.Stop? then turn.page else Scan(at, turn.next, want)
  {}

  /** The page a scan ends with, from wherever it stands. */
  type Scanner = Scanning -> Page

  function Scans(at: Blocks, want: nat): Scanner {
    (s: Scanning) => Scan(at, s, want)
  }

  lemma ScanBranches(scan: Scanner, at: Blocks, end: nat, window: nat, requests: nat, entries: seq<Entry>, want: nat,
                     start: nat, found: seq<Entry>)
    requires scan == Scans(at, want)
    requires end > 0 && start == WindowStart(end, window) && found == Between(at, start, end)
    ensures scan(Scanning(end, window, requests, entries)) ==
              if start <= 1 then Page(found + entries, 0, true)
              else if |found + entries| >= want then Page(found + entries, start, false)
              else if requests + 1 >= MAX_REQUESTS then Page(found + entries, start - 1, false)
              else scan(Scanning(start - 1, NextWindow(window, found == []), requests + 1, found + entries))
  {
    ScanTurns(at, Scanning(end, window, requests, entries), want, start, found);
  }

  lemma ScanAtTheBottom(scan: Scanner, at: Blocks, window: nat, requests: nat, entries: seq<Entry>, want: nat)
    requires scan == Scans(at, want)
    ensures scan(Scanning(0, window, requests, entries)) == Page(entries, 0, true)
  {
  }

  /** The scan as one thing, whatever it is made of. */
  lemma TheScan(at: Blocks, before: nat, want: nat) returns (scan: Scanner)
    ensures scan == Scans(at, want)
    ensures scan(Scanning(before, WINDOW_BLOCKS, 0, [])) == PageFrom(at, before, want)
  {
    scan := Scans(at, want);
  }

  function PageFrom(at: Blocks, before: nat, want: nat): Page {
    Scan(at, Scanning(before, WINDOW_BLOCKS, 0, []), want)
  }

  /** Windows asked for, newest first: each ends just below the one before, none starts at zero. */
  ghost predicate Contiguous(windows: seq<(nat, nat)>, before: nat) {
    windows == [] || (1 <= windows[0].0 <= windows[0].1 == before && Contiguous(windows[1..], windows[0].0 - 1))
  }

  /** Where the next window ends. */
  function Below(windows: seq<(nat, nat)>, before: nat): int {
    if windows == [] then before as int else windows[|windows| - 1].0 as int - 1
  }

  lemma {:induction false} ContiguousExtends(windows: seq<(nat, nat)>, before: nat, start: nat, end: nat)
    requires Contiguous(windows, before) && 1 <= start <= end == Below(windows, before)
    ensures Contiguous(windows + [(start, end)], before)
  {
    if windows != [] {
      ContiguousExtends(windows[1..], windows[0].0 - 1, start, end);
      assert (windows + [(start, end)])[1..] == windows[1..] + [(start, end)];
    } else {
      assert [(start, end)][1..] == [];
    }
  }

  /** One request, kept with the windows asked for so far. */
  method Ask(node: (nat, nat) -> Result<seq<Entry>, string>, ghost at: Blocks, ghost before: nat, start: nat, end: nat,
             ghost asked: seq<(nat, nat)>)
    returns (answer: Result<seq<Entry>, string>, ghost now: seq<(nat, nat)>)
    requires Honest(node, at) && Contiguous(asked, before) && 1 <= start <= end == Below(asked, before)
    ensures answer == node(start, end) && (answer.Ok? ==> answer.value == Between(at, start, end))
    ensures |now| == |asked| + 1 && now[|asked|] == (start, end)
    ensures Contiguous(now, before) && Below(now, before) == start - 1
  {
    ContiguousExtends(asked, before, start, end);
    answer := node(start, end);
    now := asked + [(start, end)];
  }

  method HistoryPage(node: (nat, nat) -> Result<seq<Entry>, string>, ghost at: Blocks, before: nat, want: nat)
    returns (r: Result<Page, string>, ghost asked: seq<(nat, nat)>)
    requires Honest(node, at)
    ensures |asked| <= MAX_REQUESTS && Contiguous(asked, before)
    ensures r.Ok? ==> r.value == PageFrom(at, before, want)
    ensures r.Err? ==> asked != [] && node(asked[|asked| - 1].0, asked[|asked| - 1].1) == Err(r.error)
  {
    var entries: seq<Entry> := [];
    var end, requests := before, 0;
    var window: nat := WINDOW_BLOCKS;
    ghost var scan := TheScan(at, before, want);
    ghost var page := PageFrom(at, before, want);
    asked := [];
    while true
      invariant requests == |asked| < MAX_REQUESTS && Contiguous(asked, before)
      invariant end == Below(asked, before)
      invariant scan(Scanning(end, window, requests, entries)) == page
      decreases MAX_REQUESTS - requests
    {
      if end == 0 {
        ScanAtTheBottom(scan, at, window, requests, entries, want);
        return Ok(Page(entries, 0, true)), asked;
      }
      var start := WindowStart(end, window);
      var answer: Result<seq<Entry>, string>;
      answer, asked := Ask(node, at, before, start, end, asked);
      if answer.Err? {
        return Err(answer.error), asked;
      }
      var found := answer.value;
      ScanBranches(scan, at, end, window, requests, entries, want, start, found);
      requests := requests + 1;
      entries := found + entries;
      if start <= 1 {
        return Ok(Page(entries, 0, true)), asked;
      }
      if |entries| >= want {
        return Ok(Page(entries, start, false)), asked;
      }
      window := NextWindow(window, found == []);
      end := start - 1;
      if requests >= MAX_REQUESTS {
        return Ok(Page(entries, end, false)), asked;
      }
    }
  }

  // ---- what one page holds ----

  lemma {:induction false} BetweenSplits(at: Blocks, lo: nat, mid: nat, hi: nat)
    requires lo <= mid + 1 && mid <= hi
    ensures Between(at, lo, mid) + Between(at, mid + 1, hi) == Between(at, lo, hi)
  {
    if mid < hi {
      BetweenSplits(at, lo, mid, hi - 1);
      calc {
        Between(at, lo, hi);
        Between(at, lo, hi - 1) + at(hi);
        (Between(at, lo, mid) + Between(at, mid + 1, hi - 1)) + at(hi);
        Between(at, lo, mid) + (Between(at, mid + 1, hi - 1) + at(hi));
        Between(at, lo, mid) + Between(at, mid + 1, hi);
      }
    }
  }

  /** The backstop ended the page: it came up short of `want` without reaching the start. */
  predicate GaveUp(p: Page, want: nat) {
    !p.reachedStart && |p.entries| < want
  }

  /** The lowest block a page looked at. */
  function Lowest(p: Page, want: nat): nat {
    if p.reachedStart then 1 else if GaveUp(p, want) then p.scannedTo + 1 else p.scannedTo
  }

  lemma JoinEntries(at: Blocks, low: nat, start: nat, end: nat, above: seq<Entry>)
    requires 1 <= start <= end && low <= start
    ensures Between(at, low, start - 1) + (Between(at, start, end) + above) == Between(at, low, end) + above
  {
    BetweenSplits(at, low, start - 1, end);
    assert Between(at, low, start - 1) + (Between(at, start, end) + above)
        == (Between(at, low, start - 1) + Between(at, start, end)) + above;
  }

  lemma {:induction false} ScanCovers(at: Blocks, s: Scanning, want: nat)
    requires |s.entries| < want
    ensures var p := Scan(at, s, want);
            && p.entries == Between(at, Lowest(p, want), s.end) + s.entries
            && (s.end > 0 ==> 1 <= Lowest(p, want) <= s.end)
            && (!p.reachedStart ==> p.scannedTo >= 1)
    decreases MAX_REQUESTS - s.requests
  {
    if s.end > 0 {
      var start := WindowStart(s.end, s.window);
      var found := Between(at, start, s.end);
      ScanTurns(at, s, want, start, found);
      var turn := TurnOn(s, start, found, want);
      if turn.Go? {
        ScanCovers(at, turn.next, want);
        JoinEntries(at, Lowest(Scan(at, turn.next, want), want), start, s.end, s.entries);
      }
    } else {
      assert Between(at, 1, 0) + s.entries == s.entries;
    }
  }

  /** A page holds exactly the chain's entries from the lowest block it looked at up to `before`, oldest first. */
  lemma PageIsExact(at: Blocks, before: nat, want: nat)
    requires want > 0
    ensures IsExact(at, PageFrom(at, before, want), before, want)
  {
    ScanCovers(at, Scanning(before, WINDOW_BLOCKS, 0, []), want);
    var p := PageFrom(at, before, want);
    assert Between(at, Lowest(p, want), before) + [] == Between(at, Lowest(p, want), before);
  }

  // ---- paging on ----

  /** The list on screen and how far down it claims to go. */
  datatype Shown = Shown(entries: seq<Entry>, scannedTo: nat, complete: bool)

  /** Where a page comes from, given the block it starts below. */
  type Pager = nat -> Page

  function Pages(at: Blocks, want: nat): Pager {
    (before: nat) => PageFrom(at, before, want)
  }

  /** Loading older entries asks from one below `scannedTo`. */
  function Older(pages: Pager, s: Shown): Shown {
    if s.complete || s.scannedTo == 0 then s
    else
      var p := pages(s.scannedTo - 1);
      Shown(p.entries + s.entries, p.scannedTo, p.reachedStart)
  }

  /** The list after a refresh at `tip` and `n` presses of "load older". */
  function Loaded(pages: Pager, tip: nat, n: nat): Shown {
    if n == 0 then Shown(pages(tip).entries, pages(tip).scannedTo, pages(tip).reachedStart)
    else Older(pages, Loaded(pages, tip, n - 1))
  }

  /** Whether the last page behind the list gave up, which a caller sees from its length. */
  predicate LastGaveUp(pages: Pager, want: nat, tip: nat, n: nat) {
    if n == 0 then GaveUp(pages(tip), want)
    else
      var s := Loaded(pages, tip, n - 1);
      if s.complete || s.scannedTo == 0 then LastGaveUp(pages, want, tip, n - 1)
      else GaveUp(pages(s.scannedTo - 1), want)
  }

  /** The blocks paging stepped over: where a page gave up and another was loaded below it. */
  function Skipped(pages: Pager, want: nat, tip: nat, n: nat): set<nat> {
    if n == 0 then {}
    else
      var s := Loaded(pages, tip, n - 1);
      var before := Skipped(pages, want, tip, n - 1);
      if s.complete || s.scannedTo == 0 || !LastGaveUp(pages, want, tip, n - 1) then before
      else before + {s.scannedTo}
  }

  function Without(at: Blocks, skipped: set<nat>): Blocks {
    (h: nat) => if h in skipped then [] else at(h)
  }

  /** The lowest block of the list, everything from it to the tip having been walked past. */
  function Floor(s: Shown, gaveUp: bool): nat {
    if s.complete then 1 else if gaveUp then s.scannedTo + 1 else s.scannedTo
  }

  lemma {:induction false} BetweenDependsOnRange(a: Blocks, b: Blocks, lo: nat, hi: nat)
    requires forall h :: lo <= h <= hi ==> a(h) == b(h)
    ensures Between(a, lo, hi) == Between(b, lo, hi)
  {
    if lo <= hi && hi > 0 {
      BetweenDependsOnRange(a, b, lo, hi - 1);
    }
  }

  /** The list is the chain's entries from `floor` to `tip`, but for the blocks in `skipped`. */
  ghost predicate Lists(at: Blocks, entries: seq<Entry>, skipped: set<nat>, floor: nat, tip: nat) {
    && floor <= tip + 1
    && (forall h :: h in skipped ==> floor <= h <= tip)
    && entries == Between(Without(at, skipped), floor, tip)
  }

  /** A page put below a list, touching it or one block short of it. */
  lemma PageBelow(at: Blocks, entries: seq<Entry>, skipped: set<nat>, top: nat, tip: nat, low: nat, bottom: nat)
    requires Lists(at, entries, skipped, top, tip)
    requires low <= bottom + 1 && (bottom + 1 == top || bottom + 2 == top)
    ensures Lists(at, Between(at, low, bottom) + entries,
                  if bottom + 1 == top then skipped else skipped + {bottom + 1}, low, tip)
  {
    var now := if bottom + 1 == top then skipped else skipped + {bottom + 1};
    var seen := Without(at, now);
    BetweenDependsOnRange(Without(at, skipped), seen, top, tip);
    BetweenDependsOnRange(at, seen, low, bottom);
    if bottom + 1 != top {
      assert Between(seen, low, bottom + 1) == Between(seen, low, bottom) + [];
      assert Between(seen, low, bottom) + [] == Between(seen, low, bottom);
    }
    BetweenSplits(seen, low, top - 1, tip);
  }

  /** What `PageIsExact` says of a page asked for from `before`. */
  ghost predicate IsExact(at: Blocks, p: Page, before: nat, want: nat) {
    && p.entries == Between(at, Lowest(p, want), before)
    && Lowest(p, want) <= before + 1
    && (!p.reachedStart ==> p.scannedTo >= 1 && Lowest(p, want) <= before)
  }

  lemma RefreshedLists(at: Blocks, tip: nat, want: nat, p: Page)
    requires IsExact(at, p, tip, want)
    ensures Lists(at, p.entries, {}, Lowest(p, want), tip)
  {
    BetweenDependsOnRange(at, Without(at, {}), Lowest(p, want), tip);
  }

  lemma OlderLists(at: Blocks, tip: nat, want: nat, s: Shown, gaveUp: bool, skipped: set<nat>, p: Page)
    requires !s.complete && s.scannedTo >= 1 && IsExact(at, p, s.scannedTo - 1, want)
    requires Lists(at, s.entries, skipped, Floor(s, gaveUp), tip)
    ensures Lists(at, p.entries + s.entries, if gaveUp then skipped + {s.scannedTo} else skipped, Lowest(p, want), tip)
  {
    PageBelow(at, s.entries, skipped, Floor(s, gaveUp), tip, Lowest(p, want), s.scannedTo - 1);
  }

  /** `LoadedFromExactPages` at one list, named so that its definition is met once. */
  ghost predicate ListsAt(at: Blocks, pages: Pager, want: nat, tip: nat, n: nat) {
    var s := Loaded(pages, tip, n);
    && Lists(at, s.entries, Skipped(pages, want, tip, n), Floor(s, LastGaveUp(pages, want, tip, n)), tip)
    && (!s.complete ==> s.scannedTo >= 1)
  }

  lemma OneMorePage(at: Blocks, pages: Pager, want: nat, tip: nat, n: nat, p: Page)
    requires n > 0 && ListsAt(at, pages, want, tip, n - 1) && !Loaded(pages, tip, n - 1).complete
    requires p == pages(Loaded(pages, tip, n - 1).scannedTo - 1)
    requires IsExact(at, p, Loaded(pages, tip, n - 1).scannedTo - 1, want)
    ensures ListsAt(at, pages, want, tip, n)
  {
    var s, gaveUp := Loaded(pages, tip, n - 1), LastGaveUp(pages, want, tip, n - 1);
    OlderLists(at, tip, want, s, gaveUp, Skipped(pages, want, tip, n - 1), p);
    assert Loaded(pages, tip, n) == Shown(p.entries + s.entries, p.scannedTo, p.reachedStart);
    assert LastGaveUp(pages, want, tip, n) == GaveUp(p, want);
    assert Floor(Loaded(pages, tip, n), GaveUp(p, want)) == Lowest(p, want);
  }

  /** Loading older is exact but for the blocks stepped over: nothing else is lost, nothing is repeated. */
  lemma {:induction false} LoadedFromExactPages(at: Blocks, pages: Pager, want: nat, tip: nat, n: nat)
    requires forall before :: IsExact(at, pages(before), before, want)
    ensures ListsAt(at, pages, want, tip, n)
  {
    if n == 0 {
      RefreshedLists(at, tip, want, pages(tip));
    } else {
      LoadedFromExactPages(at, pages, want, tip, n - 1);
      var s := Loaded(pages, tip, n - 1);
      if !s.complete {
        OneMorePage(at, pages, want, tip, n, pages(s.scannedTo - 1));
      }
    }
  }

  lemma PagesAreExact(at: Blocks, want: nat)
    requires want > 0
    ensures forall before :: IsExact(at, Pages(at, want)(before), before, want)
  {
    forall before
      ensures IsExact(at, Pages(at, want)(before), before, want)
    {
      PageIsExact(at, before, want);
    }
  }

  lemma {:induction false} BetweenIsShorter(at: Blocks, skipped: set<nat>, lo: nat, hi: nat)
    ensures |Between(Without(at, skipped), lo, hi)| <= |Between(at, lo, hi)|
    ensures (exists h :: h in skipped && lo <= h <= hi && at(h) != [])
              ==> |Between(Without(at, skipped), lo, hi)| < |Between(at, lo, hi)|
  {
    if lo <= hi && hi > 0 {
      BetweenIsShorter(at, skipped, lo, hi - 1);
    }
  }

  /** The list is the chain's own, with no gap and no repeat, exactly when every block stepped over was empty. */
  lemma ListIsCompleteExactlyWhen(at: Blocks, want: nat, tip: nat, n: nat)
    requires want > 0
    ensures var pages := Pages(at, want);
            var s := Loaded(pages, tip, n);
            s.entries == Between(at, Floor(s, LastGaveUp(pages, want, tip, n)), tip)
            <==> forall h :: h in Skipped(pages, want, tip, n) ==> at(h) == []
  {
    var pages := Pages(at, want);
    PagesAreExact(at, want);
    LoadedFromExactPages(at, pages, want, tip, n);
    var skipped := Skipped(pages, want, tip, n);
    var floor := Floor(Loaded(pages, tip, n), LastGaveUp(pages, want, tip, n));
    if forall h :: h in skipped ==> at(h) == [] {
      BetweenDependsOnRange(at, Without(at, skipped), floor, tip);
    } else {
      BetweenIsShorter(at, skipped, floor, tip);
    }
  }

  // ---- the gap is real ----

  /** One payment every 10,001 blocks: one in every window of the smallest size. */
  function Sparse(): Blocks {
    (h: nat) => if h % 10_001 == 0 then [Entry("tx", h)] else []
  }

  lemma {:induction false} SparseCount(lo: nat, hi: nat)
    requires 1 <= lo <= hi + 1
    ensures |Between(Sparse(), lo, hi)| == hi / 10_001 - (lo - 1) / 10_001
  {
    if lo <= hi {
      SparseCount(lo, hi - 1);
    }
  }

  lemma {:induction false} SparseScanGivesUp(s: Scanning)
    requires s.requests < MAX_REQUESTS && |s.entries| == s.requests && s.window == WINDOW_BLOCKS
    requires s.end > (MAX_REQUESTS - s.requests) * 10_001
    ensures var p := Scan(Sparse(), s, PAGE_ROWS);
            && !p.reachedStart && |p.entries| == MAX_REQUESTS
            && p.scannedTo == s.end - (MAX_REQUESTS - s.requests) * 10_001
    decreases MAX_REQUESTS - s.requests
  {
    var found := Between(Sparse(), s.end - 10_000, s.end);
    SparseCount(s.end - 10_000, s.end);
    assert |found| == 1;
    var turn := TurnOn(s, s.end - 10_000, found, PAGE_ROWS);
    if turn.Go? {
      SparseScanGivesUp(turn.next);
    }
  }

  /** A chain whose list, two pages in, claims to be complete and lacks the payment in block 10,001. */
  lemma APaymentIsSteppedOver()
    ensures var s := Loaded(Pages(Sparse(), PAGE_ROWS), 250_025, 1);
            && s.complete && Entry("tx", 10_001) in Between(Sparse(), 1, 250_025)
            && s.entries != Between(Sparse(), 1, 250_025)
  {
    var pages, tip := Pages(Sparse(), PAGE_ROWS), 250_025;
    SparseScanGivesUp(Scanning(tip, WINDOW_BLOCKS, 0, []));
    assert Loaded(pages, tip, 0).scannedTo == 10_001 && LastGaveUp(pages, PAGE_ROWS, tip, 0);
    assert 10_001 in Skipped(pages, PAGE_ROWS, tip, 1);
    assert pages(10_000).reachedStart;
    ListIsCompleteExactlyWhen(Sparse(), PAGE_ROWS, tip, 1);
    BetweenSplits(Sparse(), 1, 10_001, tip);
    assert Between(Sparse(), 1, 10_001) == Between(Sparse(), 1, 10_000) + Sparse()(10_001);
  }
}
