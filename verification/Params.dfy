/**
 * Downloading the proving parameters: `fetch`, `download` and `find_in` in
 * `pecu-core/src/params.rs`. A file is its bytes; which bytes are the right
 * ones is a hash the SDK checks when they are loaded.
 */
module Params {
  import opened Wrappers
  import opened FileStore

  type Bytes = seq<int>

  const SPEND_BYTES: nat := 47_958_396
  const OUTPUT_BYTES: nat := 3_592_860
  const BUFFER: nat := 0x1_0000

  /** `metadata` of the real name, as the size screen reads it. */
  predicate IsSized(file: File<Bytes>, size: nat) {
    (file.Whole? || file.Unsynced?) && |file.content| == size
  }

  /** Where the process dies, if it does: at the start, at a position of the loop, or either side of the rename. */
  datatype Death = Never | AtTheStart | Standing(at: nat) | BeforeRename | AfterRename

  /**
   * What one download meets: the bytes the server has for it, the position its
   * connection breaks at if it does, how much each read returns, the position
   * a write fails at if one does, whether the last steps go through, and death.
   */
  datatype Weather = Weather(served: Bytes, breaksAt: Option<nat>, pieces: nat -> nat, fullAt: Option<nat>,
                             answers: bool, creates: bool, flushes: bool, renames: bool, death: Death)

  /** How much is read where `written` bytes have been, out of `cap`. */
  function ReadSize(w: Weather, written: nat, cap: nat): (n: nat)
    requires written < cap
    ensures 0 < n <= cap - written && n <= BUFFER
  {
    var most := if cap - written < BUFFER then cap - written else BUFFER;
    var n := w.pieces(written);
    if n == 0 then 1 else if n > most then most else n
  }

  /** The positions the loop stands at, having started from `written`. */
  function Stops(w: Weather, written: nat, cap: nat): seq<nat>
    requires written <= cap
    decreases cap - written
  {
    if written == cap then [cap] else [written] + Stops(w, written + ReadSize(w, written, cap), cap)
  }

  /** Nothing goes wrong where the loop stands: a connection broken past the last byte wanted is never noticed. */
  predicate Smooth(w: Weather, size: nat) {
    && w.answers && w.creates && w.flushes && w.renames && |w.served| >= size
    && forall p :: p in Stops(w, 0, size) && p < size ==> w.breaksAt != Some(p) && w.fullAt != Some(p)
  }

  /** The download gets past its rename: nothing went wrong, and no death came before. */
  predicate Replaces(w: Weather, size: nat) {
    && Smooth(w, size)
    && match w.death
       case Never => true
       case AtTheStart => false
       case Standing(at) => at !in Stops(w, 0, size)
       case BeforeRename => false
       case AfterRename => true
  }

  function Cap(w: Weather, size: nat): nat {
    if |w.served| < size then |w.served| else size
  }

  predicate Rises(reports: seq<nat>, from: nat) {
    reports == [] || (from < reports[0] && Rises(reports[1..], reports[0]))
  }

  lemma {:induction false} RisesOn(reports: seq<nat>, from: nat, next: nat)
    requires Rises(reports, from)
    requires (if reports == [] then from else reports[|reports| - 1]) < next
    ensures Rises(reports + [next], from)
  {
    if reports != [] {
      RisesOn(reports[1..], reports[0], next);
      assert (reports + [next])[1..] == reports[1..] + [next];
    }
  }

  /**
   * One file, the process dying anywhere or not at all. What is under the real
   * name is replaced exactly when the download gets past its rename, and then
   * holds exactly the first `size` bytes the server sent; at every other point
   * it is what it was.
   */
  method Download(store: Store<Bytes>, size: nat, already: nat, w: Weather) returns (r: Outcome, reports: seq<nat>)
    requires size > 0
    modifies store
    ensures store.main == if Replaces(w, size) then Unsynced(w.served[..size]) else old(store.main)
    ensures r == Done <==> Replaces(w, size) && !w.death.AfterRename?
    ensures w.death.Never? ==> r != Died
    ensures Rises(reports, already)
    ensures r == Done ==> reports != [] && reports[|reports| - 1] == already + size
    ensures forall n :: n in reports ==> n <= already + size
  {
    reports := [];
    if w.death.AtTheStart? {
      return Died, [];
    }
    if !w.answers || !w.creates {
      return Failed, [];
    }
    store.temp := Torn;
    var written;
    r, reports, written := Receive(store, size, already, w);
    if r != Done {
      return;
    }
    if !w.flushes || written != size {
      store.temp := Absent;
      return Failed, reports;
    }
    store.temp := Unsynced(w.served[..size]);
    if w.death.BeforeRename? {
      return Died, reports;
    }
    if !w.renames {
      return Failed, reports;
    }
    store.main, store.temp := store.temp, Absent;
    r := if w.death.AfterRename? then Died else Done;
  }

  /** The loop stood nowhere that anything went wrong. */
  predicate Unhindered(w: Weather, size: nat) {
    && (forall p :: p in Stops(w, 0, Cap(w, size)) && p < size ==> w.breaksAt != Some(p))
    && (forall p :: p in Stops(w, 0, Cap(w, size)) && p < Cap(w, size) ==> w.fullAt != Some(p))
    && (w.death.Standing? ==> w.death.at !in Stops(w, 0, Cap(w, size)))
  }

  /** The loop went past these positions, and now stands at `written`. */
  ghost predicate WentPast(w: Weather, met: seq<nat>, written: nat, cap: nat)
    requires written <= cap
  {
    && Stops(w, 0, cap) == met + Stops(w, written, cap)
    && forall p :: p in met ==> p < cap && w.breaksAt != Some(p) && w.fullAt != Some(p) && w.death != Standing(p)
  }

  lemma StandsThere(w: Weather, met: seq<nat>, written: nat, cap: nat)
    requires written <= cap && WentPast(w, met, written, cap)
    ensures written in Stops(w, 0, cap)
  {
    assert Stops(w, written, cap)[0] == written;
  }

  lemma GoesPast(w: Weather, met: seq<nat>, written: nat, cap: nat)
    requires written < cap && WentPast(w, met, written, cap)
    requires w.breaksAt != Some(written) && w.fullAt != Some(written) && w.death != Standing(written)
    ensures WentPast(w, met + [written], written + ReadSize(w, written, cap), cap)
  {
    var next := written + ReadSize(w, written, cap);
    assert met + Stops(w, written, cap) == met + [written] + Stops(w, next, cap);
  }

  lemma CameThrough(w: Weather, met: seq<nat>, size: nat)
    requires WentPast(w, met, Cap(w, size), Cap(w, size))
    requires w.death != Standing(Cap(w, size)) && (Cap(w, size) < size ==> w.breaksAt != Some(Cap(w, size)))
    ensures Unhindered(w, size)
  {}

  /** Reading until there is no more wanted or no more sent, each piece written to the temporary file and reported. */
  method Receive(store: Store<Bytes>, size: nat, already: nat, w: Weather)
    returns (r: Outcome, reports: seq<nat>, written: nat)
    requires size > 0
    modifies store
    ensures store.main == old(store.main)
    ensures r == Done <==> Unhindered(w, size)
    ensures !w.death.Standing? ==> r != Died
    ensures r == Done ==> written == Cap(w, size)
    ensures Rises(reports, already) && forall n :: n in reports ==> n <= already + size
    ensures r == Done && written > 0 ==> reports != [] && reports[|reports| - 1] == already + written
  {
    var cap := Cap(w, size);
    written, reports := 0, [];
    ghost var met: seq<nat> := [];
    while true
      invariant 0 <= written <= cap && store.main == old(store.main) && WentPast(w, met, written, cap)
      invariant Rises(reports, already) && forall n :: n in reports ==> n <= already + written
      invariant (if reports == [] then already else reports[|reports| - 1]) == already + written
      decreases cap - written
    {
      StandsThere(w, met, written, cap);
      if w.death == Standing(written) {
        return Died, reports, written;
      }
      if written < size && w.breaksAt == Some(written) {
        store.temp := Absent;
        return Failed, reports, written;
      }
      if written == cap {
        CameThrough(w, met, size);
        return Done, reports, written;
      }
      if w.fullAt == Some(written) {
        store.temp := Absent;
        return Failed, reports, written;
      }
      var n := ReadSize(w, written, cap);
      RisesOn(reports, already, already + written + n);
      GoesPast(w, met, written, cap);
      met := met + [written];
      written := written + n;
      reports := reports + [already + written];
    }
  }

  /** Against the process dying, at any point, what is under the real name is as it was or whole. */
  lemma RealNameIsOldOrWhole(before: File<Bytes>, w: Weather, size: nat)
    ensures var after := if Replaces(w, size) then Unsynced(w.served[..size]) else before;
            after == before || (IsSized(after, size) && after.content == w.served[..size])
  {}

  /**
   * A download is a replace that leaves the sync out, so against a power cut
   * what is under the real name is entirely what it was or entirely the new
   * bytes exactly when the download did not get as far as replacing it.
   */
  lemma WholeAcrossPowerCutsExactlyWhen(before: Disk<Bytes>, after: Disk<Bytes>, w: Weather, size: nat)
    requires !before.main.Unsynced? && !before.main.Torn? && size <= |w.served|
    requires after.main == if Replaces(w, size) then Unsynced(w.served[..size]) else before.main
    ensures var fate := Fate(if Replaces(w, size) then 4 else 0, w.death.AfterRename?);
            after.main == ReplaceAs(before, w.served[..size], fate, false).main
    ensures OldOrNew(before, after, w.served[..size]) <==> !Replaces(w, size)
  {
    if Replaces(w, size) {
      assert PowerCut(after, Disk(Torn, after.temp));
    }
  }

  lemma {:induction false} RisesTogether(before: seq<nat>, after: seq<nat>, from: nat, joint: nat)
    requires Rises(before, from) && Rises(after, joint)
    requires (if before == [] then from else before[|before| - 1]) == joint
    ensures Rises(before + after, from)
  {
    if before == [] {
      assert before + after == after;
    } else {
      RisesTogether(before[1..], after, before[0], joint);
      assert (before + after)[1..] == before[1..] + after;
    }
  }

  /** Whether a file is as good as there: sized already, or about to come down whole. */
  predicate WillBeThere(before: File<Bytes>, size: nat, w: Weather) {
    IsSized(before, size) || (Replaces(w, size) && !w.death.AfterRename?)
  }

  /** One of the two files, downloaded only if it is not already there at its size. */
  method Obtain(store: Store<Bytes>, size: nat, done: nat, w: Weather) returns (r: Outcome, reports: seq<nat>)
    requires size > 0
    modifies store
    ensures r == Done <==> WillBeThere(old(store.main), size, w)
    ensures r == Done ==> IsSized(store.main, size)
    ensures store.main == old(store.main) || IsSized(store.main, size)
    ensures IsSized(old(store.main), size) ==> store.main == old(store.main)
    ensures IsSized(old(store.main), size) ==> store.temp == old(store.temp)
    ensures Rises(reports, done)
    ensures r == Done ==> reports != [] && reports[|reports| - 1] == done + size
    ensures forall n :: n in reports ==> n <= done + size
  {
    if (store.main.Whole? || store.main.Unsynced?) && |store.main.content| == size {
      return Done, [done + size];
    }
    r, reports := Download(store, size, done, w);
  }

  /**
   * Both files, the small one first; `made` is whether their directory could be.
   * It succeeds exactly when it could and each file is there or comes down whole;
   * whatever happens, a file that was already there is left alone, so trying
   * again asks only for what is missing; and what is reported rises without a
   * step back, to the whole total when both are there.
   */
  method Fetch(made: bool, output: Store<Bytes>, spend: Store<Bytes>, first: Weather, second: Weather)
    returns (r: Outcome, reports: seq<nat>)
    requires output != spend
    modifies output, spend
    ensures r == Done <==>
              && made && WillBeThere(old(output.main), OUTPUT_BYTES, first)
              && WillBeThere(old(spend.main), SPEND_BYTES, second)
    ensures !made ==> output.View() == old(output.View()) && spend.View() == old(spend.View())
    ensures r == Done ==> IsSized(output.main, OUTPUT_BYTES) && IsSized(spend.main, SPEND_BYTES)
    ensures IsSized(old(output.main), OUTPUT_BYTES) ==> output.View() == old(output.View())
    ensures IsSized(old(spend.main), SPEND_BYTES) ==> spend.View() == old(spend.View())
    ensures output.main == old(output.main) || IsSized(output.main, OUTPUT_BYTES)
    ensures spend.main == old(spend.main) || IsSized(spend.main, SPEND_BYTES)
    ensures Rises(reports, 0) && forall n :: n in reports ==> n <= SPEND_BYTES + OUTPUT_BYTES
    ensures r == Done ==> reports != [] && reports[|reports| - 1] == SPEND_BYTES + OUTPUT_BYTES
  {
    if !made {
      return Failed, [];
    }
    r, reports := Obtain(output, OUTPUT_BYTES, 0, first);
    if r != Done {
      return;
    }
    var more;
    r, more := Obtain(spend, SPEND_BYTES, OUTPUT_BYTES, second);
    RisesTogether(reports, more, 0, OUTPUT_BYTES);
    reports := reports + more;
  }
}
