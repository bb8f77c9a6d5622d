/**
 * The replace protocol every record file of the wallet goes through: write a
 * temporary file, sync it, rename it over the real one. A process may stop
 * between any two steps, and a power cut may tear whatever was not synced; the
 * rename itself is atomic and durable.
 */
module FileStore {

  datatype File<T> =
    | Absent
    | Torn                    // present, and not something a reader can parse
    | Unsynced(content: T)    // complete for this process, at the mercy of a power cut
    | Whole(content: T)

  datatype Disk<T> = Disk(main: File<T>, temp: File<T>)

  /** How many of the four steps complete, and whether the process dies at that point. */
  datatype Fate = Fate(steps: nat, dies: bool)

  datatype Outcome = Done | Failed | Died

  function Replace<T>(d: Disk<T>, content: T, fate: Fate): Disk<T> {
    if fate.steps == 0 then d
    else if fate.steps == 1 then d.(temp := Torn)
    else if fate.steps == 2 then d.(temp := Unsynced(content))
    else if fate.steps == 3 then d.(temp := Whole(content))
    else Disk(Whole(content), Absent)
  }

  function ReplaceOutcome(fate: Fate): Outcome {
    if fate.dies then Died else if fate.steps >= 4 then Done else Failed
  }

  /** What a power cut may leave of a file. */
  predicate MayLeave<T(==)>(before: File<T>, after: File<T>) {
    after == before || (before.Unsynced? && (after == Torn || after == Whole(before.content)))
  }

  predicate PowerCut<T(==)>(before: Disk<T>, after: Disk<T>) {
    MayLeave(before.main, after.main) && MayLeave(before.temp, after.temp)
  }

  /** Wherever a replace stops, and whatever the power does then, the real file is entirely old or entirely new. */
  lemma ReplaceIsAtomic<T>(d: Disk<T>, content: T, fate: Fate, after: Disk<T>)
    requires !d.main.Unsynced?
    requires PowerCut(Replace(d, content, fate), after)
    ensures after.main == d.main || after.main == Whole(content)
    ensures ReplaceOutcome(fate) == Done ==> after.main == Whole(content)
    ensures ReplaceOutcome(fate) == Failed ==> after.main == d.main
    ensures !after.main.Unsynced?
  {}

  /** The same steps, by a writer that may leave the sync out. */
  function ReplaceAs<T>(d: Disk<T>, content: T, fate: Fate, syncs: bool): Disk<T> {
    if syncs || fate.steps < 3 then Replace(d, content, fate)
    else if fate.steps == 3 then d.(temp := Unsynced(content))
    else Disk(Unsynced(content), Absent)
  }

  /** Whatever a power cut leaves of this disk, the real file is entirely old or entirely new. */
  ghost predicate OldOrNew<T(!new)>(before: Disk<T>, after: Disk<T>, content: T) {
    forall cut :: PowerCut(after, cut) ==> cut.main == before.main || cut.main == Whole(content)
  }

  /** A replace is atomic across power cuts exactly when it synced, or stopped before its rename. */
  lemma AtomicAcrossPowerCutsExactlyWhen<T(!new)>(d: Disk<T>, content: T, fate: Fate, syncs: bool)
    requires !d.main.Unsynced? && !d.main.Torn?
    ensures OldOrNew(d, ReplaceAs(d, content, fate, syncs), content) <==> syncs || fate.steps < 4
  {
    var after := ReplaceAs(d, content, fate, syncs);
    if !syncs && fate.steps >= 4 {
      assert PowerCut(after, Disk(Torn, Absent));
    }
  }

  /** The sync is what earns this: renaming a file that was not synced can lose old and new alike. */
  lemma RenamingUnsyncedCanLoseBoth<T>(old_: T, content: T)
    ensures exists after: Disk<T> ::
              && PowerCut(Disk(Unsynced(content), Absent), after)
              && after.main != Whole(old_) && after.main != Whole(content)
  {
    assert PowerCut(Disk(Unsynced(content), Absent), Disk(Torn, Absent));
  }

  class Store<T> {
    var main: File<T>
    var temp: File<T>

    function View(): Disk<T>
      reads this
    {
      Disk(main, temp)
    }

    constructor (d: Disk<T>)
      ensures View() == d
    {
      main, temp := d.main, d.temp;
    }

    /** Create, write, sync, rename; `fate` says where the operating system stops it. */
    method ReplaceWith(content: T, fate: Fate) returns (r: Outcome)
      modifies this
      ensures View() == Replace(old(View()), content, fate)
      ensures r == ReplaceOutcome(fate)
    {
      var stopped := if fate.dies then Died else Failed;
      if fate.steps == 0 {
        return stopped;
      }
      temp := Torn;
      if fate.steps == 1 {
        return stopped;
      }
      temp := Unsynced(content);
      if fate.steps == 2 {
        return stopped;
      }
      temp := Whole(content);
      if fate.steps == 3 {
        return stopped;
      }
      main, temp := temp, Absent;
      return if fate.dies then Died else Done;
    }
  }
}
