/**
 Cells of one location, or of one count, finished by transactions that overlap: each locks its own cell
 only, finishes it, and looks whether any other is unfinished before it commits.
 */
module CountingConcurrency {
  import opened Common

  /** Under way on one cell: still to look, or having seen no other unfinished cell (or some). */
  datatype Finishing = Finishes | Looked(last: bool)

  /** What is committed: the finished cells, and whether the location was released (or the count closed). */
  datatype World = World(finished: set<Id>, released: bool, open: map<Id, Finishing>)

  datatype Step = Finish(cell: Id) | Look(cell: Id) | Commit(cell: Id) | Rollback(cell: Id)

  predicate Enabled(cells: set<Id>, w: World, s: Step) {
    match s
    case Finish(c) => c in cells && c !in w.finished && c !in w.open
    case Look(c) => c in w.open && w.open[c].Finishes?
    case Commit(c) => c in w.open && w.open[c].Looked?
    case Rollback(c) => c in w.open
  }

  /** All cells but this one are finished, as far as anybody has committed. */
  predicate OthersFinished(cells: set<Id>, w: World, c: Id) {
    cells - {c} <= w.finished
  }

  function Next(cells: set<Id>, w: World, s: Step): World {
    if !Enabled(cells, w, s) then w
    else
      match s
      case Finish(c) => w.(open := w.open[c := Finishes])
      case Look(c) => w.(open := w.open[c := Looked(OthersFinished(cells, w, c))])
      case Commit(c) => World(w.finished + {c}, w.released || w.open[c].last, w.open - {c})
      case Rollback(c) => w.(open := w.open - {c})
  }

  const START := World({}, false, map[])

  function Run(cells: set<Id>, steps: seq<Step>): World {
    if steps == [] then START else Next(cells, Run(cells, steps[..|steps| - 1]), steps[|steps| - 1])
  }

  ghost predicate Inv(cells: set<Id>, w: World) {
    && w.finished <= cells && (w.released ==> w.finished == cells)
    && (forall c :: c in w.open ==> c in cells && c !in w.finished)
    && (forall c :: c in w.open && w.open[c] == Looked(true) ==> OthersFinished(cells, w, c))
  }

  lemma {:induction false} InvOfRun(cells: set<Id>, steps: seq<Step>)
    ensures Inv(cells, Run(cells, steps))
  {
    if steps != [] {
      InvOfRun(cells, steps[..|steps| - 1]);
    }
  }

  /** Nothing is released before all cells are finished. */
  lemma NeverReleasedEarly(cells: set<Id>, steps: seq<Step>)
    ensures Run(cells, steps).released ==> Run(cells, steps).finished == cells
  {
    InvOfRun(cells, steps);
  }

  // ---- Exactly when nothing is released -----------------------------------------------------

  /** When the transaction on `c` last looked, all other cells were finished. */
  predicate LookedLast(cells: set<Id>, steps: seq<Step>, c: Id) {
    steps != [] &&
    var w, s := Run(cells, steps[..|steps| - 1]), steps[|steps| - 1];
    if Enabled(cells, w, s) && s == Look(c) then OthersFinished(cells, w, c)
    else if Enabled(cells, w, s) && s == Finish(c) then false
    else LookedLast(cells, steps[..|steps| - 1], c)
  }

  lemma {:induction false} LookIsRemembered(cells: set<Id>, steps: seq<Step>, c: Id)
    ensures c in Run(cells, steps).open ==> (Run(cells, steps).open[c] == Looked(true) <==> LookedLast(cells, steps, c))
  {
    if steps != [] {
      LookIsRemembered(cells, steps[..|steps| - 1], c);
    }
  }

  /** Step `n` commits the last unfinished cell, and the transaction had looked when all others were finished. */
  predicate ReleasesAt(cells: set<Id>, steps: seq<Step>, n: nat)
    requires n < |steps|
  {
    var w, s := Run(cells, steps[..n]), steps[n];
    s.Commit? && Enabled(cells, w, s) && LookedLast(cells, steps[..n], s.cell)
  }

  ghost predicate ReleasesSomewhere(cells: set<Id>, steps: seq<Step>) {
    exists n: nat :: n < |steps| && ReleasesAt(cells, steps, n)
  }

  lemma ReleasesInFront(cells: set<Id>, steps: seq<Step>, m: nat)
    requires |steps| == m + 1
    ensures ReleasesSomewhere(cells, steps) <==> ReleasesSomewhere(cells, steps[..m]) || ReleasesAt(cells, steps, m)
  {
    forall n: nat | n < m ensures ReleasesAt(cells, steps[..m], n) == ReleasesAt(cells, steps, n) {
      assert steps[..m][..n] == steps[..n];
    }
  }

  /**
   In every interleaving, the location is released (the count closed) if and only if some transaction
   looked after all others had committed, and then committed itself.
   */
  lemma {:induction false} ReleasedExactly(cells: set<Id>, steps: seq<Step>)
    ensures Run(cells, steps).released <==> ReleasesSomewhere(cells, steps)
  {
    if steps != [] {
      var m := |steps| - 1;
      ReleasedExactly(cells, steps[..m]);
      ReleasesInFront(cells, steps, m);
      if steps[m].Commit? {
        LookIsRemembered(cells, steps[..m], steps[m].cell);
      }
    }
  }

  /** Finished cells without a release stay so: no step releases them any more. */
  lemma NeverReleasedLater(cells: set<Id>, steps: seq<Step>, s: Step)
    requires Run(cells, steps).finished == cells && !Run(cells, steps).released
    ensures Next(cells, Run(cells, steps), s).finished == cells && !Next(cells, Run(cells, steps), s).released
  {
    InvOfRun(cells, steps);
  }

  /** Two transactions finish the last two cells; each looks before the other commits. */
  predicate Overlapping(steps: seq<Step>) {
    && |steps| == 6 && steps[0] == Finish(0) && steps[1] == Finish(1)
    && steps[2] == Look(0) && steps[3] == Look(1) && steps[4] == Commit(0) && steps[5] == Commit(1)
  }

  lemma RunTakes(cells: set<Id>, steps: seq<Step>, n: nat)
    requires n < |steps|
    ensures Run(cells, steps[..n + 1]) == Next(cells, Run(cells, steps[..n]), steps[n])
  {
    assert steps[..n + 1][..n] == steps[..n];
  }

  lemma BothLookInVain(steps: seq<Step>)
    requires Overlapping(steps)
    ensures Run({0, 1}, steps[..4]) == World({}, false, map[0 := Looked(false), 1 := Looked(false)])
  {
    assert steps[..0] == [];
    RunTakes({0, 1}, steps, 0);
    RunTakes({0, 1}, steps, 1);
    assert Run({0, 1}, steps[..2]) == World({}, false, map[0 := Finishes, 1 := Finishes]);
    RunTakes({0, 1}, steps, 2);
    assert 1 in {0, 1} - {0} && 0 in {0, 1} - {1};
    assert Run({0, 1}, steps[..3]) == World({}, false, map[0 := Looked(false), 1 := Finishes]);
    RunTakes({0, 1}, steps, 3);
  }

  /** Both cells are finished then, and nothing was released. */
  lemma OverlapReleasesNothing(steps: seq<Step>)
    requires Overlapping(steps)
    ensures Run({0, 1}, steps).finished == {0, 1} && !Run({0, 1}, steps).released
  {
    BothLookInVain(steps);
    RunTakes({0, 1}, steps, 4);
    RunTakes({0, 1}, steps, 5);
    assert steps[..6] == steps;
  }
}
