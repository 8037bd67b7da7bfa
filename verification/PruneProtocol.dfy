/**
  Pruning one output: mark its row pending, unlink the file, sync its directory, mark the row
  pruned. Several workers may do this at once (the daemon's passes and the explicit command), and
  everything may stop between any two steps.
*/
module PruneProtocol {
  /** One attempt's output file; the files of a run share a directory. */
  datatype Output = Output(run: nat, attempt: nat)

  datatype RowState = Finalized | Pending | Pruned

  /** `Unsynced`: unlinked, but a stop may still bring it back. */
  datatype FileState = Present | Unsynced | Absent

  datatype Worker = Idle | Holding(o: Output) | Unlinked(o: Output) | Cleared(o: Output)

  datatype World = World(rows: map<Output, RowState>, files: map<Output, FileState>, workers: map<nat, Worker>)

  datatype Step =
    | Mark(k: nat, o: Output)
    | Take(k: nat, o: Output)
    | GiveUp(k: nat)
    | Find(k: nat)
    | Unlink(k: nat)
    | Sync(k: nat)
    | Finish(k: nat)
    | Stop(kept: set<Output>)

  predicate Free(w: World, k: nat) {
    k in w.workers && w.workers[k].Idle?
  }

  predicate Enabled(w: World, s: Step) {
    match s
    case Mark(k, o) => Free(w, k) && o in w.rows && w.rows[o] == Finalized
    case Take(k, o) => Free(w, k) && o in w.rows && w.rows[o] == Pending
    case GiveUp(k) => k in w.workers && (w.workers[k].Holding? || w.workers[k].Cleared?)
    case Find(k) => k in w.workers && w.workers[k].Holding? && w.workers[k].o in w.files && w.files[w.workers[k].o] != Present
    case Unlink(k) => k in w.workers && w.workers[k].Holding? && w.workers[k].o in w.files && w.files[w.workers[k].o] == Present
    case Sync(k) => k in w.workers && w.workers[k].Unlinked?
    case Finish(k) => k in w.workers && w.workers[k].Cleared? && w.workers[k].o in w.rows
    case Stop(_) => true
  }

  /** A directory sync makes every unlink in the run's directory durable. */
  function Synced(files: map<Output, FileState>, run: nat): map<Output, FileState> {
    map o | o in files :: if o.run == run && files[o] == Unsynced then Absent else files[o]
  }

  /** A stop settles every unsynced unlink one way or the other. */
  function Settled(files: map<Output, FileState>, kept: set<Output>): map<Output, FileState> {
    map o | o in files :: if files[o] != Unsynced then files[o] else if o in kept then Present else Absent
  }

  function Apply(w: World, s: Step): World
    requires Enabled(w, s)
  {
    match s
    case Mark(k, o) => w.(rows := w.rows[o := Pending], workers := w.workers[k := Holding(o)])
    case Take(k, o) => w.(workers := w.workers[k := Holding(o)])
    case GiveUp(k) => w.(workers := w.workers[k := Idle])
    case Find(k) => w.(workers := w.workers[k := Cleared(w.workers[k].o)])
    case Unlink(k) => w.(files := w.files[w.workers[k].o := Unsynced], workers := w.workers[k := Unlinked(w.workers[k].o)])
    case Sync(k) => w.(files := Synced(w.files, w.workers[k].o.run), workers := w.workers[k := Cleared(w.workers[k].o)])
    case Finish(k) =>
      var o := w.workers[k].o;
      w.(rows := if w.rows[o] == Pending then w.rows[o := Pruned] else w.rows, workers := w.workers[k := Idle])
    case Stop(kept) => w.(files := Settled(w.files, kept), workers := map k | k in w.workers :: Idle)
  }

  predicate Holds(p: Worker, o: Output) {
    !p.Idle? && p.o == o
  }

  ghost predicate Unheld(w: World, o: Output) {
    forall j | j in w.workers :: !Holds(w.workers[j], o)
  }

  /** A pending output is only taken up when nobody else is handling it, or its file is durably gone already. */
  ghost predicate Exclusive(w: World, s: Step) {
    s.Take? ==> Unheld(w, s.o) || (s.o in w.files && w.files[s.o] == Absent)
  }

  /** A pruned row has no file, and a file that is gone has a row that says so. */
  ghost predicate Safe(w: World) {
    forall o | o in w.rows ::
      o in w.files && (w.rows[o] == Pruned ==> w.files[o] == Absent) && (w.files[o] != Present ==> w.rows[o] != Finalized)
  }

  ghost predicate WorkerOk(w: World, k: nat)
    requires k in w.workers
  {
    var p := w.workers[k];
    !p.Idle? ==>
      && p.o in w.rows && p.o in w.files && w.rows[p.o] != Finalized
      && (p.Cleared? ==> w.files[p.o] == Absent)
      && (p.Unlinked? ==> w.files[p.o] != Present)
      && (w.files[p.o] != Absent ==> forall j | j in w.workers && j != k :: !Holds(w.workers[j], p.o))
  }

  ghost predicate FileOk(w: World, o: Output)
    requires o in w.files
  {
    w.files[o] == Unsynced ==> exists k :: k in w.workers && w.workers[k] == Unlinked(o)
  }

  ghost predicate Inv(w: World) {
    && Safe(w)
    && (forall k | k in w.workers :: WorkerOk(w, k))
    && (forall o | o in w.files :: FileOk(w, o))
  }

  lemma StepKeepsFiles(w: World, s: Step, o: Output)
    requires Inv(w) && Enabled(w, s) && Exclusive(w, s) && o in w.files
    ensures o in Apply(w, s).files && FileOk(Apply(w, s), o)
  {
    var w' := Apply(w, s);
    if w'.files[o] == Unsynced {
      if s.Unlink? && w.workers[s.k].o == o {
        assert w'.workers[s.k] == Unlinked(o);
      } else {
        var k :| k in w.workers && w.workers[k] == Unlinked(o);
        assert WorkerOk(w, k);
        assert w'.workers[k] == Unlinked(o);
      }
    }
  }

  lemma StepKeepsInv(w: World, s: Step)
    requires Inv(w) && Enabled(w, s) && Exclusive(w, s)
    ensures Inv(Apply(w, s))
  {
    var w' := Apply(w, s);
    forall o | o in w'.files ensures FileOk(w', o) { StepKeepsFiles(w, s, o); }
  }

  // ---- Whole runs ----

  predicate Runs(w: World, steps: seq<Step>)
    decreases |steps|
  {
    steps == [] || (Enabled(w, steps[0]) && Runs(Apply(w, steps[0]), steps[1..]))
  }

  function After(w: World, steps: seq<Step>): World
    requires Runs(w, steps)
    decreases |steps|
  {
    if steps == [] then w else After(Apply(w, steps[0]), steps[1..])
  }

  ghost predicate ExclusiveRun(w: World, steps: seq<Step>)
    requires Runs(w, steps)
    decreases |steps|
  {
    steps == [] || (Exclusive(w, steps[0]) && ExclusiveRun(Apply(w, steps[0]), steps[1..]))
  }

  /** Rows listed, files in place, nobody at work. */
  ghost predicate Initial(w: World) {
    && (forall o | o in w.rows :: w.rows[o] == Finalized && o in w.files)
    && (forall o | o in w.files :: w.files[o] == Present)
    && (forall k | k in w.workers :: w.workers[k] == Idle)
  }

  /**
    Pruning survives stops at any step. In every run in which no worker takes up an output
    another one is handling, a pruned row never has a file and a removed file never has a
    finalized row, wherever the run is cut and however each stop settles an unsynced removal.
  */
  lemma {:induction false} PruningIsSafe(w: World, steps: seq<Step>)
    requires Inv(w) && Runs(w, steps) && ExclusiveRun(w, steps)
    ensures Inv(After(w, steps)) && Safe(After(w, steps))
    decreases |steps|
  {
    if steps != [] {
      StepKeepsInv(w, steps[0]);
      PruningIsSafe(Apply(w, steps[0]), steps[1..]);
    }
  }

  lemma InitialInv(w: World)
    requires Initial(w)
    ensures Inv(w)
  {
  }

  // ---- The condition is exact ----

  /** How the run goes on when worker `k` takes up an output worker `j` has not durably removed. */
  function Overlap(w: World, k: nat, j: nat, o: Output): seq<Step>
    requires j in w.workers
  {
    if w.workers[j].Unlinked? then [Take(k, o), Find(k), Finish(k), Stop({o})]
    else [Take(k, o), Unlink(k), Find(j), Finish(j), Stop({o})]
  }

  /** Whoever handles an output whose unlink is not durable yet is the one that unlinked it. */
  lemma UnsyncedHolder(w: World, j: nat, o: Output)
    requires Inv(w) && j in w.workers && Holds(w.workers[j], o) && o in w.files
    ensures w.files[o] == Unsynced ==> w.workers[j] == Unlinked(o)
  {
    if w.files[o] == Unsynced {
      assert FileOk(w, o);
      var u :| u in w.workers && w.workers[u] == Unlinked(o);
      assert WorkerOk(w, u) && Holds(w.workers[u], o);
    }
  }

  /**
    Taking up an output someone else is still removing is never harmless: from every such state
    a short run without any further overlap ends with a pruned row whose file is back.
  */
  lemma OverlapBreaksSafety(w: World, k: nat, j: nat, o: Output)
    requires Inv(w) && Enabled(w, Take(k, o)) && !Exclusive(w, Take(k, o))
    requires j in w.workers && Holds(w.workers[j], o)
    ensures Runs(w, Overlap(w, k, j, o)) && !Safe(After(w, Overlap(w, k, j, o)))
  {
    assert WorkerOk(w, j);
    assert k != j && o in w.files && w.files[o] != Absent;
    var w1 := Apply(w, Take(k, o));
    if w.workers[j].Unlinked? {
      UnsyncedFinishBreaks(w1, k, o, w);
    } else {
      UnsyncedHolder(w, j, o);
      var w2 := Apply(w1, Unlink(k));
      var w3 := Apply(w2, Find(j));
      var w4 := Apply(w3, Finish(j));
      var w5 := Apply(w4, Stop({o}));
      assert w5.rows[o] == Pruned && w5.files[o] == Present;
      Four(w1, Unlink(k), Find(j), Finish(j), Stop({o}));
      assert Overlap(w, k, j, o)[1..] == [Unlink(k), Find(j), Finish(j), Stop({o})];
    }
  }

  lemma UnsyncedFinishBreaks(w1: World, k: nat, o: Output, w: World)
    requires k in w1.workers && w1.workers[k] == Holding(o) && o in w1.rows && w1.rows[o] == Pending
    requires o in w1.files && w1.files[o] == Unsynced
    requires Enabled(w, Take(k, o)) && w1 == Apply(w, Take(k, o))
    ensures var steps := [Take(k, o), Find(k), Finish(k), Stop({o})];
            Runs(w, steps) && !Safe(After(w, steps))
  {
    var w2 := Apply(w1, Find(k));
    var w3 := Apply(w2, Finish(k));
    var w4 := Apply(w3, Stop({o}));
    assert w4.rows[o] == Pruned && w4.files[o] == Present;
    Three(w1, Find(k), Finish(k), Stop({o}));
    assert [Take(k, o), Find(k), Finish(k), Stop({o})][1..] == [Find(k), Finish(k), Stop({o})];
  }

  lemma Cons(w: World, a: Step, rest: seq<Step>)
    requires Enabled(w, a) && Runs(Apply(w, a), rest)
    ensures Runs(w, [a] + rest) && After(w, [a] + rest) == After(Apply(w, a), rest)
  {
    assert ([a] + rest)[1..] == rest;
  }

  lemma Two(w: World, a: Step, b: Step)
    requires Enabled(w, a) && Enabled(Apply(w, a), b)
    ensures Runs(w, [a, b]) && After(w, [a, b]) == Apply(Apply(w, a), b)
  {
    Cons(Apply(w, a), b, []);
    Cons(w, a, [b]);
    assert [b] + [] == [b] && [a] + [b] == [a, b];
  }

  lemma Three(w: World, a: Step, b: Step, c: Step)
    requires Enabled(w, a) && Enabled(Apply(w, a), b) && Enabled(Apply(Apply(w, a), b), c)
    ensures Runs(w, [a, b, c]) && After(w, [a, b, c]) == Apply(Apply(Apply(w, a), b), c)
  {
    Two(Apply(w, a), b, c);
    Cons(w, a, [b, c]);
    assert [a] + [b, c] == [a, b, c];
  }

  lemma Four(w: World, a: Step, b: Step, c: Step, d: Step)
    requires Enabled(w, a) && Enabled(Apply(w, a), b) && Enabled(Apply(Apply(w, a), b), c)
    requires Enabled(Apply(Apply(Apply(w, a), b), c), d)
    ensures Runs(w, [a, b, c, d]) && After(w, [a, b, c, d]) == Apply(Apply(Apply(Apply(w, a), b), c), d)
  {
    Three(Apply(w, a), b, c, d);
    Cons(w, a, [b, c, d]);
    assert [a] + [b, c, d] == [a, b, c, d];
  }

  /**
    A stop that leaves an unlink neither durable nor undone breaks the protocol too: the next
    resume finds no file, finishes without a sync, and a later stop brings the file back.
  */
  lemma UnsettledStopBreaksSafety(w: World, k: nat, o: Output)
    requires Free(w, k) && o in w.rows && w.rows[o] == Pending && o in w.files && w.files[o] == Unsynced
    ensures var steps := [Take(k, o), Find(k), Finish(k), Stop({o})];
            Runs(w, steps) && !Safe(After(w, steps))
  {
    UnsyncedFinishBreaks(Apply(w, Take(k, o)), k, o, w);
  }

  // ---- Resuming finishes what was begun ----

  /** The steps of one resumed removal. */
  function ResumeSteps(w: World, k: nat, o: Output): seq<Step>
    requires o in w.files
  {
    if w.files[o] == Present then [Take(k, o), Unlink(k), Sync(k), Finish(k)] else [Take(k, o), Find(k), Finish(k)]
  }

  /** A worker left in peace completes any pending output nobody else is handling, and touches no other row. */
  lemma ResumeCompletes(w: World, k: nat, o: Output)
    requires Inv(w) && Free(w, k) && o in w.rows && w.rows[o] == Pending && Unheld(w, o)
    ensures o in w.files && Runs(w, ResumeSteps(w, k, o))
    ensures var w' := After(w, ResumeSteps(w, k, o));
            w'.rows == w.rows[o := Pruned] && w'.workers == w.workers && w'.files.Keys == w.files.Keys && w'.files[o] == Absent
    ensures OthersStay(w, After(w, ResumeSteps(w, k, o)), o)
    ensures ExclusiveRun(w, ResumeSteps(w, k, o))
  {
    assert FileOk(w, o);
    var w1 := Apply(w, Take(k, o));
    if w.files[o] == Present {
      Three(w1, Unlink(k), Sync(k), Finish(k));
      assert ResumeSteps(w, k, o)[1..] == [Unlink(k), Sync(k), Finish(k)];
      ExclusiveWithoutTake(w1, [Unlink(k), Sync(k), Finish(k)]);
    } else {
      assert w.files[o] == Absent;
      var w2 := Apply(w1, Find(k));
      Two(w1, Find(k), Finish(k));
      assert ResumeSteps(w, k, o)[1..] == [Find(k), Finish(k)];
      ExclusiveWithoutTake(w1, [Find(k), Finish(k)]);
    }
  }

  /** No other file is touched, except that an unlink someone else has begun in the same directory may have become durable. */
  ghost predicate OthersStay(w: World, w': World, o: Output) {
    && w'.files.Keys == w.files.Keys
    && forall p | p in w.files && p != o :: w'.files[p] == w.files[p] || (w.files[p] == Unsynced && p.run == o.run && w'.files[p] == Absent)
  }

  /** The steps of pruning one selected output. */
  function PruneSteps(k: nat, o: Output): seq<Step> {
    [Mark(k, o), Unlink(k), Sync(k), Finish(k)]
  }

  /** Pruning a finalized output to the end leaves its row pruned and its file durably absent, and touches no other. */
  lemma PruneCompletes(w: World, k: nat, o: Output)
    requires Inv(w) && Free(w, k) && o in w.rows && w.rows[o] == Finalized
    ensures o in w.files && Runs(w, PruneSteps(k, o)) && ExclusiveRun(w, PruneSteps(k, o))
    ensures After(w, PruneSteps(k, o)).rows == w.rows[o := Pruned] && After(w, PruneSteps(k, o)).workers == w.workers
    ensures o in After(w, PruneSteps(k, o)).files && After(w, PruneSteps(k, o)).files[o] == Absent && OthersStay(w, After(w, PruneSteps(k, o)), o)
  {
    assert w.files[o] == Present;
    Four(w, Mark(k, o), Unlink(k), Sync(k), Finish(k));
    ExclusiveWithoutTake(w, PruneSteps(k, o));
  }

  lemma {:induction false} ExclusiveWithoutTake(w: World, steps: seq<Step>)
    requires Runs(w, steps) && forall i | 0 <= i < |steps| :: !steps[i].Take?
    ensures ExclusiveRun(w, steps)
    decreases |steps|
  {
    if steps != [] { ExclusiveWithoutTake(Apply(w, steps[0]), steps[1..]); }
  }

  ghost predicate AllIdle(w: World) {
    forall k | k in w.workers :: w.workers[k] == Idle
  }

  /** The resuming loop of a pass, over the pending rows it was given, within its action budget. */
  method ResumeOutputPrunes(w: World, k: nat, pending: seq<Output>, budget: nat) returns (w': World, done: nat)
    requires Inv(w) && AllIdle(w) && k in w.workers
    requires forall i | 0 <= i < |pending| :: pending[i] in w.rows && w.rows[pending[i]] == Pending
    requires forall i, j | 0 <= i < j < |pending| :: pending[i] != pending[j]
    ensures done == if |pending| <= budget then |pending| else budget
    ensures Inv(w') && AllIdle(w') && Resumed(w, w', pending[..done])
    ensures forall o | o in pending[..done] :: o in w'.files && w'.files[o] == Absent
  {
    w', done := w, 0;
    while done < |pending| && done < budget
      invariant done <= |pending| && done <= budget
      invariant Inv(w') && AllIdle(w') && k in w'.workers && Resumed(w, w', pending[..done])
    {
      var o := pending[done];
      assert o !in pending[..done];
      ResumeOne(w, w', k, pending[..done], o);
      w' := After(w', ResumeSteps(w', k, o));
      assert pending[..done + 1] == pending[..done] + [o];
      done := done + 1;
    }
    forall o | o in pending[..done] ensures o in w'.files && w'.files[o] == Absent {
      assert o in w.rows && w'.rows[o] == Pruned;
    }
  }

  /** Exactly the rows of `done` have become pruned. */
  ghost predicate Resumed(w: World, w': World, done: seq<Output>) {
    w'.rows.Keys == w.rows.Keys && forall o | o in w.rows :: w'.rows[o] == if o in done then Pruned else w.rows[o]
  }

  lemma ResumeOne(w: World, v: World, k: nat, done: seq<Output>, o: Output)
    requires Inv(v) && AllIdle(v) && k in v.workers && Resumed(w, v, done) && o in w.rows && w.rows[o] == Pending && o !in done
    ensures o in v.files && Runs(v, ResumeSteps(v, k, o)) && Inv(After(v, ResumeSteps(v, k, o))) && AllIdle(After(v, ResumeSteps(v, k, o)))
    ensures k in After(v, ResumeSteps(v, k, o)).workers && Resumed(w, After(v, ResumeSteps(v, k, o)), done + [o])
  {
    ResumeCompletes(v, k, o);
    PruningIsSafe(v, ResumeSteps(v, k, o));
    ResumedOneMore(w, v, After(v, ResumeSteps(v, k, o)), done, o);
  }

  lemma ResumedOneMore(w: World, v: World, u: World, done: seq<Output>, o: Output)
    requires Resumed(w, v, done) && o in v.rows && u.rows == v.rows[o := Pruned]
    ensures Resumed(w, u, done + [o])
  {
  }
}
