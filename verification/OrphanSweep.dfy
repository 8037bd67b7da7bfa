/**
  The resumable orphan sweep of a maintenance pass. A pass may stop at any point: its budget runs
  out, it is asked to yield, or something fails; the cursor carries what is left to later passes.
*/
module OrphanSweep {
  import opened Bytes
  import opened Seqs

  const MAX_ACTIONS := 100

  /** A file as the sweep finds it: what its name, kind, database references and age are. */
  datatype Entry = Entry(id: nat, canonical: bool, regular: bool, referenced: bool, old_: bool)

  /** A directory under the output root; only canonical, safe, admitted ones are scanned. */
  datatype Dir = Dir(admitted: bool, entries: seq<Entry>)

  /** Whatever the outside world answers at the next point where it is asked. */
  datatype Signal = Go | Yield | Fault

  datatype Run = Run(entries: seq<Entry>, pending: Option<Entry>)

  predicate Orphan(e: Entry) {
    e.canonical && e.regular && !e.referenced && e.old_
  }

  function Orphans(es: seq<Entry>): seq<Entry> {
    if es == [] then []
    else if Orphan(es[|es| - 1]) then Orphans(es[..|es| - 1]) + [es[|es| - 1]]
    else Orphans(es[..|es| - 1])
  }

  /** The entries one uninterrupted sweep visits, in its order. */
  function Listed(dirs: seq<Dir>): seq<Entry> {
    if dirs == [] then []
    else (if dirs[0].admitted then dirs[0].entries else []) + Listed(dirs[1..])
  }

  function InRun(current: Option<Run>): seq<Entry> {
    if current.None? then []
    else (if current.value.pending.Some? then [current.value.pending.value] else []) + current.value.entries
  }

  /** Nothing outside gets in the way. */
  ghost predicate Calm(signals: nat -> Signal) {
    forall t: nat :: signals(t) == Go
  }

  /** Nothing outside breaks, though the pass may be asked to yield at any time. */
  ghost predicate Faultless(signals: nat -> Signal) {
    forall t: nat :: signals(t) != Fault
  }

  class Pass {
    const signals: nat -> Signal
    var clock: nat
    var actions: nat
    var deferred: bool
    var errors: nat
    var removed: nat

    constructor (signals: nat -> Signal, spent: nat, errors: nat)
      requires spent <= MAX_ACTIONS
      ensures this.signals == signals && actions == spent && !deferred && this.errors == errors && removed == 0
    {
      this.signals := signals;
      this.errors, clock, actions, deferred, removed := errors, 0, spent, false, 0;
    }

    method Ask() returns (s: Signal)
      modifies this`clock
      ensures s == signals(old(clock))
    {
      s := signals(clock);
      clock := clock + 1;
    }

    /** Budget left and nobody waiting; `Fault` when that could not be found out. */
    method Ready() returns (s: Signal)
      modifies this`clock
      ensures s == Go ==> !deferred && actions < MAX_ACTIONS && signals(old(clock)) == Go
      ensures Faultless(signals) ==> s != Fault
      ensures Calm(signals) && !deferred ==> s == if actions < MAX_ACTIONS then Go else Yield
    {
      s := Ask();
      if s != Fault && (deferred || actions >= MAX_ACTIONS) { s := Yield; }
    }

    method TakeAction() returns (taken: bool)
      modifies this`clock, this`actions, this`deferred, this`errors
      ensures taken ==> actions == old(actions) + 1 <= MAX_ACTIONS && deferred == old(deferred) && errors == old(errors)
      ensures Calm(signals) && !old(deferred) ==> errors == old(errors) && (taken <==> old(actions) < MAX_ACTIONS)
      ensures Faultless(signals) ==> errors == old(errors)
      ensures !taken ==> actions == old(actions) && errors >= old(errors) && (deferred || errors > old(errors))
    {
      var s := Ready();
      match s
      case Go => actions := actions + 1; taken := true;
      case Yield => deferred := true; taken := false;
      case Fault => errors := errors + 1; taken := false;
    }
  }

  class Cursor {
    var directories: Option<seq<Dir>>
    var current: Option<Run>
    ghost var settled: seq<Entry>

    constructor ()
      ensures directories == None && current == None && settled == []
    {
      directories, current, settled := None, None, [];
    }

    ghost predicate Valid()
      reads this
    {
      directories.None? ==> current.None?
    }

    /** What the sweep in progress still has to visit. */
    ghost function Left(): seq<Entry>
      reads this
    {
      InRun(current) + Listed(if directories.Some? then directories.value else [])
    }

    method Reset()
      modifies this
      ensures directories == None && current == None && settled == []
    {
      directories, current, settled := None, None, [];
    }
  }

  /** The files unlinked so far. */
  class Disk {
    var removed: seq<Entry>
    constructor ()
      ensures removed == []
    {
      removed := [];
    }
  }

  /** How one turn ends: the sweep goes on, pauses with everything left kept, is complete, or breaks off. */
  datatype Outcome = Continues | Stops | Finishes | Fails

  /** What became of the attempt to open the next directory. */
  datatype Opening = Opened | Skipped | NoMore | Broken

  /** Room the cursor still has to walk through, directories included. */
  ghost function Room(dirs: seq<Dir>): nat {
    if dirs == [] then 0 else 2 + |dirs[0].entries| + Room(dirs[1..])
  }

  ghost function Steps(directories: Option<seq<Dir>>, current: Option<Run>): nat {
    (if directories.Some? then Room(directories.value) else 0) + (if current.Some? then 1 + |InRun(current)| else 0)
  }

  /** Nothing but orphans is ever unlinked. */
  ghost predicate OnlyOrphansAdded(before: seq<Entry>, after: seq<Entry>) {
    before <= after && forall i | |before| <= i < |after| :: Orphan(after[i])
  }

  /** The next directory to scan, if the current one is used up. */
  method OpenNext(pass: Pass, cursor: Cursor) returns (o: Opening)
    requires cursor.directories.Some? && cursor.current.None?
    modifies pass`clock, cursor`directories, cursor`current
    ensures o == NoMore ==> old(cursor.Left()) == [] && cursor.directories.None? && cursor.current.None?
    ensures o != NoMore ==> cursor.directories.Some?
    ensures Faultless(pass.signals) ==> o != Broken
    ensures o == Skipped || o == Opened ==> cursor.Left() == old(cursor.Left()) && (o == Opened <==> cursor.current.Some?)
    ensures o != NoMore ==> Steps(cursor.directories, cursor.current) < old(Steps(cursor.directories, cursor.current))
  {
    var dirs := cursor.directories.value;
    EmptyLeft(Listed(dirs));
    if dirs == [] {
      cursor.directories := None;
      return NoMore;
    }
    cursor.directories := Some(dirs[1..]);
    var s := pass.Ask();
    if s == Fault { return Broken; }
    EmptyLeft(Listed(dirs[1..]));
    if !dirs[0].admitted { return Skipped; }
    s := pass.Ask();
    if s == Fault { return Broken; }
    cursor.current := Some(Run(dirs[0].entries, None));
    EmptyLeft(dirs[0].entries);
    return Opened;
  }

  /** Takes the pending entry, or else the next one, out of the directory being scanned. */
  method TakeEntry(cursor: Cursor) returns (e: Option<Entry>)
    requires cursor.directories.Some? && cursor.current.Some?
    modifies cursor`current
    ensures e.None? ==> cursor.current.None? && cursor.Left() == old(cursor.Left())
    ensures e.Some? ==> cursor.current.Some? && cursor.current.value.pending.None? && [e.value] + cursor.Left() == old(cursor.Left())
    ensures Steps(cursor.directories, cursor.current) < old(Steps(cursor.directories, cursor.current))
  {
    var run := cursor.current.value;
    var dirs := cursor.directories.value;
    if run.pending.Some? {
      cursor.current := Some(run.(pending := None));
      EmptyLeft(run.entries);
      Assoc([run.pending.value], run.entries, Listed(dirs));
      return run.pending;
    }
    EmptyLeft(run.entries);
    if run.entries == [] {
      cursor.current := None;
      return None;
    }
    cursor.current := Some(Run(run.entries[1..], None));
    EmptyLeft(run.entries[1..]);
    HeadTail(run.entries);
    Assoc([run.entries[0]], run.entries[1..], Listed(dirs));
    return Some(run.entries[0]);
  }

  /** What one entry leads to, once it has been taken. */
  method Settle(pass: Pass, disk: Disk, e: Entry) returns (o: Outcome)
    requires pass.actions <= MAX_ACTIONS
    modifies pass`clock, pass`actions, pass`deferred, pass`errors, pass`removed, disk
    ensures pass.actions <= MAX_ACTIONS && pass.errors >= old(pass.errors)
    ensures pass.removed - old(pass.removed) == |disk.removed| - |old(disk.removed)| <= pass.actions - old(pass.actions)
    ensures o in {Continues, Stops, Fails}
    ensures Faultless(pass.signals) ==> o != Fails && pass.errors == old(pass.errors)
    ensures Calm(pass.signals) && !old(pass.deferred) ==>
              && pass.errors == old(pass.errors) && pass.removed - old(pass.removed) == pass.actions - old(pass.actions)
              && ((o == Continues && !pass.deferred) || (o == Stops && pass.actions == MAX_ACTIONS))
    ensures o == Continues && pass.errors == old(pass.errors) ==> disk.removed == old(disk.removed) + Orphans([e])
    ensures o == Stops || o == Fails ==> disk.removed == old(disk.removed)
    ensures OnlyOrphansAdded(old(disk.removed), disk.removed)
  {
    EmptyRight(disk.removed);
    assert [e][..0] == [];
    assert Orphans([e]) == if Orphan(e) then [e] else [];
    var s := pass.Ask();
    if s == Fault { return Fails; }
    if !e.canonical || !e.regular { return Continues; }
    s := pass.Ask();
    if s == Yield {
      pass.deferred := true;
      return Stops;
    }
    if s == Fault {
      pass.errors := pass.errors + 1;
      return Stops;
    }
    if e.referenced { return Continues; }
    s := pass.Ask();
    if s == Fault { return Fails; }
    if !e.old_ { return Continues; }
    o := Unlink(pass, disk, e);
  }

  /** Removes a verified orphan, within the action budget. */
  method Unlink(pass: Pass, disk: Disk, e: Entry) returns (o: Outcome)
    requires pass.actions <= MAX_ACTIONS && Orphan(e)
    modifies pass`clock, pass`actions, pass`deferred, pass`errors, pass`removed, disk
    ensures pass.actions <= MAX_ACTIONS && pass.errors >= old(pass.errors)
    ensures pass.removed - old(pass.removed) == |disk.removed| - |old(disk.removed)| <= pass.actions - old(pass.actions)
    ensures o in {Continues, Stops}
    ensures Faultless(pass.signals) ==> pass.errors == old(pass.errors)
    ensures Calm(pass.signals) && !old(pass.deferred) ==>
              && pass.errors == old(pass.errors) && pass.removed - old(pass.removed) == pass.actions - old(pass.actions)
              && ((o == Continues && !pass.deferred) || (o == Stops && pass.actions == MAX_ACTIONS))
    ensures o == Continues && pass.errors == old(pass.errors) ==> disk.removed == old(disk.removed) + [e]
    ensures o == Stops ==> disk.removed == old(disk.removed)
    ensures disk.removed == old(disk.removed) || disk.removed == old(disk.removed) + [e]
  {
    var taken := pass.TakeAction();
    if !taken { return Stops; }
    var s := pass.Ask();
    if s == Fault {
      pass.errors := pass.errors + 1;
      return Continues;
    }
    pass.removed := pass.removed + 1;
    disk.removed := disk.removed + [e];
    s := pass.Ask();
    if s == Fault { pass.errors := pass.errors + 1; }
    return Continues;
  }

  /** One turn of the sweep. */
  method Turn(pass: Pass, cursor: Cursor, disk: Disk) returns (o: Outcome, ghost settled: seq<Entry>)
    requires cursor.directories.Some? && pass.actions <= MAX_ACTIONS
    modifies pass`clock, pass`actions, pass`deferred, pass`errors, pass`removed, cursor`directories, cursor`current, disk
    ensures pass.actions <= MAX_ACTIONS && pass.errors >= old(pass.errors)
    ensures pass.removed - old(pass.removed) == |disk.removed| - |old(disk.removed)| <= pass.actions - old(pass.actions)
    ensures o == Continues ==> cursor.directories.Some? && Steps(cursor.directories, cursor.current) < old(Steps(cursor.directories, cursor.current))
    ensures o == Stops || o == Fails ==> cursor.directories.Some?
    ensures Faultless(pass.signals) ==> o != Fails && pass.errors == old(pass.errors)
    ensures Calm(pass.signals) && !old(pass.deferred) ==>
              && pass.errors == old(pass.errors) && pass.removed - old(pass.removed) == pass.actions - old(pass.actions)
              && o != Fails && (o == Stops ==> pass.actions == MAX_ACTIONS) && (o == Continues ==> !pass.deferred)
    ensures o == Finishes ==> cursor.directories.None? && cursor.current.None? && cursor.Left() == []
    ensures o != Fails && pass.errors == old(pass.errors) ==>
              settled + cursor.Left() == old(cursor.Left()) && disk.removed == old(disk.removed) + Orphans(settled)
    ensures OnlyOrphansAdded(old(disk.removed), disk.removed)
  {
    settled := [];
    EmptyLeft(cursor.Left());
    EmptyRight(disk.removed);
    var s := pass.Ready();
    if s != Go { return if s == Fault then Fails else Stops, []; }
    if cursor.current.None? {
      var opening := OpenNext(pass, cursor);
      EmptyLeft(cursor.Left());
      match opening
      case Broken => return Fails, [];
      case NoMore => return Finishes, [];
      case Skipped => return Continues, [];
      case Opened =>
    }
    s := pass.Ready();
    if s != Go { return if s == Fault then Fails else Stops, []; }
    var e := TakeEntry(cursor);
    EmptyLeft(cursor.Left());
    if !e.Some? { return Continues, []; }
    ghost var rest := cursor.Left();
    o := Settle(pass, disk, e.value);
    if o == Stops {
      cursor.current := Some(cursor.current.value.(pending := Some(e.value)));
      Assoc([e.value], cursor.current.value.entries, Listed(cursor.directories.value));
      EmptyLeft(cursor.current.value.entries);
      EmptyLeft(cursor.Left());
    } else {
      settled := [e.value];
    }
  }

  // ---- Passes ----

  lemma {:induction false} OrphansConcat(a: seq<Entry>, b: seq<Entry>)
    ensures Orphans(a + b) == Orphans(a) + Orphans(b)
    decreases |b|
  {
    if b == [] {
      EmptyRight(a);
      EmptyRight(Orphans(a));
    } else {
      var init, last := b[..|b| - 1], b[|b| - 1];
      OrphansConcat(a, init);
      assert (a + b)[..|a + b| - 1] == a + init;
      if Orphan(last) { Assoc(Orphans(a), Orphans(init), [last]); }
    }
  }

  /** What is visible between passes: what is left of a sweep in progress, what it settled, what is unlinked. */
  datatype World = World(left: Option<seq<Entry>>, settled: seq<Entry>, removed: seq<Entry>)

  ghost function Seen(cursor: Cursor, disk: Disk): World
    reads cursor, disk
  {
    World(if cursor.directories.Some? then Some(cursor.Left()) else None, cursor.settled, disk.removed)
  }

  /** What the sweep has to visit at the start of a pass that continues it or begins it. */
  ghost function Ahead(listing: seq<Dir>, w: World): seq<Entry> {
    if w.left.Some? then w.left.value else Listed(listing)
  }

  ghost function Behind(w: World): seq<Entry> {
    if w.left.Some? then w.settled else []
  }

  /** A pass settled the next `k` entries, in order, and unlinked the orphans among them. */
  ghost predicate Advances(listing: seq<Dir>, w: World, w': World, k: nat) {
    && k <= |Ahead(listing, w)|
    && w'.settled == Behind(w) + Ahead(listing, w)[..k]
    && w'.removed == w.removed + Orphans(Ahead(listing, w)[..k])
    && (w'.left == Some(Ahead(listing, w)[k..]) || (w'.left == None && k == |Ahead(listing, w)|))
  }

  ghost predicate Sweeps(listing: seq<Dir>, w: World, w': World) {
    exists k: nat :: Advances(listing, w, w', k)
  }

  lemma AdvancesBy(listing: seq<Dir>, w: World, w': World, done: seq<Entry>, left: seq<Entry>)
    requires done + left == Ahead(listing, w)
    requires w'.settled == Behind(w) + done && w'.removed == w.removed + Orphans(done)
    requires w'.left == Some(left) || (w'.left == None && left == [])
    ensures Sweeps(listing, w, w')
  {
    ConcatSlices(done, left, |done|);
    WholeSlices(done);
    EmptyLeft(left);
    assert Advances(listing, w, w', |done|);
  }

  /** Turn after turn until the sweep is finished, has to pause, or fails. */
  method Drive(pass: Pass, cursor: Cursor, disk: Disk) returns (o: Outcome, ghost done: seq<Entry>)
    requires cursor.directories.Some? && pass.actions <= MAX_ACTIONS
    modifies pass`clock, pass`actions, pass`deferred, pass`errors, pass`removed, cursor`directories, cursor`current, disk
    ensures pass.actions <= MAX_ACTIONS && pass.errors >= old(pass.errors)
    ensures pass.removed - old(pass.removed) == |disk.removed| - |old(disk.removed)| <= pass.actions - old(pass.actions)
    ensures Calm(pass.signals) && !old(pass.deferred) ==>
              && pass.errors == old(pass.errors) && pass.removed - old(pass.removed) == pass.actions - old(pass.actions)
              && o != Fails && (o == Stops ==> pass.actions == MAX_ACTIONS) && (o == Continues ==> !pass.deferred)
    ensures Faultless(pass.signals) ==> o != Fails && pass.errors == old(pass.errors)
    ensures o in {Stops, Finishes, Fails} && (o != Finishes <==> cursor.directories.Some?)
    ensures o == Finishes ==> cursor.current.None? && cursor.Left() == []
    ensures o != Fails && pass.errors == old(pass.errors) ==>
              done + cursor.Left() == old(cursor.Left()) && disk.removed == old(disk.removed) + Orphans(done)
    ensures OnlyOrphansAdded(old(disk.removed), disk.removed)
  {
    o, done := Continues, [];
    ghost var left, unlinked := cursor.Left(), disk.removed;
    EmptyLeft(left);
    EmptyRight(unlinked);
    while o == Continues
      invariant o != Finishes <==> cursor.directories.Some?
      invariant o == Finishes ==> cursor.current.None? && cursor.Left() == []
      invariant pass.actions <= MAX_ACTIONS && pass.errors >= old(pass.errors)
      invariant pass.removed - old(pass.removed) == |disk.removed| - |unlinked| <= pass.actions - old(pass.actions)
      invariant o != Fails && pass.errors == old(pass.errors) ==>
                  done + cursor.Left() == left && disk.removed == unlinked + Orphans(done)
      invariant OnlyOrphansAdded(unlinked, disk.removed)
      invariant Faultless(pass.signals) ==> o != Fails && pass.errors == old(pass.errors)
      invariant Calm(pass.signals) && !old(pass.deferred) ==>
                  && pass.errors == old(pass.errors) && pass.removed - old(pass.removed) == pass.actions - old(pass.actions)
                  && o != Fails && (o == Stops ==> pass.actions == MAX_ACTIONS) && (o == Continues ==> !pass.deferred)
      decreases o == Continues, Steps(cursor.directories, cursor.current)
    {
      ghost var more;
      o, more := Turn(pass, cursor, disk);
      Assoc(done, more, cursor.Left());
      OrphansConcat(done, more);
      Assoc(unlinked, Orphans(done), Orphans(more));
      done := done + more;
    }
  }

  /** Lists the output root unless a sweep is in progress. */
  method Begin(pass: Pass, cursor: Cursor, listing: seq<Dir>) returns (begun: bool)
    requires cursor.Valid()
    modifies pass`clock, cursor
    ensures Faultless(pass.signals) ==> begun
    ensures !begun ==> cursor.directories == old(cursor.directories) && cursor.current == old(cursor.current) && cursor.settled == old(cursor.settled)
    ensures begun ==> cursor.directories.Some?
    ensures begun ==> cursor.Left() == if old(cursor.directories).Some? then old(cursor.Left()) else Listed(listing)
    ensures begun ==> cursor.settled == if old(cursor.directories).Some? then old(cursor.settled) else []
  {
    if cursor.directories.None? {
      var s := pass.Ask();
      if s == Fault { return false; }
      cursor.directories := Some(listing);
      cursor.settled := [];
      EmptyLeft(Listed(listing));
    }
    return true;
  }

  /** The sweep of one pass, which begins a sweep or continues the one in progress. */
  method RemoveVerifiedOrphans(pass: Pass, cursor: Cursor, disk: Disk, listing: seq<Dir>, due: bool) returns (failed: bool, ghost started: bool)
    requires cursor.Valid() && pass.actions <= MAX_ACTIONS
    modifies pass`clock, pass`actions, pass`deferred, pass`errors, pass`removed, cursor, disk
    ensures cursor.Valid() && pass.actions <= MAX_ACTIONS && pass.errors >= old(pass.errors)
    ensures pass.removed - old(pass.removed) == |disk.removed| - |old(disk.removed)| <= pass.actions - old(pass.actions)
    ensures Calm(pass.signals) && !old(pass.deferred) && old(pass.actions) < MAX_ACTIONS && due ==>
              && started && !failed && pass.errors == old(pass.errors)
              && pass.removed - old(pass.removed) == pass.actions - old(pass.actions)
              && (cursor.directories.Some? ==> pass.actions == MAX_ACTIONS)
    ensures Faultless(pass.signals) ==> !failed && pass.errors == old(pass.errors)
    ensures !started ==> Seen(cursor, disk) == old(Seen(cursor, disk))
    ensures !due ==> !started
    ensures started && !failed && pass.errors == old(pass.errors) ==> Sweeps(listing, old(Seen(cursor, disk)), Seen(cursor, disk))
    ensures OnlyOrphansAdded(old(disk.removed), disk.removed)
  {
    failed, started := false, false;
    var s := pass.Ready();
    if s == Fault { return true, false; }
    if s != Go || !due { return; }
    ghost var w := Seen(cursor, disk);
    var begun := Begin(pass, cursor, listing);
    if !begun { return true, false; }
    var o, done := Drive(pass, cursor, disk);
    cursor.settled := cursor.settled + done;
    if o != Fails && pass.errors == old(pass.errors) {
      AdvancesBy(listing, w, Seen(cursor, disk), done, cursor.Left());
    }
    return o == Fails, true;
  }

  /** How the phases before the sweep end: the pass is over early, fails, or goes on with `spent` actions used; errors count up over a pass. */
  datatype Prior = Ends(errors: nat) | Breaks | Proceeds(spent: nat, errors: nat)

  /** One whole pass; a pass that fails forgets its cursor. */
  method Maintain(prior: Prior, signals: nat -> Signal, cursor: Cursor, disk: Disk, listing: seq<Dir>, due: bool)
      returns (ok: bool, removed: nat, ghost started: bool)
    requires cursor.Valid() && (prior.Proceeds? ==> prior.spent <= MAX_ACTIONS)
    modifies cursor, disk
    ensures cursor.Valid() && OnlyOrphansAdded(old(disk.removed), disk.removed)
    ensures removed == |disk.removed| - |old(disk.removed)| <= 100
    ensures ok && !started ==> Seen(cursor, disk) == old(Seen(cursor, disk))
    ensures ok && started ==> Sweeps(listing, old(Seen(cursor, disk)), Seen(cursor, disk))
    ensures !ok ==> cursor.directories.None? && cursor.settled == []
    // left in peace, a pass finishes the sweep or spends its whole remaining budget on orphans
    ensures ok ==> !prior.Breaks? && prior.errors == 0
    // a pass that nothing breaks succeeds, however early it is asked to yield
    ensures Faultless(signals) && !prior.Breaks? && prior.errors == 0 ==> ok
    ensures !due || !prior.Proceeds? ==> !started && disk.removed == old(disk.removed)
    ensures prior.Proceeds? && prior.errors == 0 && prior.spent < MAX_ACTIONS && due && Calm(signals) ==>
              ok && started && (cursor.directories.None? || removed == 100 - prior.spent)
  {
    removed, started := 0, false;
    match prior
    case Ends(errors) =>
      if errors > 0 { cursor.Reset(); }
      return errors == 0, 0, false;
    case Breaks =>
      cursor.Reset();
      return false, 0, false;
    case Proceeds(spent, errors) =>
      var pass := new Pass(signals, spent, errors);
      var failed;
      failed, started := RemoveVerifiedOrphans(pass, cursor, disk, listing, due);
      removed := pass.removed;
      ok := !failed && pass.errors == 0;
      if !ok { cursor.Reset(); }
  }

  // ---- Runs of passes ----

  /** Successful passes, one after the other, all in one sweep: begun by the first, still open until the last. */
  ghost predicate OneSweep(listing: seq<Dir>, ws: seq<World>) {
    && |ws| > 1 && ws[0].left.None?
    && Sweeps(listing, ws[0], ws[1])
    && (forall i | 1 <= i < |ws| - 1 :: ws[i].left.Some? && (ws[i + 1] == ws[i] || Sweeps(listing, ws[i], ws[i + 1])))
  }

  /** Settled and left always add up to the listing, and what is unlinked is what was settled and orphaned. */
  lemma {:induction false} SweepSoFar(listing: seq<Dir>, ws: seq<World>, n: nat)
    requires OneSweep(listing, ws) && 1 <= n < |ws|
    ensures ws[n].settled + (if ws[n].left.Some? then ws[n].left.value else []) == Listed(listing)
    ensures ws[n].removed == ws[0].removed + Orphans(ws[n].settled)
    decreases n
  {
    var all := Listed(listing);
    if n == 1 {
      var k: nat :| Advances(listing, ws[0], ws[1], k);
      EmptyLeft(all[..k]);
      SplitAt(all, k);
      EmptyRight(all[..k]);
      WholeSlices(all);
    } else {
      SweepSoFar(listing, ws, n - 1);
      var w := ws[n - 1];
      assert w.left.Some? && (ws[n] == w || Sweeps(listing, w, ws[n]));
      if ws[n] != w {
        var k: nat :| Advances(listing, w, ws[n], k);
        SweepNext(listing, ws[0].removed, w, ws[n], k);
      }
    }
  }

  lemma SweepNext(listing: seq<Dir>, before: seq<Entry>, w: World, w': World, k: nat)
    requires w.left.Some? && Advances(listing, w, w', k)
    requires w.settled + w.left.value == Listed(listing) && w.removed == before + Orphans(w.settled)
    ensures w'.settled + (if w'.left.Some? then w'.left.value else []) == Listed(listing)
    ensures w'.removed == before + Orphans(w'.settled)
  {
    hide Orphans, Listed;
    var left := w.left.value;
    SplitAt(left, k);
    Assoc(w.settled, left[..k], left[k..]);
    EmptyRight(w.settled + left[..k]);
    OrphansConcat(w.settled, left[..k]);
    Assoc(before, Orphans(w.settled), Orphans(left[..k]));
    WholeSlices(left);
  }

  /**
    The resumable cursor refines one uninterrupted sweep. Whatever the passes were interrupted by,
    once they finish the sweep every listed entry has been settled once, in the listed order, and
    exactly the orphans among them have been unlinked.
  */
  lemma InterruptedSweepIsOneSweep(listing: seq<Dir>, ws: seq<World>)
    requires OneSweep(listing, ws) && ws[|ws| - 1].left.None?
    ensures ws[|ws| - 1].settled == Listed(listing)
    ensures ws[|ws| - 1].removed == ws[0].removed + Orphans(Listed(listing))
  {
    SweepSoFar(listing, ws, |ws| - 1);
    EmptyRight(ws[|ws| - 1].settled);
  }

  /** The orphans of a listing are its canonical, regular, unreferenced and old enough files, and only those. */
  lemma {:induction false} OrphansAreExactly(es: seq<Entry>, e: Entry)
    ensures e in Orphans(es) <==> e in es && e.canonical && e.regular && !e.referenced && e.old_
    decreases |es|
  {
    if es != [] {
      OrphansAreExactly(es[..|es| - 1], e);
      assert es == es[..|es| - 1] + [es[|es| - 1]];
    }
  }
}
