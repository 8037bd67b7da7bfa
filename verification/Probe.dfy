/** The bounded probe: one admission lock, an owned child, two reader threads and a quarantine. */
module Probe {
  import opened Bytes

  const MAX_PROBE_BYTES: nat := 4096
  const CHUNK: nat := 1024

  // ---- The reader ----

  function Min(a: nat, b: nat): nat { if a < b then a else b }

  /**
    The reading loop over a stream. `chunk` says how much each read returns at most, `fault` which read
    fails. It retains a prefix of the stream of at most one byte over the limit, and without an error
    and within the limit it has read the stream to its end.
  */
  method ReadStream(stream: Bytes, chunk: nat -> nat, fault: nat -> bool) returns (data: Bytes, error: bool)
    ensures data <= stream && |data| <= 4097
    ensures !error ==> data == stream || |data| == 4097
    ensures error ==> exists n :: fault(n)
  {
    data, error := [], false;
    var count := 0;
    while |data| <= MAX_PROBE_BYTES
      invariant data <= stream && |data| <= MAX_PROBE_BYTES + 1
    {
      var size := Min(CHUNK, MAX_PROBE_BYTES + 1 - |data|);
      if fault(count) { return data, true; }
      var left := |stream| - |data|;
      if left == 0 { return data, false; }
      var n := Min(size, Min(left, 1 + chunk(count)));
      data := data + stream[|data|..|data| + n];
      count := count + 1;
    }
  }

  // ---- One caller ----

  datatype Reader = Absent | Created | Reading | Finished | Exited

  /** A stream with its reader: what has been captured, and whether the read end has been closed. */
  datatype Capture = Capture(attempted: bool, reader: Reader, size: nat, error: bool, closed: bool)

  datatype Child = NoChild | Running | Gone

  /** Where a caller is in its probe. */
  datatype Pc =
    | Idle | Refused
    | Acquired                        // admitted, not yet inside the guarded block
    | Begun
    | Starting(next: nat)             // about to start this reader; 2 when both are started
    | Flagged(i: nat)                 // the start is recorded, no thread exists yet
    | Native(i: nat)                  // the thread exists, its start has not returned
    | Polling
    | Finishing(stage: nat, cleanup: bool)
    | Checking
    | Unconfirmed                     // cleanup reported failure
    | Named                           // the owner is recorded as quarantined
    | Leaving(retained: bool, ok: bool)
    | Ended(retained: bool, ok: bool)
    | Dead                            // interrupted outside the guarded block, admission still held

  datatype Caller = Caller(pc: Pc, child: Child, captures: seq<Capture>, unconfirmed: bool)

  const FRESH := Caller(Idle, NoChild, [Capture(false, Absent, 0, false, false), Capture(false, Absent, 0, false, false)], false)

  datatype Move =
    | Enter | Spawn | Flag | Create | Started | Watch | Seen
    | Raise                           // an exception or interrupt inside the guarded block
    | Advance                         // the next stage of finishing succeeds
    | GiveUp                          // finishing times out, fails or is interrupted
    | Check
    | Name | Retain
    | Interrupt                       // an interrupt outside the guarded block, cleanup's own guard included
    | ChildExits
    | Publish(i: nat) | Chunk(i: nat, n: nat) | Stop(i: nat, error: bool) | Exit(i: nat)

  predicate Done(c: Capture) { c.reader == Finished || c.reader == Exited }

  predicate Joined(c: Capture) { !c.attempted || c.reader == Exited }

  predicate Accepted(c: Capture) { !c.error && c.size <= MAX_PROBE_BYTES }

  function With(c: Caller, i: nat, capture: Capture): Caller
    requires i < |c.captures|
  {
    c.(captures := c.captures[i := capture])
  }

  /** Closing is skipped when there never was a child. */
  function Close(c: Caller, i: nat): Caller
    requires i < |c.captures|
  {
    if c.child == NoChild then c else With(c, i, c.captures[i].(closed := true))
  }

  function Finish(c: Caller): Option<Caller>
    requires |c.captures| == 2 && c.pc.Finishing?
  {
    var next := Finishing(c.pc.stage + 1, c.pc.cleanup);
    match c.pc.stage
    case 0 => if c.child == Running then None else Some(c.(pc := next))
    case 1 => if Joined(c.captures[0]) then Some(c.(pc := next)) else None
    case 2 => if Joined(c.captures[1]) then Some(c.(pc := next)) else None
    case 3 => Some(Close(c, 0).(pc := next))
    case 4 => Some(Close(c, 1).(pc := next))
    case _ => Some(c.(pc := if c.pc.cleanup then Leaving(false, false) else Checking))
  }

  predicate Guarded(pc: Pc) {
    pc.Begun? || pc.Starting? || pc.Flagged? || pc.Native? || pc.Polling? || pc.Checking?
  }

  /** In the handler, with the owner not yet marked as retained. */
  predicate Cleaning(pc: Pc) {
    (pc.Finishing? && pc.cleanup) || pc.Unconfirmed? || pc.Named?
  }

  /** What the caller's own thread does. */
  function Act(c: Caller, m: Move): Option<Caller>
    requires |c.captures| == 2
  {
    match m
    case Enter => if c.pc.Acquired? then Some(c.(pc := Begun)) else None
    case Spawn => if c.pc.Begun? then Some(c.(pc := Starting(0), child := Running)) else None
    case Flag =>
      if c.pc.Starting? && c.pc.next < 2
      then Some(With(c, c.pc.next, c.captures[c.pc.next].(attempted := true)).(pc := Flagged(c.pc.next))) else None
    case Create =>
      if c.pc.Flagged? && c.pc.i < 2 then Some(With(c, c.pc.i, c.captures[c.pc.i].(reader := Created)).(pc := Native(c.pc.i))) else None
    case Started => if c.pc.Native? && c.pc.i < 2 && !c.captures[c.pc.i].reader.Created? then Some(c.(pc := Starting(c.pc.i + 1))) else None
    case Watch => if c.pc == Starting(2) then Some(c.(pc := Polling)) else None
    case Seen =>
      if c.pc.Polling? && c.child == Gone && Done(c.captures[0]) && Done(c.captures[1]) then Some(c.(pc := Finishing(0, false))) else None
    case Raise => if Guarded(c.pc) then Some(c.(pc := Finishing(0, true))) else None
    case Advance => if c.pc.Finishing? then Finish(c) else None
    case GiveUp =>
      if !c.pc.Finishing? then None
      else if c.pc.cleanup then Some(c.(pc := Unconfirmed, unconfirmed := true))
      else Some(c.(pc := Finishing(0, true)))
    case Check => if c.pc.Checking? && Accepted(c.captures[0]) && Accepted(c.captures[1]) then Some(c.(pc := Leaving(false, true))) else None
    case Name => if c.pc.Unconfirmed? then Some(c.(pc := Named)) else None
    case Retain => if c.pc.Named? then Some(c.(pc := Leaving(true, false))) else None
    case Interrupt =>
      if c.pc.Acquired? || c.pc.Leaving? then Some(c.(pc := Dead))
      else if Cleaning(c.pc) then Some(c.(pc := Leaving(false, false), unconfirmed := true))
      else None
    case _ => None
  }

  /** What the child and the reader threads do. A reader uses its stream only while it is reading. */
  function React(c: Caller, m: Move): Option<Caller>
    requires |c.captures| == 2
  {
    match m
    case ChildExits => if c.child == Running then Some(c.(child := Gone)) else None
    case Publish(i) => if i < 2 && c.captures[i].reader.Created? then Some(With(c, i, c.captures[i].(reader := Reading))) else None
    case Chunk(i, n) =>
      if i < 2 && c.captures[i].reader.Reading? && c.captures[i].size <= MAX_PROBE_BYTES && 1 <= n <= Min(CHUNK, MAX_PROBE_BYTES + 1 - c.captures[i].size)
      then Some(With(c, i, c.captures[i].(size := c.captures[i].size + n))) else None
    case Stop(i, error) =>
      if i < 2 && c.captures[i].reader.Reading? then Some(With(c, i, c.captures[i].(reader := Finished, error := error))) else None
    case Exit(i) => if i < 2 && c.captures[i].reader.Finished? then Some(With(c, i, c.captures[i].(reader := Exited))) else None
    case _ => None
  }

  // ---- What holds of one caller ----

  /** A buffer is bounded, a reader was announced before it existed, and a closed stream has no reader left. */
  predicate Tidy(c: Capture) {
    && c.size <= MAX_PROBE_BYTES + 1
    && (!c.reader.Absent? ==> c.attempted)
    && (c.closed ==> Joined(c))
  }

  predicate Early(pc: Pc) {
    pc.Idle? || pc.Refused? || pc.Acquired? || pc.Begun?
  }

  predicate Launching(pc: Pc) {
    pc.Starting? || pc.Flagged? || pc.Native?
  }

  /** Where the caller is and what it must have established by then. */
  predicate Placed(c: Caller)
    requires |c.captures| == 2
  {
    && (Early(c.pc) || Launching(c.pc) ==> !c.captures[0].closed && !c.captures[1].closed)
    && (Early(c.pc) ==> c.child == NoChild && !c.captures[0].attempted && !c.captures[1].attempted)
    && (c.pc.Starting? ==> c.pc.next <= 2)
    && (c.pc.Flagged? ==> c.pc.i < 2 && c.captures[c.pc.i].reader.Absent? && c.captures[c.pc.i].attempted)
    && (c.pc.Native? ==> c.pc.i < 2)
    && (Launching(c.pc) ==> c.child != NoChild && forall j | Begins(c.pc) <= j < 2 :: !c.captures[j].attempted)
    && (Launching(c.pc) ==> forall j | 0 <= j < Begins(c.pc) :: c.captures[j].attempted)
    && (c.pc.Polling? ==> c.child != NoChild && c.captures[0].attempted && c.captures[1].attempted)
    && (c.pc.Finishing? ==> Staged(c, c.pc.stage, c.pc.cleanup))
    && (c.pc.Checking? || (c.pc.Leaving? && c.pc.ok) || (c.pc.Ended? && c.pc.ok) ==> Confirmed(c))
    && ((c.pc.Leaving? && c.pc.ok) || (c.pc.Ended? && c.pc.ok) ==> Accepted(c.captures[0]) && Accepted(c.captures[1]))
    && (c.pc.Unconfirmed? || c.pc.Named? || (c.pc.Leaving? && c.pc.retained) || (c.pc.Ended? && c.pc.retained) ==> c.unconfirmed)
    && ((c.pc.Leaving? || c.pc.Ended?) && !c.unconfirmed ==> Clear(c))
  }

  /** How many readers have been announced while they are being started. */
  function Begins(pc: Pc): nat
  {
    if pc.Starting? then pc.next else if pc.Flagged? || pc.Native? then pc.i + 1 else 0
  }

  predicate Staged(c: Caller, stage: nat, cleanup: bool)
    requires |c.captures| == 2
  {
    && (stage > 0 ==> c.child != Running)
    && (stage > 1 ==> Joined(c.captures[0]))
    && (stage > 2 ==> Joined(c.captures[1]))
    && (stage > 3 && c.child != NoChild ==> c.captures[0].closed)
    && (stage > 4 && c.child != NoChild ==> c.captures[1].closed)
    && (!cleanup ==> c.child == Gone && c.captures[0].attempted && c.captures[1].attempted)
  }

  /** No child is running and no reader is left. */
  predicate Clear(c: Caller)
    requires |c.captures| == 2
  {
    c.child != Running && Joined(c.captures[0]) && Joined(c.captures[1])
  }

  /** The child has exited, both readers are finished and gone, and both streams are closed. */
  predicate Confirmed(c: Caller)
    requires |c.captures| == 2
  {
    c.child == Gone && forall i | 0 <= i < 2 :: c.captures[i].attempted && c.captures[i].reader == Exited && c.captures[i].closed
  }

  predicate Sound(c: Caller) {
    |c.captures| == 2 && Tidy(c.captures[0]) && Tidy(c.captures[1]) && Placed(c)
  }

  lemma CloseKeepsSound(c: Caller, i: nat, next: Pc)
    requires Sound(c) && c.pc.Finishing? && c.pc.stage == 3 + i && i < 2 && next == Finishing(4 + i, c.pc.cleanup)
    ensures Sound(Close(c, i).(pc := next))
  {
    assert Tidy(Close(c, i).captures[0]) && Tidy(Close(c, i).captures[1]);
    assert Staged(Close(c, i), 4 + i, c.pc.cleanup);
  }

  lemma FinishKeepsSound(c: Caller)
    requires Sound(c) && c.pc.Finishing?
    ensures Finish(c).Some? ==> Sound(Finish(c).value)
  {
    if c.pc.stage == 3 {
      CloseKeepsSound(c, 0, Finishing(4, c.pc.cleanup));
    } else if c.pc.stage == 4 {
      CloseKeepsSound(c, 1, Finishing(5, c.pc.cleanup));
    }
  }

  lemma LaunchKeepsSound(c: Caller, m: Move)
    requires Sound(c) && (m.Flag? || m.Create? || m.Started?)
    ensures Act(c, m).Some? ==> Sound(Act(c, m).value)
  {
  }

  lemma ActKeepsSound(c: Caller, m: Move)
    requires Sound(c)
    ensures Act(c, m).Some? ==> Sound(Act(c, m).value)
  {
    if m.Flag? || m.Create? || m.Started? {
      LaunchKeepsSound(c, m);
    } else if m.Advance? {
      if c.pc.Finishing? { FinishKeepsSound(c); }
    } else if m.Spawn? || m.Watch? || m.Seen? || m.Check? {
      PollKeepsSound(c, m);
    } else {
      LeaveKeepsSound(c, m);
    }
  }

  lemma PollKeepsSound(c: Caller, m: Move)
    requires Sound(c) && (m.Spawn? || m.Watch? || m.Seen? || m.Check?)
    ensures Act(c, m).Some? ==> Sound(Act(c, m).value)
  {
  }

  lemma LeaveKeepsSound(c: Caller, m: Move)
    requires Sound(c) && !(m.Flag? || m.Create? || m.Started? || m.Advance? || m.Spawn? || m.Watch? || m.Seen? || m.Check?)
    ensures Act(c, m).Some? ==> Sound(Act(c, m).value)
  {
  }

  /** A reader's step touches one capture, which stays tidy and is no less joined than before. */
  lemma CaptureKeepsSound(c: Caller, i: nat, capture: Capture)
    requires Sound(c) && i < 2 && Tidy(capture)
    requires capture.attempted == c.captures[i].attempted && capture.closed == c.captures[i].closed
    requires c.captures[i].reader != Absent && c.captures[i].reader != Exited && capture.reader != Absent
    ensures Sound(With(c, i, capture))
  {
    assert !Joined(c.captures[i]) && !c.captures[i].closed;
    PlacedStays(c, i, capture);
  }

  lemma PlacedStays(c: Caller, i: nat, capture: Capture)
    requires Sound(c) && i < 2 && !Joined(c.captures[i]) && !c.captures[i].reader.Absent?
    requires capture.attempted == c.captures[i].attempted && capture.closed == c.captures[i].closed
    ensures Placed(With(c, i, capture))
  {
  }

  lemma ChildKeepsSound(c: Caller)
    requires Sound(c) && c.child == Running
    ensures Sound(c.(child := Gone))
  {
  }

  lemma ReactKeepsSound(c: Caller, m: Move)
    requires Sound(c)
    ensures React(c, m).Some? ==> Sound(React(c, m).value)
  {
    if React(c, m).Some? {
      match m
      case ChildExits => ChildKeepsSound(c);
      case Publish(i) => CaptureKeepsSound(c, i, c.captures[i].(reader := Reading));
      case Chunk(i, n) => CaptureKeepsSound(c, i, c.captures[i].(size := c.captures[i].size + n));
      case Stop(i, error) => CaptureKeepsSound(c, i, c.captures[i].(reader := Finished, error := error));
      case Exit(i) => CaptureKeepsSound(c, i, c.captures[i].(reader := Exited));
      case _ =>
    }
  }

  // ---- All callers together ----

  datatype World = World(lock: Option<nat>, callers: seq<Caller>)

  datatype Step =
    | Acquire(c: nat) | Refuse(c: nat)
    | Local(c: nat, move: Move)
    | Leave(c: nat)

  function Put(w: World, i: nat, c: Caller): World
    requires i < |w.callers|
  {
    w.(callers := w.callers[i := c])
  }

  function Move1(c: Caller, m: Move): Option<Caller>
    requires |c.captures| == 2
  {
    if Act(c, m).Some? then Act(c, m) else React(c, m)
  }

  /** Taking the lock without waiting, giving it back unless the owner is retained, and everything in between. */
  function Next(w: World, s: Step): Option<World> {
    if s.c >= |w.callers| || |w.callers[s.c].captures| != 2 then None else
      var c := w.callers[s.c];
      match s
      case Acquire(i) => if c.pc.Idle? && w.lock.None? then Some(Put(w, i, c.(pc := Acquired)).(lock := Some(i))) else None
      case Refuse(i) => if c.pc.Idle? && w.lock.Some? then Some(Put(w, i, c.(pc := Refused))) else None
      case Leave(i) =>
        if !c.pc.Leaving? then None
        else Some(Put(w, i, c.(pc := Ended(c.pc.retained, c.pc.ok))).(lock := if c.pc.retained then w.lock else None))
      case Local(i, m) => if Move1(c, m).Some? then Some(Put(w, i, Move1(c, m).value)) else None
  }

  function Run(w: World, steps: seq<Step>): Option<World>
    decreases |steps|
  {
    if steps == [] then Some(w) else
      var v := Next(w, steps[0]);
      if v.None? then None else Run(v.value, steps[1..])
  }

  predicate Holding(pc: Pc) {
    !(pc.Idle? || pc.Refused? || (pc.Ended? && !pc.retained))
  }

  predicate Inv(w: World) {
    forall i | 0 <= i < |w.callers| :: Sound(w.callers[i]) && (Holding(w.callers[i].pc) <==> w.lock == Some(i))
  }

  lemma MoveKeeps(c: Caller, m: Move)
    requires Sound(c)
    ensures Move1(c, m).Some? ==> Sound(Move1(c, m).value) && (Holding(Move1(c, m).value.pc) <==> Holding(c.pc))
    ensures Move1(c, m).Some? && c.unconfirmed ==> Move1(c, m).value.unconfirmed
  {
    ActKeepsSound(c, m);
    ReactKeepsSound(c, m);
  }

  lemma NextKeepsInv(w: World, s: Step)
    requires Inv(w)
    ensures Next(w, s).Some? ==> Inv(Next(w, s).value)
  {
    if s.c < |w.callers| {
      var c := w.callers[s.c];
      assert Sound(c);
      if s.Local? { MoveKeeps(c, s.move); }
    }
  }

  lemma {:induction false} RunKeepsInv(w: World, steps: seq<Step>)
    requires Inv(w)
    ensures Run(w, steps).Some? ==> Inv(Run(w, steps).value)
    decreases |steps|
  {
    if steps != [] && Next(w, steps[0]).Some? {
      NextKeepsInv(w, steps[0]);
      RunKeepsInv(Next(w, steps[0]).value, steps[1..]);
    }
  }

  ghost predicate Initial(w: World) {
    w.lock == None && forall i | 0 <= i < |w.callers| :: w.callers[i] == FRESH
  }

  /** Both buffers are bounded, and a stream whose read end is closed has no reader that could touch it. */
  predicate Bounded(c: Caller) {
    && |c.captures| == 2
    && forall k | 0 <= k < 2 :: c.captures[k].size <= 4097 && (c.captures[k].closed ==> c.captures[k].reader in {Absent, Exited} && !Launching(c.pc))
  }

  /** The child has exited and both readers finished, within the limit and without an error. */
  predicate Succeeded(c: Caller) {
    && |c.captures| == 2 && c.child == Gone
    && forall k | 0 <= k < 2 :: c.captures[k].reader == Exited && c.captures[k].size <= 4096 && !c.captures[k].error
  }

  /** No child is running, and a reader either never existed or has exited. */
  predicate Quiescent(c: Caller) {
    c.child != Running && |c.captures| == 2 && c.captures[0].reader in {Absent, Exited} && c.captures[1].reader in {Absent, Exited}
  }

  lemma SoundMeans(c: Caller)
    requires Sound(c)
    ensures Bounded(c) && (c.pc.Ended? && c.pc.ok ==> Succeeded(c))
    ensures c.pc.Ended? && !c.unconfirmed ==> !c.pc.retained && Quiescent(c)
    ensures c.pc.Ended? && c.pc.retained ==> c.unconfirmed
  {
    assert Tidy(c.captures[0]) && Tidy(c.captures[1]);
  }

  /**
    In every interleaving of callers, readers, children and interrupts: at most one probe holds
    admission, every caller stays bounded, one that ends well has succeeded, and one that ends keeps
    admission only after an unconfirmed cleanup and otherwise leaves no child and no reader behind.
  */
  lemma {:induction false} ProbeIsBounded(w: World, steps: seq<Step>, v: World, i: nat, j: nat)
    requires Initial(w) && Run(w, steps) == Some(v) && i < |v.callers| && j < |v.callers|
    ensures Holding(v.callers[i].pc) && Holding(v.callers[j].pc) ==> i == j
    ensures Bounded(v.callers[i])
    ensures v.callers[i].pc.Ended? && v.callers[i].pc.ok ==> Succeeded(v.callers[i])
    ensures v.callers[i].pc.Ended? && !v.callers[i].unconfirmed ==> v.lock != Some(i) && Quiescent(v.callers[i])
    ensures v.callers[i].pc.Ended? && v.lock == Some(i) ==> v.callers[i].unconfirmed
  {
    RunKeepsInv(w, steps);
    SoundMeans(v.callers[i]);
    assert Sound(v.callers[j]);
  }

  // ---- A probe can succeed ----

  function Moves(c: Caller, ms: seq<Move>): Option<Caller>
    decreases |ms|
  {
    if ms == [] then Some(c)
    else if |c.captures| != 2 || Move1(c, ms[0]).None? then None
    else Moves(Move1(c, ms[0]).value, ms[1..])
  }

  function Locals(i: nat, ms: seq<Move>): seq<Step> {
    if ms == [] then [] else [Local(i, ms[0])] + Locals(i, ms[1..])
  }

  /** What one caller does on its own happens to it alone. */
  lemma {:induction false} RunOfMoves(w: World, i: nat, ms: seq<Move>, c: Caller)
    requires i < |w.callers| && Moves(w.callers[i], ms) == Some(c)
    ensures Run(w, Locals(i, ms)) == Some(Put(w, i, c))
    decreases |ms|
  {
    if ms == [] {
      assert Put(w, i, c) == w;
    } else {
      var v := Put(w, i, Move1(w.callers[i], ms[0]).value);
      assert Locals(i, ms)[0] == Local(i, ms[0]) && Locals(i, ms)[1..] == Locals(i, ms[1..]);
      RunOfMoves(v, i, ms[1..], c);
      assert Put(v, i, c) == Put(w, i, c);
    }
  }

  lemma {:induction false} MovesThen(c: Caller, a: seq<Move>, d: Caller, b: seq<Move>)
    requires Moves(c, a) == Some(d)
    ensures Moves(c, a + b) == Moves(d, b)
    decreases |a|
  {
    if a == [] {
      assert a + b == b;
    } else {
      assert (a + b)[0] == a[0] && (a + b)[1..] == a[1..] + b;
      MovesThen(Move1(c, a[0]).value, a[1..], d, b);
    }
  }

  lemma {:induction false} RunThen(w: World, a: seq<Step>, v: World, b: seq<Step>)
    requires Run(w, a) == Some(v)
    ensures Run(w, a + b) == Run(v, b)
    decreases |a|
  {
    if a == [] {
      assert a + b == b;
    } else {
      assert (a + b)[0] == a[0] && (a + b)[1..] == a[1..] + b;
      RunThen(Next(w, a[0]).value, a[1..], v, b);
    }
  }

  function Bytewise(k: nat, n: nat): seq<Move> {
    if n == 0 then [] else [Chunk(k, 1)] + Bytewise(k, n - 1)
  }

  function Sized(c: Caller, k: nat, size: nat): Caller
    requires k < |c.captures|
  {
    With(c, k, c.captures[k].(size := size))
  }

  /** A reader takes in any number of bytes up to 4097. */
  lemma {:induction false} ReadBytes(c: Caller, k: nat, n: nat)
    requires |c.captures| == 2 && k < 2 && c.captures[k].reader.Reading? && c.captures[k].size + n <= 4097
    ensures Moves(c, Bytewise(k, n)) == Some(Sized(c, k, c.captures[k].size + n))
    decreases n
  {
    if n == 0 {
      assert Sized(c, k, c.captures[k].size) == c;
    } else {
      var d := Sized(c, k, c.captures[k].size + 1);
      assert Act(c, Chunk(k, 1)).None? && Move1(c, Chunk(k, 1)) == Some(d);
      assert Bytewise(k, n)[0] == Chunk(k, 1) && Bytewise(k, n)[1..] == Bytewise(k, n - 1);
      ReadBytes(d, k, n - 1);
      assert Sized(d, k, d.captures[k].size + (n - 1)) == Sized(c, k, c.captures[k].size + n);
    }
  }

  function Launched(size0: nat, size1: nat, reader: Reader, child: Child, pc: Pc): Caller {
    Caller(pc, child, [Capture(true, reader, size0, false, false), Capture(true, reader, size1, false, false)], false)
  }

  /** Two callers that agree in every part. */
  predicate Agree(c: Caller, d: Caller) {
    && c.pc == d.pc && c.child == d.child && c.unconfirmed == d.unconfirmed && |c.captures| == |d.captures| == 2
    && c.captures[0] == d.captures[0] && c.captures[1] == d.captures[1]
  }

  /** Move `n` of a list takes one caller to the next. */
  lemma OneMove(c: Caller, ms: seq<Move>, n: nat, d: Caller)
    requires |c.captures| == 2 && n < |ms| && Move1(c, ms[n]).Some? && Agree(Move1(c, ms[n]).value, d)
    ensures Moves(c, ms[n..]) == Moves(d, ms[n + 1..])
  {
    assert ms[n..][0] == ms[n] && ms[n..][1..] == ms[n + 1..];
    assert Move1(c, ms[n]).value.captures == d.captures;
  }

  lemma AllMoves(c: Caller, ms: seq<Move>)
    ensures ms[0..] == ms && Moves(c, ms[|ms|..]) == Some(c)
  {
  }

  const UNUSED := Capture(false, Absent, 0, false, false)
  const READING := Capture(true, Reading, 0, false, false)

  const FIRST: seq<Move> := [Enter, Spawn, Flag, Create, Publish(0), Started]
  const SECOND: seq<Move> := [Flag, Create, Publish(1), Started, Watch]

  lemma FirstStarts(ms: seq<Move>)
    requires ms == FIRST
    ensures Moves(FRESH.(pc := Acquired), ms) == Some(Caller(Starting(1), Running, [READING, UNUSED], false))
  {
    hide Moves;
    var c0 := FRESH.(pc := Acquired);
    var c3 := Caller(Flagged(0), Running, [UNUSED.(attempted := true), UNUSED], false);
    var c4 := Caller(Native(0), Running, [READING.(reader := Created), UNUSED], false);
    var c5 := Caller(Native(0), Running, [READING, UNUSED], false);
    OneMove(c0, ms, 0, c0.(pc := Begun));
    OneMove(c0.(pc := Begun), ms, 1, c0.(pc := Starting(0), child := Running));
    OneMove(c0.(pc := Starting(0), child := Running), ms, 2, c3);
    OneMove(c3, ms, 3, c4);
    OneMove(c4, ms, 4, c5);
    OneMove(c5, ms, 5, c5.(pc := Starting(1)));
    AllMoves(c5.(pc := Starting(1)), ms);
  }

  lemma SecondStarts(ms: seq<Move>)
    requires ms == SECOND
    ensures Moves(Caller(Starting(1), Running, [READING, UNUSED], false), ms) == Some(Launched(0, 0, Reading, Running, Polling))
  {
    hide Moves;
    var c0 := Caller(Starting(1), Running, [READING, UNUSED], false);
    var c1 := Caller(Flagged(1), Running, [READING, UNUSED.(attempted := true)], false);
    var c2 := Caller(Native(1), Running, [READING, READING.(reader := Created)], false);
    var c3 := Caller(Native(1), Running, [READING, READING], false);
    OneMove(c0, ms, 0, c1);
    OneMove(c1, ms, 1, c2);
    OneMove(c2, ms, 2, c3);
    OneMove(c3, ms, 3, c3.(pc := Starting(2)));
    OneMove(c3.(pc := Starting(2)), ms, 4, Launched(0, 0, Reading, Running, Polling));
    AllMoves(Launched(0, 0, Reading, Running, Polling), ms);
  }

  const STOP: seq<Move> := [Stop(0, false), Stop(1, false)]
  const QUIT: seq<Move> := [Exit(0), Exit(1), ChildExits]

  lemma ReadersStop(a: nat, b: nat, ms: seq<Move>)
    requires ms == STOP
    ensures Moves(Launched(a, b, Reading, Running, Polling), ms) == Some(Launched(a, b, Finished, Running, Polling))
  {
    hide Moves;
    var c1 := Caller(Polling, Running, [Capture(true, Finished, a, false, false), Capture(true, Reading, b, false, false)], false);
    OneMove(Launched(a, b, Reading, Running, Polling), ms, 0, c1);
    OneMove(c1, ms, 1, Launched(a, b, Finished, Running, Polling));
    AllMoves(Launched(a, b, Finished, Running, Polling), ms);
  }

  lemma Quits(a: nat, b: nat, ms: seq<Move>)
    requires ms == QUIT
    ensures Moves(Launched(a, b, Finished, Running, Polling), ms) == Some(Launched(a, b, Exited, Gone, Polling))
  {
    hide Moves;
    var c1 := Caller(Polling, Running, [Capture(true, Exited, a, false, false), Capture(true, Finished, b, false, false)], false);
    OneMove(Launched(a, b, Finished, Running, Polling), ms, 0, c1);
    OneMove(c1, ms, 1, Launched(a, b, Exited, Running, Polling));
    OneMove(Launched(a, b, Exited, Running, Polling), ms, 2, Launched(a, b, Exited, Gone, Polling));
    AllMoves(Launched(a, b, Exited, Gone, Polling), ms);
  }

  const JOIN: seq<Move> := [Seen, Advance, Advance, Advance]
  const CONFIRM: seq<Move> := [Advance, Advance, Advance, Check]

  function Closed(c: Caller, first: bool, second: bool, pc: Pc): Caller
    requires |c.captures| == 2
  {
    c.(captures := [c.captures[0].(closed := first), c.captures[1].(closed := second)], pc := pc)
  }

  /** Once the child has exited and both readers are gone, they are seen to be. */
  lemma Joins(a: nat, b: nat, ms: seq<Move>)
    requires ms == JOIN
    ensures Moves(Launched(a, b, Exited, Gone, Polling), ms) == Some(Launched(a, b, Exited, Gone, Finishing(3, false)))
  {
    hide Moves;
    OneMove(Launched(a, b, Exited, Gone, Polling), ms, 0, Launched(a, b, Exited, Gone, Finishing(0, false)));
    OneMove(Launched(a, b, Exited, Gone, Finishing(0, false)), ms, 1, Launched(a, b, Exited, Gone, Finishing(1, false)));
    OneMove(Launched(a, b, Exited, Gone, Finishing(1, false)), ms, 2, Launched(a, b, Exited, Gone, Finishing(2, false)));
    OneMove(Launched(a, b, Exited, Gone, Finishing(2, false)), ms, 3, Launched(a, b, Exited, Gone, Finishing(3, false)));
    AllMoves(Launched(a, b, Exited, Gone, Finishing(3, false)), ms);
  }

  /** Then a caller within the limits ends well. */
  lemma Confirms(c: Caller, ms: seq<Move>)
    requires |c.captures| == 2 && c.child == Gone && c.pc == Finishing(3, false) && Accepted(c.captures[0]) && Accepted(c.captures[1])
    requires !c.captures[0].closed && !c.captures[1].closed && ms == CONFIRM
    ensures Moves(c, ms) == Some(Closed(c, true, true, Leaving(false, true)))
  {
    hide Moves;
    OneMove(c, ms, 0, Closed(c, true, false, Finishing(4, false)));
    OneMove(Closed(c, true, false, Finishing(4, false)), ms, 1, Closed(c, true, true, Finishing(5, false)));
    OneMove(Closed(c, true, true, Finishing(5, false)), ms, 2, Closed(c, true, true, Checking));
    OneMove(Closed(c, true, true, Checking), ms, 3, Closed(c, true, true, Leaving(false, true)));
    AllMoves(Closed(c, true, true, Leaving(false, true)), ms);
  }

  /** Output of any size up to 4096 bytes on each stream can be captured: there is a run in which the probe ends well and gives admission back. */
  lemma ProbeCanSucceed(w: World, i: nat, a: nat, b: nat) returns (steps: seq<Step>)
    requires i < |w.callers| && w.lock.None? && w.callers[i] == FRESH && a <= 4096 && b <= 4096
    ensures Run(w, steps).Some? && Run(w, steps).value.lock.None? && i < |Run(w, steps).value.callers|
    ensures Run(w, steps).value.callers[i].pc == Ended(false, true) && Succeeded(Run(w, steps).value.callers[i])
    ensures Run(w, steps).value.callers[i].captures[0].size == a && Run(w, steps).value.callers[i].captures[1].size == b
  {
    var c := Closed(Launched(a, b, Exited, Gone, Polling), true, true, Leaving(false, true));
    var moves := FIRST + (SECOND + (Bytewise(0, a) + (Bytewise(1, b) + (STOP + (QUIT + (JOIN + CONFIRM))))));
    CallerCanSucceed(a, b);
    var w1 := Put(w, i, FRESH.(pc := Acquired)).(lock := Some(i));
    RunOfMoves(w1, i, moves, c);
    steps := [Acquire(i)] + (Locals(i, moves) + [Leave(i)]);
    assert steps[1..] == Locals(i, moves) + [Leave(i)];
    var w2 := Put(w1, i, c);
    RunThen(w1, Locals(i, moves), w2, [Leave(i)]);
    var v := Next(w2, Leave(i)).value;
    assert [Leave(i)][1..] == [] && Run(v, []) == Some(v);
    assert Run(w2, [Leave(i)]) == Some(v);
  }

  lemma CallerCanSucceed(a: nat, b: nat)
    requires a <= 4096 && b <= 4096
    ensures Moves(FRESH.(pc := Acquired), FIRST + (SECOND + (Bytewise(0, a) + (Bytewise(1, b) + (STOP + (QUIT + (JOIN + CONFIRM))))))) ==
              Some(Closed(Launched(a, b, Exited, Gone, Polling), true, true, Leaving(false, true)))
  {
    hide Moves;
    var started := Caller(Starting(1), Running, [READING, UNUSED], false);
    FirstStarts(FIRST);
    MovesThen(FRESH.(pc := Acquired), FIRST, started, SECOND + (Bytewise(0, a) + (Bytewise(1, b) + (STOP + (QUIT + (JOIN + CONFIRM))))));
    SecondStarts(SECOND);
    MovesThen(started, SECOND, Launched(0, 0, Reading, Running, Polling), Bytewise(0, a) + (Bytewise(1, b) + (STOP + (QUIT + (JOIN + CONFIRM)))));
    ReadBytes(Launched(0, 0, Reading, Running, Polling), 0, a);
    assert Sized(Launched(0, 0, Reading, Running, Polling), 0, a) == Launched(a, 0, Reading, Running, Polling);
    MovesThen(Launched(0, 0, Reading, Running, Polling), Bytewise(0, a), Launched(a, 0, Reading, Running, Polling), Bytewise(1, b) + (STOP + (QUIT + (JOIN + CONFIRM))));
    ReadBytes(Launched(a, 0, Reading, Running, Polling), 1, b);
    assert Sized(Launched(a, 0, Reading, Running, Polling), 1, b) == Launched(a, b, Reading, Running, Polling);
    MovesThen(Launched(a, 0, Reading, Running, Polling), Bytewise(1, b), Launched(a, b, Reading, Running, Polling), STOP + (QUIT + (JOIN + CONFIRM)));
    ReadersStop(a, b, STOP);
    MovesThen(Launched(a, b, Reading, Running, Polling), STOP, Launched(a, b, Finished, Running, Polling), QUIT + (JOIN + CONFIRM));
    Quits(a, b, QUIT);
    MovesThen(Launched(a, b, Finished, Running, Polling), QUIT, Launched(a, b, Exited, Gone, Polling), JOIN + CONFIRM);
    Joins(a, b, JOIN);
    MovesThen(Launched(a, b, Exited, Gone, Polling), JOIN, Launched(a, b, Exited, Gone, Finishing(3, false)), CONFIRM);
    Confirms(Launched(a, b, Exited, Gone, Finishing(3, false)), CONFIRM);
  }

  // ---- After an unconfirmed cleanup ----

  /** An interrupt that leaves the handler before cleanup is confirmed or its owner marked as retained. */
  predicate Loses(w: World, s: Step) {
    s.Local? && s.move.Interrupt? && s.c < |w.callers| && Cleaning(w.callers[s.c].pc)
  }

  predicate NeverLoses(w: World, steps: seq<Step>)
    decreases |steps|
  {
    steps == [] || (!Loses(w, steps[0]) && (Next(w, steps[0]).Some? ==> NeverLoses(Next(w, steps[0]).value, steps[1..])))
  }

  /** A caller whose cleanup failed still holds admission and will never give it back. */
  predicate Sealed(c: Caller) {
    c.unconfirmed ==> c.pc.Unconfirmed? || c.pc.Named? || c.pc.Dead? || (c.pc.Leaving? && c.pc.retained) || (c.pc.Ended? && c.pc.retained)
  }

  predicate AllSealed(w: World) {
    forall i | 0 <= i < |w.callers| :: Sealed(w.callers[i])
  }

  lemma NextKeepsSealed(w: World, s: Step)
    requires Inv(w) && AllSealed(w) && !Loses(w, s)
    ensures Next(w, s).Some? ==> AllSealed(Next(w, s).value)
  {
    if s.c < |w.callers| && s.Local? {
      assert Sound(w.callers[s.c]) && Sealed(w.callers[s.c]);
      MoveKeepsSealed(w.callers[s.c], s.move);
    }
  }

  lemma MoveKeepsSealed(c: Caller, m: Move)
    requires |c.captures| == 2 && Sealed(c) && !(m.Interrupt? && Cleaning(c.pc))
    ensures Move1(c, m).Some? ==> Sealed(Move1(c, m).value)
  {
  }

  lemma SealedStays(w: World, s: Step, i: nat)
    requires Inv(w) && i < |w.callers| && w.callers[i].unconfirmed && Next(w, s).Some?
    ensures i < |Next(w, s).value.callers| && Next(w, s).value.callers[i].unconfirmed
  {
    assert Sound(w.callers[s.c]);
    if s.Local? { MoveKeeps(w.callers[s.c], s.move); }
  }

  /** Only the holder of admission can spawn, and a sealed caller does not. */
  lemma SealedCannotSpawn(w: World, s: Step, i: nat)
    requires Inv(w) && AllSealed(w) && i < |w.callers| && w.callers[i].unconfirmed && Next(w, s).Some?
    ensures !Spawns(s)
  {
    assert Sealed(w.callers[i]) && Sound(w.callers[i]) && Sound(w.callers[s.c]);
  }

  /** From a first state on, runs that lose no quarantine keep every unconfirmed caller sealed. */
  lemma {:induction false} RunKeepsSealed(w: World, steps: seq<Step>)
    requires Inv(w) && AllSealed(w) && NeverLoses(w, steps)
    ensures Run(w, steps).Some? ==> AllSealed(Run(w, steps).value)
    decreases |steps|
  {
    if steps != [] && Next(w, steps[0]).Some? {
      NextKeepsInv(w, steps[0]);
      NextKeepsSealed(w, steps[0]);
      RunKeepsSealed(Next(w, steps[0]).value, steps[1..]);
    }
  }

  predicate Spawns(s: Step) {
    s.Local? && s.move.Spawn?
  }

  /** Unless an interrupt loses it, one unconfirmed cleanup is the end of all spawning. */
  lemma {:induction false} NothingSpawnedAgain(w: World, steps: seq<Step>, i: nat)
    requires Inv(w) && AllSealed(w) && i < |w.callers| && w.callers[i].unconfirmed
    requires Run(w, steps).Some? && NeverLoses(w, steps)
    ensures forall k | 0 <= k < |steps| :: !Spawns(steps[k])
    ensures Run(w, steps).value.lock == Some(i)
    decreases |steps|
  {
    assert Sealed(w.callers[i]) && Sound(w.callers[i]);
    if steps != [] {
      var v := Next(w, steps[0]).value;
      NextKeepsInv(w, steps[0]);
      NextKeepsSealed(w, steps[0]);
      SealedStays(w, steps[0], i);
      SealedCannotSpawn(w, steps[0], i);
      NothingSpawnedAgain(v, steps[1..], i);
      forall k | 0 <= k < |steps| ensures !Spawns(steps[k]) {
        if k > 0 { assert steps[k] == steps[1..][k - 1]; }
      }
    }
  }

  /** In every run from the start that loses no quarantine: after one failed cleanup no child is spawned. */
  lemma {:induction false} OneFailureEndsProbing(w: World, before: seq<Step>, v: World, after: seq<Step>, i: nat)
    requires Initial(w) && NeverLoses(w, before) && Run(w, before) == Some(v)
    requires i < |v.callers| && v.callers[i].unconfirmed && NeverLoses(v, after) && Run(v, after).Some?
    ensures forall k | 0 <= k < |after| :: !Spawns(after[k])
    ensures Run(v, after).value.lock == Some(i)
  {
    RunKeepsInv(w, before);
    RunKeepsSealed(w, before);
    NothingSpawnedAgain(v, after, i);
  }

  /** A second caller's child runs, and the first caller's child and readers are still as they were, unconfirmed. */
  predicate SpawnedBeside(before: World, w: Option<World>, i: nat, j: nat)
    requires i < |before.callers|
  {
    && w.Some? && i < |w.value.callers| && j < |w.value.callers| && i != j
    && w.value.callers[i].unconfirmed && w.value.callers[j].child == Running
    && w.value.callers[i].child == before.callers[i].child && w.value.callers[i].captures == before.callers[i].captures
  }

  /** And whenever an interrupt does lose it, another caller can be admitted and spawn. */
  lemma LostQuarantineReadmits(w: World, i: nat, j: nat)
    requires Inv(w) && i < |w.callers| && j < |w.callers| && w.callers[j].pc.Idle?
    requires Loses(w, Local(i, Interrupt))
    ensures SpawnedBeside(w, Run(w, [Local(i, Interrupt), Leave(i), Acquire(j), Local(j, Enter), Local(j, Spawn)]), i, j)
  {
    assert Sound(w.callers[i]) && Sound(w.callers[j]);
    var w1 := Next(w, Local(i, Interrupt)).value;
    var w2 := Next(w1, Leave(i)).value;
    var w3 := Next(w2, Acquire(j)).value;
    var w4 := Next(w3, Local(j, Enter)).value;
    var w5 := Next(w4, Local(j, Spawn)).value;
    RunFive(w, w1, w2, w3, w4, w5, Local(i, Interrupt), Leave(i), Acquire(j), Local(j, Enter), Local(j, Spawn));
  }

  lemma RunFive(w: World, w1: World, w2: World, w3: World, w4: World, w5: World, a: Step, b: Step, c: Step, d: Step, e: Step)
    requires Next(w, a) == Some(w1) && Next(w1, b) == Some(w2) && Next(w2, c) == Some(w3) && Next(w3, d) == Some(w4) && Next(w4, e) == Some(w5)
    ensures Run(w, [a, b, c, d, e]) == Some(w5)
  {
    assert [a, b, c, d, e][1..] == [b, c, d, e];
    assert [b, c, d, e][1..] == [c, d, e];
    assert [c, d, e][1..] == [d, e];
    assert [d, e][1..] == [e];
    assert [e][1..] == [];
    assert Run(w5, []) == Some(w5);
    assert Run(w4, [e]) == Some(w5);
    assert Run(w3, [d, e]) == Some(w5);
    assert Run(w2, [c, d, e]) == Some(w5);
    assert Run(w1, [b, c, d, e]) == Some(w5);
  }
}
