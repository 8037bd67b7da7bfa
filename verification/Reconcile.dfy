/** The daemon's reconcile loop: schedule cursors, the compiled-schedule cache and the clock sample. */
module Reconcile {
  import opened Bytes

  type Id = string

  type Zone = string

  datatype Key = Key(job: Id, revision: nat)

  /** Compiling a definition's schedule and evaluating it over the instants after one time up to another. */
  datatype Engine<!D, !C> = Engine(
    compile: D -> Option<C>,
    evaluate: (D, C, int, int, bool, Zone) -> Option<seq<int>>,
    resolves: (D, int) -> bool)

  /** One evaluation, committed together with the cursor it moved: the instants in (after, until]. */
  datatype Window<C> = Window(after: int, until: int, missed: bool, zone: Zone, schedule: C, runs: seq<int>)

  /** A job's schedule at one revision: its definition never changes, its cursor only with a window. */
  datatype Track<D, C> = Track(definition: D, origin: int, cursor: int, paused: bool, windows: seq<Window<C>>)

  /** The jobs with their current revisions, those that are live, those enabled, and every revision's track. */
  datatype Store<D, C> = Store(current: map<Id, nat>, live: set<Id>, enabled: set<Id>, tracks: map<Key, Track<D, C>>)

  /** Consecutive non-empty half-open windows from one cursor to another. */
  ghost predicate Chained<C>(windows: seq<Window<C>>, from: int, until: int) {
    if windows == [] then from == until else
      var last := windows[|windows| - 1];
      last.after < last.until == until && Chained(windows[..|windows| - 1], from, last.after)
  }

  /** A window was evaluated with a fresh compile of the definition and holds what that gave. */
  ghost predicate Honest<D, C>(engine: Engine<D, C>, definition: D, w: Window<C>) {
    && engine.compile(definition) == Some(w.schedule)
    && engine.evaluate(definition, w.schedule, w.after, w.until, w.missed, w.zone) == Some(w.runs)
  }

  ghost predicate Good<D, C>(engine: Engine<D, C>, t: Track<D, C>) {
    && Chained(t.windows, t.origin, t.cursor)
    && forall i | 0 <= i < |t.windows| :: Honest(engine, t.definition, t.windows[i])
  }

  ghost predicate Shaped<D, C>(s: Store<D, C>) {
    && s.live <= s.current.Keys && s.enabled <= s.live
    && (forall id | id in s.current :: Key(id, s.current[id]) in s.tracks)
    && (forall k | k in s.tracks :: k.job in s.current && k.revision <= s.current[k.job])
  }

  ghost predicate Inv<D, C>(engine: Engine<D, C>, s: Store<D, C>) {
    Shaped(s) && forall k | k in s.tracks :: Good(engine, s.tracks[k])
  }

  /** Nothing already recorded is lost or altered; windows are only added. */
  ghost predicate Extends<D, C>(s: Store<D, C>, t: Store<D, C>) {
    forall k | k in s.tracks :: k in t.tracks && Grows(s.tracks[k], t.tracks[k])
  }

  ghost predicate Grows<D, C>(a: Track<D, C>, b: Track<D, C>) {
    a.definition == b.definition && a.origin == b.origin && a.windows <= b.windows && a.cursor <= b.cursor
  }

  ghost predicate Keeps<D, C>(engine: Engine<D, C>, s: Store<D, C>, t: Store<D, C>) {
    Inv(engine, t) && Extends(s, t)
  }

  /** Moves a cursor and commits a window, if the job is live at that revision and the cursor is as expected. */
  function Materialize<D, C>(s: Store<D, C>, k: Key, w: Window<C>, resolve: bool): Option<Store<D, C>> {
    if k.job in s.live && k.job in s.current && s.current[k.job] == k.revision && k in s.tracks && s.tracks[k].cursor == w.after then
      var t := s.tracks[k];
      Some(s.(tracks := s.tracks[k := t.(cursor := w.until, paused := false, windows := t.windows + [w])],
              enabled := if resolve then s.enabled - {k.job} else s.enabled))
    else None
  }

  /** What other writers may do between two steps of a pass, another reconciler included. */
  datatype Edit<D> =
    | Add(id: Id, definition: D, cursor: int, on: bool)
    | Revise(id: Id, definition: D, cursor: int, on: bool)
    | Switch(id: Id, on: bool)
    | Remove(id: Id)
    | Rival(id: Id, now: int, missed: bool, zone: Zone)

  function Enrol<D, C>(s: Store<D, C>, k: Key, definition: D, cursor: int, on: bool): Store<D, C> {
    Store(s.current[k.job := k.revision], s.live + {k.job}, if on then s.enabled + {k.job} else s.enabled - {k.job},
          s.tracks[k := Track(definition, cursor, cursor, !on, [])])
  }

  /** Switching a job on or off marks the time in between as missed. */
  function Toggle<D, C>(s: Store<D, C>, k: Key, on: bool): Store<D, C>
    requires k in s.tracks
  {
    var paused := s.tracks[k].paused || (on != (k.job in s.enabled));
    s.(enabled := if on then s.enabled + {k.job} else s.enabled - {k.job}, tracks := s.tracks[k := s.tracks[k].(paused := paused)])
  }

  function Retire<D, C>(s: Store<D, C>, id: Id): Store<D, C> {
    s.(live := s.live - {id}, enabled := s.enabled - {id})
  }

  /** A whole evaluation by another reconciler, which compiles the schedule itself. */
  function Compete<D, C>(engine: Engine<D, C>, s: Store<D, C>, k: Key, now: int, missed: bool, zone: Zone): Store<D, C>
    requires k in s.tracks
  {
    var t := s.tracks[k];
    var c := engine.compile(t.definition);
    if c.None? || now <= t.cursor then s else
      var runs := engine.evaluate(t.definition, c.value, t.cursor, now, missed, zone);
      if runs.None? then s else
        var u := Materialize(s, k, Window(t.cursor, now, missed, zone, c.value, runs.value), engine.resolves(t.definition, now));
        if u.None? then s else u.value
  }

  function AddJob<D, C>(s: Store<D, C>, id: Id, definition: D, cursor: int, on: bool): Store<D, C> {
    if id in s.current then s else Enrol(s, Key(id, 1), definition, cursor, on)
  }

  function ReviseJob<D, C>(s: Store<D, C>, id: Id, definition: D, cursor: int, on: bool): Store<D, C> {
    if id in s.live && id in s.current then Enrol(s, Key(id, s.current[id] + 1), definition, cursor, on) else s
  }

  function SwitchJob<D, C>(s: Store<D, C>, id: Id, on: bool): Store<D, C> {
    if id in s.live && id in s.current && Key(id, s.current[id]) in s.tracks then Toggle(s, Key(id, s.current[id]), on) else s
  }

  function RivalPass<D, C>(engine: Engine<D, C>, s: Store<D, C>, id: Id, now: int, missed: bool, zone: Zone): Store<D, C> {
    if id in s.current && Key(id, s.current[id]) in s.tracks then Compete(engine, s, Key(id, s.current[id]), now, missed, zone) else s
  }

  function Perform<D, C>(engine: Engine<D, C>, s: Store<D, C>, e: Edit<D>): Store<D, C> {
    match e
    case Add(id, definition, cursor, on) => AddJob(s, id, definition, cursor, on)
    case Revise(id, definition, cursor, on) => ReviseJob(s, id, definition, cursor, on)
    case Switch(id, on) => SwitchJob(s, id, on)
    case Remove(id) => Retire(s, id)
    case Rival(id, now, missed, zone) => RivalPass(engine, s, id, now, missed, zone)
  }

  function PerformAll<D, C>(engine: Engine<D, C>, s: Store<D, C>, edits: seq<Edit<D>>): Store<D, C>
    decreases |edits|
  {
    if edits == [] then s else PerformAll(engine, Perform(engine, s, edits[0]), edits[1..])
  }

  lemma GrowsTransitive<D, C>(a: Store<D, C>, b: Store<D, C>, c: Store<D, C>)
    requires Extends(a, b) && Extends(b, c)
    ensures Extends(a, c)
  {
    forall k | k in a.tracks ensures k in c.tracks && Grows(a.tracks[k], c.tracks[k]) {
      assert k in b.tracks && Grows(a.tracks[k], b.tracks[k]);
      assert k in c.tracks && Grows(b.tracks[k], c.tracks[k]);
    }
  }

  lemma ChainedSnoc<C>(windows: seq<Window<C>>, from: int, until: int, w: Window<C>)
    requires Chained(windows, from, until) && w.after == until < w.until
    ensures Chained(windows + [w], from, w.until)
  {
    assert (windows + [w])[..|windows|] == windows;
  }

  lemma GoodSnoc<D, C>(engine: Engine<D, C>, t: Track<D, C>, w: Window<C>)
    requires Good(engine, t) && w.after == t.cursor < w.until && Honest(engine, t.definition, w)
    ensures Good(engine, t.(cursor := w.until, paused := false, windows := t.windows + [w]))
    ensures Grows(t, t.(cursor := w.until, paused := false, windows := t.windows + [w]))
  {
    ChainedSnoc(t.windows, t.origin, t.cursor, w);
  }

  /** One window was appended to one track, whose cursor moved to its end, and no other track changed. */
  ghost predicate Appended<D, C>(s: Store<D, C>, t: Store<D, C>, k: Key, w: Window<C>, resolve: bool) {
    && t.live == s.live && t.current == s.current && t.tracks.Keys == s.tracks.Keys && k in s.tracks
    && (forall id :: id in t.enabled <==> id in s.enabled && !(resolve && id == k.job))
    && s.tracks[k].cursor == w.after && t.tracks[k].cursor == w.until && t.tracks[k].windows == s.tracks[k].windows + [w]
    && t.tracks[k].definition == s.tracks[k].definition && t.tracks[k].origin == s.tracks[k].origin && !t.tracks[k].paused
    && forall j | j in s.tracks && j != k :: t.tracks[j] == s.tracks[j]
  }

  /** The compare-and-set goes through exactly for a live job at that revision whose cursor is where the window begins. */
  lemma MaterializeAppends<D, C>(s: Store<D, C>, k: Key, w: Window<C>, resolve: bool)
    ensures Materialize(s, k, w, resolve).Some? <==>
              k.job in s.live && k.job in s.current && s.current[k.job] == k.revision && k in s.tracks && s.tracks[k].cursor == w.after
    ensures Materialize(s, k, w, resolve).Some? ==> Appended(s, Materialize(s, k, w, resolve).value, k, w, resolve)
  {
  }

  lemma MaterializeKeeps<D, C>(engine: Engine<D, C>, s: Store<D, C>, k: Key, w: Window<C>, resolve: bool)
    requires Inv(engine, s) && w.after < w.until
    requires k in s.tracks ==> Honest(engine, s.tracks[k].definition, w)
    ensures Materialize(s, k, w, resolve).Some? ==> Keeps(engine, s, Materialize(s, k, w, resolve).value)
  {
    if Materialize(s, k, w, resolve).Some? {
      GoodSnoc(engine, s.tracks[k], w);
    }
  }

  lemma EnrolShaped<D, C>(s: Store<D, C>, k: Key, definition: D, cursor: int, on: bool)
    requires Shaped(s) && k !in s.tracks && (k.job in s.current ==> s.current[k.job] <= k.revision)
    ensures Shaped(Enrol(s, k, definition, cursor, on))
  {
  }

  lemma EnrolKeeps<D, C>(engine: Engine<D, C>, s: Store<D, C>, k: Key, definition: D, cursor: int, on: bool)
    requires Inv(engine, s) && k !in s.tracks && (k.job in s.current ==> s.current[k.job] <= k.revision)
    ensures Keeps(engine, s, Enrol(s, k, definition, cursor, on))
  {
    EnrolShaped(s, k, definition, cursor, on);
    assert Good(engine, Enrol(s, k, definition, cursor, on).tracks[k]);
  }

  lemma ToggleKeeps<D, C>(engine: Engine<D, C>, s: Store<D, C>, k: Key, on: bool)
    requires Inv(engine, s) && k in s.tracks && k.job in s.live
    ensures Keeps(engine, s, Toggle(s, k, on))
  {
    assert Good(engine, Toggle(s, k, on).tracks[k]);
  }

  lemma CompeteKeeps<D, C>(engine: Engine<D, C>, s: Store<D, C>, k: Key, now: int, missed: bool, zone: Zone)
    requires Inv(engine, s) && k in s.tracks
    ensures Keeps(engine, s, Compete(engine, s, k, now, missed, zone))
  {
    var t := s.tracks[k];
    var c := engine.compile(t.definition);
    if c.Some? && t.cursor < now {
      var runs := engine.evaluate(t.definition, c.value, t.cursor, now, missed, zone);
      if runs.Some? {
        MaterializeKeeps(engine, s, k, Window(t.cursor, now, missed, zone, c.value, runs.value), engine.resolves(t.definition, now));
      }
    }
  }

  /** A job that was switched off or on since its last evaluation has the time in between counted as missed. */
  lemma SwitchOffAndOn<D, C>(engine: Engine<D, C>, s: Store<D, C>, id: Id)
    requires Inv(engine, s) && id in s.enabled
    ensures Perform(engine, s, Switch(id, true)) == s
    ensures var off := Perform(engine, s, Switch(id, false));
            var on := Perform(engine, off, Switch(id, true));
            id !in off.enabled && on.enabled == s.enabled && on.tracks == s.tracks[KeyOf(s, id) := s.tracks[KeyOf(s, id)].(paused := true)]
  {
    assert s.enabled + {id} == s.enabled && s.enabled - {id} + {id} == s.enabled;
  }

  lemma RetireKeeps<D, C>(engine: Engine<D, C>, s: Store<D, C>, id: Id)
    requires Inv(engine, s)
    ensures Keeps(engine, s, Retire(s, id))
  {
  }

  lemma KeepsSelf<D, C>(engine: Engine<D, C>, s: Store<D, C>)
    requires Inv(engine, s)
    ensures Keeps(engine, s, s)
  {
  }

  lemma AddKeeps<D, C>(engine: Engine<D, C>, s: Store<D, C>, id: Id, definition: D, cursor: int, on: bool)
    requires Inv(engine, s)
    ensures Keeps(engine, s, AddJob(s, id, definition, cursor, on))
  {
    if id !in s.current { EnrolKeeps(engine, s, Key(id, 1), definition, cursor, on); } else { KeepsSelf(engine, s); }
  }

  lemma NextRevisionIsNew<D, C>(s: Store<D, C>, id: Id)
    requires Shaped(s) && id in s.current
    ensures Key(id, s.current[id] + 1) !in s.tracks
  {
  }

  lemma ReviseKeeps<D, C>(engine: Engine<D, C>, s: Store<D, C>, id: Id, definition: D, cursor: int, on: bool)
    requires Inv(engine, s)
    ensures Keeps(engine, s, ReviseJob(s, id, definition, cursor, on))
  {
    if id in s.live {
      var k := Key(id, s.current[id] + 1);
      assert ReviseJob(s, id, definition, cursor, on) == Enrol(s, k, definition, cursor, on);
      NextRevisionIsNew(s, id);
      EnrolKeeps(engine, s, k, definition, cursor, on);
    } else {
      KeepsSelf(engine, s);
    }
  }

  lemma SwitchKeeps<D, C>(engine: Engine<D, C>, s: Store<D, C>, id: Id, on: bool)
    requires Inv(engine, s)
    ensures Keeps(engine, s, SwitchJob(s, id, on))
  {
    if id in s.live { ToggleKeeps(engine, s, Key(id, s.current[id]), on); } else { KeepsSelf(engine, s); }
  }

  lemma RivalKeeps<D, C>(engine: Engine<D, C>, s: Store<D, C>, id: Id, now: int, missed: bool, zone: Zone)
    requires Inv(engine, s)
    ensures Keeps(engine, s, RivalPass(engine, s, id, now, missed, zone))
  {
    if id in s.current { CompeteKeeps(engine, s, Key(id, s.current[id]), now, missed, zone); } else { KeepsSelf(engine, s); }
  }

  lemma PerformKeeps<D, C>(engine: Engine<D, C>, s: Store<D, C>, e: Edit<D>)
    requires Inv(engine, s)
    ensures Keeps(engine, s, Perform(engine, s, e))
  {
    match e
    case Add(id, definition, cursor, on) => AddKeeps(engine, s, id, definition, cursor, on);
    case Revise(id, definition, cursor, on) => ReviseKeeps(engine, s, id, definition, cursor, on);
    case Switch(id, on) => SwitchKeeps(engine, s, id, on);
    case Remove(id) => RetireKeeps(engine, s, id);
    case Rival(id, now, missed, zone) => RivalKeeps(engine, s, id, now, missed, zone);
  }

  lemma {:induction false} PerformAllKeeps<D, C>(engine: Engine<D, C>, s: Store<D, C>, edits: seq<Edit<D>>)
    requires Inv(engine, s)
    ensures Keeps(engine, s, PerformAll(engine, s, edits))
    decreases |edits|
  {
    if edits != [] {
      var t := Perform(engine, s, edits[0]);
      PerformKeeps(engine, s, edits[0]);
      PerformAllKeeps(engine, t, edits[1..]);
      GrowsTransitive(s, t, PerformAll(engine, t, edits[1..]));
    }
  }

  /** One job as the listing at the start of a pass returned it. */
  datatype Record<D> = Record(key: Key, definition: D, cursor: int, paused: bool)

  function Snapshot<D, C>(s: Store<D, C>, id: Id): Record<D>
    requires id in s.current && Key(id, s.current[id]) in s.tracks
  {
    var k := Key(id, s.current[id]);
    Record(k, s.tracks[k].definition, s.tracks[k].cursor, s.tracks[k].paused)
  }

  function Snapshots<D, C>(s: Store<D, C>, listed: seq<Id>): seq<Record<D>>
    requires forall id | id in listed :: id in s.current && Key(id, s.current[id]) in s.tracks
  {
    seq(|listed|, i requires 0 <= i < |listed| => Snapshot(s, listed[i]))
  }

  /** The listing holds each live and enabled job once. */
  ghost predicate Lists<D, C>(s: Store<D, C>, listed: seq<Id>) {
    && (forall id :: id in listed <==> id in s.enabled)
    && (forall i, j | 0 <= i < j < |listed| :: listed[i] != listed[j])
  }

  /** Wall and monotonic clock moved by amounts more than a second apart. */
  predicate Jumped(sample: Option<(int, nat)>, now: int, monotonic: nat) {
    && sample.Some?
    && var wall := now - sample.value.0;
       var elapsed := if monotonic < sample.value.1 then 0 else monotonic - sample.value.1;
       wall - elapsed > 1_000_000 || elapsed - wall > 1_000_000
  }

  /** Clocks that advance together never jump; moved apart they do, exactly beyond one second. */
  lemma JumpIsSkew(wall: int, monotonic: nat, passed: nat, skew: int)
    ensures Jumped(Some((wall, monotonic)), wall + passed + skew, monotonic + passed) <==> skew < -1_000_000 || 1_000_000 < skew
    ensures passed <= monotonic ==> (Jumped(Some((wall, monotonic)), wall + skew, monotonic - passed) <==> skew < -1_000_000 || 1_000_000 < skew)
    ensures !Jumped(None, wall, monotonic)
  {
  }

  /** Every cached schedule is what compiling that revision's definition gives. */
  ghost predicate Cached<D, C>(engine: Engine<D, C>, s: Store<D, C>, cache: map<Key, C>) {
    forall k | k in cache :: k in s.tracks && engine.compile(s.tracks[k].definition) == Some(cache[k])
  }

  class Adapter<D, C> {
    const engine: Engine<D, C>
    var store: Store<D, C>
    var cache: map<Key, C>
    var sample: Option<(int, nat)>
    var first: bool

    ghost predicate Valid()
      reads this
    {
      Inv(engine, store) && Cached(engine, store, cache)
    }

    constructor (engine: Engine<D, C>, store: Store<D, C>)
      requires Inv(engine, store)
      ensures Valid() && this.engine == engine && this.store == store && cache == map[] && sample == None && first
    {
      this.engine, this.store, cache, sample, first := engine, store, map[], None, true;
    }

    /** Finds the compiled schedule of a listed job, dropping other revisions of that job first. */
    method Compiled(job: Record<D>) returns (c: Option<C>)
      requires Valid() && job.key in store.tracks && store.tracks[job.key].definition == job.definition
      modifies this`cache
      ensures Valid() && c == engine.compile(job.definition)
      ensures cache.Keys <= old(cache.Keys) + {job.key}
      ensures forall k | k in cache && k.job == job.key.job :: k == job.key
    {
      cache := map k | k in cache && (k.job != job.key.job || k.revision == job.key.revision) :: cache[k];
      if job.key in cache {
        return Some(cache[job.key]);
      }
      c := engine.compile(job.definition);
      if c.Some? { cache := cache[job.key := c.value]; }
    }

    /** Evaluates one listed job up to now; `late` says the whole pass counts as missed time. */
    method ReconcileJob(job: Record<D>, now: int, late: bool, zone: Zone) returns (ok: bool)
      requires Valid() && Matches(store, job)
      modifies this`store, this`cache
      ensures Valid() && Extends(old(store), store)
      ensures ok <==> Able(engine, old(store), job, now, late, zone)
      ensures ok ==> Reached(engine, old(store), store, job, now, late, zone)
      ensures !ok ==> store == old(store)
      ensures cache.Keys <= old(cache.Keys) + {job.key}
    {
      KeepsSelf(engine, store);
      if now <= job.cursor { return true; }
      var missed := late || job.paused;
      var c := Compiled(job);
      if c.None? { return false; }
      var runs := engine.evaluate(job.definition, c.value, job.cursor, now, missed, zone);
      if runs.None? { return false; }
      ok := Commit(job, Window(job.cursor, now, missed, zone, c.value, runs.value), late);
    }

    /** The transaction that moves the cursor and commits the window. */
    method Commit(job: Record<D>, w: Window<C>, ghost late: bool) returns (ok: bool)
      requires Valid() && Matches(store, job) && Honest(engine, job.definition, w)
      requires w.after == job.cursor < w.until && w.missed == (late || job.paused)
      modifies this`store
      ensures Valid() && Extends(old(store), store)
      ensures ok <==> Settable(old(store), job)
      ensures ok ==> Reached(engine, old(store), store, job, w.until, late, w.zone)
      ensures !ok ==> store == old(store)
    {
      var resolve := engine.resolves(job.definition, w.until);
      MaterializeAppends(store, job.key, w, resolve);
      KeepsSelf(engine, store);
      var after := Materialize(store, job.key, w, resolve);
      if after.None? { return false; }
      CommitReaches(engine, store, job, w, after.value, late);
      CacheStays(engine, store, after.value, cache);
      store := after.value;
      return true;
    }

    /** One job of the listing, after whatever other writers did before it. */
    method Turn(job: Record<D>, now: int, late: bool, zone: Zone, edits: seq<Edit<D>>) returns (ok: bool)
      requires Valid() && Matches(store, job) && job.cursor <= store.tracks[job.key].cursor
      modifies this`store, this`cache
      ensures Valid() && Extends(old(store), store)
      ensures ok ==> UpTo(store, job.key, now)
      ensures ok <==> Able(engine, PerformAll(engine, old(store), edits), job, now, late, zone)
      ensures ok ==> Reached(engine, PerformAll(engine, old(store), edits), store, job, now, late, zone)
      ensures !ok ==> store == PerformAll(engine, old(store), edits)
    {
      ghost var s := store;
      PerformAllKeeps(engine, store, edits);
      CacheStays(engine, store, PerformAll(engine, store, edits), cache);
      store := PerformAll(engine, store, edits);
      ghost var t := store;
      StillMatches(s, t, job);
      ok := ReconcileJob(job, now, late, zone);
      GrowsTransitive(s, t, store);
      if ok { ReachedUpTo(engine, t, store, job, now, late, zone); }
    }

    method Visit(jobs: seq<Record<D>>, now: int, late: bool, zone: Zone, edits: nat -> seq<Edit<D>>) returns (ok: bool)
      requires Valid() && (forall i | 0 <= i < |jobs| :: Current(store, jobs[i])) && Apart(jobs)
      modifies this`store, this`cache
      ensures Valid() && Extends(old(store), store)
      ensures ok ==> Visited(store, jobs, |jobs|, now)
      ensures ok && Alone(edits) ==> Exactly(engine, old(store), store, jobs, |jobs|, now, late, zone)
      ensures Alone(edits) ==> (ok <==> AllAble(engine, old(store), jobs, |jobs|, now, late, zone))
      ensures Alone(edits) && !ok ==> Halted(engine, old(store), store, jobs, now, late, zone)
    {
      ghost var begin := store;
      KeepsSelf(engine, store);
      for i := 0 to |jobs|
        invariant Valid() && Extends(begin, store)
        invariant Visited(store, jobs, i, now)
        invariant Alone(edits) ==> Exactly(engine, begin, store, jobs, i, now, late, zone) && AllAble(engine, begin, jobs, i, now, late, zone)
      {
        ghost var s := store;
        assert Current(begin, jobs[i]);
        StillMatches(begin, s, jobs[i]);
        ok := Turn(jobs[i], now, late, zone, edits(i));
        GrowsTransitive(begin, s, store);
        if Alone(edits) { AbleAsBefore(engine, begin, s, jobs, i, now, late, zone); }
        if !ok {
          assert Alone(edits) ==> HaltedAt(engine, begin, store, jobs, i, now, late, zone);
          return;
        }
        VisitedStays(s, store, jobs, i, now);
        if Alone(edits) { ExactlyStep(engine, begin, s, store, jobs, i, now, late, zone); }
      }
      ok := true;
    }

    /** The listed jobs as they are now; cached schedules of anything else are dropped. */
    method List(listed: seq<Id>) returns (jobs: seq<Record<D>>)
      requires Valid() && Lists(store, listed)
      modifies this`cache
      ensures Valid() && |jobs| == |listed|
      ensures Apart(jobs) && forall i | 0 <= i < |jobs| :: Current(store, jobs[i]) && jobs[i].key.job == listed[i]
      ensures forall k | k in cache :: exists i | 0 <= i < |jobs| :: jobs[i].key == k
    {
      jobs := Snapshots(store, listed);
      var keys := set i | 0 <= i < |jobs| :: jobs[i].key;
      Forget(keys);
    }

    /** Drops every cached schedule but those of the given revisions. */
    method Forget(keys: set<Key>)
      requires Valid()
      modifies this`cache
      ensures Valid() && cache.Keys == old(cache.Keys) * keys
    {
      cache := map k | k in cache && k in keys :: cache[k];
    }

    /** The walk over the jobs as they were listed; `late` says the whole pass counts as missed time. */
    method PassOver(now: int, late: bool, zone: Zone, listed: seq<Id>, edits: nat -> seq<Edit<D>>) returns (ok: bool)
      requires Valid() && Lists(store, listed)
      modifies this`store, this`cache
      ensures Valid() && Extends(old(store), store)
      ensures ok ==> AllUpTo(old(store), store, listed, now)
      ensures Alone(edits) ==> (ok <==> AllEvaluate(engine, old(store), listed, now, late, zone))
      ensures ok && Alone(edits) ==> OnTime(engine, old(store), store, listed, now, late, zone)
    {
      var jobs := List(listed);
      ghost var begin := store;
      ok := Visit(jobs, now, late, zone, edits);
      AllAbleListed(engine, begin, jobs, listed, now, late, zone);
      if ok {
        ListedUpTo(begin, store, jobs, listed, now);
        if Alone(edits) { ExactlyOnTime(engine, begin, store, jobs, listed, now, late, zone); }
      }
    }

    /** One pass over the listing, with other writers at work before every job. */
    method Reconcile(now: int, monotonic: nat, zone: Zone, listed: seq<Id>, edits: nat -> seq<Edit<D>>) returns (ok: bool)
      requires Valid() && Lists(store, listed)
      modifies this`store, this`cache, this`sample, this`first
      ensures Valid() && Extends(old(store), store)
      ensures ok ==> sample == Some((now, monotonic)) && !first
      ensures !ok ==> sample == old(sample) && first == old(first)
      ensures ok ==> AllUpTo(old(store), store, listed, now)
      ensures Alone(edits) ==> (ok <==> AllEvaluate(engine, old(store), listed, now, old(first) || Jumped(old(sample), now, monotonic), zone))
      ensures ok && Alone(edits) ==> OnTime(engine, old(store), store, listed, now, old(first) || Jumped(old(sample), now, monotonic), zone)
    {
      ok := PassOver(now, first || Jumped(sample, now, monotonic), zone, listed, edits);
      if ok { sample, first := Some((now, monotonic)), false; }
    }
  }

  /** The revisions the listed jobs had at the start have been evaluated up to now, or were there already. */
  ghost predicate AllUpTo<D, C>(begin: Store<D, C>, s: Store<D, C>, listed: seq<Id>, now: int) {
    forall i | 0 <= i < |listed| :: UpTo(s, KeyOf(begin, listed[i]), now)
  }

  lemma ListedUpTo<D, C>(begin: Store<D, C>, s: Store<D, C>, jobs: seq<Record<D>>, listed: seq<Id>, now: int)
    requires |jobs| == |listed| && Visited(s, jobs, |jobs|, now)
    requires forall i | 0 <= i < |jobs| :: Current(begin, jobs[i]) && jobs[i].key.job == listed[i]
    ensures AllUpTo(begin, s, listed, now)
  {
    forall i | 0 <= i < |listed| ensures UpTo(s, KeyOf(begin, listed[i]), now) {
      assert Current(begin, jobs[i]) && UpTo(s, jobs[i].key, now);
    }
  }

  /** Nobody else writes during the pass. */
  ghost predicate Alone<D>(edits: nat -> seq<Edit<D>>) {
    forall i :: edits(i) == []
  }

  ghost predicate Apart<D>(jobs: seq<Record<D>>) {
    forall i, j | 0 <= i < j < |jobs| :: jobs[i].key != jobs[j].key
  }

  /** The window that evaluating a definition gives, with a fresh compile. */
  ghost function Evaluated<D, C>(engine: Engine<D, C>, definition: D, after: int, until: int, missed: bool, zone: Zone): Window<C>
    requires Evaluable(engine, definition, after, until, missed, zone)
  {
    var c := engine.compile(definition).value;
    Window(after, until, missed, zone, c, engine.evaluate(definition, c, after, until, missed, zone).value)
  }

  /** A track the clock is past got exactly the window from its cursor to now and is not paused; any other is as it was. */
  ghost predicate Stepped<D, C>(engine: Engine<D, C>, a: Track<D, C>, b: Track<D, C>, now: int, late: bool, zone: Zone) {
    if now <= a.cursor then b == a else
      && Evaluable(engine, a.definition, a.cursor, now, late || a.paused, zone)
      && b == Track(a.definition, a.origin, now, false, a.windows + [Evaluated(engine, a.definition, a.cursor, now, late || a.paused, zone)])
  }

  /** One of the first `n` jobs of that ID was evaluated and is thereby resolved for good. */
  ghost predicate Resolved<D, C>(engine: Engine<D, C>, jobs: seq<Record<D>>, n: nat, now: int, id: Id)
    requires n <= |jobs|
  {
    exists j | 0 <= j < n :: jobs[j].key.job == id && now > jobs[j].cursor && engine.resolves(jobs[j].definition, now)
  }

  /** The first `n` jobs have been stepped, and no other track has changed. */
  ghost predicate Exactly<D, C>(engine: Engine<D, C>, begin: Store<D, C>, s: Store<D, C>, jobs: seq<Record<D>>, n: nat, now: int, late: bool, zone: Zone)
    requires n <= |jobs|
  {
    && s.live == begin.live && s.current == begin.current && s.tracks.Keys == begin.tracks.Keys
    && (forall id :: id in s.enabled <==> id in begin.enabled && !Resolved(engine, jobs, n, now, id))
    && (forall j | 0 <= j < n :: jobs[j].key in begin.tracks && Stepped(engine, begin.tracks[jobs[j].key], s.tracks[jobs[j].key], now, late, zone))
    && (forall k | k in begin.tracks && Outside(jobs, n, k) :: s.tracks[k] == begin.tracks[k])
  }

  ghost predicate Outside<D>(jobs: seq<Record<D>>, n: nat, k: Key)
    requires n <= |jobs|
  {
    forall j | 0 <= j < n :: jobs[j].key != k
  }

  /** A job's current schedule is due and thereby resolved for good. */
  ghost predicate Resolves<D, C>(engine: Engine<D, C>, s: Store<D, C>, id: Id, now: int) {
    KeyOf(s, id) in s.tracks && now > s.tracks[KeyOf(s, id)].cursor && engine.resolves(s.tracks[KeyOf(s, id)].definition, now)
  }

  /** The walk stopped at the first job that could not be evaluated, with exactly the jobs before it stepped. */
  ghost predicate Halted<D, C>(engine: Engine<D, C>, begin: Store<D, C>, s: Store<D, C>, jobs: seq<Record<D>>, now: int, late: bool, zone: Zone) {
    exists n: nat | n < |jobs| :: HaltedAt(engine, begin, s, jobs, n, now, late, zone)
  }

  ghost predicate HaltedAt<D, C>(engine: Engine<D, C>, begin: Store<D, C>, s: Store<D, C>, jobs: seq<Record<D>>, n: nat, now: int, late: bool, zone: Zone)
    requires n < |jobs|
  {
    AllAble(engine, begin, jobs, n, now, late, zone) && !Able(engine, begin, jobs[n], now, late, zone) && Exactly(engine, begin, s, jobs, n, now, late, zone)
  }

  /** Exactly the current revisions of the listed jobs have been stepped, and exactly the resolved ones switched off. */
  ghost predicate OnTime<D, C>(engine: Engine<D, C>, begin: Store<D, C>, s: Store<D, C>, listed: seq<Id>, now: int, late: bool, zone: Zone) {
    && s.tracks.Keys == begin.tracks.Keys && s.live == begin.live && s.current == begin.current
    && (forall id :: id in s.enabled <==> id in begin.enabled && !(id in listed && Resolves(engine, begin, id, now)))
    && forall k | k in begin.tracks ::
         if k.job in listed && k == KeyOf(begin, k.job) then Stepped(engine, begin.tracks[k], s.tracks[k], now, late, zone) else s.tracks[k] == begin.tracks[k]
  }

  /** One track has been stepped and no other has changed. */
  ghost predicate OneStepped<D, C>(engine: Engine<D, C>, s: Store<D, C>, t: Store<D, C>, key: Key, now: int, late: bool, zone: Zone) {
    && t.live == s.live && t.current == s.current && t.tracks.Keys == s.tracks.Keys && key in s.tracks
    && (forall id :: id in t.enabled <==> id in s.enabled && !(id == key.job && now > s.tracks[key].cursor && engine.resolves(s.tracks[key].definition, now)))
    && Stepped(engine, s.tracks[key], t.tracks[key], now, late, zone)
    && forall k | k in s.tracks && k != key :: t.tracks[k] == s.tracks[k]
  }

  lemma ReachedStepped<D, C>(engine: Engine<D, C>, s: Store<D, C>, t: Store<D, C>, job: Record<D>, now: int, late: bool, zone: Zone)
    requires Extends(s, t) && Reached(engine, s, t, job, now, late, zone)
    requires job.key in s.tracks && job.cursor == s.tracks[job.key].cursor && job.paused == s.tracks[job.key].paused && job.definition == s.tracks[job.key].definition
    ensures OneStepped(engine, s, t, job.key, now, late, zone)
  {
    assert Grows(s.tracks[job.key], t.tracks[job.key]);
  }

  lemma ExactlyStep<D, C>(engine: Engine<D, C>, begin: Store<D, C>, s: Store<D, C>, t: Store<D, C>, jobs: seq<Record<D>>, n: nat, now: int, late: bool, zone: Zone)
    requires n < |jobs| && Apart(jobs) && Exactly(engine, begin, s, jobs, n, now, late, zone) && Current(begin, jobs[n])
    requires Extends(s, t) && Reached(engine, s, t, jobs[n], now, late, zone)
    ensures Exactly(engine, begin, t, jobs, n + 1, now, late, zone)
  {
    assert Outside(jobs, n, jobs[n].key);
    assert s.tracks[jobs[n].key] == begin.tracks[jobs[n].key];
    ReachedStepped(engine, s, t, jobs[n], now, late, zone);
    ExactlyOneMore(engine, begin, s, t, jobs, n, now, late, zone);
  }

  lemma ResolvedOneMore<D, C>(engine: Engine<D, C>, jobs: seq<Record<D>>, n: nat, now: int, id: Id)
    requires n < |jobs|
    ensures Resolved(engine, jobs, n + 1, now, id) <==>
              Resolved(engine, jobs, n, now, id) || (jobs[n].key.job == id && now > jobs[n].cursor && engine.resolves(jobs[n].definition, now))
  {
  }

  lemma ExactlyOneMore<D, C>(engine: Engine<D, C>, begin: Store<D, C>, s: Store<D, C>, t: Store<D, C>, jobs: seq<Record<D>>, n: nat, now: int, late: bool, zone: Zone)
    requires n < |jobs| && Apart(jobs) && Exactly(engine, begin, s, jobs, n, now, late, zone)
    requires Outside(jobs, n, jobs[n].key) && OneStepped(engine, s, t, jobs[n].key, now, late, zone)
    requires jobs[n].cursor == s.tracks[jobs[n].key].cursor && jobs[n].definition == s.tracks[jobs[n].key].definition
    ensures Exactly(engine, begin, t, jobs, n + 1, now, late, zone)
  {
    forall id ensures id in t.enabled <==> id in begin.enabled && !Resolved(engine, jobs, n + 1, now, id) {
      ResolvedOneMore(engine, jobs, n, now, id);
    }
    forall k | k in begin.tracks && Outside(jobs, n + 1, k) ensures t.tracks[k] == begin.tracks[k] {
      assert k != jobs[n].key && Outside(jobs, n, k);
    }
    forall j | 0 <= j < n ensures Stepped(engine, begin.tracks[jobs[j].key], t.tracks[jobs[j].key], now, late, zone) {
      assert jobs[j].key != jobs[n].key;
    }
  }

  lemma ExactlyOnTime<D, C>(engine: Engine<D, C>, begin: Store<D, C>, s: Store<D, C>, jobs: seq<Record<D>>, listed: seq<Id>, now: int, late: bool, zone: Zone)
    requires |jobs| == |listed| && Exactly(engine, begin, s, jobs, |jobs|, now, late, zone)
    requires forall i | 0 <= i < |jobs| :: Current(begin, jobs[i]) && jobs[i].key.job == listed[i]
    ensures OnTime(engine, begin, s, listed, now, late, zone)
  {
    forall k | k in begin.tracks
      ensures if k.job in listed && k == KeyOf(begin, k.job) then Stepped(engine, begin.tracks[k], s.tracks[k], now, late, zone) else s.tracks[k] == begin.tracks[k]
    {
      if k.job in listed && k == KeyOf(begin, k.job) {
        var i :| 0 <= i < |listed| && listed[i] == k.job;
        assert Current(begin, jobs[i]) && jobs[i].key == k;
      } else {
        assert Outside(jobs, |jobs|, k);
      }
    }
  }

  ghost function KeyOf<D, C>(s: Store<D, C>, id: Id): Key {
    Key(id, if id in s.current then s.current[id] else 0)
  }

  /** A record is what the store says about the job's current revision. */
  ghost predicate Current<D, C>(s: Store<D, C>, job: Record<D>) {
    && job.key == KeyOf(s, job.key.job) && job.key in s.tracks
    && job.definition == s.tracks[job.key].definition && job.cursor == s.tracks[job.key].cursor && job.paused == s.tracks[job.key].paused
  }

  /** The job is live at the listed revision and its cursor is as listed. */
  ghost predicate Settable<D, C>(s: Store<D, C>, job: Record<D>) {
    && job.key.job in s.live && job.key.job in s.current && s.current[job.key.job] == job.key.revision
    && job.key in s.tracks && s.tracks[job.key].cursor == job.cursor
  }

  /** A listed job is ahead of the clock, or its schedule compiles and evaluates and nobody has changed it. */
  ghost predicate Able<D, C>(engine: Engine<D, C>, s: Store<D, C>, job: Record<D>, now: int, late: bool, zone: Zone) {
    now <= job.cursor || (Evaluable(engine, job.definition, job.cursor, now, late || job.paused, zone) && Settable(s, job))
  }

  ghost predicate Evaluable<D, C>(engine: Engine<D, C>, definition: D, after: int, until: int, missed: bool, zone: Zone) {
    var c := engine.compile(definition);
    c.Some? && engine.evaluate(definition, c.value, after, until, missed, zone).Some?
  }

  ghost predicate AllAble<D, C>(engine: Engine<D, C>, s: Store<D, C>, jobs: seq<Record<D>>, n: nat, now: int, late: bool, zone: Zone)
    requires n <= |jobs|
  {
    forall i | 0 <= i < n :: Able(engine, s, jobs[i], now, late, zone)
  }

  /** The current schedule of a job needs no evaluation yet, or compiles and evaluates. */
  ghost predicate Evaluates<D, C>(engine: Engine<D, C>, s: Store<D, C>, id: Id, now: int, late: bool, zone: Zone) {
    && KeyOf(s, id) in s.tracks
    && var t := s.tracks[KeyOf(s, id)];
       now <= t.cursor || Evaluable(engine, t.definition, t.cursor, now, late || t.paused, zone)
  }

  /** In a pass without other writers a job can still be evaluated when its turn comes exactly if it could at the start. */
  lemma AbleAsBefore<D, C>(engine: Engine<D, C>, begin: Store<D, C>, s: Store<D, C>, jobs: seq<Record<D>>, n: nat, now: int, late: bool, zone: Zone)
    requires n < |jobs| && Apart(jobs) && Exactly(engine, begin, s, jobs, n, now, late, zone) && Current(begin, jobs[n])
    ensures Able(engine, s, jobs[n], now, late, zone) <==> Able(engine, begin, jobs[n], now, late, zone)
  {
    assert Outside(jobs, n, jobs[n].key);
  }

  ghost predicate AllEvaluate<D, C>(engine: Engine<D, C>, s: Store<D, C>, listed: seq<Id>, now: int, late: bool, zone: Zone) {
    forall i | 0 <= i < |listed| :: Evaluates(engine, s, listed[i], now, late, zone)
  }

  lemma AllAbleListed<D, C>(engine: Engine<D, C>, s: Store<D, C>, jobs: seq<Record<D>>, listed: seq<Id>, now: int, late: bool, zone: Zone)
    requires Shaped(s) && Lists(s, listed) && |jobs| == |listed|
    requires forall i | 0 <= i < |jobs| :: Current(s, jobs[i]) && jobs[i].key.job == listed[i]
    ensures AllAble(engine, s, jobs, |jobs|, now, late, zone) <==> AllEvaluate(engine, s, listed, now, late, zone)
  {
    forall i | 0 <= i < |listed| ensures Able(engine, s, jobs[i], now, late, zone) <==> Evaluates(engine, s, listed[i], now, late, zone) {
      assert listed[i] in s.enabled;
      AbleIsEvaluates(engine, s, jobs[i], now, late, zone);
    }
  }

  lemma AbleIsEvaluates<D, C>(engine: Engine<D, C>, s: Store<D, C>, job: Record<D>, now: int, late: bool, zone: Zone)
    requires Current(s, job) && job.key.job in s.live && job.key.job in s.current
    ensures Able(engine, s, job, now, late, zone) <==> Evaluates(engine, s, job.key.job, now, late, zone)
  {
  }

  /** A listed record still describes its revision. */
  ghost predicate Matches<D, C>(s: Store<D, C>, job: Record<D>) {
    job.key in s.tracks && s.tracks[job.key].definition == job.definition
  }

  /** A job was either ahead of the clock and left alone, or got the window from its listed cursor to now. */
  ghost predicate Reached<D, C>(engine: Engine<D, C>, s: Store<D, C>, t: Store<D, C>, job: Record<D>, now: int, late: bool, zone: Zone) {
    if now <= job.cursor then t == s else
      && Evaluable(engine, job.definition, job.cursor, now, late || job.paused, zone)
      && Appended(s, t, job.key, Evaluated(engine, job.definition, job.cursor, now, late || job.paused, zone), engine.resolves(job.definition, now))
  }

  /** A revision has been evaluated up to now, or was there already. */
  ghost predicate UpTo<D, C>(s: Store<D, C>, k: Key, now: int) {
    k in s.tracks && now <= s.tracks[k].cursor
  }

  lemma StillMatches<D, C>(s: Store<D, C>, t: Store<D, C>, job: Record<D>)
    requires Matches(s, job) && job.cursor <= s.tracks[job.key].cursor && Extends(s, t)
    ensures Matches(t, job) && job.cursor <= t.tracks[job.key].cursor
  {
  }

  lemma ReachedUpTo<D, C>(engine: Engine<D, C>, s: Store<D, C>, t: Store<D, C>, job: Record<D>, now: int, late: bool, zone: Zone)
    requires Matches(s, job) && job.cursor <= s.tracks[job.key].cursor && Reached(engine, s, t, job, now, late, zone)
    ensures UpTo(t, job.key, now)
  {
  }

  lemma CommitReaches<D, C>(engine: Engine<D, C>, s: Store<D, C>, job: Record<D>, w: Window<C>, t: Store<D, C>, late: bool)
    requires Inv(engine, s) && Matches(s, job) && Materialize(s, job.key, w, engine.resolves(job.definition, w.until)) == Some(t)
    requires w.after == job.cursor < w.until && w.missed == (late || job.paused) && Honest(engine, job.definition, w)
    ensures Keeps(engine, s, t) && Reached(engine, s, t, job, w.until, late, w.zone)
  {
    MaterializeKeeps(engine, s, job.key, w, engine.resolves(job.definition, w.until));
    MaterializeAppends(s, job.key, w, engine.resolves(job.definition, w.until));
    AppendedReaches(engine, s, t, job, w, late);
  }

  lemma AppendedReaches<D, C>(engine: Engine<D, C>, s: Store<D, C>, t: Store<D, C>, job: Record<D>, w: Window<C>, late: bool)
    requires Appended(s, t, job.key, w, engine.resolves(job.definition, w.until)) && Honest(engine, job.definition, w)
    requires w.after == job.cursor < w.until && w.missed == (late || job.paused)
    ensures Reached(engine, s, t, job, w.until, late, w.zone)
  {
    assert w == Evaluated(engine, job.definition, w.after, w.until, w.missed, w.zone);
  }

  ghost predicate Visited<D, C>(s: Store<D, C>, jobs: seq<Record<D>>, n: nat, now: int)
    requires n <= |jobs|
  {
    forall j | 0 <= j < n :: UpTo(s, jobs[j].key, now)
  }

  lemma VisitedStays<D, C>(s: Store<D, C>, t: Store<D, C>, jobs: seq<Record<D>>, n: nat, now: int)
    requires n < |jobs| && Visited(s, jobs, n, now) && Extends(s, t) && UpTo(t, jobs[n].key, now)
    ensures Visited(t, jobs, n + 1, now)
  {
  }

  lemma CacheStays<D, C>(engine: Engine<D, C>, s: Store<D, C>, t: Store<D, C>, cache: map<Key, C>)
    requires Cached(engine, s, cache) && Extends(s, t)
    ensures Cached(engine, t, cache)
  {
  }

  /** How many windows consider an instant. */
  function Considered<C>(windows: seq<Window<C>>, x: int): nat {
    if windows == [] then 0 else
      var last := windows[|windows| - 1];
      Considered(windows[..|windows| - 1], x) + if last.after < x <= last.until then 1 else 0
  }

  /** Each instant after the first cursor and up to the last one is considered exactly once, and no other. */
  lemma {:induction false} EachInstantOnce<C>(windows: seq<Window<C>>, from: int, until: int, x: int)
    requires Chained(windows, from, until)
    ensures from <= until && Considered(windows, x) == if from < x <= until then 1 else 0
    decreases |windows|
  {
    if windows != [] {
      var n := |windows| - 1;
      EachInstantOnce(windows[..n], from, windows[n].after, x);
    }
  }

  /** The instants of all runs in the order they were created. */
  function AllRuns<C>(windows: seq<Window<C>>): seq<int> {
    if windows == [] then [] else AllRuns(windows[..|windows| - 1]) + windows[|windows| - 1].runs
  }

  ghost predicate Increasing(s: seq<int>) {
    forall i, j | 0 <= i < j < |s| :: s[i] < s[j]
  }

  ghost predicate Within(s: seq<int>, from: int, until: int) {
    forall i | 0 <= i < |s| :: from < s[i] <= until
  }

  /** Evaluation selects instants of the window only, in order. */
  ghost predicate Confined<D(!new), C(!new)>(engine: Engine<D, C>) {
    forall d, c, a, b, missed, zone ::
      var r := engine.evaluate(d, c, a, b, missed, zone);
      r.Some? ==> Increasing(r.value) && Within(r.value, a, b)
  }

  lemma Joined(a: seq<int>, b: seq<int>, from: int, mid: int, until: int)
    requires from <= mid <= until && Increasing(a) && Within(a, from, mid) && Increasing(b) && Within(b, mid, until)
    ensures Increasing(a + b) && Within(a + b, from, until)
  {
  }

  /** No instant is ever given two runs at one revision, whatever the clocks, edits and failures were. */
  lemma {:induction false} RunsNeverRepeat<D(!new), C(!new)>(engine: Engine<D, C>, definition: D, windows: seq<Window<C>>, from: int, until: int)
    requires Confined(engine) && Chained(windows, from, until)
    requires forall i | 0 <= i < |windows| :: Honest(engine, definition, windows[i])
    ensures from <= until && Increasing(AllRuns(windows)) && Within(AllRuns(windows), from, until)
    decreases |windows|
  {
    if windows != [] {
      var n := |windows| - 1;
      RunsNeverRepeat(engine, definition, windows[..n], from, windows[n].after);
      assert Honest(engine, definition, windows[n]);
      Joined(AllRuns(windows[..n]), windows[n].runs, from, windows[n].after, until);
    }
  }

  /** The occurrences of a schedule between two instants add up. */
  ghost predicate Additive<C(!new)>(occurrences: (C, int, int) -> seq<int>) {
    && (forall c, a :: occurrences(c, a, a) == [])
    && (forall c, a, b, e | a <= b <= e :: occurrences(c, a, b) + occurrences(c, b, e) == occurrences(c, a, e))
  }

  /** When every window keeps all its occurrences, many passes create what one pass over the whole time would. */
  lemma {:induction false} PassesAddUp<D, C(!new)>(engine: Engine<D, C>, definition: D, schedule: C, occurrences: (C, int, int) -> seq<int>,
                                                   windows: seq<Window<C>>, from: int, until: int)
    requires Additive(occurrences) && Chained(windows, from, until) && engine.compile(definition) == Some(schedule)
    requires forall i | 0 <= i < |windows| :: Honest(engine, definition, windows[i])
    requires forall i | 0 <= i < |windows| :: windows[i].runs == occurrences(windows[i].schedule, windows[i].after, windows[i].until)
    ensures from <= until && AllRuns(windows) == occurrences(schedule, from, until)
    decreases |windows|
  {
    if windows != [] {
      var n := |windows| - 1;
      PassesAddUp(engine, definition, schedule, occurrences, windows[..n], from, windows[n].after);
      assert Honest(engine, definition, windows[n]);
    }
  }

  /** A store without jobs is where every run starts. */
  lemma EmptyInv<D, C>(engine: Engine<D, C>)
    ensures Inv(engine, Store(map[], {}, {}, map[]))
  {
  }

  /**
    Between any two stores that passes and edits lead from one to the other: the windows a revision has
    gained cover the time between its two cursors, each instant once, and each was evaluated with a
    fresh compile of the definition the revision had from the start.
  */
  lemma TimeCoveredOnce<D, C>(engine: Engine<D, C>, s: Store<D, C>, t: Store<D, C>, k: Key, x: int)
    requires Inv(engine, s) && Keeps(engine, s, t) && k in s.tracks
    ensures k in t.tracks && s.tracks[k].windows <= t.tracks[k].windows && s.tracks[k].cursor <= t.tracks[k].cursor
    ensures Considered(t.tracks[k].windows, x) - Considered(s.tracks[k].windows, x) == if s.tracks[k].cursor < x <= t.tracks[k].cursor then 1 else 0
    ensures forall i | 0 <= i < |t.tracks[k].windows| :: Honest(engine, s.tracks[k].definition, t.tracks[k].windows[i])
  {
    var a, b := s.tracks[k], t.tracks[k];
    assert Grows(a, b) && Good(engine, a) && Good(engine, b);
    EachInstantOnce(a.windows, a.origin, a.cursor, x);
    EachInstantOnce(b.windows, b.origin, b.cursor, x);
  }
}
