/** Streaming a run's output while it is being written: `wait` over all attempts, `logs --follow` over one. */
module OutputStream {
  import opened Bytes
  import opened Seqs

  datatype Channel = Stdout | Stderr | Body

  datatype Filter = All | Only(channel: Channel)

  datatype Frame = Frame(channel: Channel, payload: Bytes)

  /** An attempt's output: written to a partial file, then renamed to its final name. */
  datatype Attempt = Attempt(frames: seq<Frame>, final: bool)

  /** A run as other processes see it: the outputs of its attempts, from attempt 1, and whether it has ended. */
  datatype World = World(attempts: seq<Attempt>, ended: bool)

  /** A frame as it is emitted, with the attempt and the place it comes from. */
  datatype Tagged = Tagged(attempt: nat, index: nat, frame: Frame)

  /** One turn of a polling loop: what it found when it read the run, the final file and the partial file. */
  datatype Poll = Poll(atState: World, atFinal: World, atPartial: World, fault: bool)

  datatype Outcome = Waiting | Finished | Failed

  const LAST_ATTEMPT: nat := 65535

  predicate Selected(filter: Filter, channel: Channel) {
    filter == All || filter == Only(channel)
  }

  // ---- What may happen to a run between two looks at it ----

  predicate Grows(a: Attempt, b: Attempt) {
    a.frames <= b.frames && (a.final ==> b == a)
  }

  predicate Evolves(v: World, w: World) {
    && |v.attempts| <= |w.attempts| && (forall i | 0 <= i < |v.attempts| :: Grows(v.attempts[i], w.attempts[i]))
    && (v.ended ==> w.ended && |w.attempts| == |v.attempts|)
  }

  datatype Event = Append(attempt: nat, frame: Frame) | Rename(attempt: nat) | Start | End

  function Happen(w: World, e: Event): World {
    match e
    case Append(a, frame) =>
      if 1 <= a <= |w.attempts| && !w.attempts[a - 1].final
      then w.(attempts := w.attempts[a - 1 := w.attempts[a - 1].(frames := w.attempts[a - 1].frames + [frame])]) else w
    case Rename(a) => if 1 <= a <= |w.attempts| then w.(attempts := w.attempts[a - 1 := w.attempts[a - 1].(final := true)]) else w
    case Start => if w.ended then w else w.(attempts := w.attempts + [Attempt([], false)])
    case End => w.(ended := true)
  }

  function HappenAll(w: World, events: seq<Event>): World {
    if events == [] then w else Happen(HappenAll(w, events[..|events| - 1]), events[|events| - 1])
  }

  lemma EvolvesTransitive(u: World, v: World, w: World)
    requires Evolves(u, v) && Evolves(v, w)
    ensures Evolves(u, w)
  {
    forall i | 0 <= i < |u.attempts| ensures Grows(u.attempts[i], w.attempts[i]) {
      assert Grows(u.attempts[i], v.attempts[i]) && Grows(v.attempts[i], w.attempts[i]);
    }
  }

  /** Every interleaving of appends, renames, new attempts and the end of the run is an evolution. */
  lemma {:induction false} EventsEvolve(w: World, events: seq<Event>)
    ensures Evolves(w, HappenAll(w, events))
    decreases |events|
  {
    if events != [] {
      var v := HappenAll(w, events[..|events| - 1]);
      EventsEvolve(w, events[..|events| - 1]);
      EvolvesTransitive(w, v, Happen(v, events[|events| - 1]));
    }
  }

  predicate InOrder(p: Poll) {
    Evolves(p.atState, p.atFinal) && Evolves(p.atFinal, p.atPartial)
  }

  /** A loop's turns follow one another in time. */
  predicate Ordered(polls: seq<Poll>) {
    OrderedUpTo(polls, |polls|)
  }

  predicate OrderedUpTo(polls: seq<Poll>, n: nat)
    requires n <= |polls|
  {
    n == 0 || (OrderedUpTo(polls, n - 1) && InOrder(polls[n - 1]) && (n > 1 ==> Evolves(polls[n - 2].atPartial, polls[n - 1].atState)))
  }

  lemma {:induction false} OrderedAt(polls: seq<Poll>, n: nat, i: nat)
    requires i < n <= |polls| && OrderedUpTo(polls, n)
    ensures InOrder(polls[i]) && (i > 0 ==> Evolves(polls[i - 1].atPartial, polls[i].atState))
    decreases n
  {
    if i < n - 1 { OrderedAt(polls, n - 1, i); }
  }

  // ---- The frames in order ----

  /** The selected frames of one attempt, in order. */
  function Tag(filter: Filter, attempt: nat, frames: seq<Frame>): seq<Tagged> {
    if frames == [] then [] else
      var n := |frames| - 1;
      Tag(filter, attempt, frames[..n]) + (if Selected(filter, frames[n].channel) then [Tagged(attempt, n, frames[n])] else [])
  }

  /** The selected frames of the first `n` attempts, in order. */
  function InOrderFrames(filter: Filter, w: World, n: nat): seq<Tagged>
    requires n <= |w.attempts|
  {
    if n == 0 then [] else InOrderFrames(filter, w, n - 1) + Tag(filter, n, w.attempts[n - 1].frames)
  }

  function AllFrames(filter: Filter, w: World): seq<Tagged> {
    InOrderFrames(filter, w, |w.attempts|)
  }

  function FramesOf(w: World, attempt: nat): seq<Frame> {
    if 1 <= attempt <= |w.attempts| then w.attempts[attempt - 1].frames else []
  }

  /** The selected frames are exactly those of the chosen channel, or all of them. */
  lemma {:induction false} TagIsExactly(filter: Filter, attempt: nat, frames: seq<Frame>, x: Tagged)
    ensures x in Tag(filter, attempt, frames) <==>
              && x.attempt == attempt && x.index < |frames| && x.frame == frames[x.index]
              && (filter.Only? ==> filter.channel == x.frame.channel)
    decreases |frames|
  {
    if frames != [] {
      var n := |frames| - 1;
      TagIsExactly(filter, attempt, frames[..n], x);
    }
  }

  lemma {:induction false} TagPrefix(filter: Filter, attempt: nat, frames: seq<Frame>, n: nat)
    requires n <= |frames|
    ensures Tag(filter, attempt, frames[..n]) <= Tag(filter, attempt, frames)
    decreases |frames|
  {
    if n < |frames| {
      var m := |frames| - 1;
      TagPrefix(filter, attempt, frames[..m], n);
      assert frames[..m][..n] == frames[..n];
    } else {
      assert frames[..n] == frames;
    }
  }

  lemma {:induction false} MoreAttempts(filter: Filter, w: World, n: nat, m: nat)
    requires n <= m <= |w.attempts|
    ensures InOrderFrames(filter, w, n) <= InOrderFrames(filter, w, m)
    decreases m
  {
    if n < m { MoreAttempts(filter, w, n, m - 1); }
  }

  /** Finished attempts contribute the same frames ever after. */
  lemma {:induction false} FinalStays(filter: Filter, v: World, w: World, n: nat)
    requires Evolves(v, w) && n <= |v.attempts| && forall i | 0 <= i < n :: v.attempts[i].final
    ensures n <= |w.attempts| && InOrderFrames(filter, w, n) == InOrderFrames(filter, v, n) && forall i | 0 <= i < n :: w.attempts[i].final
    decreases n
  {
    if n > 0 {
      assert Grows(v.attempts[n - 1], w.attempts[n - 1]);
      FinalStays(filter, v, w, n - 1);
    }
  }

  // ---- Following ----

  function FinalRead(w: World, attempt: nat): Option<seq<Frame>> {
    if 1 <= attempt <= |w.attempts| && w.attempts[attempt - 1].final then Some(w.attempts[attempt - 1].frames) else None
  }

  function PartialRead(w: World, attempt: nat): Option<seq<Frame>> {
    if 1 <= attempt <= |w.attempts| && !w.attempts[attempt - 1].final then Some(w.attempts[attempt - 1].frames) else None
  }

  /** The frames of the final file, else of the partial file, else none. */
  function Found(final: Option<seq<Frame>>, partial: Option<seq<Frame>>): seq<Frame> {
    if final.Some? then final.value else if partial.Some? then partial.value else []
  }

  /** Emits what has become available since `emitted` frames; fails if there are fewer frames than that. */
  method EmitAvailable(filter: Filter, attempt: nat, emitted: nat, final: Option<seq<Frame>>, partial: Option<seq<Frame>>)
    returns (finalized: Option<bool>, count: nat, added: seq<Tagged>)
    ensures finalized.None? <==> |Found(final, partial)| < emitted
    ensures finalized.None? ==> count == emitted && added == []
    ensures finalized.Some? ==> finalized.value == final.Some? && count == |Found(final, partial)|
    ensures finalized.Some? ==> Tag(filter, attempt, Found(final, partial)[..emitted]) + added == Tag(filter, attempt, Found(final, partial))
  {
    added := [];
    var frames := Found(final, partial);
    if |frames| < emitted { return None, emitted, added; }
    for i := emitted to |frames|
      invariant Tag(filter, attempt, frames[..emitted]) + added == Tag(filter, attempt, frames[..i])
    {
      assert frames[..i + 1][..i] == frames[..i];
      if Selected(filter, frames[i].channel) {
        added := added + [Tagged(attempt, i, frames[i])];
      }
    }
    assert frames[..|frames|] == frames;
    return Some(final.Some?), |frames|, added;
  }

  /** Everything before the current attempt is final and emitted, and of the current attempt the first frames. */
  ghost predicate Following(filter: Filter, w: World, attempt: nat, emitted: nat, out: seq<Tagged>) {
    && 1 <= attempt <= |w.attempts| + 1 && (forall i | 0 <= i < attempt - 1 :: w.attempts[i].final)
    && emitted <= |FramesOf(w, attempt)|
    && out == InOrderFrames(filter, w, attempt - 1) + Tag(filter, attempt, FramesOf(w, attempt)[..emitted])
  }

  lemma FollowingStays(filter: Filter, v: World, w: World, attempt: nat, emitted: nat, out: seq<Tagged>)
    requires Following(filter, v, attempt, emitted, out) && Evolves(v, w)
    ensures Following(filter, w, attempt, emitted, out)
  {
    FinalStays(filter, v, w, attempt - 1);
    if attempt <= |v.attempts| {
      assert Grows(v.attempts[attempt - 1], w.attempts[attempt - 1]);
      assert FramesOf(w, attempt)[..emitted] == FramesOf(v, attempt)[..emitted];
    } else {
      assert FramesOf(w, attempt)[..0] == FramesOf(v, attempt)[..0];
    }
  }

  /** What has been emitted is a prefix of the frames of all attempts in order. */
  lemma FollowingPrefix(filter: Filter, w: World, attempt: nat, emitted: nat, out: seq<Tagged>)
    requires Following(filter, w, attempt, emitted, out)
    ensures out <= AllFrames(filter, w)
  {
    if attempt <= |w.attempts| {
      TagPrefix(filter, attempt, FramesOf(w, attempt), emitted);
      MoreAttempts(filter, w, attempt, |w.attempts|);
    } else {
      assert out == InOrderFrames(filter, w, attempt - 1);
    }
  }

  /** The frames a poll finds, and what the attempt holds once the poll is over. */
  lemma FoundIs(p: Poll, attempt: nat)
    requires InOrder(p)
    ensures FinalRead(p.atFinal, attempt).Some? ==> FinalRead(p.atPartial, attempt) == FinalRead(p.atFinal, attempt)
    ensures Found(FinalRead(p.atFinal, attempt), PartialRead(p.atPartial, attempt)) ==
      if FinalRead(p.atFinal, attempt).None? && FinalRead(p.atPartial, attempt).Some? then [] else FramesOf(p.atPartial, attempt)
  {
    if 1 <= attempt <= |p.atFinal.attempts| {
      assert Grows(p.atFinal.attempts[attempt - 1], p.atPartial.attempts[attempt - 1]);
    }
  }

  /** A poll reports that output regressed exactly when the rename fell between its two reads. */
  lemma RegressedExactly(filter: Filter, p: Poll, attempt: nat, emitted: nat, out: seq<Tagged>)
    requires InOrder(p) && Following(filter, p.atState, attempt, emitted, out)
    ensures |Found(FinalRead(p.atFinal, attempt), PartialRead(p.atPartial, attempt))| < emitted <==>
      emitted > 0 && FinalRead(p.atFinal, attempt).None? && FinalRead(p.atPartial, attempt).Some?
  {
    FoundIs(p, attempt);
    EvolvesTransitive(p.atState, p.atFinal, p.atPartial);
    FollowingStays(filter, p.atState, p.atPartial, attempt, emitted, out);
  }

  lemma PollAdvances(filter: Filter, p: Poll, attempt: nat, emitted: nat, out: seq<Tagged>, frames: seq<Frame>, added: seq<Tagged>)
    requires InOrder(p) && Following(filter, p.atPartial, attempt, emitted, out)
    requires frames == Found(FinalRead(p.atFinal, attempt), PartialRead(p.atPartial, attempt)) && emitted <= |frames|
    requires Tag(filter, attempt, frames[..emitted]) + added == Tag(filter, attempt, frames)
    ensures Following(filter, p.atPartial, attempt, |frames|, out + added)
    ensures out + added <= AllFrames(filter, p.atPartial)
  {
    var w := p.atPartial;
    var tail := Tag(filter, attempt, FramesOf(w, attempt)[..emitted]);
    TailAdvances(filter, p, attempt, emitted, tail, frames, added);
    Assoc(InOrderFrames(filter, w, attempt - 1), tail, added);
    FollowingPrefix(filter, w, attempt, |frames|, out + added);
  }

  lemma NextAttempt(filter: Filter, w: World, attempt: nat, out: seq<Tagged>)
    requires FinalRead(w, attempt).Some? && Following(filter, w, attempt, |FramesOf(w, attempt)|, out)
    ensures Following(filter, w, attempt + 1, 0, out)
  {
    assert FramesOf(w, attempt)[..|FramesOf(w, attempt)|] == FramesOf(w, attempt);
  }

  predicate LaterEmpty(w: World, attempt: nat) {
    forall i | attempt <= i < |w.attempts| :: w.attempts[i].frames == []
  }

  /** When the run was seen to have ended, the output of every attempt was already under its final name. */
  predicate Settled(w: World) {
    w.ended && forall i | 0 <= i < |w.attempts| :: w.attempts[i].final
  }

  lemma {:induction false} TagWhole(attempt: nat, frames: seq<Frame>)
    ensures |Tag(All, attempt, frames)| == |frames|
    decreases |frames|
  {
    if frames != [] { TagWhole(attempt, frames[..|frames| - 1]); }
  }

  lemma {:induction false} LaterAdd(w: World, attempt: nat, n: nat)
    requires attempt <= n <= |w.attempts|
    ensures |InOrderFrames(All, w, attempt)| <= |InOrderFrames(All, w, n)|
    ensures InOrderFrames(All, w, attempt) == InOrderFrames(All, w, n) <==> forall i | attempt <= i < n :: w.attempts[i].frames == []
    decreases n
  {
    if attempt < n {
      LaterAdd(w, attempt, n - 1);
      TagWhole(n, w.attempts[n - 1].frames);
    }
  }

  lemma SettledRead(p: Poll, attempt: nat, emitted: nat, out: seq<Tagged>)
    requires InOrder(p) && Settled(p.atState) && Following(All, p.atPartial, attempt, emitted, out)
    requires emitted == |Found(FinalRead(p.atFinal, attempt), PartialRead(p.atPartial, attempt))|
    ensures out == AllFrames(All, p.atPartial) <==> LaterEmpty(p.atPartial, attempt)
  {
    var w := p.atPartial;
    if attempt <= |w.attempts| {
      assert Grows(p.atState.attempts[attempt - 1], p.atFinal.attempts[attempt - 1]);
      FoundIs(p, attempt);
      assert FramesOf(w, attempt)[..emitted] == FramesOf(w, attempt);
      LaterAdd(w, attempt, |w.attempts|);
    } else {
      assert out == InOrderFrames(All, w, attempt - 1);
    }
  }

  /** The final file was not there yet and the partial file not any more. */
  predicate Raced(p: Poll, attempt: nat) {
    FinalRead(p.atFinal, attempt).None? && FinalRead(p.atPartial, attempt).Some?
  }

  function FoundBy(p: Poll, attempt: nat): seq<Frame> {
    Found(FinalRead(p.atFinal, attempt), PartialRead(p.atPartial, attempt))
  }

  /** The attempt a waiting loop is at after `i` turns: one further for every turn that found its attempt final. */
  function Followed(polls: seq<Poll>, i: nat): nat
    requires i <= |polls|
  {
    if i == 0 then 1 else
      var attempt := Followed(polls, i - 1);
      if FinalRead(polls[i - 1].atFinal, attempt).Some? then attempt + 1 else attempt
  }

  /** How many frames of that attempt the last turn has seen. */
  function Counted(polls: seq<Poll>, i: nat): nat
    requires i <= |polls|
  {
    if i == 0 || FinalRead(polls[i - 1].atFinal, Followed(polls, i - 1)).Some? then 0
    else |FoundBy(polls[i - 1], Followed(polls, i - 1))|
  }

  /** A turn fails on a read error, on a rename between its two reads once frames were emitted, or without a next attempt number. */
  predicate Breaks(p: Poll, attempt: nat, emitted: nat) {
    || p.fault
    || (emitted > 0 && Raced(p, attempt))
    || (!p.atState.ended && FinalRead(p.atFinal, attempt).Some? && attempt == LAST_ATTEMPT)
  }

  /** Turn `i` neither fails nor sees the end of the run. */
  predicate GoesOn(polls: seq<Poll>, i: nat)
    requires i < |polls|
  {
    !polls[i].atState.ended && !Breaks(polls[i], Followed(polls, i), Counted(polls, i))
  }

  predicate AllGoOn(polls: seq<Poll>, n: nat)
    requires n <= |polls|
  {
    forall i | 0 <= i < n :: GoesOn(polls, i)
  }

  /** One turn of the waiting loop. */
  method WaitTurn(p: Poll, attempt: nat, emitted: nat, out: seq<Tagged>) returns (outcome: Outcome, next: nat, count: nat, shown: seq<Tagged>)
    requires InOrder(p) && Following(All, p.atPartial, attempt, emitted, out)
    ensures Following(All, p.atPartial, next, count, shown)
    ensures outcome == if Breaks(p, attempt, emitted) then Failed else if p.atState.ended then Finished else Waiting
    ensures next == if outcome == Waiting && FinalRead(p.atFinal, attempt).Some? then attempt + 1 else attempt
    ensures outcome != Failed ==> count == if next == attempt then |FoundBy(p, attempt)| else 0
    ensures outcome == Failed ==> count == if p.fault || Raced(p, attempt) then emitted else |FoundBy(p, attempt)|
  {
    FoundIs(p, attempt);
    if p.fault { return Failed, attempt, emitted, out; }
    var final, partial := FinalRead(p.atFinal, attempt), PartialRead(p.atPartial, attempt);
    var finalized, found, added := EmitAvailable(All, attempt, emitted, final, partial);
    if finalized.None? { return Failed, attempt, emitted, out; }
    PollAdvances(All, p, attempt, emitted, out, Found(final, partial), added);
    next, count, shown := attempt, found, out + added;
    if p.atState.ended { return Finished, next, count, shown; }
    if finalized.value {
      if attempt == LAST_ATTEMPT { return Failed, next, count, shown; }
      NextAttempt(All, p.atPartial, attempt, shown);
      next, count := attempt + 1, 0;
    }
    outcome := Waiting;
  }

  /** Attempt numbers stay within 16 bits, and below the last one a final attempt is always moved on from. */
  lemma {:induction false} FollowedFits(polls: seq<Poll>, n: nat)
    requires n <= |polls| && AllGoOn(polls, n)
    ensures Followed(polls, n) <= 65535
    ensures n < |polls| && !polls[n].fault && !polls[n].atState.ended && FinalRead(polls[n].atFinal, Followed(polls, n)).Some? ==>
              (GoesOn(polls, n) <==> Followed(polls, n) < 65535)
    decreases n
  {
    if n > 0 {
      FollowedFits(polls, n - 1);
      assert GoesOn(polls, n - 1);
    }
  }

  /** Where the loop stands after `i` turns that all went on. */
  ghost predicate Standing(polls: seq<Poll>, i: nat, attempt: nat, emitted: nat, out: seq<Tagged>)
    requires i <= |polls|
  {
    && AllGoOn(polls, i) && attempt == Followed(polls, i) && emitted == Counted(polls, i)
    && if i == 0 then out == [] else Following(All, polls[i - 1].atPartial, attempt, emitted, out)
  }

  /** How the loop ends in turn `i`, after turns that all went on. */
  ghost predicate Ending(polls: seq<Poll>, i: nat, outcome: Outcome, attempt: nat, emitted: nat, out: seq<Tagged>)
    requires i < |polls|
  {
    && AllGoOn(polls, i) && attempt == Followed(polls, i)
    && Following(All, polls[i].atPartial, attempt, emitted, out)
    && (outcome == Failed <==> Breaks(polls[i], attempt, Counted(polls, i)))
    && (outcome == Finished ==> polls[i].atState.ended)
    && emitted == if polls[i].fault || (outcome == Failed && Raced(polls[i], attempt)) then Counted(polls, i) else |FoundBy(polls[i], attempt)|
  }

  lemma StandingNext(polls: seq<Poll>, i: nat, attempt: nat, emitted: nat, out: seq<Tagged>, next: nat, count: nat, shown: seq<Tagged>)
    requires i < |polls| && Standing(polls, i, attempt, emitted, out)
    requires !polls[i].atState.ended && !Breaks(polls[i], attempt, emitted) && Following(All, polls[i].atPartial, next, count, shown)
    requires next == if FinalRead(polls[i].atFinal, attempt).Some? then attempt + 1 else attempt
    requires count == if next == attempt then |FoundBy(polls[i], attempt)| else 0
    ensures Standing(polls, i + 1, next, count, shown)
  {
  }

  /**
    The waiting loop: polls until the run is seen to have ended, moving on whenever an attempt is final.
    Where it ends, at which attempt and what it has emitted by then are all decided by what the polls saw.
  */
  method WaitRun(polls: seq<Poll>) returns (outcome: Outcome, turns: nat, attempt: nat, emitted: nat, out: seq<Tagged>)
    requires Ordered(polls)
    ensures turns <= |polls|
    ensures outcome == Waiting ==> turns == |polls| && Standing(polls, turns, attempt, emitted, out)
    ensures outcome != Waiting ==> turns > 0 && Ending(polls, turns - 1, outcome, attempt, emitted, out)
    ensures outcome == Finished && Settled(polls[turns - 1].atState) ==>
      (out == AllFrames(All, polls[turns - 1].atPartial) <==> LaterEmpty(polls[turns - 1].atPartial, Followed(polls, turns - 1)))
  {
    attempt, emitted, out := 1, 0, [];
    for i := 0 to |polls|
      invariant Standing(polls, i, attempt, emitted, out)
    {
      Caught(polls, i, attempt, emitted, out);
      ghost var was, seen, sofar := attempt, emitted, out;
      outcome, attempt, emitted, out := WaitTurn(polls[i], attempt, emitted, out);
      if outcome != Waiting {
        if outcome == Finished && Settled(polls[i].atState) { SettledRead(polls[i], attempt, emitted, out); }
        return outcome, i + 1, attempt, emitted, out;
      }
      StandingNext(polls, i, was, seen, sofar, attempt, emitted, out);
    }
    return Waiting, |polls|, attempt, emitted, out;
  }

  /** A read error ends a wait as failed in that very turn. */
  lemma FaultEndsWait(polls: seq<Poll>, i: nat, outcome: Outcome, attempt: nat, emitted: nat, out: seq<Tagged>)
    requires i < |polls| && (Standing(polls, i + 1, attempt, emitted, out) || Ending(polls, i, outcome, attempt, emitted, out))
    ensures forall j | 0 <= j < i :: !polls[j].fault
    ensures polls[i].fault ==> !Standing(polls, i + 1, attempt, emitted, out) && outcome == Failed
  {
    forall j | 0 <= j < i ensures !polls[j].fault { assert GoesOn(polls, j); }
    if AllGoOn(polls, i + 1) { assert GoesOn(polls, i); }
  }

  /** Among the attempts before number `total`, all were under their final names when turn `m` looked. */
  predicate FinalBefore(w: World, total: nat) {
    total <= |w.attempts| + 1 && forall i | 0 <= i < total - 1 :: w.attempts[i].final
  }

  lemma {:induction false} FinalBeforeStays(polls: seq<Poll>, m: nat, i: nat, total: nat)
    requires Ordered(polls) && m <= i < |polls| && FinalBefore(polls[m].atFinal, total)
    ensures FinalBefore(polls[i].atFinal, total)
    decreases i
  {
    if m < i {
      FinalBeforeStays(polls, m, i - 1, total);
      OrderedAt(polls, |polls|, i - 1);
      OrderedAt(polls, |polls|, i);
      EvolvesTransitive(polls[i - 1].atFinal, polls[i - 1].atPartial, polls[i].atState);
      EvolvesTransitive(polls[i - 1].atFinal, polls[i].atState, polls[i].atFinal);
      forall k | 0 <= k < total - 1 ensures polls[i].atFinal.attempts[k].final {
        assert Grows(polls[i - 1].atFinal.attempts[k], polls[i].atFinal.attempts[k]);
      }
    }
  }

  /** From then on every turn moves the wait one attempt on, until it has come to number `total`. */
  lemma {:induction false} CatchesUp(polls: seq<Poll>, m: nat, k: nat, total: nat)
    requires Ordered(polls) && m + k <= |polls| && 0 < total && (k > 0 ==> FinalBefore(polls[m].atFinal, total))
    ensures Followed(polls, m + k) >= 1 && (Followed(polls, m + k) >= total || Followed(polls, m + k) >= 1 + k)
    decreases k
  {
    if k == 0 {
      FollowedFromOne(polls, m);
    } else {
      CatchesUp(polls, m, k - 1, total);
      FinalBeforeStays(polls, m, m + k - 1, total);
      var a := Followed(polls, m + k - 1);
      if a < total { assert polls[m + k - 1].atFinal.attempts[a - 1].final; }
    }
  }

  lemma {:induction false} FollowedFromOne(polls: seq<Poll>, n: nat)
    requires n <= |polls|
    ensures Followed(polls, n) >= 1
    decreases n
  {
    if n > 0 { FollowedFromOne(polls, n - 1); }
  }

  /**
    A wait that has had a turn for every attempt but the last since those were all final, and then sees the
    settled end of the run, has shown every frame of every attempt.
  */
  lemma PatientWaitShowsAll(polls: seq<Poll>, m: nat, i: nat, attempt: nat, emitted: nat, out: seq<Tagged>)
    requires Ordered(polls) && m < i < |polls| && Ending(polls, i, Finished, attempt, emitted, out) && Settled(polls[i].atState)
    requires FinalBefore(polls[m].atFinal, |polls[i].atPartial.attempts|) && |polls[i].atPartial.attempts| <= 1 + (i - m)
    ensures out == AllFrames(All, polls[i].atPartial)
  {
    OrderedAt(polls, |polls|, i);
    if |polls[i].atPartial.attempts| > 0 { CatchesUp(polls, m, i - m, |polls[i].atPartial.attempts|); } else { FollowedFromOne(polls, i); }
    SettledRead(polls[i], attempt, emitted, out);
  }

  /** At every moment of a wait, whatever it came to, the emitted frames are a prefix of all frames in order. */
  lemma WaitShowsPrefix(polls: seq<Poll>, i: nat, outcome: Outcome, attempt: nat, emitted: nat, out: seq<Tagged>)
    requires i < |polls| && (Standing(polls, i + 1, attempt, emitted, out) || Ending(polls, i, outcome, attempt, emitted, out))
    ensures out <= AllFrames(All, polls[i].atPartial)
  {
    FollowingPrefix(All, polls[i].atPartial, attempt, emitted, out);
  }

  /** Waiting ends after the attempt it is at: of two attempts that finished meanwhile the second is never emitted. */
  method WaitMissesLaterAttempt(first: Frame, second: Frame) returns (outcome: Outcome, out: seq<Tagged>, all: seq<Tagged>)
    ensures all == AllFrames(All, World([Attempt([first], true), Attempt([second], true)], true))
    ensures outcome == Finished && out == [Tagged(1, 0, first)] && all == [Tagged(1, 0, first), Tagged(2, 0, second)]
  {
    var w := World([Attempt([first], true), Attempt([second], true)], true);
    var polls := [Poll(w, w, w, false)];
    assert OrderedUpTo(polls, 0) && InOrder(polls[0]);
    var turns, attempt, emitted;
    outcome, turns, attempt, emitted, out := WaitRun(polls);
    all := AllFrames(All, w);
    assert Followed(polls, 0) == 1 && Counted(polls, 0) == 0;
    OneFrame(1, first);
    OneFrame(2, second);
    assert InOrderFrames(All, w, 0) == [];
    assert InOrderFrames(All, w, 1) == [Tagged(1, 0, first)];
    assert FramesOf(w, 1)[..1] == [first];
    assert !Breaks(polls[0], 1, 0);
    assert !GoesOn(polls, 0);
    assert outcome != Waiting;
  }

  lemma OneFrame(attempt: nat, frame: Frame)
    ensures Tag(All, attempt, [frame]) == [Tagged(attempt, 0, frame)]
  {
    assert [frame][..0] == [] && Tag(All, attempt, []) == [];
  }

  /** What held after one turn still holds during the next. */
  lemma Caught(polls: seq<Poll>, i: nat, attempt: nat, emitted: nat, out: seq<Tagged>)
    requires Ordered(polls) && i < |polls| && Standing(polls, i, attempt, emitted, out)
    ensures InOrder(polls[i]) && Following(All, polls[i].atPartial, attempt, emitted, out)
  {
    var p := polls[i];
    OrderedAt(polls, |polls|, i);
    if i > 0 {
      FollowingStays(All, polls[i - 1].atPartial, p.atState, attempt, emitted, out);
    }
    EvolvesTransitive(p.atState, p.atFinal, p.atPartial);
    FollowingStays(All, p.atState, p.atPartial, attempt, emitted, out);
  }

  // ---- One attempt ----

  /** The first frames of one attempt, after the channel filter. */
  ghost predicate Tailing(filter: Filter, w: World, attempt: nat, emitted: nat, out: seq<Tagged>) {
    emitted <= |FramesOf(w, attempt)| && out == Tag(filter, attempt, FramesOf(w, attempt)[..emitted])
  }

  lemma TailingStays(filter: Filter, v: World, w: World, attempt: nat, emitted: nat, out: seq<Tagged>)
    requires Tailing(filter, v, attempt, emitted, out) && Evolves(v, w)
    ensures Tailing(filter, w, attempt, emitted, out) && out <= Tag(filter, attempt, FramesOf(w, attempt))
  {
    if 1 <= attempt <= |v.attempts| {
      assert Grows(v.attempts[attempt - 1], w.attempts[attempt - 1]);
    }
    assert FramesOf(w, attempt)[..emitted] == FramesOf(v, attempt)[..emitted];
    TagPrefix(filter, attempt, FramesOf(w, attempt), emitted);
  }

  /** One turn of following an attempt. */
  method FollowTurn(filter: Filter, p: Poll, attempt: nat, emitted: nat, out: seq<Tagged>) returns (outcome: Outcome, count: nat, shown: seq<Tagged>)
    requires InOrder(p) && Tailing(filter, p.atPartial, attempt, emitted, out)
    ensures outcome == if p.fault || (emitted > 0 && Raced(p, attempt)) then Failed else if FinalRead(p.atFinal, attempt).Some? then Finished else Waiting
    ensures outcome == Failed ==> count == emitted && shown == out
    ensures outcome != Failed ==> count == |FoundBy(p, attempt)| && shown == Tag(filter, attempt, FoundBy(p, attempt))
    ensures outcome != Failed ==> Tailing(filter, p.atPartial, attempt, count, shown)
    ensures outcome == Finished ==> FinalRead(p.atPartial, attempt) == Some(FoundBy(p, attempt))
  {
    if p.fault { return Failed, emitted, out; }
    FoundIs(p, attempt);
    var final, partial := FinalRead(p.atFinal, attempt), PartialRead(p.atPartial, attempt);
    var finalized, found, added := EmitAvailable(filter, attempt, emitted, final, partial);
    if finalized.None? { return Failed, emitted, out; }
    TailAdvances(filter, p, attempt, emitted, out, Found(final, partial), added);
    TailingFound(filter, p, attempt, out + added);
    return if finalized.value then Finished else Waiting, found, out + added;
  }

  lemma TailingFound(filter: Filter, p: Poll, attempt: nat, out: seq<Tagged>)
    requires InOrder(p) && Tailing(filter, p.atPartial, attempt, |FoundBy(p, attempt)|, out)
    ensures out == Tag(filter, attempt, FoundBy(p, attempt))
  {
    FoundIs(p, attempt);
    var all, found := FramesOf(p.atPartial, attempt), FoundBy(p, attempt);
    assert all[..|found|] == found;
  }

  /** What following has shown after `i` turns: the frames the last of them found. */
  function SeenBy(polls: seq<Poll>, attempt: nat, i: nat): seq<Frame>
    requires i <= |polls|
  {
    if i == 0 then [] else FoundBy(polls[i - 1], attempt)
  }

  /** Turn `i` neither fails nor finds the attempt final. */
  predicate KeepsOn(polls: seq<Poll>, attempt: nat, i: nat)
    requires i < |polls|
  {
    !polls[i].fault && FinalRead(polls[i].atFinal, attempt).None? && (SeenBy(polls, attempt, i) == [] || !Raced(polls[i], attempt))
  }

  predicate AllKeepOn(polls: seq<Poll>, attempt: nat, n: nat)
    requires n <= |polls|
  {
    forall i | 0 <= i < n :: KeepsOn(polls, attempt, i)
  }

  /** Where following stands after `i` turns. */
  ghost predicate Tracking(filter: Filter, polls: seq<Poll>, attempt: nat, i: nat, emitted: nat, out: seq<Tagged>)
    requires i <= |polls|
  {
    && AllKeepOn(polls, attempt, i) && emitted == |SeenBy(polls, attempt, i)| && out == Tag(filter, attempt, SeenBy(polls, attempt, i))
    && (i > 0 ==> Tailing(filter, polls[i - 1].atPartial, attempt, emitted, out))
  }

  /** How following ends in turn `i`. */
  ghost predicate Tracked(filter: Filter, polls: seq<Poll>, attempt: nat, i: nat, outcome: Outcome, out: seq<Tagged>)
    requires i < |polls|
  {
    && AllKeepOn(polls, attempt, i)
    && if outcome == Finished then FinalRead(polls[i].atPartial, attempt).Some? && out == Tag(filter, attempt, FramesOf(polls[i].atPartial, attempt))
    else
      && out == Tag(filter, attempt, SeenBy(polls, attempt, i))
      && (polls[i].fault || (SeenBy(polls, attempt, i) != [] && Raced(polls[i], attempt)))
  }

  /** One turn of the loop, in the terms of all its polls. */
  method TrackTurn(filter: Filter, polls: seq<Poll>, attempt: nat, i: nat, emitted: nat, out: seq<Tagged>) returns (outcome: Outcome, count: nat, shown: seq<Tagged>)
    requires Ordered(polls) && i < |polls| && Tracking(filter, polls, attempt, i, emitted, out)
    ensures outcome == Waiting ==> Tracking(filter, polls, attempt, i + 1, count, shown)
    ensures outcome != Waiting ==> Tracked(filter, polls, attempt, i, outcome, shown)
  {
    TailingAtPoll(filter, polls, i, attempt, emitted, out);
    outcome, count, shown := FollowTurn(filter, polls[i], attempt, emitted, out);
  }

  /**
    The loop behind `logs --follow`. After every turn it has shown exactly the selected frames that
    turn found; when it ends well the attempt is final and they are all of its frames.
  */
  method FollowAttempt(filter: Filter, attempt: nat, polls: seq<Poll>) returns (outcome: Outcome, turns: nat, emitted: nat, out: seq<Tagged>)
    requires Ordered(polls)
    ensures turns <= |polls| && (attempt == 0 ==> outcome == Failed && out == [])
    ensures attempt > 0 && outcome == Waiting ==> turns == |polls| && Tracking(filter, polls, attempt, turns, emitted, out)
    ensures attempt > 0 && outcome != Waiting ==> turns > 0 && Tracked(filter, polls, attempt, turns - 1, outcome, out)
  {
    emitted, out := 0, [];
    if attempt == 0 { return Failed, 0, emitted, out; }
    for i := 0 to |polls|
      invariant Tracking(filter, polls, attempt, i, emitted, out)
    {
      outcome, emitted, out := TrackTurn(filter, polls, attempt, i, emitted, out);
      if outcome != Waiting { return outcome, i + 1, emitted, out; }
    }
    return Waiting, |polls|, emitted, out;
  }

  /** At every moment what following has shown is a prefix of the attempt's selected frames. */
  lemma FollowShowsPrefix(filter: Filter, polls: seq<Poll>, attempt: nat, i: nat)
    requires Ordered(polls) && 0 < i <= |polls|
    ensures Tag(filter, attempt, SeenBy(polls, attempt, i)) <= Tag(filter, attempt, FramesOf(polls[i - 1].atPartial, attempt))
  {
    OrderedAt(polls, |polls|, i - 1);
    FoundIs(polls[i - 1], attempt);
    var all, found := FramesOf(polls[i - 1].atPartial, attempt), SeenBy(polls, attempt, i);
    assert all[..|found|] == found;
    TagPrefix(filter, attempt, all, |found|);
  }

  lemma TailingAtPoll(filter: Filter, polls: seq<Poll>, i: nat, attempt: nat, emitted: nat, out: seq<Tagged>)
    requires Ordered(polls) && i < |polls|
    requires if i == 0 then emitted == 0 && out == [] else Tailing(filter, polls[i - 1].atPartial, attempt, emitted, out)
    ensures InOrder(polls[i]) && Tailing(filter, polls[i].atPartial, attempt, emitted, out)
    ensures out <= Tag(filter, attempt, FramesOf(polls[i].atPartial, attempt))
  {
    var p := polls[i];
    OrderedAt(polls, |polls|, i);
    if i > 0 {
      TailingStays(filter, polls[i - 1].atPartial, p.atState, attempt, emitted, out);
    }
    EvolvesTransitive(p.atState, p.atFinal, p.atPartial);
    TailingStays(filter, p.atState, p.atPartial, attempt, emitted, out);
  }

  lemma TailAdvances(filter: Filter, p: Poll, attempt: nat, emitted: nat, out: seq<Tagged>, frames: seq<Frame>, added: seq<Tagged>)
    requires InOrder(p) && Tailing(filter, p.atPartial, attempt, emitted, out)
    requires frames == Found(FinalRead(p.atFinal, attempt), PartialRead(p.atPartial, attempt)) && emitted <= |frames|
    requires Tag(filter, attempt, frames[..emitted]) + added == Tag(filter, attempt, frames)
    ensures Tailing(filter, p.atPartial, attempt, |frames|, out + added)
    ensures FinalRead(p.atFinal, attempt).Some? ==> FinalRead(p.atPartial, attempt).Some? && out + added == Tag(filter, attempt, FramesOf(p.atPartial, attempt))
    ensures out + added <= Tag(filter, attempt, FramesOf(p.atPartial, attempt))
  {
    FoundIs(p, attempt);
    var all := FramesOf(p.atPartial, attempt);
    if frames == all {
      assert all[..|frames|] == all;
    } else {
      assert frames[..emitted] == all[..emitted] == [];
    }
    TagPrefix(filter, attempt, all, |frames|);
  }

  // ---- Order, and what waiting can miss ----

  predicate Before(a: Tagged, b: Tagged) {
    a.attempt < b.attempt || (a.attempt == b.attempt && a.index < b.index)
  }

  ghost predicate Strict(s: seq<Tagged>) {
    forall i, j | 0 <= i < j < |s| :: Before(s[i], s[j])
  }

  lemma {:induction false} TagStrict(filter: Filter, attempt: nat, frames: seq<Frame>)
    ensures Strict(Tag(filter, attempt, frames))
    ensures forall i | 0 <= i < |Tag(filter, attempt, frames)| :: Tag(filter, attempt, frames)[i].attempt == attempt && Tag(filter, attempt, frames)[i].index < |frames|
    decreases |frames|
  {
    if frames != [] { TagStrict(filter, attempt, frames[..|frames| - 1]); }
  }

  lemma {:induction false} AllStrict(filter: Filter, w: World, n: nat)
    requires n <= |w.attempts|
    ensures Strict(InOrderFrames(filter, w, n))
    ensures forall i | 0 <= i < |InOrderFrames(filter, w, n)| :: InOrderFrames(filter, w, n)[i].attempt <= n
    decreases n
  {
    if n > 0 {
      AllStrict(filter, w, n - 1);
      TagStrict(filter, n, w.attempts[n - 1].frames);
    }
  }

  /** No frame is emitted twice, and none out of order. */
  lemma EmittedOnce(filter: Filter, w: World, out: seq<Tagged>)
    requires out <= AllFrames(filter, w)
    ensures Strict(out) && forall i, j | 0 <= i < j < |out| :: out[i] != out[j]
  {
    AllStrict(filter, w, |w.attempts|);
  }
}
