/** What holds of a journal over whole runs of reservations, appends, torn writes and reopenings. */
module JournalRuns {
  import opened Bytes
  import opened Seqs
  import opened JournalCodec
  import opened Journal

  /** The unfinished part of the file is the start of the frame of an admissible record. */
  ghost predicate TornBy<R>(c: Codec<R>, s: State<R>, r: R, n: nat)
    requires s.chain.byteLen <= |s.file|
  {
    var f := Frame(c, r, s.chain.digest);
    && f.Some?
    && n <= |f.value|
    && c.valid(r, Last(s.chain.records))
    && |s.chain.records| < FRAME_COUNT
    && s.chain.byteLen + |f.value| <= JOURNAL_LIMIT
    && s.file[s.chain.byteLen..] == f.value[..n]
  }

  /** Every reserved frame still fits both finite bounds. */
  predicate Funded<R>(s: State<R>) {
    s.reservation.Some? ==>
      && OVERHEAD < s.reservation.value.maxFrame <= FRAME_LIMIT
      && |s.chain.records| + s.reservation.value.frames <= FRAME_COUNT
      && s.chain.byteLen + s.reservation.value.frames * s.reservation.value.maxFrame <= JOURNAL_LIMIT
  }

  /** File, chain, digest, poison flag and reservation agree. */
  ghost predicate Inv<R(!new)>(c: Codec<R>, s: State<R>) {
    && s.chain.byteLen <= |s.file|
    && Decode(c, s.file[..s.chain.byteLen]) == Some(s.chain)
    && (!s.poisoned ==> |s.file| == s.chain.byteLen)
    && (s.poisoned ==> exists r: R, n: nat :: TornBy(c, s, r, n))
    && Funded(s)
  }

  lemma CreatedInv<R(!new)>(c: Codec<R>, r: Reservation)
    requires WithinBudget(0, 0, r)
    ensures Inv(c, Created(r))
  {
    assert Split([]) == Some([]);
    assert Records(c, []) == [];
  }

  lemma ReopenedInv<R(!new)>(c: Codec<R>, file: Bytes)
    requires Reopened(c, file).Some?
    ensures Inv(c, Reopened(c, file).value)
  {
    WholeSlices(file);
  }

  /** A complete frame of an admissible record extends an accepted file by that record. */
  lemma DecodeAppended<R(!new)>(c: Codec<R>, b: Bytes, chain: Chain<R>, r: R, f: Bytes)
    requires Lawful(c) && Decode(c, b) == Some(chain) && Frame(c, r, chain.digest) == Some(f)
    requires c.valid(r, Last(chain.records)) && |chain.records| < FRAME_COUNT && |b| + |f| <= JOURNAL_LIMIT
    ensures Decode(c, b + f) == Some(Chain(chain.records + [r], f[|f| - 32..], |b| + |f|))
  {
    FrameFields(c, r, chain.digest);
    LinkedReadable(c, Split(b).value);
    ReadingThrough(c, b, Split(b).value, chain, f);
  }

  /** A frame that is cut short makes the whole file refused. */
  lemma DecodeTorn<R(!new)>(c: Codec<R>, b: Bytes, chain: Chain<R>, r: R, f: Bytes, n: nat)
    requires Lawful(c) && Decode(c, b) == Some(chain) && Frame(c, r, chain.digest) == Some(f)
    requires 0 < n < |f|
    ensures Decode(c, b + f[..n]).None?
  {
    FrameFields(c, r, chain.digest);
    if n >= 4 {
      SplitAt(f, n);
      U32Concat(f[..n], f[n..], 0);
    }
    Refused(c, b, f[..n], Split(b).value);
  }

  /** What decoding makes of accepted bytes followed by the first `n` bytes of the frame of an admissible record. */
  lemma DecodeAfter<R(!new)>(c: Codec<R>, b: Bytes, chain: Chain<R>, r: R, f: Bytes, n: nat)
    requires Lawful(c) && Decode(c, b) == Some(chain) && Frame(c, r, chain.digest) == Some(f) && n <= |f|
    requires c.valid(r, Last(chain.records)) && |chain.records| < FRAME_COUNT && |b| + |f| <= JOURNAL_LIMIT
    ensures Decode(c, b + f[..n]) ==
              if n == 0 then Some(chain)
              else if n < |f| then None
              else Some(Chain(chain.records + [r], f[|f| - 32..], |b| + |f|))
  {
    if n == 0 {
      EmptyRight(b);
    } else if n < |f| {
      DecodeTorn(c, b, chain, r, f, n);
    } else {
      WholeSlices(f);
      DecodeAppended(c, b, chain, r, f);
    }
  }

  /** What recovery makes of a file whose last append was torn after `n` bytes. */
  lemma ReopenTorn<R(!new)>(c: Codec<R>, s: State<R>, r: R, n: nat)
    requires Lawful(c) && Inv(c, s) && TornBy(c, s, r, n)
    ensures var f := Frame(c, r, s.chain.digest).value;
            var again := Reopened(c, s.file);
            if n == 0 then again == (if s.file == [] then None else Some(JournalState(s.file, s.chain, false, None)))
            else if n < |f| then again == None
            else again == Some(JournalState(s.file, Chain(s.chain.records + [r], f[|f| - 32..], |s.file|), false, None))
  {
    var f := Frame(c, r, s.chain.digest).value;
    SplitAt(s.file, s.chain.byteLen);
    DecodeAfter(c, s.file[..s.chain.byteLen], s.chain, r, f, n);
  }

  /** A reserved frame fits, and so do the frames still reserved after it. */
  lemma ReservedFits<R>(s: State<R>, size: nat)
    requires Funded(s) && s.reservation.Some? && s.reservation.value.frames > 0 && size <= s.reservation.value.maxFrame
    ensures |s.chain.records| < FRAME_COUNT && s.chain.byteLen + size <= JOURNAL_LIMIT
    ensures var r := s.reservation.value;
            s.chain.byteLen + size + (r.frames - 1) * r.maxFrame <= JOURNAL_LIMIT
  {
    var r := s.reservation.value;
    assert r.frames * r.maxFrame == r.maxFrame + (r.frames - 1) * r.maxFrame;
  }

  function Clip(n: nat, limit: nat): nat { if n <= limit then n else limit }

  lemma StoppedAppend<R(!new)>(c: Codec<R>, s: State<R>, r: R, n: nat)
    requires Inv(c, s) && Admitted(c, s, r).Some?
    ensures var f := Admitted(c, s, r).value;
            var t := s.(file := s.file + f[..Clip(n, |f|)], poisoned := true);
            AfterAppend(c, s, r, Stops(n)) == (t, false) && Inv(c, t) && TornBy(c, t, r, Clip(n, |f|))
  {
    var f := Admitted(c, s, r).value;
    var part := f[..Clip(n, |f|)];
    ReservedFits(s, |f|);
    WholeSlices(s.file);
    ConcatSlices(s.file, part, |s.file|);
    EmptyLeft(part);
    assert TornBy(c, s.(file := s.file + part, poisoned := true), r, Clip(n, |f|));
  }

  lemma CompletedAppend<R(!new)>(c: Codec<R>, s: State<R>, r: R)
    requires Lawful(c) && Inv(c, s) && Admitted(c, s, r).Some?
    ensures var (t, ok) := AfterAppend(c, s, r, Completes);
            ok && Inv(c, t) && t.chain.records == s.chain.records + [r]
  {
    var f := Admitted(c, s, r).value;
    ReservedFits(s, |f|);
    WholeSlices(s.file);
    WholeSlices(s.file + f);
    DecodeAppended(c, s.file, s.chain, r, f);
  }

  lemma AppendKeepsInv<R(!new)>(c: Codec<R>, s: State<R>, r: R, io: Io)
    requires Lawful(c) && Inv(c, s)
    ensures Inv(c, AfterAppend(c, s, r, io).0)
    ensures s.chain.records <= AfterAppend(c, s, r, io).0.chain.records
  {
    if Admitted(c, s, r).Some? {
      match io {
        case Stops(n) => StoppedAppend(c, s, r, n);
        case Completes => CompletedAppend(c, s, r);
      }
    }
  }

  /** Recovery never loses a record the journal held before it. */
  lemma ReopenKeepsRecords<R(!new)>(c: Codec<R>, s: State<R>)
    requires Lawful(c) && Inv(c, s) && Reopened(c, s.file).Some?
    ensures s.chain.records <= Reopened(c, s.file).value.chain.records
  {
    if s.poisoned {
      var r: R, n: nat :| TornBy(c, s, r, n);
      ReopenTorn(c, s, r, n);
    } else {
      WholeSlices(s.file);
    }
  }

  // ---- Whole runs ----

  datatype Op<R> = Reserve(res: Reservation) | Append(r: R, io: Io) | Reopen

  function Apply<R>(c: Codec<R>, s: State<R>, op: Op<R>): Option<State<R>> {
    match op
    case Reserve(res) => Some(AfterReserve(s, res).0)
    case Append(r, io) => Some(AfterAppend(c, s, r, io).0)
    case Reopen => Reopened(c, s.file)
  }

  /** A run ends when recovery refuses the file. */
  function Run<R>(c: Codec<R>, s: State<R>, ops: seq<Op<R>>): Option<State<R>>
    decreases |ops|
  {
    if ops == [] then Some(s)
    else
      var next := Apply(c, s, ops[0]);
      if next.None? then None else Run(c, next.value, ops[1..])
  }

  /**
    Over every run the file, chain, digest and reservation stay in agreement, every reserved
    frame stays within both bounds, and no record once in the journal is ever lost or changed.
  */
  lemma {:induction false} RunKeepsJournal<R(!new)>(c: Codec<R>, s: State<R>, ops: seq<Op<R>>)
    requires Lawful(c) && Inv(c, s) && Run(c, s, ops).Some?
    ensures Inv(c, Run(c, s, ops).value)
    ensures s.chain.records <= Run(c, s, ops).value.chain.records
    decreases |ops|
  {
    if ops != [] {
      match ops[0] {
        case Reserve(res) =>
          var t := AfterReserve(s, res).0;
          if s.poisoned {
            assert t == s;
          }
        case Append(r, io) =>
          AppendKeepsInv(c, s, r, io);
        case Reopen =>
          ReopenKeepsRecords(c, s);
          ReopenedInv(c, s.file);
      }
      RunKeepsJournal(c, Apply(c, s, ops[0]).value, ops[1..]);
    }
  }

  /**
    Torn appends. From any journal a run can reach, an append whose write stops after any number
    of bytes leaves a file that reopens as exactly the old records, exactly the old records and
    the new one, or not at all; which of the three is decided by how much was written.
  */
  lemma TornAppendIsSafe<R(!new)>(c: Codec<R>, s: State<R>, r: R, n: nat)
    requires Lawful(c) && Inv(c, s) && Admitted(c, s, r).Some?
    ensures var f := Admitted(c, s, r).value;
            var (t, ok) := AfterAppend(c, s, r, Stops(n));
            var again := Reopened(c, t.file);
            && !ok && t.poisoned && t.chain == s.chain
            && (again.None? <==> (n == 0 && s.chain.records == []) || 0 < n < |f|)
            && (again.Some? ==> again.value.chain.records == if n == 0 then s.chain.records else s.chain.records + [r])
  {
    var f := Admitted(c, s, r).value;
    StoppedAppend(c, s, r, n);
    ReopenTorn(c, AfterAppend(c, s, r, Stops(n)).0, r, Clip(n, |f|));
    NoBytesNoRecords(c, s);
    EmptyRight(s.file);
  }

  lemma NoBytesNoRecords<R(!new)>(c: Codec<R>, s: State<R>)
    requires Inv(c, s) && !s.poisoned
    ensures s.file == [] <==> s.chain.records == []
  {
    WholeSlices(s.file);
  }

  /** An object that saw an uncertain write refuses everything until the file is opened again. */
  lemma {:induction false} PoisonIsFinal<R(!new)>(c: Codec<R>, s: State<R>, ops: seq<Op<R>>)
    requires s.poisoned && forall i | 0 <= i < |ops| :: !ops[i].Reopen?
    ensures Run(c, s, ops) == Some(s)
    ensures forall i | 0 <= i < |ops| && ops[i].Append? :: !AfterAppend(c, s, ops[i].r, ops[i].io).1
    ensures forall i | 0 <= i < |ops| && ops[i].Reserve? :: !AfterReserve(s, ops[i].res).1
    decreases |ops|
  {
    if ops != [] {
      assert Apply(c, s, ops[0]) == Some(s);
      PoisonIsFinal(c, s, ops[1..]);
    }
  }

  /** An append that was refused without being poisoned changed nothing at all. */
  lemma RefusedAppendChangesNothing<R(!new)>(c: Codec<R>, s: State<R>, r: R, io: Io)
    requires Inv(c, s) && !AfterAppend(c, s, r, io).1
    ensures AfterAppend(c, s, r, io).0 == s <==> Admitted(c, s, r).None?
    ensures Admitted(c, s, r).Some? ==> AfterAppend(c, s, r, io).0.poisoned
  {
  }

  function AppendAll<R>(c: Codec<R>, s: State<R>, rs: seq<R>): (State<R>, bool)
    decreases |rs|
  {
    if rs == [] then (s, true)
    else
      var (t, ok) := AfterAppend(c, s, rs[0], Completes);
      if ok then AppendAll(c, t, rs[1..]) else (t, false)
  }

  /** Each record's payload fits a frame of the reserved size. */
  predicate Fit<R>(c: Codec<R>, rs: seq<R>, maxFrame: nat) {
    forall i | 0 <= i < |rs| :: c.ser(rs[i]).Some? && |c.ser(rs[i]).value| + OVERHEAD <= maxFrame
  }

  /** Every record passes its check when `rs` is appended after `last`. */
  predicate Follows<R>(c: Codec<R>, last: Option<R>, rs: seq<R>)
    decreases |rs|
  {
    rs == [] || (c.valid(rs[0], last) && Follows(c, Some(rs[0]), rs[1..]))
  }

  /**
    Reservations are honoured: n reserved frames admit any n records that pass their checks and
    fit the reserved size, as long as no write fails.
  */
  lemma {:induction false} ReservationHonoured<R(!new)>(c: Codec<R>, s: State<R>, rs: seq<R>)
    requires Lawful(c) && Inv(c, s) && !s.poisoned && s.reservation.Some?
    requires |rs| <= s.reservation.value.frames && Fit(c, rs, s.reservation.value.maxFrame)
    requires Follows(c, Last(s.chain.records), rs)
    ensures var (t, ok) := AppendAll(c, s, rs);
            ok && Inv(c, t) && t.chain.records == s.chain.records + rs
    decreases |rs|
  {
    if rs == [] {
      EmptyRight(s.chain.records);
    } else {
      FirstAdmitted(c, s, rs);
      CompletedAppend(c, s, rs[0]);
      ReservationHonoured(c, AfterAppend(c, s, rs[0], Completes).0, rs[1..]);
      HeadTail(rs);
      Assoc(s.chain.records, [rs[0]], rs[1..]);
    }
  }

  lemma FirstAdmitted<R(!new)>(c: Codec<R>, s: State<R>, rs: seq<R>)
    requires Inv(c, s) && !s.poisoned && s.reservation.Some? && rs != []
    requires |rs| <= s.reservation.value.frames && Fit(c, rs, s.reservation.value.maxFrame)
    requires Follows(c, Last(s.chain.records), rs)
    ensures Admitted(c, s, rs[0]).Some? && Fit(c, rs[1..], s.reservation.value.maxFrame)
  {
    assert c.ser(rs[0]).Some?;
    forall i | 0 <= i < |rs| - 1
      ensures c.ser(rs[1..][i]).Some? && |c.ser(rs[1..][i]).value| + OVERHEAD <= s.reservation.value.maxFrame
    {
      assert rs[1..][i] == rs[i + 1];
    }
  }
}
