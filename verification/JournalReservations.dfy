/** What reserving promises: which reservations are granted, and what a granted one is good for. */
module JournalReservations {
  import opened Bytes
  import opened Seqs
  import opened JournalCodec
  import opened Journal
  import opened JournalRuns

  /** That many frames of that size still fit 128 frames and 16 MiB, and one of them a frame of 128 KiB. */
  predicate Affordable(records: nat, bytes: nat, res: Reservation) {
    && res.frames > 0 && 68 < res.maxFrame <= 131072
    && records + res.frames <= 128 && bytes + res.frames * res.maxFrame <= 16777216
  }

  /** The calls that append `rs` without any write failing. */
  function Appends<R>(rs: seq<R>): seq<Op<R>> {
    if rs == [] then [] else [Append(rs[0], Completes)] + Appends(rs[1..])
  }

  lemma {:induction false} RunOfAppends<R>(c: Codec<R>, s: State<R>, rs: seq<R>)
    requires AppendAll(c, s, rs).1
    ensures Run(c, s, Appends(rs)) == Some(AppendAll(c, s, rs).0)
    decreases |rs|
  {
    if rs != [] {
      var t := AfterAppend(c, s, rs[0], Completes).0;
      assert Appends(rs)[0] == Append(rs[0], Completes) && Appends(rs)[1..] == Appends(rs[1..]);
      RunOfAppends(c, t, rs[1..]);
    }
  }

  /** A reservation is granted exactly if it is affordable after what the file holds; granted or not, the file is untouched. */
  lemma ReserveDecides<R(!new)>(c: Codec<R>, s: State<R>, res: Reservation)
    requires Inv(c, s) && !s.poisoned
    ensures AfterReserve(s, res).1 <==> Affordable(|s.chain.records|, |s.file|, res)
    ensures !AfterReserve(s, res).1 ==> Run(c, s, [Reserve(res)]) == Some(s)
    ensures AfterReserve(s, res).0.file == s.file && AfterReserve(s, res).0.chain == s.chain
  {
    assert Run(c, AfterReserve(s, res).0, []) == Some(AfterReserve(s, res).0);
    assert [Op<R>.Reserve(res)][1..] == [];
  }

  lemma ReserveKeepsInv<R(!new)>(c: Codec<R>, s: State<R>, res: Reservation)
    requires Inv(c, s) && !s.poisoned && Affordable(|s.chain.records|, |s.file|, res)
    ensures Inv(c, AfterReserve(s, res).0) && !AfterReserve(s, res).0.poisoned && AfterReserve(s, res).0.reservation == Some(res)
  {
  }

  /** An affordable reservation admits any records, as many as it has frames, that fit its size and pass their checks. */
  lemma ReserveThenAppend<R(!new)>(c: Codec<R>, s: State<R>, res: Reservation, rs: seq<R>)
    requires Lawful(c) && Inv(c, s) && !s.poisoned && Affordable(|s.chain.records|, |s.file|, res)
    requires |rs| <= res.frames && Fit(c, rs, res.maxFrame) && Follows(c, Last(s.chain.records), rs)
    ensures Run(c, s, [Reserve(res)] + Appends(rs)).Some?
    ensures Run(c, s, [Reserve(res)] + Appends(rs)).value.chain.records == s.chain.records + rs
  {
    ReserveKeepsInv(c, s, res);
    var t := AfterReserve(s, res).0;
    ReservationHonoured(c, t, rs);
    RunOfAppends(c, t, rs);
    assert ([Reserve(res)] + Appends(rs))[1..] == Appends(rs);
  }

  /** And so does the reservation a journal is created with. */
  lemma CreateThenAppend<R(!new)>(c: Codec<R>, res: Reservation, rs: seq<R>)
    requires Lawful(c) && Affordable(0, 0, res)
    requires |rs| <= res.frames && Fit(c, rs, res.maxFrame) && Follows(c, None, rs)
    ensures Run(c, Created(res), Appends(rs)).Some? && Run(c, Created(res), Appends(rs)).value.chain.records == rs
  {
    CreatedInv(c, res);
    ReservationHonoured(c, Created<R>(res), rs);
    RunOfAppends(c, Created(res), rs);
    EmptyLeft(rs);
  }

  /** Each append spends one frame of the reservation and leaves its size alone. */
  lemma {:induction false} AppendsSpend<R(!new)>(c: Codec<R>, s: State<R>, rs: seq<R>)
    requires s.reservation.Some? && AppendAll(c, s, rs).1
    ensures |rs| <= s.reservation.value.frames
    ensures AppendAll(c, s, rs).0.reservation == Some(Reservation(s.reservation.value.frames - |rs|, s.reservation.value.maxFrame))
    decreases |rs|
  {
    if rs != [] { AppendsSpend(c, AfterAppend(c, s, rs[0], Completes).0, rs[1..]); }
  }

  /** When all reserved frames are spent, or nothing has been reserved since opening, every append is refused. */
  lemma NothingUnreserved<R(!new)>(c: Codec<R>, s: State<R>, rs: seq<R>, file: Bytes, r: R)
    requires s.reservation.Some? && AppendAll(c, s, rs).1 && |rs| == s.reservation.value.frames
    ensures Admitted(c, AppendAll(c, s, rs).0, r).None?
    ensures Reopened(c, file).Some? ==> Admitted(c, Reopened(c, file).value, r).None?
  {
    AppendsSpend(c, s, rs);
  }
}
