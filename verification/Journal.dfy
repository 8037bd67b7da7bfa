/**
  The journal object: an exclusive file handle, the chain it is known to hold, a poison flag for
  writes whose outcome is uncertain, and the frames reserved for the rest of the operation.
*/
module Journal {
  import opened Bytes
  import opened JournalCodec

  datatype Reservation = Reservation(frames: nat, maxFrame: nat)

  predicate WithinBudget(existingFrames: nat, existingBytes: nat, r: Reservation) {
    && r.frames > 0
    && OVERHEAD < r.maxFrame <= FRAME_LIMIT
    && existingFrames + r.frames <= FRAME_COUNT
    && existingBytes + r.frames * r.maxFrame <= JOURNAL_LIMIT
  }

  /** How the write and flush of one append end: fully, or after some of the bytes reached the file. */
  datatype Io = Completes | Stops(written: nat)

  datatype State<R> = JournalState(file: Bytes, chain: Chain<R>, poisoned: bool, reservation: Option<Reservation>)

  function Created<R>(r: Reservation): State<R> {
    JournalState([], Chain([], ZERO, 0), false, Some(r))
  }

  function Reopened<R>(c: Codec<R>, file: Bytes): Option<State<R>> {
    if file == [] || Decode(c, file).None? then None
    else Some(JournalState(file, Decode(c, file).value, false, None))
  }

  function AfterReserve<R>(s: State<R>, r: Reservation): (State<R>, bool) {
    if s.poisoned || !WithinBudget(|s.chain.records|, s.chain.byteLen, r) then (s, false)
    else (s.(reservation := Some(r)), true)
  }

  /** The checks an append makes before it touches the file; the frame it will then write. */
  function Admitted<R>(c: Codec<R>, s: State<R>, r: R): (f: Option<Bytes>)
    ensures f.Some? ==> f == Frame(c, r, s.chain.digest)
    ensures f.Some? <==>
              && !s.poisoned && c.valid(r, Last(s.chain.records)) && c.ser(r).Some? && |c.ser(r).value| + OVERHEAD <= FRAME_LIMIT
              && s.reservation.Some? && s.reservation.value.frames > 0 && |c.ser(r).value| + OVERHEAD <= s.reservation.value.maxFrame
  {
    if s.poisoned || !c.valid(r, Last(s.chain.records)) then None
    else
      var f := Frame(c, r, s.chain.digest);
      if f.None? || s.reservation.None? || s.reservation.value.frames == 0
         || |f.value| > s.reservation.value.maxFrame then None
      else f
  }

  function AfterAppend<R>(c: Codec<R>, s: State<R>, r: R, io: Io): (State<R>, bool) {
    var f := Admitted(c, s, r);
    if f.None? then (s, false)
    else if |s.file| != s.chain.byteLen then (s.(poisoned := true), false)
    else
      match io
      case Stops(n) =>
        (s.(file := s.file + f.value[..if n <= |f.value| then n else |f.value|], poisoned := true), false)
      case Completes =>
        (JournalState(s.file + f.value,
               Chain(s.chain.records + [r], f.value[|f.value| - 32..], s.chain.byteLen + |f.value|),
               false,
               Some(s.reservation.value.(frames := s.reservation.value.frames - 1))), true)
  }

  /** The object the source keeps; each method does to its fields what the functions above say. */
  class Journal<R> {
    const codec: Codec<R>
    var file: Bytes
    var chain: Chain<R>
    var poisoned: bool
    var reservation: Option<Reservation>

    ghost function Fields(): State<R>
      reads this
    {
      JournalState(file, chain, poisoned, reservation)
    }

    constructor Create(codec: Codec<R>, reservation: Reservation)
      ensures this.codec == codec && Fields() == Created(reservation)
    {
      this.codec := codec;
      file, chain, poisoned, this.reservation := [], Chain([], ZERO, 0), false, Some(reservation);
    }

    constructor Recovered(codec: Codec<R>, file: Bytes, chain: Chain<R>)
      ensures this.codec == codec && Fields() == JournalState(file, chain, false, None)
    {
      this.codec := codec;
      this.file, this.chain, poisoned, reservation := file, chain, false, None;
    }

    static method Open(codec: Codec<R>, file: Bytes) returns (j: Option<Journal<R>>)
      ensures j.None? <==> Reopened(codec, file).None?
      ensures j.Some? ==> fresh(j.value) && j.value.codec == codec && Reopened(codec, file) == Some(j.value.Fields())
    {
      if |file| == 0 || |file| > JOURNAL_LIMIT { return None; }
      var chain := DecodeBytes(codec, file);
      if !chain.Some? { return None; }
      var recovered := new Journal<R>.Recovered(codec, file, chain.value);
      return Some(recovered);
    }

    method Reserve(r: Reservation) returns (ok: bool)
      modifies this
      ensures (Fields(), ok) == AfterReserve(old(Fields()), r)
    {
      if poisoned { return false; }
      if !WithinBudget(|chain.records|, chain.byteLen, r) { return false; }
      reservation := Some(r);
      return true;
    }

    method Append(r: R, io: Io) returns (ok: bool)
      modifies this
      ensures (Fields(), ok) == AfterAppend(codec, old(Fields()), r, io)
    {
      if poisoned { return false; }
      if !codec.valid(r, Last(chain.records)) { return false; }
      var bytes := Frame(codec, r, chain.digest);
      if !bytes.Some? { return false; }
      if !reservation.Some? { return false; }
      var Reservation(frames, maxFrame) := reservation.value;
      if frames == 0 || |bytes.value| > maxFrame { return false; }
      if |file| != chain.byteLen {
        poisoned := true;
        return false;
      }
      match io {
        case Stops(n) =>
          file := file + bytes.value[..if n <= |bytes.value| then n else |bytes.value|];
          poisoned := true;
          return false;
        case Completes =>
          file := file + bytes.value;
      }
      chain := Chain(chain.records + [r], bytes.value[|bytes.value| - 32..], chain.byteLen + |bytes.value|);
      reservation := Some(Reservation(frames - 1, maxFrame));
      return true;
    }
  }
}
