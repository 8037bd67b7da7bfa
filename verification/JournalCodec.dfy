/**
  The framing of the durable operation journal: length-prefixed frames, each carrying the digest
  of the frame before it and a digest of its own. SHA-256, the JSON record codec and the caller's
  record check are parameters.
*/
module JournalCodec {
  import opened Bytes
  import opened Seqs

  const FRAME_LIMIT := 128 * 1024
  const JOURNAL_LIMIT := 16 * 1024 * 1024
  const FRAME_COUNT := 128
  const HEADER := 4 + 32
  const OVERHEAD := HEADER + 32

  type Digest = d: Bytes | |d| == 32 witness seq(32, _ => 0)

  const ZERO: Digest :=
    [0, 0, 0, 0, 0, 0, 0, 0, 0, 0, 0, 0, 0, 0, 0, 0,
     0, 0, 0, 0, 0, 0, 0, 0, 0, 0, 0, 0, 0, 0, 0, 0]

  /** What the journal is generic over. `valid(record, previous)` is the caller's typed check. */
  datatype Codec<!R> = Codec(
    ser: R -> Option<Bytes>,
    de: Bytes -> Option<R>,
    hash: Bytes -> Digest,
    valid: (R, Option<R>) -> bool)

  /** Serialized records are non-empty and deserialize to themselves. */
  ghost predicate Lawful<R(!new)>(c: Codec<R>) {
    forall r :: c.ser(r).Some? ==> c.ser(r).value != [] && c.de(c.ser(r).value) == Some(r)
  }

  datatype Chain<+R> = Chain(records: seq<R>, digest: Digest, byteLen: nat)

  function Last<T>(s: seq<T>): Option<T> {
    if s == [] then None else Some(s[|s| - 1])
  }

  // ---- Frames and how a file falls apart into them ----

  /** A byte string whose length field is its own, admissible, length. */
  predicate Sized(b: Bytes) {
    OVERHEAD < |b| <= FRAME_LIMIT && U32(b, 0) == |b|
  }

  function Link(f: Bytes): Digest requires Sized(f) { f[4..HEADER] }
  function Body(f: Bytes): Bytes requires Sized(f) { f[..|f| - 32] }
  function Payload(f: Bytes): Bytes requires Sized(f) { f[HEADER..|f| - 32] }
  function Trailer(f: Bytes): Digest requires Sized(f) { f[|f| - 32..] }

  function Flatten(fs: seq<Bytes>): Bytes {
    if fs == [] then [] else fs[0] + Flatten(fs[1..])
  }

  /** The frames that following the length fields of `b` yields, when they end exactly at its end. */
  function Split(b: Bytes): Option<seq<Bytes>> {
    if b == [] then Some([])
    else if |b| < 4 || U32(b, 0) <= OVERHEAD || U32(b, 0) > FRAME_LIMIT || U32(b, 0) > |b| then None
    else
      var rest := Split(b[U32(b, 0)..]);
      if rest.None? then None else Some([b[..U32(b, 0)]] + rest.value)
  }

  function RecordIn<R>(c: Codec<R>, f: Bytes): Option<R> {
    if Sized(f) then c.de(Payload(f)) else None
  }

  /** `f` is linked to `previous`, checksummed, and holds a record acceptable after `last`. */
  predicate Acceptable<R>(c: Codec<R>, f: Bytes, previous: Digest, last: Option<R>) {
    && Sized(f)
    && Link(f) == previous
    && Trailer(f) == c.hash(Body(f))
    && RecordIn(c, f).Some?
    && c.valid(RecordIn(c, f).value, last)
  }

  /** The digest the frame at `i` has to link to. */
  function DigestBefore(fs: seq<Bytes>, i: nat): Digest
    requires i <= |fs|
  {
    if i > 0 && Sized(fs[i - 1]) then Trailer(fs[i - 1]) else ZERO
  }

  function RecordBefore<R>(c: Codec<R>, fs: seq<Bytes>, i: nat): Option<R>
    requires i <= |fs|
  {
    if i > 0 then RecordIn(c, fs[i - 1]) else None
  }

  predicate Good<R>(c: Codec<R>, fs: seq<Bytes>, i: nat)
    requires i < |fs|
  {
    Acceptable(c, fs[i], DigestBefore(fs, i), RecordBefore(c, fs, i))
  }

  predicate Linked<R>(c: Codec<R>, fs: seq<Bytes>) {
    forall i | 0 <= i < |fs| :: Good(c, fs, i)
  }

  function Records<R>(c: Codec<R>, fs: seq<Bytes>): (rs: seq<R>)
    requires forall i | 0 <= i < |fs| :: RecordIn(c, fs[i]).Some?
    ensures |rs| == |fs|
    ensures forall i | 0 <= i < |fs| :: rs[i] == RecordIn(c, fs[i]).value
  {
    seq(|fs|, i requires 0 <= i < |fs| => RecordIn(c, fs[i]).value)
  }

  lemma LinkedReadable<R>(c: Codec<R>, fs: seq<Bytes>)
    requires Linked(c, fs)
    ensures forall i | 0 <= i < |fs| :: RecordIn(c, fs[i]).Some?
  {
    forall i | 0 <= i < |fs| ensures RecordIn(c, fs[i]).Some? {
      assert Good(c, fs, i);
    }
  }

  /** The meaning of a journal file: refused, or the chain its frames hold. */
  function Decode<R>(c: Codec<R>, b: Bytes): Option<Chain<R>> {
    var fs := Split(b);
    if |b| > JOURNAL_LIMIT || fs.None? || |fs.value| > FRAME_COUNT || !Linked(c, fs.value) then None
    else
      LinkedReadable(c, fs.value);
      Some(Chain(Records(c, fs.value), DigestBefore(fs.value, |fs.value|), |b|))
  }

  lemma {:induction false} SplitFlattens(b: Bytes)
    requires Split(b).Some?
    ensures Flatten(Split(b).value) == b
    decreases |b|
  {
    if b != [] {
      SplitFlattens(b[U32(b, 0)..]);
      SplitAt(b, U32(b, 0));
    }
  }

  lemma {:induction false} SplitConcat(b: Bytes, more: Bytes)
    requires Split(b).Some?
    ensures Split(b + more) == if Split(more).None? then None else Some(Split(b).value + Split(more).value)
    decreases |b|
  {
    if b == [] {
      EmptyLeft(more);
      if Split(more).Some? { EmptyLeft(Split(more).value); }
    } else {
      var n := U32(b, 0);
      ConcatSlices(b, more, n);
      U32Concat(b, more, 0);
      SplitConcat(b[n..], more);
      if Split(more).Some? { Assoc([b[..n]], Split(b[n..]).value, Split(more).value); }
    }
  }

  lemma SplitFrame(f: Bytes)
    requires Sized(f)
    ensures Split(f) == Some([f])
  {
    WholeSlices(f);
    EmptyRight([f]);
  }

  /** Adding a frame at the end keeps every earlier frame's standing. */
  lemma LinkedSnoc<R>(c: Codec<R>, fs: seq<Bytes>, more: seq<Bytes>)
    ensures Linked(c, fs + more) ==> Linked(c, fs)
    ensures Linked(c, fs) && more != [] && Linked(c, fs + more) ==> Good(c, fs + [more[0]], |fs|)
  {
    var all := fs + more;
    if Linked(c, all) {
      forall i | 0 <= i < |fs| ensures Good(c, fs, i) {
        assert Good(c, all, i);
      }
      if more != [] { assert Good(c, all, |fs|); }
    }
  }

  // ---- The decoding loop ----

  /** `b` starts with a complete frame of admissible length. */
  predicate StartsFrame(b: Bytes) {
    |b| >= 4 && OVERHEAD < U32(b, 0) <= FRAME_LIMIT && U32(b, 0) <= |b|
  }

  /** Accepted bytes followed by something that cannot continue them are refused as a whole. */
  lemma Refused<R>(c: Codec<R>, b: Bytes, tail: Bytes, fs: seq<Bytes>)
    requires Split(b) == Some(fs) && tail != []
    requires |fs| >= FRAME_COUNT || !StartsFrame(tail) || !Good(c, fs + [tail[..U32(tail, 0)]], |fs|)
    ensures Decode(c, b + tail).None?
  {
    SplitConcat(b, tail);
    if Split(tail).Some? {
      var gs := Split(tail).value;
      assert gs[0] == tail[..U32(tail, 0)];
      LinkedSnoc(c, fs, gs);
    }
  }

  /** Frame `i` stands or falls with itself and its predecessor. */
  lemma GoodLocal<R>(c: Codec<R>, fs: seq<Bytes>, gs: seq<Bytes>, i: nat)
    requires i < |fs| && i < |gs| && fs[i] == gs[i] && (i > 0 ==> fs[i - 1] == gs[i - 1])
    ensures Good(c, fs, i) <==> Good(c, gs, i)
  {
  }

  /** Linked frames followed by a good frame are linked. */
  lemma LinkedThrough<R>(c: Codec<R>, fs: seq<Bytes>, f: Bytes)
    requires Linked(c, fs) && Good(c, fs + [f], |fs|)
    ensures Linked(c, fs + [f])
  {
    forall i | 0 <= i < |fs| ensures Good(c, fs + [f], i) {
      GoodLocal(c, fs, fs + [f], i);
    }
  }

  lemma RecordsConcat<R>(c: Codec<R>, fs: seq<Bytes>, gs: seq<Bytes>)
    requires forall i | 0 <= i < |fs| :: RecordIn(c, fs[i]).Some?
    requires forall i | 0 <= i < |gs| :: RecordIn(c, gs[i]).Some?
    ensures Records(c, fs + gs) == Records(c, fs) + Records(c, gs)
  {
  }

  /** Between two turns: the frames before the offset are linked and the chain holds what they hold. */
  ghost predicate Reading<R>(c: Codec<R>, b: Bytes, fs: seq<Bytes>, chain: Chain<R>) {
    && Split(b) == Some(fs)
    && |fs| <= FRAME_COUNT
    && Linked(c, fs)
    && (forall i | 0 <= i < |fs| :: RecordIn(c, fs[i]).Some?)
    && chain.records == Records(c, fs)
    && chain.digest == DigestBefore(fs, |fs|)
  }

  lemma ReadingThrough<R>(c: Codec<R>, b: Bytes, fs: seq<Bytes>, chain: Chain<R>, f: Bytes)
    requires Reading(c, b, fs, chain) && |fs| < FRAME_COUNT
    requires Acceptable(c, f, chain.digest, Last(chain.records))
    ensures Reading(c, b + f, fs + [f], Chain(chain.records + [RecordIn(c, f).value], Trailer(f), 0))
  {
    SplitFrame(f);
    SplitConcat(b, f);
    assert Last(chain.records) == RecordBefore(c, fs, |fs|);
    LinkedThrough(c, fs, f);
    RecordsConcat(c, fs, [f]);
  }

  method DecodeBytes<R>(c: Codec<R>, bytes: Bytes) returns (r: Option<Chain<R>>)
    ensures r == Decode(c, bytes)
  {
    if |bytes| > JOURNAL_LIMIT { return None; }
    var chain: Chain<R> := Chain([], ZERO, 0);
    var offset := 0;
    ghost var fs: seq<Bytes> := [];
    while offset < |bytes|
      invariant offset <= |bytes| && Reading(c, bytes[..offset], fs, chain)
    {
      SplitAt(bytes, offset);
      if |chain.records| >= FRAME_COUNT {
        Refused(c, bytes[..offset], bytes[offset..], fs);
        return None;
      }
      var end := ReadFrame(c, bytes, offset, chain.digest, Last(chain.records));
      if end == offset {
        assert Last(chain.records) == RecordBefore(c, fs, |fs|);
        Refused(c, bytes[..offset], bytes[offset..], fs);
        return None;
      }
      var frame := bytes[offset..end];
      ReadingThrough(c, bytes[..offset], fs, chain, frame);
      assert bytes[..end] == bytes[..offset] + frame;
      chain := Chain(chain.records + [RecordIn(c, frame).value], Trailer(frame), 0);
      fs := fs + [frame];
      offset := end;
    }
    WholeSlices(bytes);
    return Some(chain.(byteLen := offset));
  }

  /** The checks on the frame that starts at `offset`: where it ends, or `offset` when it is refused. */
  method ReadFrame<R>(c: Codec<R>, bytes: Bytes, offset: nat, previous: Digest, last: Option<R>) returns (end: nat)
    requires offset < |bytes|
    ensures offset <= end <= |bytes|
    ensures end == offset ==>
              !StartsFrame(bytes[offset..]) || !Acceptable(c, bytes[offset..][..U32(bytes[offset..], 0)], previous, last)
    ensures end > offset ==> Acceptable(c, bytes[offset..end], previous, last)
  {
    ghost var tail := bytes[offset..];
    if offset + 4 > |bytes| { return offset; }
    var length := U32(bytes, offset);
    assert U32(tail, 0) == length;
    if length <= OVERHEAD || length > FRAME_LIMIT { return offset; }
    end := offset + length;
    if end > |bytes| { return offset; }
    var frame := bytes[offset..end];
    DropDrop(bytes, offset, length);
    assert U32(frame, 0) == length && Sized(frame);
    if frame[4..HEADER] != previous { return offset; }
    if frame[length - 32..] != c.hash(frame[..length - 32]) { return offset; }
    var record := c.de(frame[HEADER..length - 32]);
    if !record.Some? { return offset; }
    if !c.valid(record.value, last) { return offset; }
  }

  // ---- Encoding and the round trip ----

  /** One frame: length, previous digest, payload, digest of all of those. */
  function Frame<R>(c: Codec<R>, r: R, previous: Digest): (f: Option<Bytes>)
    ensures f.Some? <==> c.ser(r).Some? && |c.ser(r).value| + OVERHEAD <= FRAME_LIMIT
    ensures f.Some? ==> |f.value| == |c.ser(r).value| + OVERHEAD
  {
    var payload := c.ser(r);
    if payload.None? || |payload.value| > FRAME_LIMIT - OVERHEAD then None
    else
      var body := Le32(|payload.value| + OVERHEAD) + previous + payload.value;
      Some(body + c.hash(body))
  }

  /** What the fields of an encoded frame are. */
  lemma FrameFields<R(!new)>(c: Codec<R>, r: R, previous: Digest)
    requires Lawful(c) && Frame(c, r, previous).Some?
    ensures var f := Frame(c, r, previous).value;
            && Sized(f) && Link(f) == previous && Payload(f) == c.ser(r).value && Trailer(f) == c.hash(Body(f))
            && U32(f, 0) == |f| == |c.ser(r).value| + 68 && f[4..36] == previous && f[36..|f| - 32] == c.ser(r).value
            && f[|f| - 32..] == c.hash(f[..|f| - 32])
  {
    var size := Le32(|c.ser(r).value| + OVERHEAD);
    var body := size + previous + c.ser(r).value;
    var f := body + c.hash(body);
    U32Concat(size, previous + c.ser(r).value + c.hash(body), 0);
    assert size + (previous + c.ser(r).value + c.hash(body)) == f;
    assert f[4..HEADER] == previous && f[HEADER..|f| - 32] == c.ser(r).value;
    assert f[..|f| - 32] == body && f[|f| - 32..] == c.hash(body);
  }

  /** The frames of `rs`, chained from `previous`; nothing when one of them does not fit. */
  function Encode<R>(c: Codec<R>, rs: seq<R>, previous: Digest): Option<seq<Bytes>> {
    if rs == [] then Some([])
    else
      var f := Frame(c, rs[0], previous);
      if f.None? then None
      else
        var rest := Encode(c, rs[1..], f.value[|f.value| - 32..]);
        if rest.None? then None else Some([f.value] + rest.value)
  }

  predicate ValidAt<R>(c: Codec<R>, rs: seq<R>, i: nat)
    requires i < |rs|
  {
    c.valid(rs[i], if i == 0 then None else Some(rs[i - 1]))
  }

  /** Every record passes the caller's check against the record before it. */
  predicate ValidRun<R>(c: Codec<R>, rs: seq<R>) {
    forall i | 0 <= i < |rs| :: ValidAt(c, rs, i)
  }

  /** The frame at `i` holds `rs[i]`, checksummed and linked to the frame before it. */
  ghost predicate Encodes<R>(c: Codec<R>, fs: seq<Bytes>, rs: seq<R>, previous: Digest, i: nat)
    requires i < |fs| == |rs|
  {
    && Sized(fs[i])
    && (i == 0 ==> Link(fs[i]) == previous)
    && (i > 0 ==> Sized(fs[i - 1]) && Link(fs[i]) == Trailer(fs[i - 1]))
    && Trailer(fs[i]) == c.hash(Body(fs[i]))
    && RecordIn(c, fs[i]) == Some(rs[i])
  }

  lemma EncodesShift<R>(c: Codec<R>, fs: seq<Bytes>, rs: seq<R>, previous: Digest, i: nat)
    requires 0 < i < |fs| == |rs| && Sized(fs[0])
    requires Encodes(c, fs[1..], rs[1..], Trailer(fs[0]), i - 1)
    ensures Encodes(c, fs, rs, previous, i)
  {
    assert fs[1..][i - 1] == fs[i] && rs[1..][i - 1] == rs[i];
    if i > 1 { assert fs[1..][i - 2] == fs[i - 1]; }
  }

  lemma {:induction false} EncodeFrames<R(!new)>(c: Codec<R>, rs: seq<R>, previous: Digest, fs: seq<Bytes>)
    requires Lawful(c) && Encode(c, rs, previous) == Some(fs)
    ensures |fs| == |rs| && forall i | 0 <= i < |fs| :: Encodes(c, fs, rs, previous, i)
    decreases |rs|
  {
    if rs != [] {
      FrameFields(c, rs[0], previous);
      EncodeFrames(c, rs[1..], Trailer(fs[0]), fs[1..]);
      forall i | 0 <= i < |fs| ensures Encodes(c, fs, rs, previous, i) {
        if i > 0 { EncodesShift(c, fs, rs, previous, i); }
      }
    }
  }

  lemma {:induction false} SplitOfFlatten(fs: seq<Bytes>)
    requires forall i | 0 <= i < |fs| :: Sized(fs[i])
    ensures Split(Flatten(fs)) == Some(fs)
    decreases |fs|
  {
    if fs != [] {
      SplitOfFlatten(fs[1..]);
      SplitFrame(fs[0]);
      SplitConcat(fs[0], Flatten(fs[1..]));
      HeadTail(fs);
    }
  }

  /**
    Decoding inverts encoding. The frames of `rs` are accepted exactly when every record passes
    its check and the list is within both finite bounds, and then nothing is lost.
  */
  lemma RoundTrip<R(!new)>(c: Codec<R>, rs: seq<R>, fs: seq<Bytes>)
    requires Lawful(c) && Encode(c, rs, ZERO) == Some(fs)
    ensures Decode(c, Flatten(fs)) ==
              if ValidRun(c, rs) && |rs| <= FRAME_COUNT && |Flatten(fs)| <= JOURNAL_LIMIT
              then Some(Chain(rs, DigestBefore(fs, |fs|), |Flatten(fs)|)) else None
  {
    EncodeFrames(c, rs, ZERO, fs);
    forall i | 0 <= i < |fs| ensures Sized(fs[i]) && RecordIn(c, fs[i]) == Some(rs[i]) && (Good(c, fs, i) <==> ValidAt(c, rs, i)) {
      assert Encodes(c, fs, rs, ZERO, i);
      if i > 0 { assert Encodes(c, fs, rs, ZERO, i - 1); }
    }
    SplitOfFlatten(fs);
    assert Linked(c, fs) <==> ValidRun(c, rs);
    assert Records(c, fs) == rs;
  }

  // ---- Self-delimiting: which prefixes are accepted ----

  /** Following the length fields from the front of `b` lands exactly on `cut`. */
  predicate AtBoundary(b: Bytes, cut: nat)
    requires cut <= |b|
    decreases cut
  {
    cut == 0 || (|b| >= 4 && 0 < U32(b, 0) <= cut && AtBoundary(b[U32(b, 0)..], cut - U32(b, 0)))
  }

  /** The length field in front is read the same from any prefix that holds it. */
  lemma PrefixLength(b: Bytes, cut: nat)
    requires 4 <= cut <= |b|
    ensures U32(b[..cut], 0) == U32(b, 0)
  {
    SplitAt(b, cut);
    U32Concat(b[..cut], b[cut..], 0);
  }

  lemma {:induction false} SplitPrefix(b: Bytes, cut: nat, fs: seq<Bytes>, part: Bytes)
    requires cut <= |b| && Split(b) == Some(fs) && part == b[..cut]
    ensures Split(part).Some? <==> AtBoundary(b, cut)
    ensures AtBoundary(b, cut) ==> Split(part).value <= fs
    decreases |b|
  {
    if cut >= 4 {
      var n := U32(b, 0);
      PrefixLength(b, cut);
      if n <= cut {
        TakeDrop(b, n, cut);
        SplitPrefix(b[n..], cut - n, fs[1..], part[n..]);
      }
    }
  }

  /** A prefix of an accepted journal is accepted exactly when it is cut between two frames. */
  lemma PrefixAcceptedAtBoundaryOnly<R>(c: Codec<R>, b: Bytes, cut: nat)
    requires Decode(c, b).Some? && cut <= |b|
    ensures Decode(c, b[..cut]).Some? <==> AtBoundary(b, cut)
    ensures AtBoundary(b, cut) ==> Decode(c, b[..cut]).value.records <= Decode(c, b).value.records
  {
    var fs := Split(b).value;
    SplitPrefix(b, cut, fs, b[..cut]);
    if AtBoundary(b, cut) {
      var gs := Split(b[..cut]).value;
      assert gs + fs[|gs|..] == fs;
      LinkedSnoc(c, gs, fs[|gs|..]);
      LinkedReadable(c, fs);
      LinkedReadable(c, gs);
      RecordsConcat(c, gs, fs[|gs|..]);
    }
  }

  // ---- The final digest commits to the whole journal ----

  /** What a second journal with the same final digest hands to whoever holds both. */
  datatype Break = Collision(x: Bytes, y: Bytes) | ZeroPreimage(x: Bytes)

  predicate Breaks<R>(c: Codec<R>, w: Break) {
    match w
    case Collision(x, y) => x != y && c.hash(x) == c.hash(y)
    case ZeroPreimage(x) => c.hash(x) == ZERO
  }

  /** The final digest is the hash of the last frame's body. */
  lemma LastHashes<R>(c: Codec<R>, fs: seq<Bytes>)
    requires Linked(c, fs) && fs != []
    ensures Sized(fs[|fs| - 1]) && c.hash(Body(fs[|fs| - 1])) == Trailer(fs[|fs| - 1]) == DigestBefore(fs, |fs|)
  {
    assert Good(c, fs, |fs| - 1);
  }

  /** Compares the two journals from their last frames backwards. */
  function FindBreak<R>(c: Codec<R>, fs: seq<Bytes>, gs: seq<Bytes>): (w: Break)
    requires Linked(c, fs) && Linked(c, gs) && fs != gs
    requires DigestBefore(fs, |fs|) == DigestBefore(gs, |gs|)
    ensures Breaks(c, w)
  {
    if fs == [] then LastHashes(c, gs); ZeroPreimage(Body(gs[|gs| - 1]))
    else if gs == [] then LastHashes(c, fs); ZeroPreimage(Body(fs[|fs| - 1]))
    else
      LastHashes(c, fs);
      LastHashes(c, gs);
      if Body(fs[|fs| - 1]) != Body(gs[|gs| - 1]) then Collision(Body(fs[|fs| - 1]), Body(gs[|gs| - 1]))
      else
        SameBodySameFrame(fs[|fs| - 1], gs[|gs| - 1]);
        BeforeSameFrame(c, fs, gs);
        FindBreak(c, fs[..|fs| - 1], gs[..|gs| - 1])
  }

  lemma LinkedInit<R>(c: Codec<R>, fs: seq<Bytes>)
    requires Linked(c, fs) && fs != []
    ensures Linked(c, fs[..|fs| - 1]) && Sized(fs[|fs| - 1])
    ensures DigestBefore(fs[..|fs| - 1], |fs| - 1) == Link(fs[|fs| - 1])
  {
    SplitAt(fs, |fs| - 1);
    LinkedSnoc(c, fs[..|fs| - 1], fs[|fs| - 1..]);
    assert Good(c, fs, |fs| - 1);
  }

  /** Journals that end in the same frame agreed on the digest before it. */
  lemma BeforeSameFrame<R>(c: Codec<R>, fs: seq<Bytes>, gs: seq<Bytes>)
    requires Linked(c, fs) && Linked(c, gs) && fs != gs && fs != [] && gs != [] && fs[|fs| - 1] == gs[|gs| - 1]
    ensures Linked(c, fs[..|fs| - 1]) && Linked(c, gs[..|gs| - 1]) && fs[..|fs| - 1] != gs[..|gs| - 1]
    ensures DigestBefore(fs[..|fs| - 1], |fs| - 1) == DigestBefore(gs[..|gs| - 1], |gs| - 1)
  {
    LinkedInit(c, fs);
    LinkedInit(c, gs);
    assert fs[..|fs| - 1] + [fs[|fs| - 1]] == fs && gs[..|gs| - 1] + [gs[|gs| - 1]] == gs;
  }

  lemma SameBodySameFrame(f: Bytes, g: Bytes)
    requires Sized(f) && Sized(g) && Body(f) == Body(g) && Trailer(f) == Trailer(g)
    ensures f == g
  {
    SplitAt(f, |f| - 32);
    SplitAt(g, |g| - 32);
  }

  /** Two different accepted journals that end in one digest yield a broken hash. */
  lemma DigestCommitsToJournal<R>(c: Codec<R>, a: Bytes, b: Bytes)
    requires Decode(c, a).Some? && Decode(c, b).Some? && a != b
    requires Decode(c, a).value.digest == Decode(c, b).value.digest
    ensures Split(a).value != Split(b).value && Breaks(c, FindBreak(c, Split(a).value, Split(b).value))
  {
    SplitFlattens(a);
    SplitFlattens(b);
  }
}
