/** A writer of archives, decoding of one member, and the agreement of both with admission. */
module ZipWriter {
  import opened Bytes
  import opened Seqs
  import opened Perms
  import opened ZipRow
  import opened ZipCatalog
  import opened ZipAdmission

  // ---- Decoding one member ----

  /** CRC-32, and raw inflation of a whole stream to exactly the given size. */
  datatype Decoder = Decoder(crc: Bytes -> nat, inflate: (Bytes, nat) -> Option<Bytes>)

  function Min(a: nat, b: nat): nat { if a <= b then a else b }

  function Exactly(b: Option<Bytes>, size: nat): Option<Bytes> {
    if b.Some? && |b.value| == size then b else None
  }

  /** The record at `local` lies within the data, by its own length fields. */
  predicate Contained(data: Bytes, local: nat) {
    local + LOCAL_HEADER <= |data| && local + LOCAL_HEADER + U16(data, local + 26) + U32(data, local + 18) <= |data|
  }

  function ReadMember(d: Decoder, data: Bytes, local: nat, size: nat): (r: Option<Bytes>)
    ensures r.Some? ==> local + LOCAL_HEADER <= |data| && d.crc(r.value) == U32(data, local + 14)
    ensures r.Some? && (Contained(data, local) || U16(data, local + 8) != 0) ==> |r.value| == size
  {
    if local + LOCAL_HEADER > |data| then None
    else
      var compressed := U32(data, local + 18);
      var from := local + LOCAL_HEADER + U16(data, local + 26);
      var payload := data[Min(from, |data|)..Min(from + compressed, |data|)];
      var content :=
        if U16(data, local + 8) == 0 then (if compressed != size then None else Some(payload))
        else Exactly(d.inflate(payload, size), size);
      if content.None? || d.crc(content.value) != U32(data, local + 14) then None
      else content
  }

  // ---- Writing ----

  /** What the attribute field of an ordinary file is made of: the kind of file, its mode, and DOS bits around 0x10 and 0x400. */
  datatype Access = Access(kind: nat, mode: nat, high: nat, mid: nat, low: nat)

  /** Unspecified or a regular file, and neither the directory bit nor the reparse bit. */
  predicate Everyday(a: Access) {
    a.kind in {0, 8} && a.mode < 0x1000 && a.high < 0x20 && a.mid < 0x20 && a.low < 0x10
  }

  function Attributes(a: Access): (v: nat)
    requires Everyday(a)
    ensures v < 0x1_0000_0000
  {
    a.kind * 0x1000_0000 + a.mode * 0x1_0000 + a.high * 0x800 + a.mid * 0x20 + a.low
  }

  /** Exactly the attribute fields that are made up that way are admitted. */
  lemma OrdinaryExactly(v: nat)
    requires v < 0x1_0000_0000
    ensures OrdinaryFile(v) <==> exists a :: Everyday(a) && Attributes(a) == v
  {
    if OrdinaryFile(v) {
      var a := Access(v / 0x1000_0000, v / 0x1_0000 % 0x1000, v / 0x800 % 0x20, v / 0x20 % 0x20, v % 0x10);
      PartsOfOrdinary(v, a);
    }
    forall a | Everyday(a) && Attributes(a) == v ensures OrdinaryFile(v) { EverydayIsOrdinary(a); }
  }

  lemma Quotients(v: nat, a: nat, b: nat, c: nat, x: nat, y: nat, z: nat)
    requires v == 0x10 * (2 * a) + x && x < 0x10
    requires v == 0x400 * (2 * b) + y && y < 0x400
    requires v == 0x1000_0000 * c + z && z < 0x1000_0000
    ensures v / 0x10 == 2 * a && v / 0x400 == 2 * b && v / 0x1000_0000 == c
  {
  }

  lemma Even(v: nat, a: nat)
    requires v == 2 * a
    ensures v % 2 == 0
  {
  }

  lemma EverydayIsOrdinary(a: Access)
    requires Everyday(a)
    ensures OrdinaryFile(Attributes(a))
  {
    var v := Attributes(a);
    var half := a.kind * 0x80_0000 + a.mode * 0x800 + a.high * 0x40 + a.mid;
    var upper := a.kind * 0x2_0000 + a.mode * 0x20 + a.high;
    Quotients(v, half, upper, a.kind, a.low, a.mid * 0x20 + a.low, a.mode * 0x1_0000 + a.high * 0x800 + a.mid * 0x20 + a.low);
    Even(v / 0x10, half);
    Even(v / 0x400, upper);
  }

  lemma PartsOfOrdinary(v: nat, a: Access)
    requires v < 0x1_0000_0000 && OrdinaryFile(v)
    requires a == Access(v / 0x1000_0000, v / 0x1_0000 % 0x1000, v / 0x800 % 0x20, v / 0x20 % 0x20, v % 0x10)
    ensures Everyday(a) && Attributes(a) == v
  {
    NestedHalves(v);
    NestedFields(v);
    Reassemble(v, v / 0x10, v / 0x20, v / 0x400, v / 0x800, v / 0x1_0000, v / 0x1000_0000);
  }

  lemma NestedHalves(v: nat)
    ensures v / 0x20 == v / 0x10 / 2 && v / 0x800 == v / 0x400 / 2
  {
  }

  lemma NestedFields(v: nat)
    ensures v / 0x400 == v / 0x20 / 0x20 && v / 0x1_0000 == v / 0x800 / 0x20 && v / 0x1000_0000 == v / 0x1_0000 / 0x1000
  {
  }

  /** Successive quotients put a number together again. */
  lemma Reassemble(v: nat, a: nat, b: nat, c: nat, d: nat, e: nat, f: nat)
    requires a == v / 0x10 && b == a / 2 && c == b / 0x20 && d == c / 2 && e == d / 0x20 && f == e / 0x1000
    requires a % 2 == 0 && c % 2 == 0
    ensures v == f * 0x1000_0000 + e % 0x1000 * 0x1_0000 + d % 0x20 * 0x800 + b % 0x20 * 0x20 + v % 0x10
  {
    assert v == 0x10 * a + v % 0x10 && a == 2 * b && b == 0x20 * c + b % 0x20;
    assert c == 2 * d && d == 0x20 * e + d % 0x20 && e == 0x1000 * f + e % 0x1000;
  }

  /** A file to pack: its content, its deflated form if it is not stored, and every field a writer is free to choose. */
  datatype Member = Member(name: string, content: Bytes, packed: Option<Bytes>, version: nat, flags: nat, stamp: nat,
                           localVersion: nat, localStamp: nat, madeBy: nat, internal: nat, access: Access)

  function Payload(m: Member): Bytes { if m.packed.Some? then m.packed.value else m.content }

  function Method(m: Member): nat { if m.packed.Some? then 8 else 0 }

  datatype Writer = Writer(encode: string -> Bytes, crc: Bytes -> nat)

  predicate Writable(w: Writer, m: Member) {
    && m.version < 0x1_0000 && m.madeBy < 0x1_0000 && m.internal < 0x1_0000 && m.stamp < 0x1_0000_0000
    && m.localVersion < 0x1_0000 && m.localStamp < 0x1_0000_0000 && m.flags in {0, 0x0800} && Everyday(m.access)
    && |w.encode(m.name)| < 0x1_0000 && |Payload(m)| < 0x1_0000_0000 && |m.content| < 0x1_0000_0000 && w.crc(m.content) < 0x1_0000_0000
  }

  function LocalHeader(w: Writer, m: Member): (h: Bytes)
    requires Writable(w, m)
    ensures |h| == LOCAL_HEADER
  {
    Le32(0x04034B50) + Le16(m.localVersion) + Le16(m.flags) + Le16(Method(m)) + Le32(m.localStamp)
    + Le32(w.crc(m.content)) + Le32(|Payload(m)|) + Le32(|m.content|) + Le16(|w.encode(m.name)|) + Le16(0)
  }

  function LocalRecord(w: Writer, m: Member): (b: Bytes)
    requires Writable(w, m)
    ensures |b| == RecordLength(w, m)
  {
    LocalHeader(w, m) + (w.encode(m.name) + Payload(m))
  }

  function CentralHeader(w: Writer, m: Member, local: nat): (h: Bytes)
    requires Writable(w, m) && local < 0x1_0000_0000
    ensures |h| == CENTRAL_HEADER
  {
    Le32(0x02014B50) + Le16(m.madeBy) + Le16(m.version) + Le16(m.flags) + Le16(Method(m)) + Le32(m.stamp)
    + Le32(w.crc(m.content)) + Le32(|Payload(m)|) + Le32(|m.content|) + Le16(|w.encode(m.name)|)
    + Le16(0) + Le16(0) + Le16(0) + Le16(m.internal) + Le32(Attributes(m.access)) + Le32(local)
  }

  function CentralRow(w: Writer, m: Member, local: nat): Bytes
    requires Writable(w, m) && local < 0x1_0000_0000
  {
    CentralHeader(w, m, local) + w.encode(m.name)
  }

  lemma LocalHeaderFields(w: Writer, m: Member)
    requires Writable(w, m)
    ensures var h := LocalHeader(w, m);
            && U32(h, 0) == LOCAL_SIGNATURE && U16(h, 6) == m.flags && U16(h, 8) == Method(m)
            && U32(h, 14) == w.crc(m.content) && U32(h, 18) == |Payload(m)| && U32(h, 22) == |m.content|
            && U16(h, 26) == |w.encode(m.name)| && U16(h, 28) == 0
  {
  }

  lemma CentralHeaderFields(w: Writer, m: Member, local: nat)
    requires Writable(w, m) && local < 0x1_0000_0000
    ensures var h := CentralHeader(w, m, local);
            && U32(h, 0) == CENTRAL_SIGNATURE && U16(h, 8) == m.flags && U16(h, 10) == Method(m)
            && U32(h, 16) == w.crc(m.content) && U32(h, 20) == |Payload(m)| && U32(h, 24) == |m.content|
            && U16(h, 28) == |w.encode(m.name)| && U16(h, 30) == 0 && U16(h, 32) == 0 && U16(h, 34) == 0
            && U32(h, 38) == Attributes(m.access) && U32(h, 42) == local
  {
  }

  /** The same fields, read from a whole row and from a record inside other bytes. */
  lemma CentralRowFields(w: Writer, m: Member, local: nat)
    requires Writable(w, m) && local < 0x1_0000_0000
    ensures var b, n := CentralRow(w, m, local), |w.encode(m.name)|;
            && |b| == CENTRAL_HEADER + n && PlainRow(b) && RowName(b) == w.encode(m.name) && RowShaped(b)
            && U16(b, 8) == m.flags && U16(b, 10) == Method(m) && U32(b, 16) == w.crc(m.content)
            && U32(b, 20) == |Payload(m)| && U32(b, 24) == |m.content| && U16(b, 28) == n && U32(b, 42) == local
  {
    hide OrdinaryFile, Attributes, Everyday, CentralHeader;
    CentralHeaderFields(w, m, local);
    EverydayIsOrdinary(m.access);
    var h, b := CentralHeader(w, m, local), CentralRow(w, m, local);
    PrefixReads(h, w.encode(m.name));
    assert b[CENTRAL_HEADER..CENTRAL_HEADER + |w.encode(m.name)|] == w.encode(m.name);
  }

  /** A row written for a record is read back as that record's name, size and span. */
  lemma WrittenRowReads(t: Text, w: Writer, expected: set<string>, m: Member, before: Bytes, after: Bytes)
    requires Writable(w, m) && |before| < 0x1_0000_0000
    requires t.decode(w.encode(m.name)) == Some(m.name) && m.name in expected
    ensures ReadRow(t, expected, before + (LocalRecord(w, m) + after), CentralRow(w, m, |before|)) ==
              Some(WrittenRow(w, m, |before|))
  {
    hide LocalRecord, CentralRow, OrdinaryFile, Everyday;
    CentralRowFields(w, m, |before|);
    RecordFields(w, m, before, after);
  }

  /** What the fields of a written record are, wherever it lies. */
  lemma RecordFields(w: Writer, m: Member, before: Bytes, after: Bytes)
    requires Writable(w, m)
    ensures var locals, at, n := before + (LocalRecord(w, m) + after), |before|, |w.encode(m.name)|;
            && at + LOCAL_HEADER + n + |Payload(m)| <= |locals|
            && U32(locals, at) == LOCAL_SIGNATURE && U16(locals, at + 6) == m.flags && U16(locals, at + 8) == Method(m)
            && U32(locals, at + 14) == w.crc(m.content) && U32(locals, at + 18) == |Payload(m)|
            && U32(locals, at + 22) == |m.content| && U16(locals, at + 26) == n && U16(locals, at + 28) == 0
            && locals[at + LOCAL_HEADER..at + LOCAL_HEADER + n] == w.encode(m.name)
            && locals[at + LOCAL_HEADER + n..at + LOCAL_HEADER + n + |Payload(m)|] == Payload(m)
  {
    LocalHeaderFields(w, m);
    RecordSlices(before, LocalHeader(w, m), w.encode(m.name), Payload(m), after);
  }

  lemma RecordSlices(before: Bytes, h: Bytes, name: Bytes, content: Bytes, after: Bytes)
    requires |h| == LOCAL_HEADER
    ensures var b, at := before + (h + (name + content) + after), |before| + LOCAL_HEADER;
            && b[at..at + |name|] == name && b[at + |name|..at + |name| + |content|] == content
            && U32(b, |before|) == U32(h, 0) && U16(b, |before| + 6) == U16(h, 6) && U16(b, |before| + 8) == U16(h, 8)
            && U32(b, |before| + 14) == U32(h, 14) && U32(b, |before| + 18) == U32(h, 18) && U32(b, |before| + 22) == U32(h, 22)
            && U16(b, |before| + 26) == U16(h, 26) && U16(b, |before| + 28) == U16(h, 28)
  {
    var b, at := before + (h + (name + content) + after), |before| + LOCAL_HEADER;
    assert b[at..at + |name|] == name && b[at + |name|..at + |name| + |content|] == content;
  }

  function RecordLength(w: Writer, m: Member): nat {
    LOCAL_HEADER + |w.encode(m.name)| + |Payload(m)|
  }

  function WrittenRow(w: Writer, m: Member, local: nat): Row {
    Row(m.name, |m.content|, local, local + RecordLength(w, m), CENTRAL_HEADER + |w.encode(m.name)|)
  }

  // ---- Whole archives ----

  predicate AllWritable(w: Writer, ms: seq<Member>) {
    forall i | 0 <= i < |ms| :: Writable(w, ms[i])
  }

  function Locals(w: Writer, ms: seq<Member>): Bytes
    requires AllWritable(w, ms)
  {
    if ms == [] then [] else LocalRecord(w, ms[0]) + Locals(w, ms[1..])
  }

  function LocalsLength(w: Writer, ms: seq<Member>): nat {
    if ms == [] then 0 else RecordLength(w, ms[0]) + LocalsLength(w, ms[1..])
  }

  lemma {:induction false} LocalsHaveLength(w: Writer, ms: seq<Member>)
    requires AllWritable(w, ms)
    ensures |Locals(w, ms)| == LocalsLength(w, ms)
    decreases |ms|
  {
    if ms != [] { LocalsHaveLength(w, ms[1..]); }
  }

  function CentralRows(w: Writer, ms: seq<Member>, at: nat): (bs: seq<Bytes>)
    requires AllWritable(w, ms) && at + LocalsLength(w, ms) < 0x1_0000_0000
    ensures |bs| == |ms|
    decreases |ms|
  {
    if ms == [] then []
    else [CentralRow(w, ms[0], at)] + CentralRows(w, ms[1..], at + RecordLength(w, ms[0]))
  }

  function WrittenRows(w: Writer, ms: seq<Member>, at: nat): (rows: seq<Row>)
    ensures |rows| == |ms|
    decreases |ms|
  {
    if ms == [] then [] else [WrittenRow(w, ms[0], at)] + WrittenRows(w, ms[1..], at + RecordLength(w, ms[0]))
  }

  function EndRecord(count: nat, size: nat, start: nat): (b: Bytes)
    requires count < 0x1_0000 && size < 0x1_0000_0000 && start < 0x1_0000_0000
    ensures |b| == END_RECORD
  {
    Le32(0x06054B50) + Le16(0) + Le16(0) + Le16(count) + Le16(count) + Le32(size) + Le32(start) + Le16(0)
  }

  /** Local records, central rows and end record of `ms`, laid out in order. */
  function Archive(w: Writer, ms: seq<Member>): Bytes
    requires AllWritable(w, ms) && Fits(w, ms)
  {
    LocalsHaveLength(w, ms);
    var locals := Locals(w, ms);
    var central := Concat(CentralRows(w, ms, 0));
    locals + central + EndRecord(|ms|, |central|, |locals|)
  }

  predicate Fits(w: Writer, ms: seq<Member>)
    requires AllWritable(w, ms)
  {
    |ms| < 0x1_0000 && LocalsLength(w, ms) < 0x1_0000_0000 && |Concat(CentralRows(w, ms, 0))| < 0x1_0000_0000
  }

  /** Every name survives encoding and is one of the expected ones. */
  predicate Known(t: Text, w: Writer, expected: set<string>, ms: seq<Member>) {
    forall i | 0 <= i < |ms| :: t.decode(w.encode(ms[i].name)) == Some(ms[i].name) && ms[i].name in expected
  }

  /** Row by row, the bytes `bs` read as `rows`. */
  ghost predicate ReadAs(read: Reader, locals: Bytes, bs: seq<Bytes>, rows: seq<Row>) {
    |bs| == |rows| && forall i | 0 <= i < |bs| :: RowShaped(bs[i]) && read(locals, bs[i]) == Some(rows[i])
  }

  lemma ReadAsCons(read: Reader, locals: Bytes, b: Bytes, row: Row, bs: seq<Bytes>, rows: seq<Row>)
    requires RowShaped(b) && read(locals, b) == Some(row) && ReadAs(read, locals, bs, rows)
    ensures ReadAs(read, locals, [b] + bs, [row] + rows)
  {
  }

  lemma {:induction false} RowsCons(read: Reader, w: Writer, ms: seq<Member>, at: nat, locals: Bytes)
    requires ms != [] && AllWritable(w, ms) && at + LocalsLength(w, ms) < 0x1_0000_0000
    requires RowShaped(CentralRow(w, ms[0], at)) && read(locals, CentralRow(w, ms[0], at)) == Some(WrittenRow(w, ms[0], at))
    requires ReadAs(read, locals, CentralRows(w, ms[1..], at + RecordLength(w, ms[0])), WrittenRows(w, ms[1..], at + RecordLength(w, ms[0])))
    ensures ReadAs(read, locals, CentralRows(w, ms, at), WrittenRows(w, ms, at))
  {
    hide CentralRow, WrittenRow, RowShaped, Writable;
    ReadAsCons(read, locals, CentralRow(w, ms[0], at), WrittenRow(w, ms[0], at),
               CentralRows(w, ms[1..], at + RecordLength(w, ms[0])), WrittenRows(w, ms[1..], at + RecordLength(w, ms[0])));
  }

  lemma LocalsSplit(w: Writer, before: Bytes, ms: seq<Member>)
    requires ms != [] && AllWritable(w, ms)
    ensures AllWritable(w, ms[1..]) && before + Locals(w, ms) == before + LocalRecord(w, ms[0]) + Locals(w, ms[1..])
    ensures before + Locals(w, ms) == before + (LocalRecord(w, ms[0]) + Locals(w, ms[1..]))
    ensures |before + LocalRecord(w, ms[0])| == |before| + RecordLength(w, ms[0])
  {
    Assoc(before, LocalRecord(w, ms[0]), Locals(w, ms[1..]));
  }

  /** A reader gets back the row of a member from wherever its local record was put. */
  ghost predicate ReadsBack(read: Reader, w: Writer, m: Member)
    requires Writable(w, m)
  {
    forall before, rest | |before| < 0x1_0000_0000 :: ReadsBackAt(read, w, m, before, rest)
  }

  ghost predicate ReadsBackAt(read: Reader, w: Writer, m: Member, before: Bytes, rest: Bytes)
    requires Writable(w, m) && |before| < 0x1_0000_0000
  {
    && RowShaped(CentralRow(w, m, |before|))
    && read(before + (LocalRecord(w, m) + rest), CentralRow(w, m, |before|)) == Some(WrittenRow(w, m, |before|))
  }

  lemma {:induction false} RowsReadBack(read: Reader, w: Writer, before: Bytes, ms: seq<Member>, locals: Bytes)
    requires AllWritable(w, ms) && (forall i | 0 <= i < |ms| :: ReadsBack(read, w, ms[i])) && |before| + LocalsLength(w, ms) < 0x1_0000_0000
    requires locals == before + Locals(w, ms)
    ensures ReadAs(read, locals, CentralRows(w, ms, |before|), WrittenRows(w, ms, |before|))
    decreases |ms|
  {
    hide LocalRecord, CentralRow, WrittenRow, RowShaped;
    if ms != [] {
      LocalsSplit(w, before, ms);
      RowsReadBack(read, w, before + LocalRecord(w, ms[0]), ms[1..], locals);
      assert ReadsBackAt(read, w, ms[0], before, Locals(w, ms[1..]));
      RowsCons(read, w, ms, |before|, locals);
    }
  }

  lemma KnownReadBack(t: Text, w: Writer, expected: set<string>, m: Member)
    requires Writable(w, m) && t.decode(w.encode(m.name)) == Some(m.name) && m.name in expected
    ensures ReadsBack(RowReader(t, expected), w, m)
  {
    forall before, rest | |before| < 0x1_0000_0000 ensures ReadsBackAt(RowReader(t, expected), w, m, before, rest) {
      FirstReadBack(t, w, expected, before, m, rest);
    }
  }

  lemma FirstReadBack(t: Text, w: Writer, expected: set<string>, before: Bytes, m: Member, rest: Bytes)
    requires Writable(w, m) && |before| < 0x1_0000_0000
    requires t.decode(w.encode(m.name)) == Some(m.name) && m.name in expected
    ensures RowShaped(CentralRow(w, m, |before|))
    ensures RowReader(t, expected)(before + (LocalRecord(w, m) + rest), CentralRow(w, m, |before|)) == Some(WrittenRow(w, m, |before|))
  {
    WrittenRowReads(t, w, expected, m, before, rest);
    CentralRowFields(w, m, |before|);
  }

  lemma ReadAsRows(read: Reader, expected: set<string>, locals: Bytes, bs: seq<Bytes>, rows: seq<Row>)
    requires Sound(read, expected) && Local(read) && ReadAs(read, locals, bs, rows)
    ensures ReadRows(read, locals, Concat(bs), |bs|) == Some(rows)
  {
    ReadShaped(read, expected, locals, bs, |bs|);
    assert Map(RowOf(read, locals), bs) == rows;
  }

  lemma {:induction false} WrittenTiles(w: Writer, ms: seq<Member>, at: nat)
    ensures Tiles(Map(RowSpan(), WrittenRows(w, ms, at)), at, at + LocalsLength(w, ms))
    ensures Ordered(Map(RowSpan(), WrittenRows(w, ms, at)))
    decreases |ms|
  {
    if ms != [] {
      var next := at + RecordLength(w, ms[0]);
      WrittenTiles(w, ms[1..], next);
      var rows := WrittenRows(w, ms[1..], next);
      MapConcat(RowSpan(), [WrittenRow(w, ms[0], at)], rows);
      assert Map(RowSpan(), [WrittenRow(w, ms[0], at)]) == [Span(at, next)];
      ConcatSlices([Span(at, next)], Map(RowSpan(), rows), 1);
      EmptyLeft(Map(RowSpan(), rows));
    }
  }

  /** The bytes of all contents together. */
  function TotalContent(ms: seq<Member>): nat {
    if ms == [] then 0 else |ms[0].content| + TotalContent(ms[1..])
  }

  lemma {:induction false} WrittenTotal(w: Writer, ms: seq<Member>, at: nat)
    ensures Sum(RowSize(), WrittenRows(w, ms, at)) == TotalContent(ms)
    decreases |ms|
  {
    if ms != [] {
      var next := at + RecordLength(w, ms[0]);
      WrittenTotal(w, ms[1..], next);
      ConcatSlices([WrittenRow(w, ms[0], at)], WrittenRows(w, ms[1..], next), 1);
      EmptyLeft(WrittenRows(w, ms[1..], next));
    }
  }

  lemma {:induction false} LocalsConcat(w: Writer, a: seq<Member>, b: seq<Member>)
    requires AllWritable(w, a) && AllWritable(w, b)
    ensures AllWritable(w, a + b) && Locals(w, a + b) == Locals(w, a) + Locals(w, b)
    decreases |a|
  {
    if a == [] {
      EmptyLeft(b);
      EmptyLeft(Locals(w, b));
    } else {
      ConcatSlices(a, b, 1);
      LocalsConcat(w, a[1..], b);
      Assoc(LocalRecord(w, a[0]), Locals(w, a[1..]), Locals(w, b));
    }
  }

  /** Where the row of each member says its record starts, and what it says about it. */
  lemma {:induction false} WrittenRowAt(w: Writer, ms: seq<Member>, at: nat, i: nat)
    requires i < |ms|
    ensures WrittenRows(w, ms, at)[i] == WrittenRow(w, ms[i], at + LocalsLength(w, ms[..i]))
    decreases |ms|
  {
    if i > 0 {
      WrittenRowAt(w, ms[1..], at + RecordLength(w, ms[0]), i - 1);
      assert ms[1..][i - 1] == ms[i] && ms[..i][0] == ms[0] && ms[..i][1..] == ms[1..][..i - 1];
    }
  }

  /** The decoder computes the same checksum, and inflates the packed form to the content. */
  predicate Decodes(d: Decoder, w: Writer, m: Member) {
    d.crc(m.content) == w.crc(m.content) && (m.packed.Some? ==> d.inflate(m.packed.value, |m.content|) == Some(m.content))
  }

  lemma ReadMemberAt(d: Decoder, w: Writer, m: Member, before: Bytes, after: Bytes)
    requires Writable(w, m) && Decodes(d, w, m)
    ensures ReadMember(d, before + (LocalRecord(w, m) + after), |before|, |m.content|) == Some(m.content)
  {
    RecordFields(w, m, before, after);
  }

  predicate DistinctMembers(lower: string -> string, ms: seq<Member>) {
    forall i, j | 0 <= i < j < |ms| :: lower(ms[i].name) != lower(ms[j].name)
  }

  lemma {:induction false} PairwiseDistinct(lower: string -> string, rows: seq<Row>)
    requires forall i, j | 0 <= i < j < |rows| :: lower(rows[i].name) != lower(rows[j].name)
    ensures DistinctNames(lower, rows)
    decreases |rows|
  {
    if rows != [] {
      PairwiseDistinct(lower, rows[..|rows| - 1]);
      LowersMember(lower, rows[..|rows| - 1], lower(rows[|rows| - 1].name));
    }
  }

  lemma WrittenDistinct(lower: string -> string, w: Writer, ms: seq<Member>)
    requires DistinctMembers(lower, ms)
    ensures DistinctNames(lower, WrittenRows(w, ms, 0))
  {
    var rows := WrittenRows(w, ms, 0);
    forall i | 0 <= i < |ms| ensures rows[i].name == ms[i].name { WrittenRowAt(w, ms, 0, i); }
    PairwiseDistinct(lower, rows);
  }

  lemma WrittenConsistent(lower: string -> string, w: Writer, ms: seq<Member>, limit: nat)
    requires DistinctMembers(lower, ms) && TotalContent(ms) <= limit
    ensures Consistent(lower, WrittenRows(w, ms, 0), LocalsLength(w, ms), limit)
  {
    WrittenDistinct(lower, w, ms);
    WrittenTotal(w, ms, 0);
    WrittenTiles(w, ms, 0);
    OrderedConsistent(lower, WrittenRows(w, ms, 0), LocalsLength(w, ms), limit);
  }

  lemma OrderedConsistent(lower: string -> string, rows: seq<Row>, start: nat, limit: nat)
    requires DistinctNames(lower, rows) && Sum(RowSize(), rows) <= limit
    requires Ordered(Map(RowSpan(), rows)) && Tiles(Map(RowSpan(), rows), 0, start)
    ensures Consistent(lower, rows, start, limit)
  {
    SortOfOrdered(Map(RowSpan(), rows));
  }

  lemma WrittenStart(w: Writer, ms: seq<Member>, limit: nat)
    requires AllWritable(w, ms) && Fits(w, ms) && (|ms| == 4 || |ms| == 5) && |Archive(w, ms)| <= limit
    ensures CatalogStart(Archive(w, ms), |ms|, limit).Some?
    ensures U32(EndRecord(|ms|, |Concat(CentralRows(w, ms, 0))|, LocalsLength(w, ms)), 16) == LocalsLength(w, ms)
  {
    LocalsHaveLength(w, ms);
    EndRecordStart(Locals(w, ms), Concat(CentralRows(w, ms, 0)), |ms|, limit);
    EndRecordFields(|ms|, |Concat(CentralRows(w, ms, 0))|, LocalsLength(w, ms));
  }

  lemma EndRecordStart(locals: Bytes, central: Bytes, count: nat, limit: nat)
    requires (count == 4 || count == 5) && |locals| < 0x1_0000_0000 && |central| < 0x1_0000_0000
    requires |locals| + |central| + END_RECORD <= limit
    ensures CatalogStart(locals + central + EndRecord(count, |central|, |locals|), count, limit).Some?
  {
    TailReads(locals + central, EndRecord(count, |central|, |locals|));
    EndRecordFields(count, |central|, |locals|);
  }

  lemma EndRecordFields(count: nat, size: nat, start: nat)
    requires count < 0x1_0000 && size < 0x1_0000_0000 && start < 0x1_0000_0000
    ensures var b := EndRecord(count, size, start);
            && U32(b, 0) == END_SIGNATURE && U16(b, 4) == 0 && U16(b, 6) == 0 && U16(b, 8) == count
            && U16(b, 10) == count && U32(b, 12) == size && U32(b, 16) == start && U16(b, 20) == 0
  {
  }

  /** The rows of a written archive read back from its own parts. */
  lemma {:induction false} WrittenRead(t: Text, w: Writer, expected: set<string>, ms: seq<Member>)
    requires AllWritable(w, ms) && Known(t, w, expected, ms) && LocalsLength(w, ms) < 0x1_0000_0000
    ensures ReadRows(RowReader(t, expected), Locals(w, ms), Concat(CentralRows(w, ms, 0)), |ms|) == Some(WrittenRows(w, ms, 0))
  {
    var read := RowReader(t, expected);
    EmptyLeft(Locals(w, ms));
    forall i | 0 <= i < |ms| ensures ReadsBack(read, w, ms[i]) { KnownReadBack(t, w, expected, ms[i]); }
    RowsReadBack(read, w, [], ms, Locals(w, ms));
    RowReaderSound(t, expected);
    RowReaderLocal(t, expected);
    ReadAsRows(read, expected, Locals(w, ms), CentralRows(w, ms, 0), WrittenRows(w, ms, 0));
  }

  /** A written archive falls apart into the parts it was made of. */
  lemma {:induction false} WrittenParts(w: Writer, ms: seq<Member>, limit: nat, data: Bytes, start: nat)
    requires AllWritable(w, ms) && Fits(w, ms) && (|ms| == 4 || |ms| == 5) && data == Archive(w, ms) && |data| <= limit
    requires start == LocalsLength(w, ms)
    ensures CatalogStart(data, |ms|, limit) == Some(start) && start + END_RECORD <= |data|
    ensures data[..start] == Locals(w, ms) && data[start..|data| - END_RECORD] == Concat(CentralRows(w, ms, 0))
  {
    LocalsHaveLength(w, ms);
    var locals, central := Locals(w, ms), Concat(CentralRows(w, ms, 0));
    WrittenStart(w, ms, limit);
    ArchiveParts(locals, central, EndRecord(|ms|, |central|, |locals|), |ms|, limit);
  }

  lemma AdmittedFrom(read: Reader, lower: string -> string, data: Bytes, expected: set<string>, limit: nat, start: nat, rows: seq<Row>)
    requires CatalogStart(data, |expected|, limit) == Some(start) && start + END_RECORD <= |data|
    requires ReadRows(read, data[..start], data[start..|data| - END_RECORD], |expected|) == Some(rows)
    requires Consistent(lower, rows, start, limit)
    ensures AdmittedRows(read, lower, data, expected, limit) == Some(rows)
  {
  }

  lemma {:induction false} WrittenAdmitted(t: Text, w: Writer, expected: set<string>, limit: nat, ms: seq<Member>)
    requires AllWritable(w, ms) && Known(t, w, expected, ms) && DistinctMembers(t.lower, ms) && Fits(w, ms)
    requires |expected| == |ms| && (|ms| == 4 || |ms| == 5) && |Archive(w, ms)| <= limit && TotalContent(ms) <= limit
    ensures AdmittedRows(RowReader(t, expected), t.lower, Archive(w, ms), expected, limit) == Some(WrittenRows(w, ms, 0))
  {
    var start := LocalsLength(w, ms);
    WrittenParts(w, ms, limit, Archive(w, ms), start);
    WrittenRead(t, w, expected, ms);
    WrittenConsistent(t.lower, w, ms, limit);
    AdmittedFrom(RowReader(t, expected), t.lower, Archive(w, ms), expected, limit, start, WrittenRows(w, ms, 0));
  }

  /**
    Writer and validator agree. Any four or five members, stored or deflated, whose names are distinct in lower case,
    laid out as records, rows and end record within the limits, are admitted with exactly
    the expected names and the right sizes.
  */
  lemma WriterAndValidatorAgree(t: Text, w: Writer, expected: set<string>, limit: nat, ms: seq<Member>)
    requires AllWritable(w, ms) && Known(t, w, expected, ms) && DistinctMembers(t.lower, ms) && Fits(w, ms)
    requires |expected| == |ms| && (|ms| == 4 || |ms| == 5) && |Archive(w, ms)| <= limit && TotalContent(ms) <= limit
    ensures Catalog(RowReader(t, expected), t.lower, Archive(w, ms), expected, limit) == Some(WrittenSizes(w, ms))
    ensures WrittenSizes(w, ms).Keys == expected
    ensures forall i | 0 <= i < |ms| :: ms[i].name in expected && WrittenSizes(w, ms)[ms[i].name] == |ms[i].content|
  {
    WrittenAdmitted(t, w, expected, limit, ms);
    RowReaderSound(t, expected);
    MembersAreTheExpected(RowReader(t, expected), t.lower, Archive(w, ms), expected, limit, WrittenRows(w, ms, 0));
    forall i | 0 <= i < |ms| ensures ms[i].name in WrittenSizes(w, ms) && WrittenSizes(w, ms)[ms[i].name] == |ms[i].content| {
      WrittenSize(t.lower, w, ms, i);
    }
  }

  function WrittenSizes(w: Writer, ms: seq<Member>): map<string, nat> {
    Sizes(WrittenRows(w, ms, 0))
  }

  /** Each member of a written archive, decoded where its row points, is the content that was written. */
  lemma {:induction false} WrittenMembersDecode(d: Decoder, w: Writer, ms: seq<Member>, i: nat, row: Row)
    requires AllWritable(w, ms) && Fits(w, ms) && i < |ms| && Decodes(d, w, ms[i])
    requires row == WrittenRows(w, ms, 0)[i]
    ensures ReadMember(d, Archive(w, ms), row.local, row.size) == Some(ms[i].content)
  {
    WrittenRowAt(w, ms, 0, i);
    assert row.local == LocalsLength(w, ms[..i]) && row.size == |ms[i].content|;
    MemberReadBack(d, w, ms, i);
  }

  lemma WrittenSize(lower: string -> string, w: Writer, ms: seq<Member>, i: nat)
    requires DistinctMembers(lower, ms) && i < |ms|
    ensures ms[i].name in Sizes(WrittenRows(w, ms, 0)) && Sizes(WrittenRows(w, ms, 0))[ms[i].name] == |ms[i].content|
  {
    WrittenDistinct(lower, w, ms);
    NamesDistinct(lower, WrittenRows(w, ms, 0));
    WrittenRowAt(w, ms, 0, i);
    SizesValue(WrittenRows(w, ms, 0), WrittenRows(w, ms, 0)[i]);
  }

  lemma MemberReadBack(d: Decoder, w: Writer, ms: seq<Member>, i: nat)
    requires AllWritable(w, ms) && Fits(w, ms) && i < |ms| && Decodes(d, w, ms[i])
    ensures ReadMember(d, Archive(w, ms), LocalsLength(w, ms[..i]), |ms[i].content|) == Some(ms[i].content)
  {
    LocalsHaveLength(w, ms);
    LocalsHaveLength(w, ms[..i]);
    SplitAt(ms, i);
    LocalsConcat(w, ms[..i], ms[i..]);
    var before, record, more := Locals(w, ms[..i]), LocalRecord(w, ms[i]), Locals(w, ms[i..][1..]);
    var central := Concat(CentralRows(w, ms, 0));
    var tail := EndRecord(|ms|, |central|, |Locals(w, ms)|);
    Regroup(before, record, more, central, tail);
    ReadMemberAt(d, w, ms[i], before, more + central + tail);
  }
}
