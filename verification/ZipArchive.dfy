/** What it means that a release archive was accepted: the laws of admission at the row reader that is used. */
module ZipArchive {
  import opened Bytes
  import opened Seqs
  import opened Perms
  import opened ZipRow
  import opened ZipCatalog
  import opened ZipAdmission
  import opened ZipWriter

  /** The rows of an accepted archive. */
  function Accepted(t: Text, data: Bytes, expected: set<string>, limit: nat): Option<seq<Row>> {
    AdmittedRows(RowReader(t, expected), t.lower, data, expected, limit)
  }

  /** Each byte of an accepted archive lies in exactly one local record, central row or the end record. */
  lemma AcceptedIsPartitioned(t: Text, data: Bytes, expected: set<string>, limit: nat, rows: seq<Row>, p: nat)
    requires Accepted(t, data, expected, limit) == Some(rows) && p < |data|
    ensures CatalogStart(data, |expected|, limit).Some?
    ensures Sum(Covers(p), Map(RowSpan(), rows))
          + Sum(Covers(p), CentralSpans(CatalogStart(data, |expected|, limit).value, rows))
          + (if p >= |data| - END_RECORD then 1 else 0) == 1
  {
    RowReaderSound(t, expected);
    EveryByteHasOneOwner(RowReader(t, expected), t.lower, data, expected, limit, rows, p);
  }

  /** Its names are exactly the expected ones, and the validator's table holds each row's size. */
  lemma AcceptedMembers(t: Text, data: Bytes, expected: set<string>, limit: nat, rows: seq<Row>)
    requires Accepted(t, data, expected, limit) == Some(rows)
    ensures Catalog(RowReader(t, expected), t.lower, data, expected, limit) == Some(Sizes(rows)) && Sizes(rows).Keys == expected
    ensures forall r | r in rows :: r.name in Sizes(rows) && Sizes(rows)[r.name] == r.size
  {
    RowReaderSound(t, expected);
    MembersAreTheExpected(RowReader(t, expected), t.lower, data, expected, limit, rows);
  }

  // ---- Every accepted catalog is a row of shaped rows ----

  lemma {:induction false} CatalogIsShaped(read: Reader, expected: set<string>, locals: Bytes, central: Bytes, n: nat, rows: seq<Row>)
      returns (bs: seq<Bytes>)
    requires Sound(read, expected) && Local(read) && ReadRows(read, locals, central, n) == Some(rows)
    ensures |bs| == n && AllShaped(bs) && Concat(bs) == central && ReadAs(read, locals, bs, rows)
    decreases n
  {
    if n == 0 {
      bs := [];
    } else {
      ReadHead(read, locals, central, n, rows);
      var b, more := central[..rows[0].length], central[rows[0].length..];
      FrontIsShaped(read, expected, locals, central, rows[0]);
      var rest := CatalogIsShaped(read, expected, locals, more, n - 1, rows[1..]);
      bs := [b] + rest;
      assert bs[1..] == rest;
      ReadAsCons(read, locals, b, rows[0], rest, rows[1..]);
      HeadTail(rows);
    }
  }

  lemma FrontIsShaped(read: Reader, expected: set<string>, locals: Bytes, central: Bytes, r: Row)
    requires Sound(read, expected) && Local(read) && read(locals, central) == Some(r)
    ensures r.length <= |central| && central[..r.length] + central[r.length..] == central
    ensures RowShaped(central[..r.length]) && read(locals, central[..r.length]) == Some(r)
  {
    assert SoundRow(locals, central, r, expected);
    SplitAt(central, r.length);
    PrefixReads(central[..r.length], central[r.length..]);
    assert read(locals, central[..r.length] + central[r.length..]) == read(locals, central[..r.length]);
  }

  lemma Unwrap(data: Bytes, start: nat)
    requires start + END_RECORD <= |data|
    ensures data == data[..start] + data[start..|data| - END_RECORD] + data[|data| - END_RECORD..]
  {
  }

  lemma TailStart(data: Bytes, start: nat)
    requires |data| >= END_RECORD && start == U32(data, |data| - 6)
    ensures U32(data[|data| - END_RECORD..], 16) == start
  {
  }

  /**
    Every accepted archive is its local records, shaped central rows and the end record, and with
    its central rows in any other order it is accepted just the same, with the same sizes.
  */
  lemma AcceptedInAnyOrder(t: Text, data: Bytes, expected: set<string>, limit: nat, rows: seq<Row>)
      returns (locals: Bytes, bs: seq<Bytes>, tail: Bytes)
    requires Accepted(t, data, expected, limit) == Some(rows)
    ensures data == locals + Concat(bs) + tail && |bs| == |expected| && AllShaped(bs) && |tail| == END_RECORD
    ensures forall bs' | Permuted(bs, bs') ::
              Catalog(RowReader(t, expected), t.lower, locals + Concat(bs') + tail, expected, limit) == Some(Sizes(rows))
  {
    var read := RowReader(t, expected);
    RowReaderSound(t, expected);
    RowReaderLocal(t, expected);
    AcceptedMembers(t, data, expected, limit, rows);
    var start := Unpack(read, t.lower, data, expected, limit, rows);
    locals, tail := data[..start], data[|data| - END_RECORD..];
    bs := CatalogIsShaped(read, expected, locals, data[start..|data| - END_RECORD], |expected|, rows);
    Unwrap(data, start);
    TailStart(data, start);
    forall bs' | Permuted(bs, bs')
      ensures Catalog(read, t.lower, locals + Concat(bs') + tail, expected, limit) == Some(Sizes(rows))
    {
      RowOrderIsIrrelevant(read, t.lower, expected, limit, locals, bs, bs', tail);
    }
  }

  // ---- What the bytes of an accepted archive are ----

  /** A central row of an ordinary file: no encryption or descriptor, stored or deflated, no extras, no directory, link or reparse point. */
  ghost predicate OrdinaryRow(b: Bytes) {
    && |b| >= 46 && |b| == 46 + U16(b, 28) && U32(b, 0) == 0x02014B50
    && U16(b, 8) in {0, 0x0800} && U16(b, 10) in {0, 8}
    && U16(b, 30) == 0 && U16(b, 32) == 0 && U16(b, 34) == 0
    && exists a :: Everyday(a) && Attributes(a) == U32(b, 38)
  }

  /** The local header a row points at says the same, and its name and payload follow it before the catalog. */
  predicate Repeated(l: Bytes, b: Bytes)
    requires |b| >= 46
  {
    var at, n := U32(b, 42), U16(b, 28);
    && at + 30 + n + U32(b, 20) <= |l|
    && U32(l, at) == 0x04034B50 && U16(l, at + 6) == U16(b, 8) && U16(l, at + 8) == U16(b, 10)
    && U32(l, at + 14) == U32(b, 16) && U32(l, at + 18) == U32(b, 20) && U32(l, at + 22) == U32(b, 24)
    && U16(l, at + 26) == n && U16(l, at + 28) == 0 && l[at + 30..at + 30 + n] == b[46..]
  }

  /** The row read from a central row is what its bytes say. */
  ghost predicate Explained(t: Text, expected: set<string>, l: Bytes, b: Bytes, r: Row) {
    && OrdinaryRow(b) && Repeated(l, b) && t.decode(b[46..]) == Some(r.name) && r.name in expected
    && r.size == U32(b, 24) && r.local == U32(b, 42) && r.finish == U32(b, 42) + 30 + U16(b, 28) + U32(b, 20) && r.length == |b|
  }

  lemma PlainIsOrdinary(b: Bytes)
    requires PlainRow(b) && RowShaped(b)
    ensures OrdinaryRow(b) && RowName(b) == b[46..]
  {
    OrdinaryExactly(U32(b, 38));
  }

  lemma AgreeingIsRepeated(l: Bytes, b: Bytes)
    requires PlainRow(b) && RowShaped(b) && LocalAgrees(l, b) && RowName(b) == b[46..]
    ensures Repeated(l, b)
  {
    hide OrdinaryFile;
  }

  /** What a row that was read came from. */
  lemma RowParts(t: Text, expected: set<string>, l: Bytes, b: Bytes, r: Row)
    requires ReadRow(t, expected, l, b) == Some(r)
    ensures PlainRow(b) && LocalAgrees(l, b) && t.decode(RowName(b)) == Some(r.name) && r.name in expected
    ensures r.size == U32(b, 24) && r.local == U32(b, 42) && r.finish == U32(b, 42) + 30 + U16(b, 28) + U32(b, 20) && r.length == 46 + U16(b, 28)
  {
    hide OrdinaryFile, LocalAgrees;
  }

  lemma RowExplained(t: Text, expected: set<string>, l: Bytes, b: Bytes, r: Row)
    requires RowShaped(b) && RowReader(t, expected)(l, b) == Some(r)
    ensures Explained(t, expected, l, b, r)
  {
    hide PlainRow, LocalAgrees, OrdinaryRow, Repeated, ReadRow;
    RowParts(t, expected, l, b, r);
    PlainIsOrdinary(b);
    AgreeingIsRepeated(l, b);
  }

  /** All 22 bytes of an accepted end record are determined. */
  lemma EndRecordDetermined(tail: Bytes, count: nat, size: nat, start: nat)
    requires |tail| == 22 && count < 0x1_0000 && size < 0x1_0000_0000 && start < 0x1_0000_0000
    requires U32(tail, 0) == 0x06054B50 && U16(tail, 4) == 0 && U16(tail, 6) == 0 && U16(tail, 8) == count && U16(tail, 10) == count
    requires U32(tail, 12) == size && U32(tail, 16) == start && U16(tail, 20) == 0
    ensures tail == EndRecord(count, size, start)
  {
    Le32OfU32(tail, 0);
    Le16OfU16(tail, 4);
    Le16OfU16(tail, 6);
    Le16OfU16(tail, 8);
    Le16OfU16(tail, 10);
    Le32OfU32(tail, 12);
    Le32OfU32(tail, 16);
    Le16OfU16(tail, 20);
    Pieces(tail);
  }

  lemma Pieces(t: Bytes)
    requires |t| == 22
    ensures t == t[0..4] + t[4..6] + t[6..8] + t[8..10] + t[10..12] + t[12..16] + t[16..20] + t[20..22]
  {
  }

  /** What an accepted end record says, read where it lies. */
  lemma EndRecordAccepted(data: Bytes, count: nat, limit: nat, start: nat, tail: Bytes)
    requires CatalogStart(data, count, limit) == Some(start) && tail == data[|data| - 22..]
    ensures (count == 4 || count == 5) && 22 <= |data| <= limit && start + 22 <= |data| && |data| - 22 - start < 0x1_0000_0000
    ensures tail == EndRecord(count, |data| - 22 - start, start)
  {
    var front := data[..|data| - 22];
    SplitAt(data, |data| - 22);
    TailReads(front, tail);
    EndRecordDetermined(tail, count, |data| - 22 - start, start);
  }

  /** Names accepted by the running set are pairwise different in lower case. */
  lemma {:induction false} LowersDiffer(lower: string -> string, rows: seq<Row>)
    requires DistinctNames(lower, rows)
    ensures forall i, j | 0 <= i < j < |rows| :: lower(rows[i].name) != lower(rows[j].name)
    decreases |rows|
  {
    if rows != [] {
      var init := rows[..|rows| - 1];
      LowersDiffer(lower, init);
      LowersMember(lower, init, lower(rows[|rows| - 1].name));
      assert forall i | 0 <= i < |init| :: init[i] == rows[i];
    }
  }

  /**
    Everything the validator has checked, about the bytes themselves: an accepted archive is local
    records, one ordinary row for each expected name that its local record repeats, and the one end
    record that fits them; archive and contents are within the limit.
  */
  lemma AcceptedBytes(t: Text, data: Bytes, expected: set<string>, limit: nat, rows: seq<Row>)
      returns (locals: Bytes, bs: seq<Bytes>)
    requires Accepted(t, data, expected, limit) == Some(rows)
    ensures |bs| == |expected| == |rows| && (|bs| == 4 || |bs| == 5) && |data| <= limit && Sum(RowSize(), rows) <= limit
    ensures |Concat(bs)| < 0x1_0000_0000 && |locals| < 0x1_0000_0000
    ensures data == locals + Concat(bs) + EndRecord(|expected|, |Concat(bs)|, |locals|)
    ensures forall i | 0 <= i < |bs| :: Explained(t, expected, locals, bs[i], rows[i])
    ensures forall i, j | 0 <= i < j < |rows| :: t.lower(rows[i].name) != t.lower(rows[j].name)
  {
    var read := RowReader(t, expected);
    RowReaderSound(t, expected);
    RowReaderLocal(t, expected);
    var start := Unpack(read, t.lower, data, expected, limit, rows);
    locals := data[..start];
    bs := CatalogIsShaped(read, expected, locals, data[start..|data| - END_RECORD], |expected|, rows);
    Unwrap(data, start);
    EndRecordAccepted(data, |expected|, limit, start, data[|data| - 22..]);
    LowersDiffer(t.lower, rows);
    forall i | 0 <= i < |bs| ensures Explained(t, expected, locals, bs[i], rows[i]) {
      RowExplained(t, expected, locals, bs[i], rows[i]);
    }
  }

  // ---- Reading the members of an accepted archive ----

  /** A row's local record is where, and as long as, its own header says, and announces the row's size. */
  predicate Backed(l: Bytes, r: Row) {
    && r.local + LOCAL_HEADER <= |l| && r.finish <= |l|
    && r.finish == r.local + LOCAL_HEADER + U16(l, r.local + 26) + U32(l, r.local + 18)
    && r.size == U32(l, r.local + 22)
  }

  ghost predicate Backs(read: Reader) {
    forall l, c :: read(l, c).Some? ==> Backed(l, read(l, c).value)
  }

  lemma RowReaderBacks(t: Text, expected: set<string>)
    ensures Backs(RowReader(t, expected))
  {
  }

  lemma {:induction false} RowsBacked(read: Reader, locals: Bytes, central: Bytes, n: nat, rows: seq<Row>)
    requires Backs(read) && ReadRows(read, locals, central, n) == Some(rows)
    ensures forall i | 0 <= i < |rows| :: Backed(locals, rows[i])
    decreases n
  {
    if n > 0 {
      ReadHead(read, locals, central, n, rows);
      RowsBacked(read, locals, central[rows[0].length..], n - 1, rows[1..]);
      forall i | 0 <= i < |rows| ensures Backed(locals, rows[i]) {
        if i > 0 { assert rows[i] == rows[1..][i - 1]; }
      }
    }
  }

  lemma BackedInData(data: Bytes, start: nat, r: Row)
    requires start <= |data| && Backed(data[..start], r)
    ensures Contained(data, r.local) && r.finish == r.local + LOCAL_HEADER + U16(data, r.local + 26) + U32(data, r.local + 18) <= start
  {
    LocalReads(data, start, r.local);
  }

  /** The record of each member of an accepted archive lies before the catalog, by its own length fields. */
  lemma {:induction false} MemberIsContained(t: Text, data: Bytes, expected: set<string>, limit: nat, rows: seq<Row>, i: nat)
      returns (start: nat)
    requires Accepted(t, data, expected, limit) == Some(rows) && i < |rows|
    ensures CatalogStart(data, |expected|, limit) == Some(start) && Contained(data, rows[i].local)
    ensures rows[i].finish == rows[i].local + LOCAL_HEADER + U16(data, rows[i].local + 26) + U32(data, rows[i].local + 18) <= start
  {
    var read := RowReader(t, expected);
    start := Unpack(read, t.lower, data, expected, limit, rows);
    RowReaderBacks(t, expected);
    RowsBacked(read, data[..start], data[start..|data| - END_RECORD], |expected|, rows);
    BackedInData(data, start, rows[i]);
  }

  lemma ContainedHasItsSize(d: Decoder, data: Bytes, local: nat, size: nat, content: Bytes)
    requires Contained(data, local) && ReadMember(d, data, local, size) == Some(content)
    ensures |content| == size && d.crc(content) == U32(data, local + 14)
  {
  }

  /**
    Whatever a member of an accepted archive decodes to has the size the catalog announced for it and
    the checksum in its header.
  */
  lemma {:induction false} MemberHasItsSize(t: Text, d: Decoder, data: Bytes, expected: set<string>, limit: nat, rows: seq<Row>, i: nat, content: Bytes)
    requires Accepted(t, data, expected, limit) == Some(rows) && i < |rows|
    requires ReadMember(d, data, rows[i].local, rows[i].size) == Some(content)
    ensures |content| == rows[i].size && rows[i].local + LOCAL_HEADER <= |data| && d.crc(content) == U32(data, rows[i].local + 14)
  {
    var start := MemberIsContained(t, data, expected, limit, rows, i);
    ContainedHasItsSize(d, data, rows[i].local, rows[i].size, content);
  }
}
