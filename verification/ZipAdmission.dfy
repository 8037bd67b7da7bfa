/** What admission of an archive guarantees, and what it does not depend on. */
module ZipAdmission {
  import opened Bytes
  import opened Seqs
  import opened Perms
  import opened ZipRow
  import opened ZipCatalog

  /** A row is as long as its name field says, its local record lies before the catalog, its name is expected. */
  predicate SoundRow(l: Bytes, c: Bytes, r: Row, expected: set<string>) {
    && |c| >= CENTRAL_HEADER && r.length == CENTRAL_HEADER + U16(c, 28) <= |c|
    && r.local < r.finish <= |l| && r.name in expected
  }

  ghost predicate Sound(read: Reader, expected: set<string>) {
    forall l, c :: read(l, c).Some? ==> SoundRow(l, c, read(l, c).value, expected)
  }

  lemma RowReaderSound(t: Text, expected: set<string>)
    ensures Sound(RowReader(t, expected), expected)
  {
  }

  // ---- Every byte belongs to exactly one record ----

  function CentralSpans(from: nat, rows: seq<Row>): (s: seq<Span>)
    ensures |s| == |rows|
    decreases |rows|
  {
    if rows == [] then [] else [Span(from, from + rows[0].length)] + CentralSpans(from + rows[0].length, rows[1..])
  }

  /** A successful reading is a first row and a reading of the rest. */
  lemma ReadHead(read: Reader, locals: Bytes, central: Bytes, n: nat, rows: seq<Row>)
    requires n > 0 && ReadRows(read, locals, central, n) == Some(rows)
    ensures read(locals, central).Some? && rows[0] == read(locals, central).value && rows[0].length <= |central|
    ensures ReadRows(read, locals, central[rows[0].length..], n - 1) == Some(rows[1..])
  {
    var r := read(locals, central).value;
    var rest := ReadRows(read, locals, central[r.length..], n - 1).value;
    assert rows == [r] + rest;
  }

  lemma SpansHead(from: nat, rows: seq<Row>)
    requires rows != []
    ensures CentralSpans(from, rows)[0] == Span(from, from + rows[0].length)
    ensures CentralSpans(from, rows)[1..] == CentralSpans(from + rows[0].length, rows[1..])
  {
  }

  lemma {:induction false} CentralTiles(read: Reader, locals: Bytes, central: Bytes, n: nat, rows: seq<Row>, from: nat)
    requires ReadRows(read, locals, central, n) == Some(rows)
    ensures Tiles(CentralSpans(from, rows), from, from + |central|)
    decreases n
  {
    if n > 0 {
      ReadHead(read, locals, central, n, rows);
      CentralTiles(read, locals, central[rows[0].length..], n - 1, rows[1..], from + rows[0].length);
      SpansHead(from, rows);
    }
  }

  lemma {:induction false} CentralForward(from: nat, rows: seq<Row>)
    ensures forall i | 0 <= i < |rows| :: CentralSpans(from, rows)[i].begin <= CentralSpans(from, rows)[i].finish
    decreases |rows|
  {
    if rows != [] { CentralForward(from + rows[0].length, rows[1..]); }
  }

  lemma {:induction false} RowsSound(read: Reader, expected: set<string>, locals: Bytes, central: Bytes, n: nat, rows: seq<Row>)
    requires Sound(read, expected) && ReadRows(read, locals, central, n) == Some(rows)
    ensures forall i | 0 <= i < |rows| :: rows[i].local <= rows[i].finish && rows[i].name in expected
    decreases n
  {
    if n > 0 {
      ReadHead(read, locals, central, n, rows);
      assert SoundRow(locals, central, rows[0], expected);
      RowsSound(read, expected, locals, central[rows[0].length..], n - 1, rows[1..]);
    }
  }

  lemma Unpack(read: Reader, lower: string -> string, data: Bytes, expected: set<string>, limit: nat, rows: seq<Row>)
      returns (start: nat)
    requires AdmittedRows(read, lower, data, expected, limit) == Some(rows)
    ensures CatalogStart(data, |expected|, limit) == Some(start)
    ensures ReadRows(read, data[..start], data[start..|data| - END_RECORD], |expected|) == Some(rows)
    ensures Consistent(lower, rows, start, limit)
  {
    start := CatalogStart(data, |expected|, limit).value;
  }

  lemma LocalsCoverOnce(rows: seq<Row>, start: nat, p: nat)
    requires Tiles(Sort(Map(RowSpan(), rows)), 0, start)
    requires forall i | 0 <= i < |rows| :: rows[i].local <= rows[i].finish
    ensures Sum(Covers(p), Map(RowSpan(), rows)) == if p < start then 1 else 0
  {
    var spans := Map(RowSpan(), rows);
    SortedForward(spans);
    TilesCoverOnce(Sort(spans), 0, start, p);
    SumPermuted(Covers(p), spans, Sort(spans));
  }

  lemma CentralCoverOnce(read: Reader, locals: Bytes, central: Bytes, n: nat, rows: seq<Row>, from: nat, p: nat)
    requires ReadRows(read, locals, central, n) == Some(rows)
    ensures Sum(Covers(p), CentralSpans(from, rows)) == if from <= p < from + |central| then 1 else 0
  {
    CentralTiles(read, locals, central, n, rows, from);
    CentralForward(from, rows);
    TilesCoverOnce(CentralSpans(from, rows), from, from + |central|, p);
  }

  /**
    An admitted archive is partitioned exactly: each byte lies in exactly one local record, or in
    exactly one central row, or in the end record.
  */
  lemma EveryByteHasOneOwner(read: Reader, lower: string -> string, data: Bytes, expected: set<string>, limit: nat,
                             rows: seq<Row>, p: nat)
    requires Sound(read, expected) && AdmittedRows(read, lower, data, expected, limit) == Some(rows) && p < |data|
    ensures CatalogStart(data, |expected|, limit).Some?
    ensures Sum(Covers(p), Map(RowSpan(), rows))
          + Sum(Covers(p), CentralSpans(CatalogStart(data, |expected|, limit).value, rows))
          + (if p >= |data| - END_RECORD then 1 else 0) == 1
  {
    var start := Unpack(read, lower, data, expected, limit, rows);
    var central := data[start..|data| - END_RECORD];
    RowsSound(read, expected, data[..start], central, |expected|, rows);
    LocalsCoverOnce(rows, start, p);
    CentralCoverOnce(read, data[..start], central, |expected|, rows, start, p);
  }

  lemma SortedForward(spans: seq<Span>)
    requires forall i | 0 <= i < |spans| :: spans[i].begin <= spans[i].finish
    ensures forall i | 0 <= i < |Sort(spans)| :: Sort(spans)[i].begin <= Sort(spans)[i].finish
  {
    forall i | 0 <= i < |Sort(spans)| ensures Sort(spans)[i].begin <= Sort(spans)[i].finish {
      assert Sort(spans)[i] in multiset(Sort(spans));
      assert Sort(spans)[i] in multiset(spans);
    }
  }

  // ---- The members are exactly the expected ones ----

  lemma {:induction false} LowersMember(lower: string -> string, rows: seq<Row>, x: string)
    ensures x in Lowers(lower, rows) <==> exists i | 0 <= i < |rows| :: lower(rows[i].name) == x
    decreases |rows|
  {
    if rows != [] {
      var init := rows[..|rows| - 1];
      LowersMember(lower, init, x);
      assert forall i | 0 <= i < |init| :: init[i] == rows[i];
    }
  }

  /** Names alike in lower case are counted by the size of the running name set. */
  lemma {:induction false} DistinctIsCount(lower: string -> string, rows: seq<Row>)
    ensures |Lowers(lower, rows)| <= |rows|
    ensures DistinctNames(lower, rows) <==> |Lowers(lower, rows)| == |rows|
    decreases |rows|
  {
    if rows != [] {
      var init := rows[..|rows| - 1];
      DistinctIsCount(lower, init);
      if lower(rows[|rows| - 1].name) in Lowers(lower, init) {
        assert Lowers(lower, rows) == Lowers(lower, init);
      }
    }
  }

  function Same(): string -> string { (x: string) => x }

  lemma {:induction false} NamesDistinct(lower: string -> string, rows: seq<Row>)
    requires DistinctNames(lower, rows)
    ensures DistinctNames(Same(), rows)
    decreases |rows|
  {
    if rows != [] {
      var init, name := rows[..|rows| - 1], rows[|rows| - 1].name;
      NamesDistinct(lower, init);
      LowersMember(Same(), init, name);
      LowersMember(lower, init, lower(name));
    }
  }

  lemma {:induction false} SizesKeys(rows: seq<Row>)
    ensures Sizes(rows).Keys == Lowers(Same(), rows)
    decreases |rows|
  {
    if rows != [] { SizesKeys(rows[..|rows| - 1]); }
  }

  /** With distinct names the table holds each row's own size. */
  lemma {:induction false} SizesValue(rows: seq<Row>, r: Row)
    requires DistinctNames(Same(), rows) && r in rows
    ensures r.name in Sizes(rows) && Sizes(rows)[r.name] == r.size
    decreases |rows|
  {
    var init, row := rows[..|rows| - 1], rows[|rows| - 1];
    if r != row {
      assert r in init;
      SizesValue(init, r);
      SizesKeys(init);
    }
  }

  lemma SubsetOfSameSize<T>(a: set<T>, b: set<T>)
    requires a <= b && |a| == |b|
    ensures a == b
  {
    assert |b - a| == |b| - |a|;
    assert b == a + (b - a);
  }

  /** Distinct names, as many as expected and all expected, are exactly the expected names. */
  lemma MembersAreTheExpected(read: Reader, lower: string -> string, data: Bytes, expected: set<string>, limit: nat, rows: seq<Row>)
    requires Sound(read, expected) && AdmittedRows(read, lower, data, expected, limit) == Some(rows)
    ensures Catalog(read, lower, data, expected, limit) == Some(Sizes(rows)) && Sizes(rows).Keys == expected
    ensures forall r | r in rows :: r.name in Sizes(rows) && Sizes(rows)[r.name] == r.size
  {
    var start := Unpack(read, lower, data, expected, limit, rows);
    RowsSound(read, expected, data[..start], data[start..|data| - END_RECORD], |expected|, rows);
    NamesDistinct(lower, rows);
    DistinctIsCount(Same(), rows);
    SizesKeys(rows);
    forall x | x in Lowers(Same(), rows) ensures x in expected { LowersMember(Same(), rows, x); }
    SubsetOfSameSize(Lowers(Same(), rows), expected);
    forall r | r in rows ensures r.name in Sizes(rows) && Sizes(rows)[r.name] == r.size { SizesValue(rows, r); }
  }

  // ---- The order of the central rows does not matter ----

  /** A byte string that is one row by its own name length. */
  predicate RowShaped(b: Bytes) {
    |b| >= CENTRAL_HEADER && |b| == CENTRAL_HEADER + U16(b, 28)
  }

  /** Reading a row looks at no byte after it. */
  ghost predicate Local(read: Reader) {
    forall l, b, more :: RowShaped(b) ==>
      read(l, b + more) == read(l, b) && (read(l, b).Some? ==> read(l, b).value.length == |b|)
  }

  function Concat(bs: seq<Bytes>): Bytes {
    if bs == [] then [] else bs[0] + Concat(bs[1..])
  }

  function RowOf(read: Reader, locals: Bytes): Bytes -> Row {
    (b: Bytes) => var r := read(locals, b); if r.Some? then r.value else Row("", 0, 0, 0, 0)
  }

  predicate Readable(read: Reader, locals: Bytes, bs: seq<Bytes>) {
    forall b | b in bs :: read(locals, b).Some?
  }

  predicate AllShaped(bs: seq<Bytes>) {
    forall b | b in bs :: RowShaped(b)
  }

  /** A shaped row in front is read whatever follows, and reading goes on right after it. */
  lemma ReadFirst(read: Reader, locals: Bytes, b: Bytes, more: Bytes, n: nat)
    requires Local(read) && RowShaped(b)
    ensures ReadRows(read, locals, b + more, n) ==
              if n == 0 || read(locals, b).None? then None else Prepend([read(locals, b).value], ReadRows(read, locals, more, n - 1))
  {
    assert read(locals, b + more) == read(locals, b);
    ConcatSlices(b, more, |b|);
    assert b[|b|..] + more == more;
  }

  lemma RowsOfFirst(read: Reader, locals: Bytes, bs: seq<Bytes>)
    requires bs != []
    ensures Readable(read, locals, bs) <==> read(locals, bs[0]).Some? && Readable(read, locals, bs[1..])
    ensures Map(RowOf(read, locals), bs) == [RowOf(read, locals)(bs[0])] + Map(RowOf(read, locals), bs[1..])
  {
    HeadTail(bs);
    MapConcat(RowOf(read, locals), [bs[0]], bs[1..]);
    assert Map(RowOf(read, locals), [bs[0]]) == [RowOf(read, locals)(bs[0])];
  }

  /** What reading concatenated rows is to give. */
  ghost function ShapedRows(read: Reader, locals: Bytes, bs: seq<Bytes>, n: nat): Option<seq<Row>> {
    if n == |bs| && Readable(read, locals, bs) then Some(Map(RowOf(read, locals), bs)) else None
  }

  lemma ShapedRowsFirst(read: Reader, locals: Bytes, bs: seq<Bytes>, n: nat)
    requires bs != []
    ensures ShapedRows(read, locals, bs, n) ==
              if n == 0 || read(locals, bs[0]).None? then None
              else Prepend([read(locals, bs[0]).value], ShapedRows(read, locals, bs[1..], n - 1))
  {
    RowsOfFirst(read, locals, bs);
  }

  lemma {:induction false} ReadShaped(read: Reader, expected: set<string>, locals: Bytes, bs: seq<Bytes>, n: nat)
    requires Sound(read, expected) && Local(read) && AllShaped(bs)
    ensures ReadRows(read, locals, Concat(bs), n) == ShapedRows(read, locals, bs, n)
    decreases |bs|
  {
    if bs == [] {
      if n > 0 { assert read(locals, []).None?; }
    } else {
      assert RowShaped(bs[0]) && AllShaped(bs[1..]);
      if n > 0 { ReadShaped(read, expected, locals, bs[1..], n - 1); }
      ReadFirst(read, locals, bs[0], Concat(bs[1..]), n);
      ShapedRowsFirst(read, locals, bs, n);
    }
  }

  lemma LowersPermuted(lower: string -> string, a: seq<Row>, b: seq<Row>)
    requires Permuted(a, b)
    ensures Lowers(lower, a) == Lowers(lower, b)
  {
    forall x ensures x in Lowers(lower, a) <==> x in Lowers(lower, b) {
      LowersMember(lower, a, x);
      LowersMember(lower, b, x);
      assert forall i | 0 <= i < |a| :: a[i] in multiset(b);
      assert forall i | 0 <= i < |b| :: b[i] in multiset(a);
      assert forall i | 0 <= i < |a| :: a[i] in b;
      assert forall i | 0 <= i < |b| :: b[i] in a;
    }
  }

  lemma ConsistentPermuted(lower: string -> string, a: seq<Row>, b: seq<Row>, start: nat, limit: nat)
    requires Permuted(a, b)
    ensures Consistent(lower, a, start, limit) <==> Consistent(lower, b, start, limit)
  {
    assert |multiset(a)| == |multiset(b)|;
    LowersPermuted(lower, a, b);
    DistinctIsCount(lower, a);
    DistinctIsCount(lower, b);
    SumPermuted(RowSize(), a, b);
    MapPermuted(RowSpan(), a, b);
    SortPermuted(Map(RowSpan(), a), Map(RowSpan(), b));
  }

  lemma SizesPermuted(lower: string -> string, a: seq<Row>, b: seq<Row>)
    requires Permuted(a, b) && DistinctNames(lower, a) && DistinctNames(lower, b)
    ensures Sizes(a) == Sizes(b)
  {
    NamesDistinct(lower, a);
    NamesDistinct(lower, b);
    SizesKeys(a);
    SizesKeys(b);
    LowersPermuted(Same(), a, b);
    forall x | x in Sizes(a) ensures Sizes(a)[x] == Sizes(b)[x] {
      LowersMember(Same(), a, x);
      var i :| 0 <= i < |a| && a[i].name == x;
      assert a[i] in multiset(b);
      SizesValue(a, a[i]);
      SizesValue(b, a[i]);
    }
  }

  /** What the rows read from shaped bytes are judged by. */
  ghost function Verdict(lower: string -> string, rows: seq<Row>, start: nat, limit: nat): Option<map<string, nat>> {
    if Consistent(lower, rows, start, limit) then Some(Sizes(rows)) else None
  }

  lemma {:induction false} VerdictPermuted(lower: string -> string, a: seq<Row>, b: seq<Row>, start: nat, limit: nat)
    requires Permuted(a, b)
    ensures Verdict(lower, a, start, limit) == Verdict(lower, b, start, limit)
  {
    ConsistentPermuted(lower, a, b, start, limit);
    if Consistent(lower, a, start, limit) { SizesPermuted(lower, a, b); }
  }

  lemma {:induction false} ShapedVerdict(read: Reader, lower: string -> string, expected: set<string>, locals: Bytes, bs: seq<Bytes>, n: nat, limit: nat)
    requires Sound(read, expected) && Local(read) && AllShaped(bs)
    ensures SizesOf(ConsistentRows(read, lower, locals, Concat(bs), n, limit)) ==
              if n == |bs| && Readable(read, locals, bs) then Verdict(lower, Map(RowOf(read, locals), bs), |locals|, limit) else None
  {
    ReadShaped(read, expected, locals, bs, n);
  }

  lemma SameMembers<T>(a: seq<T>, b: seq<T>)
    requires Permuted(a, b)
    ensures |a| == |b| && forall x :: x in a <==> x in b
  {
    assert |multiset(a)| == |multiset(b)|;
    assert forall x :: x in multiset(a) <==> x in a;
    assert forall x :: x in multiset(b) <==> x in b;
  }

  lemma {:induction false} RowsPermuted(read: Reader, lower: string -> string, expected: set<string>, locals: Bytes,
                     bs: seq<Bytes>, bs': seq<Bytes>, n: nat, limit: nat)
    requires Sound(read, expected) && Local(read) && AllShaped(bs) && Permuted(bs, bs')
    ensures SizesOf(ConsistentRows(read, lower, locals, Concat(bs), n, limit)) ==
            SizesOf(ConsistentRows(read, lower, locals, Concat(bs'), n, limit))
  {
    SameMembers(bs, bs');
    ShapedVerdict(read, lower, expected, locals, bs, n, limit);
    ShapedVerdict(read, lower, expected, locals, bs', n, limit);
    MapPermuted(RowOf(read, locals), bs, bs');
    VerdictPermuted(lower, Map(RowOf(read, locals), bs), Map(RowOf(read, locals), bs'), |locals|, limit);
  }

  lemma {:induction false} ConcatLength(bs: seq<Bytes>)
    ensures |Concat(bs)| == Sum(Length(), bs)
    decreases |bs|
  {
    if bs != [] { ConcatLength(bs[1..]); }
  }

  function Length(): Bytes -> nat { (b: Bytes) => |b| }

  lemma StartFromTail(front: Bytes, front': Bytes, tail: Bytes, count: nat, limit: nat)
    requires |front| == |front'| && |tail| == END_RECORD
    ensures CatalogStart(front + tail, count, limit) == CatalogStart(front' + tail, count, limit)
  {
    TailReads(front, tail);
    TailReads(front', tail);
  }

  lemma TailReads(front: Bytes, tail: Bytes)
    requires |tail| == END_RECORD
    ensures var d, e := front + tail, |front|;
            && U32(d, e) == U32(tail, 0) && U16(d, e + 20) == U16(tail, 20) && U16(d, e + 4) == U16(tail, 4)
            && U16(d, e + 6) == U16(tail, 6) && U16(d, e + 8) == U16(tail, 8) && U16(d, e + 10) == U16(tail, 10)
            && U32(d, e + 16) == U32(tail, 16) && U32(d, e + 12) == U32(tail, 12)
  {
  }

  /**
    Reordering the central rows of an archive changes neither whether it is admitted nor the
    table of sizes, although the scan keeps running totals and a running set of names.
  */
  lemma RowOrderIsIrrelevant(read: Reader, lower: string -> string, expected: set<string>, limit: nat,
                             locals: Bytes, bs: seq<Bytes>, bs': seq<Bytes>, tail: Bytes)
    requires Sound(read, expected) && Local(read) && AllShaped(bs) && Permuted(bs, bs')
    requires |tail| == END_RECORD && U32(tail, 16) == |locals|
    ensures Catalog(read, lower, locals + Concat(bs) + tail, expected, limit) ==
            Catalog(read, lower, locals + Concat(bs') + tail, expected, limit)
  {
    ConcatLength(bs);
    ConcatLength(bs');
    SumPermuted(Length(), bs, bs');
    StartFromTail(locals + Concat(bs), locals + Concat(bs'), tail, |expected|, limit);
    if CatalogStart(locals + Concat(bs) + tail, |expected|, limit).Some? {
      ArchiveParts(locals, Concat(bs), tail, |expected|, limit);
      ArchiveParts(locals, Concat(bs'), tail, |expected|, limit);
      RowsPermuted(read, lower, expected, locals, bs, bs', |expected|, limit);
    }
  }

  lemma ArchiveParts(locals: Bytes, central: Bytes, tail: Bytes, count: nat, limit: nat)
    requires |tail| == END_RECORD && U32(tail, 16) == |locals|
    requires CatalogStart(locals + central + tail, count, limit).Some?
    ensures var data := locals + central + tail;
            && CatalogStart(data, count, limit) == Some(|locals|)
            && data[..|locals|] == locals && data[|locals|..|data| - END_RECORD] == central
  {
    TailReads(locals + central, tail);
    var data := locals + central + tail;
    assert data[..|locals|] == locals && data[|locals|..|data| - END_RECORD] == central;
  }

  lemma RowReaderLocal(t: Text, expected: set<string>)
    ensures Local(RowReader(t, expected))
  {
    forall l: Bytes, b: Bytes, more: Bytes | RowShaped(b)
      ensures ReadRow(t, expected, l, b + more) == ReadRow(t, expected, l, b)
    {
      RowIgnoresRest(t, expected, l, b, more);
    }
  }

  lemma RowIgnoresRest(t: Text, expected: set<string>, l: Bytes, b: Bytes, more: Bytes)
    requires RowShaped(b)
    ensures ReadRow(t, expected, l, b + more) == ReadRow(t, expected, l, b)
  {
    PrefixReads(b, more);
    assert (b + more)[CENTRAL_HEADER..|b|] == b[CENTRAL_HEADER..|b|];
  }

  lemma PrefixReads(h: Bytes, more: Bytes)
    requires |h| >= CENTRAL_HEADER
    ensures var b := h + more;
            && U32(b, 0) == U32(h, 0) && U16(b, 8) == U16(h, 8) && U16(b, 10) == U16(h, 10) && U32(b, 16) == U32(h, 16)
            && U32(b, 20) == U32(h, 20) && U32(b, 24) == U32(h, 24) && U16(b, 28) == U16(h, 28) && U16(b, 30) == U16(h, 30)
            && U16(b, 32) == U16(h, 32) && U16(b, 34) == U16(h, 34) && U32(b, 38) == U32(h, 38) && U32(b, 42) == U32(h, 42)
  {
  }
}
