/**
  Admission of a Windows release archive: local records, central rows and the end record have to
  agree with each other and to cover every byte. The layouts are those of sections 4.3.7, 4.3.12
  and 4.3.16 of PKWARE's APPNOTE. UTF-8 decoding and lower-casing are parameters.
*/
module ZipRow {
  import opened Bytes

  const LOCAL_SIGNATURE := 0x04034B50
  const CENTRAL_SIGNATURE := 0x02014B50
  const END_SIGNATURE := 0x06054B50
  const LOCAL_HEADER := 30
  const CENTRAL_HEADER := 46
  const END_RECORD := 22
  const UTF8_FLAG := 0x0800

  datatype Text = Text(decode: Bytes -> Option<string>, lower: string -> string)

  /** What one central row and the local record it points at establish. */
  datatype Row = Row(name: string, size: nat, local: nat, finish: nat, length: nat)

  /** Neither a link, nor a reparse point, nor a directory. */
  predicate OrdinaryFile(attributes: nat)
    requires attributes < 0x1_0000_0000
  {
    && attributes / 0x1000_0000 in {0, 8}
    && attributes / 0x10 % 2 == 0
    && attributes / 0x400 % 2 == 0
  }

  /** The checks on a central row at the front of `central`, without its local record. */
  predicate PlainRow(central: Bytes) {
    && |central| >= CENTRAL_HEADER
    && U32(central, 0) == CENTRAL_SIGNATURE
    && U16(central, 8) in {0, UTF8_FLAG}
    && U16(central, 10) in {0, 8}
    && U16(central, 30) == 0 && U16(central, 32) == 0 && U16(central, 34) == 0
    && CENTRAL_HEADER + U16(central, 28) <= |central|
    && OrdinaryFile(U32(central, 38))
  }

  function RowName(central: Bytes): Bytes
    requires PlainRow(central)
  {
    central[CENTRAL_HEADER..CENTRAL_HEADER + U16(central, 28)]
  }

  /** The local header at `local` repeats the fields of the central header at `row`. */
  predicate SameFields(locals: Bytes, local: nat, central: Bytes, row: nat)
    requires local + LOCAL_HEADER <= |locals| && row + CENTRAL_HEADER <= |central|
  {
    && U32(locals, local) == LOCAL_SIGNATURE
    && U16(locals, local + 6) == U16(central, row + 8)
    && U16(locals, local + 8) == U16(central, row + 10)
    && U32(locals, local + 14) == U32(central, row + 16)
    && U32(locals, local + 18) == U32(central, row + 20)
    && U32(locals, local + 22) == U32(central, row + 24)
    && U16(locals, local + 26) == U16(central, row + 28)
    && U16(locals, local + 28) == 0
  }

  /** The row's local record lies before the catalog and repeats everything the row says. */
  predicate LocalAgrees(locals: Bytes, central: Bytes)
    requires PlainRow(central)
  {
    var local, n := U32(central, 42), U16(central, 28);
    && local + LOCAL_HEADER + n + U32(central, 20) <= |locals|
    && SameFields(locals, local, central, 0)
    && locals[local + LOCAL_HEADER..local + LOCAL_HEADER + n] == RowName(central)
  }

  function ReadRow(t: Text, expected: set<string>, locals: Bytes, central: Bytes): (r: Option<Row>)
    ensures r.Some? ==> CENTRAL_HEADER <= r.value.length <= |central| && r.value.local < r.value.finish <= |locals|
    ensures r.Some? ==> r.value.name in expected
  {
    if !PlainRow(central) || !LocalAgrees(locals, central) then None
    else
      var name := t.decode(RowName(central));
      var local, n := U32(central, 42), U16(central, 28);
      if name.None? || name.value !in expected then None
      else Some(Row(name.value, U32(central, 24), local, local + LOCAL_HEADER + n + U32(central, 20), CENTRAL_HEADER + n))
  }

  /** How the catalog reads a row, given the bytes before the catalog and the rest of it. */
  type Reader = (Bytes, Bytes) -> Option<Row>

  function RowReader(t: Text, expected: set<string>): Reader {
    (locals: Bytes, central: Bytes) => ReadRow(t, expected, locals, central)
  }

  /** The central half of the row checks, by absolute positions as the scanner reads them. */
  method CheckCentral(data: Bytes, offset: nat, end: nat) returns (ok: bool)
    requires offset <= end <= |data|
    ensures ok <==> PlainRow(data[offset..end])
  {
    if offset + CENTRAL_HEADER > end { return false; }
    RowReads(data, offset, end);
    if U32(data, offset) != CENTRAL_SIGNATURE { return false; }
    var flags, kind := U16(data, offset + 8), U16(data, offset + 10);
    if flags !in {0, UTF8_FLAG} || kind !in {0, 8} { return false; }
    if U16(data, offset + 30) != 0 || U16(data, offset + 32) != 0 || U16(data, offset + 34) != 0 { return false; }
    if offset + CENTRAL_HEADER + U16(data, offset + 28) > end { return false; }
    return OrdinaryFile(U32(data, offset + 38));
  }

  /** The local half of the row checks, by absolute positions. */
  predicate AgreesAt(data: Bytes, start: nat, offset: nat, local: nat, nameLength: nat, compressed: nat)
    requires start <= |data| && offset + CENTRAL_HEADER + nameLength <= |data|
  {
    && local + LOCAL_HEADER + nameLength + compressed <= start
    && SameFields(data, local, data, offset)
    && data[local + LOCAL_HEADER..local + LOCAL_HEADER + nameLength] == data[offset + CENTRAL_HEADER..offset + CENTRAL_HEADER + nameLength]
  }

  lemma AgreesWith(data: Bytes, start: nat, offset: nat, end: nat, local: nat, nameLength: nat, compressed: nat)
    requires start <= offset && offset + CENTRAL_HEADER + nameLength <= end <= |data| && PlainRow(data[offset..end])
    requires local == U32(data[offset..end], 42) && nameLength == U16(data[offset..end], 28) && compressed == U32(data[offset..end], 20)
    ensures LocalAgrees(data[..start], data[offset..end]) <==> AgreesAt(data, start, offset, local, nameLength, compressed)
  {
    if local + LOCAL_HEADER + nameLength + compressed <= start {
      SameFieldsShift(data, start, local, offset, end);
      TakeSlice(data, start, local + LOCAL_HEADER, local + LOCAL_HEADER + nameLength);
      MidSlice(data, offset, end, CENTRAL_HEADER, CENTRAL_HEADER + nameLength);
    }
  }

  lemma AgreesAnywhere(data: Bytes, start: nat, offset: nat, end: nat)
    requires start <= offset <= end <= |data| && PlainRow(data[offset..end])
    ensures offset + CENTRAL_HEADER + U16(data, offset + 28) <= end
    ensures LocalAgrees(data[..start], data[offset..end]) <==>
              AgreesAt(data, start, offset, U32(data, offset + 42), U16(data, offset + 28), U32(data, offset + 20))
  {
    RowReads(data, offset, end);
    AgreesWith(data, start, offset, end, U32(data, offset + 42), U16(data, offset + 28), U32(data, offset + 20));
  }

  /** The local half of the row checks. */
  method CheckLocal(data: Bytes, start: nat, offset: nat, end: nat) returns (ok: bool)
    requires start <= offset <= end <= |data| && PlainRow(data[offset..end])
    ensures ok <==> LocalAgrees(data[..start], data[offset..end])
  {
    AgreesAnywhere(data, start, offset, end);
    ok := CheckLocalAt(data, start, offset);
  }

  method CheckLocalAt(data: Bytes, start: nat, offset: nat) returns (ok: bool)
    requires start <= |data| && offset + CENTRAL_HEADER <= |data| && offset + CENTRAL_HEADER + U16(data, offset + 28) <= |data|
    ensures ok <==> AgreesAt(data, start, offset, U32(data, offset + 42), U16(data, offset + 28), U32(data, offset + 20))
  {
    var compressed, nameLength := U32(data, offset + 20), U16(data, offset + 28);
    var local := U32(data, offset + 42);
    if local + LOCAL_HEADER > start { return false; }
    if !SameFields(data, local, data, offset) { return false; }
    var names := local + LOCAL_HEADER;
    if names + nameLength > |data| || names + nameLength + compressed > start { return false; }
    return data[names..names + nameLength] == data[offset + CENTRAL_HEADER..offset + CENTRAL_HEADER + nameLength];
  }

  lemma SameFieldsShift(data: Bytes, start: nat, local: nat, offset: nat, end: nat)
    requires local + LOCAL_HEADER <= start <= |data| && offset + CENTRAL_HEADER <= end <= |data|
    ensures SameFields(data[..start], local, data[offset..end], 0) <==> SameFields(data, local, data, offset)
  {
    RowReads(data, offset, end);
    LocalReads(data, start, local);
  }

  lemma MidSlice<T>(s: seq<T>, from: nat, to: nat, i: nat, j: nat)
    requires i <= j && from + j <= to <= |s|
    ensures s[from..to][i..j] == s[from + i..from + j]
  {
    var a, b := s[from..to][i..j], s[from + i..from + j];
    assert |a| == |b|;
    forall k | 0 <= k < |a| ensures a[k] == b[k] {
      assert a[k] == s[from..to][i + k] == s[from + i + k];
    }
  }

  method ScanRow(t: Text, data: Bytes, expected: set<string>, start: nat, end: nat, offset: nat) returns (r: Option<Row>)
    requires start <= offset <= end <= |data|
    ensures r == RowReader(t, expected)(data[..start], data[offset..end])
  {
    var central := CheckCentral(data, offset, end);
    if !central { return None; }
    RowReads(data, offset, end);
    var nameLength := U16(data, offset + 28);
    var rawName := data[offset + CENTRAL_HEADER..offset + CENTRAL_HEADER + nameLength];
    assert RowName(data[offset..end]) == rawName;
    var agrees := CheckLocal(data, start, offset, end);
    if !agrees { return None; }
    var name := t.decode(rawName);
    if !name.Some? || name.value !in expected { return None; }
    var local := U32(data, offset + 42);
    var finish := local + LOCAL_HEADER + nameLength + U32(data, offset + 20);
    return Some(Row(name.value, U32(data, offset + 24), local, finish, CENTRAL_HEADER + nameLength));
  }

  lemma TakeSlice<T>(s: seq<T>, to: nat, i: nat, j: nat)
    requires i <= j <= to <= |s|
    ensures s[..to][i..j] == s[i..j]
  {
  }

  lemma RowReads(data: Bytes, offset: nat, end: nat)
    requires offset + CENTRAL_HEADER <= end <= |data|
    ensures var central := data[offset..end];
            && U32(central, 0) == U32(data, offset) && U16(central, 8) == U16(data, offset + 8)
            && U16(central, 10) == U16(data, offset + 10) && U32(central, 16) == U32(data, offset + 16)
            && U32(central, 20) == U32(data, offset + 20) && U32(central, 24) == U32(data, offset + 24)
            && U16(central, 28) == U16(data, offset + 28) && U16(central, 30) == U16(data, offset + 30)
            && U16(central, 32) == U16(data, offset + 32) && U16(central, 34) == U16(data, offset + 34)
            && U32(central, 38) == U32(data, offset + 38) && U32(central, 42) == U32(data, offset + 42)
  {
  }

  lemma LocalReads(data: Bytes, start: nat, local: nat)
    requires local + LOCAL_HEADER <= start <= |data|
    ensures var locals := data[..start];
            && U32(locals, local) == U32(data, local) && U16(locals, local + 6) == U16(data, local + 6)
            && U16(locals, local + 8) == U16(data, local + 8) && U32(locals, local + 14) == U32(data, local + 14)
            && U32(locals, local + 18) == U32(data, local + 18) && U32(locals, local + 22) == U32(data, local + 22)
            && U16(locals, local + 26) == U16(data, local + 26) && U16(locals, local + 28) == U16(data, local + 28)
  {
  }
}
