/** The catalog as a whole: the end record, the scan over all rows, and the walk over the local records. */
module ZipCatalog {
  import opened Bytes
  import opened Seqs
  import opened Perms
  import opened ZipRow

  /** Exactly `n` rows, with nothing after them. */
  function ReadRows(read: Reader, locals: Bytes, central: Bytes, n: nat): (rs: Option<seq<Row>>)
    ensures rs.Some? ==> |rs.value| == n
    decreases n
  {
    if n == 0 then (if central == [] then Some([]) else None)
    else
      var r := read(locals, central);
      if r.None? || r.value.length > |central| then None
      else Prepend([r.value], ReadRows(read, locals, central[r.value.length..], n - 1))
  }

  function Prepend(rows: seq<Row>, rest: Option<seq<Row>>): Option<seq<Row>> {
    if rest.None? then None else Some(rows + rest.value)
  }

  /** Where the catalog starts, when size, inventory and end record are sound. */
  function CatalogStart(data: Bytes, count: nat, limit: nat): (start: Option<nat>)
    ensures start.Some? ==> |data| >= END_RECORD && start.value == U32(data, |data| - 6)
    ensures start.Some? ==> start.value + U32(data, |data| - 10) + END_RECORD == |data| <= limit
  {
    if (count != 4 && count != 5) || |data| < END_RECORD || |data| > limit then None
    else
      var end := |data| - END_RECORD;
      if || U32(data, end) != END_SIGNATURE || U16(data, end + 20) != 0
         || U16(data, end + 4) != 0 || U16(data, end + 6) != 0
         || U16(data, end + 8) != count || U16(data, end + 10) != count
         || U32(data, end + 16) + U32(data, end + 12) != end
      then None else Some(U32(data, end + 16))
  }

  function RowSize(): Row -> nat { (r: Row) => r.size }
  function RowSpan(): Row -> Span { (r: Row) => Span(r.local, r.finish) }

  function Lowers(lower: string -> string, rows: seq<Row>): set<string> {
    if rows == [] then {} else Lowers(lower, rows[..|rows| - 1]) + {lower(rows[|rows| - 1].name)}
  }

  /** No two rows have names that are alike in lower case. */
  predicate DistinctNames(lower: string -> string, rows: seq<Row>) {
    rows == [] ||
    (lower(rows[|rows| - 1].name) !in Lowers(lower, rows[..|rows| - 1]) && DistinctNames(lower, rows[..|rows| - 1]))
  }

  /** What has to hold of the rows together: no two names alike, a bounded total, no byte uncovered. */
  predicate Consistent(lower: string -> string, rows: seq<Row>, start: nat, limit: nat) {
    && WithinTotals(lower, limit, rows)
    && Tiles(Sort(Map(RowSpan(), rows)), 0, start)
  }

  function Sizes(rows: seq<Row>): map<string, nat> {
    if rows == [] then map[] else Sizes(rows[..|rows| - 1])[rows[|rows| - 1].name := rows[|rows| - 1].size]
  }

  /** The rows in `central`, when they are consistent with each other and with the bytes before them. */
  function ConsistentRows(read: Reader, lower: string -> string, locals: Bytes, central: Bytes, n: nat, limit: nat): Option<seq<Row>> {
    var rows := ReadRows(read, locals, central, n);
    if rows.None? || !Consistent(lower, rows.value, |locals|, limit) then None else rows
  }

  /** The rows of an admitted archive. */
  function AdmittedRows(read: Reader, lower: string -> string, data: Bytes, expected: set<string>, limit: nat): Option<seq<Row>> {
    var start := CatalogStart(data, |expected|, limit);
    if start.None? then None
    else ConsistentRows(read, lower, data[..start.value], data[start.value..|data| - END_RECORD], |expected|, limit)
  }

  /** The meaning of admission: the decoded size of each member, or a refusal. */
  function Catalog(read: Reader, lower: string -> string, data: Bytes, expected: set<string>, limit: nat): Option<map<string, nat>> {
    SizesOf(AdmittedRows(read, lower, data, expected, limit))
  }

  function SizesOf(rows: Option<seq<Row>>): Option<map<string, nat>> {
    if rows.None? then None else Some(Sizes(rows.value))
  }

  // ---- The scan, with its running totals ----

  /** The running variables of the scan. */
  datatype Tables = Tables(total: nat, sizes: map<string, nat>, names: set<string>, ranges: seq<Span>)

  /** What they hold after `rows`. */
  ghost function TablesOf(lower: string -> string, rows: seq<Row>): Tables {
    Tables(Sum(RowSize(), rows), Sizes(rows), Lowers(lower, rows), Map(RowSpan(), rows))
  }

  /** The running variables extended by one row, unless it repeats a name or overruns the limit. */
  function Tally(lower: string -> string, limit: nat, t: Tables, row: Row): Option<Tables> {
    if lower(row.name) in t.names || t.total + row.size > limit then None
    else Some(Tables(t.total + row.size, t.sizes[row.name := row.size], t.names + {lower(row.name)},
                     t.ranges + [Span(row.local, row.finish)]))
  }

  type Step<!A> = (A, Row) -> Option<A>

  function Fold<A>(step: Step<A>, a: A, rows: seq<Row>): Option<A> {
    if rows == [] then Some(a)
    else
      var next := step(a, rows[0]);
      if next.None? then None else Fold(step, next.value, rows[1..])
  }

  /** The scan over the rows in `central`, carrying the running variables `a`. */
  function Scan<A>(read: Reader, step: Step<A>, locals: Bytes, central: Bytes, n: nat, a: A): Option<A>
    decreases n
  {
    if n == 0 then (if central == [] then Some(a) else None)
    else
      var r := read(locals, central);
      if r.None? || r.value.length > |central| then None
      else
        var next := step(a, r.value);
        if next.None? then None else Scan(read, step, locals, central[r.value.length..], n - 1, next.value)
  }

  /** Checking while reading decides what reading everything and then checking decides. */
  lemma {:induction false} ScanIsFold<A>(read: Reader, step: Step<A>, locals: Bytes, central: Bytes, n: nat, a: A)
    ensures var rows := ReadRows(read, locals, central, n);
            Scan(read, step, locals, central, n, a) == if rows.None? then None else Fold(step, a, rows.value)
    decreases n
  {
    if n > 0 {
      var r := read(locals, central);
      if r.Some? && r.value.length <= |central| && step(a, r.value).Some? {
        ScanIsFold(read, step, locals, central[r.value.length..], n - 1, step(a, r.value).value);
      }
    }
  }

  /** The scanning loop: the offset moves from row to row, whatever is carried along. */
  method ScanRows<A>(t: Text, expected: set<string>, ghost read: Reader, step: Step<A>, data: Bytes, count: nat, start: nat, end: nat, init: A)
      returns (r: Option<A>)
    requires start <= end <= |data| && read == RowReader(t, expected)
    ensures r == Scan(read, step, data[..start], data[start..end], count, init)
  {
    hide ReadRow;
    ghost var all := Scan(read, step, data[..start], data[start..end], count, init);
    ghost var central := data[start..end];
    var offset: nat, left: nat, a := start, count, init;
    while left > 0
      invariant start <= offset <= end && central == data[offset..end]
      invariant all == Scan(read, step, data[..start], central, left, a)
    {
      var row := ScanRow(t, data, expected, start, end, offset);
      if !row.Some? || row.value.length > end - offset { return None; }
      var next := step(a, row.value);
      if !next.Some? { return None; }
      central := central[row.value.length..];
      offset := offset + row.value.length;
      a, left := next.value, left - 1;
    }
    return if offset == end then Some(a) else None;
  }

  predicate WithinTotals(lower: string -> string, limit: nat, rows: seq<Row>) {
    DistinctNames(lower, rows) && Sum(RowSize(), rows) <= limit
  }

  /** Adding a row at the end keeps the totals exactly if its name is new and its size still fits. */
  lemma {:induction false} WithinOneMore(lower: string -> string, limit: nat, rows: seq<Row>, row: Row)
    requires WithinTotals(lower, limit, rows)
    ensures WithinTotals(lower, limit, rows + [row]) <==>
              lower(row.name) !in Lowers(lower, rows) && Sum(RowSize(), rows) + row.size <= limit
  {
    LastOf(rows, row);
    SumOneMore(rows, row);
  }

  lemma LastOf(rows: seq<Row>, row: Row)
    ensures (rows + [row])[..|rows + [row]| - 1] == rows && (rows + [row])[|rows + [row]| - 1] == row
  {
  }

  lemma {:induction false} SumOneMore(rows: seq<Row>, row: Row)
    ensures Sum(RowSize(), rows + [row]) == Sum(RowSize(), rows) + row.size
  {
    SumConcat(RowSize(), rows, [row]);
  }

  lemma {:induction false} SpansOneMore(rows: seq<Row>, row: Row)
    ensures Map(RowSpan(), rows + [row]) == Map(RowSpan(), rows) + [Span(row.local, row.finish)]
  {
    MapConcat(RowSpan(), rows, [row]);
    assert Map(RowSpan(), [row]) == [Span(row.local, row.finish)];
  }

  lemma {:induction false} TablesOneMore(lower: string -> string, rows: seq<Row>, row: Row)
    ensures TablesOf(lower, rows + [row]) ==
              Tables(Sum(RowSize(), rows) + row.size, Sizes(rows)[row.name := row.size], Lowers(lower, rows) + {lower(row.name)},
                     Map(RowSpan(), rows) + [Span(row.local, row.finish)])
  {
    LastOf(rows, row);
    SumOneMore(rows, row);
    SpansOneMore(rows, row);
  }

  lemma {:induction false} TallyOne(lower: string -> string, limit: nat, rows: seq<Row>, row: Row)
    requires WithinTotals(lower, limit, rows)
    ensures Tally(lower, limit, TablesOf(lower, rows), row) ==
              if WithinTotals(lower, limit, rows + [row]) then Some(TablesOf(lower, rows + [row])) else None
  {
    WithinOneMore(lower, limit, rows, row);
    TablesOneMore(lower, rows, row);
  }

  function TallyStep(lower: string -> string, limit: nat): Step<Tables> {
    (t: Tables, row: Row) => Tally(lower, limit, t, row)
  }

  /** The running totals and the running name set decide what the checks on all rows together decide. */
  lemma {:induction false} TallyDecides(lower: string -> string, limit: nat, rows: seq<Row>, more: seq<Row>)
    requires WithinTotals(lower, limit, rows)
    ensures Fold(TallyStep(lower, limit), TablesOf(lower, rows), more) ==
              if WithinTotals(lower, limit, rows + more) then Some(TablesOf(lower, rows + more)) else None
    decreases |more|
  {
    if more == [] {
      EmptyRight(rows);
    } else {
      var row := more[0];
      TallyOne(lower, limit, rows, row);
      HeadTail(more);
      Assoc(rows, [row], more[1..]);
      if WithinTotals(lower, limit, rows + [row]) {
        TallyDecides(lower, limit, rows + [row], more[1..]);
      } else {
        TotalsOfPrefix(lower, limit, rows + [row], more[1..]);
      }
    }
  }

  lemma TotalsOfPrefix(lower: string -> string, limit: nat, a: seq<Row>, b: seq<Row>)
    ensures WithinTotals(lower, limit, a + b) ==> WithinTotals(lower, limit, a)
  {
    LowersConcat(lower, a, b);
    SumConcat(RowSize(), a, b);
  }

  method ValidateRows(t: Text, expected: set<string>, ghost read: Reader, data: Bytes, start: nat, end: nat, limit: nat)
      returns (r: Option<map<string, nat>>)
    requires start <= end <= |data| && read == RowReader(t, expected)
    ensures r == SizesOf(ConsistentRows(read, t.lower, data[..start], data[start..end], |expected|, limit))
  {
    var tables := ScanRows(t, expected, read, TallyStep(t.lower, limit), data, |expected|, start, end, Tables(0, map[], {}, []));
    ScanVerdict(read, t.lower, limit, data[..start], data[start..end], |expected|);
    if !tables.Some? { return None; }
    var tiled := WalkRanges(tables.value.ranges, start);
    if !tiled { return None; }
    return Some(tables.value.sizes);
  }

  method ValidateCatalog(t: Text, data: Bytes, expected: set<string>, limit: nat)
      returns (r: Option<map<string, nat>>)
    ensures r == Catalog(RowReader(t, expected), t.lower, data, expected, limit)
  {
    ghost var read := RowReader(t, expected);
    var start := CatalogStart(data, |expected|, limit);
    if !start.Some? { return None; }
    r := ValidateRows(t, expected, read, data, start.value, |data| - END_RECORD, limit);
    CatalogFrom(read, t.lower, data, expected, limit, start.value);
  }

  lemma CatalogFrom(read: Reader, lower: string -> string, data: Bytes, expected: set<string>, limit: nat, start: nat)
    requires CatalogStart(data, |expected|, limit) == Some(start)
    ensures Catalog(read, lower, data, expected, limit) ==
              SizesOf(ConsistentRows(read, lower, data[..start], data[start..|data| - END_RECORD], |expected|, limit))
  {
  }

  lemma ScanVerdict(read: Reader, lower: string -> string, limit: nat, locals: Bytes, central: Bytes, n: nat)
    ensures var rows := ReadRows(read, locals, central, n);
            Scan(read, TallyStep(lower, limit), locals, central, n, Tables(0, map[], {}, [])) ==
              if rows.Some? && WithinTotals(lower, limit, rows.value) then Some(TablesOf(lower, rows.value)) else None
  {
    var none := Tables(0, map[], {}, []);
    ScanIsFold(read, TallyStep(lower, limit), locals, central, n, none);
    var rows := ReadRows(read, locals, central, n);
    assert Map(RowSpan(), []) == [];
    if rows.Some? {
      TallyDecides(lower, limit, [], rows.value);
      EmptyLeft(rows.value);
    }
  }

  /** The walk over the sorted local records. */
  method WalkRanges(ranges: seq<Span>, start: nat) returns (ok: bool)
    ensures ok <==> Tiles(Sort(ranges), 0, start)
  {
    var sorted := Sort(ranges);
    var previous := 0;
    WholeSlices(sorted);
    for i := 0 to |sorted|
      invariant Tiles(sorted, 0, start) <==> Tiles(sorted[i..], previous, start)
    {
      if sorted[i].begin != previous { return false; }
      DropDrop(sorted, i, 1);
      previous := sorted[i].finish;
    }
    return previous == start;
  }

  lemma {:induction false} LowersConcat(lower: string -> string, a: seq<Row>, b: seq<Row>)
    ensures Lowers(lower, a + b) == Lowers(lower, a) + Lowers(lower, b)
    ensures DistinctNames(lower, a + b) <==>
              DistinctNames(lower, a) && DistinctNames(lower, b) && Lowers(lower, a) !! Lowers(lower, b)
    decreases |b|
  {
    if b == [] {
      EmptyRight(a);
    } else {
      var init := b[..|b| - 1];
      assert (a + b)[..|a + b| - 1] == a + init;
      LowersConcat(lower, a, init);
    }
  }
}
