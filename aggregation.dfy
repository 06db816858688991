/**
 * The aggregation table of one input file (parser.go, `processFile`): for each
 * timestamp text and price text, the cumulative buy, sell and set amounts and
 * the id of the last event folded into the bucket.
 *
 * Amounts are float64 in the source; here they are exact `real`s, so sums are
 * exact and the order of additions does not matter.
 */
module Aggregation {
  import opened Wrappers
  import opened Decimal

  /** `CumulativeAmounts` (parser.go:20-25). */
  datatype Bucket = Bucket(buyAmount: real, sellAmount: real, setAmount: real, beginId: string)

  const EmptyBucket: Bucket := Bucket(0.0, 0.0, 0.0, "")

  /** The columns of an event record that the fold records. */
  datatype Row = Row(timestamp: string, action: string, price: string, amount: string, beginId: string)

  /** Column positions of an event record. */
  const TimestampColumn: nat := 0
  const ActionColumn: nat := 2
  const PriceColumn: nat := 3
  const AmountColumn: nat := 4
  const BeginIdColumn: nat := 5

  /** One result of the CSV reader: a record, or a read error that is logged and skipped. */
  datatype CsvRead = Record(fields: seq<string>) | ReadFailure

  /** timestamp text -> price text -> bucket. */
  type Table = map<string, map<string, Bucket>>

  /**
   * The row of a record; None for a record too short to hold the begin-id
   * column, on which the source's field indexing fails.
   */
  function RowOf(fields: seq<string>): (r: Option<Row>)
    ensures r.Some? <==> BeginIdColumn < |fields|
  {
    if |fields| <= BeginIdColumn then None
    else Some(Row(fields[TimestampColumn], fields[ActionColumn], fields[PriceColumn],
                  fields[AmountColumn], fields[BeginIdColumn]))
  }

  function Lookup(t: Table, ts: string, price: string): Option<Bucket> {
    if ts in t && price in t[ts] then Some(t[ts][price]) else None
  }

  /** The bucket for (ts, price), or a fresh zero bucket when there is none. */
  function BucketOr(t: Table, ts: string, price: string): Bucket {
    if ts in t && price in t[ts] then t[ts][price] else EmptyBucket
  }

  /** `amount` when `action` is the one named, 0 otherwise. */
  function CreditFor(action: string, named: string, amount: real): real {
    if action == named then amount else 0.0
  }

  /**
   * Folding one row (parser.go:181-212): a row whose amount does not parse is
   * skipped; otherwise the (timestamp, price) bucket is created if absent, its
   * begin id is overwritten, and the amount is added to the buy, sell or set
   * total for action "make", "take" or "set" (any other action adds nothing).
   */
  function FoldRow(t: Table, row: Row): (r: Table)
    ensures ParseDecimal(row.amount).None? ==> r == t
    ensures ParseDecimal(row.amount).Some? ==>
      var a, before := ParseDecimal(row.amount).value, BucketOr(t, row.timestamp, row.price);
      Lookup(r, row.timestamp, row.price) == Some(Bucket(
        before.buyAmount + CreditFor(row.action, "make", a),
        before.sellAmount + CreditFor(row.action, "take", a),
        before.setAmount + CreditFor(row.action, "set", a),
        row.beginId))
    ensures forall ts, p :: (ts != row.timestamp || p != row.price) ==> Lookup(r, ts, p) == Lookup(t, ts, p)
    ensures forall ts :: ts in t ==> ts in r && t[ts].Keys <= r[ts].Keys
  {
    match ParseDecimal(row.amount)
    case None => t
    case Some(a) =>
      var prices := if row.timestamp in t then t[row.timestamp] else map[];
      var before := if row.price in prices then prices[row.price] else EmptyBucket;
      var stamped := before.(beginId := row.beginId);
      var after :=
        if row.action == "make" then stamped.(buyAmount := stamped.buyAmount + a)
        else if row.action == "take" then stamped.(sellAmount := stamped.sellAmount + a)
        else if row.action == "set" then stamped.(setAmount := stamped.setAmount + a)
        else stamped;
      t[row.timestamp := prices[row.price := after]]
  }

  /** Folding rows in file order. */
  function FoldAll(t: Table, rows: seq<Row>): Table
    decreases |rows|
  {
    if rows == [] then t else FoldAll(FoldRow(t, rows[0]), rows[1..])
  }

  /** The row has a parsable amount and belongs to bucket (ts, price). */
  predicate Touches(row: Row, ts: string, price: string) {
    row.timestamp == ts && row.price == price && ParseDecimal(row.amount).Some?
  }

  /** What one row adds to the `action` total of bucket (ts, price). */
  function RowCredit(row: Row, ts: string, price: string, action: string): real {
    if Touches(row, ts, price) then CreditFor(row.action, action, ParseDecimal(row.amount).value) else 0.0
  }

  /** Sum of the amounts of the rows of bucket (ts, price) whose action is `action`. */
  function Credited(rows: seq<Row>, ts: string, price: string, action: string): real {
    if rows == [] then 0.0
    else RowCredit(rows[0], ts, price, action) + Credited(rows[1..], ts, price, action)
  }

  /** The begin id of the last row of bucket (ts, price), if any. */
  function LastBeginId(rows: seq<Row>, ts: string, price: string): Option<string> {
    if rows == [] then None
    else
      match LastBeginId(rows[1..], ts, price)
      case Some(id) => Some(id)
      case None => if Touches(rows[0], ts, price) then Some(rows[0].beginId) else None
  }

  /** Rows that never touch a bucket credit nothing to it. */
  lemma {:induction false} UntouchedCredited(rows: seq<Row>, ts: string, price: string, action: string)
    requires LastBeginId(rows, ts, price).None?
    ensures Credited(rows, ts, price, action) == 0.0
    decreases |rows|
  {
    if rows != [] {
      UntouchedCredited(rows[1..], ts, price, action);
    }
  }

  /** Bucket `b` with the amounts of `rows` for bucket (ts, price) added and begin id `id`. */
  function Accumulated(b: Bucket, rows: seq<Row>, ts: string, price: string, id: string): Bucket {
    Bucket(b.buyAmount + Credited(rows, ts, price, "make"),
           b.sellAmount + Credited(rows, ts, price, "take"),
           b.setAmount + Credited(rows, ts, price, "set"),
           id)
  }

  /** FoldRow's contract, for one bucket. */
  lemma FoldRowBucket(t: Table, row: Row, ts: string, price: string)
    ensures Lookup(FoldRow(t, row), ts, price) ==
      if Touches(row, ts, price) then Some(Accumulated(BucketOr(t, ts, price), [row], ts, price, row.beginId))
      else Lookup(t, ts, price)
    ensures BucketOr(FoldRow(t, row), ts, price) ==
      if Touches(row, ts, price) then Accumulated(BucketOr(t, ts, price), [row], ts, price, row.beginId)
      else BucketOr(t, ts, price)
  {
    var r := FoldRow(t, row);
    assert [row][1..] == [];
    if Touches(row, ts, price) {
      assert Credited([row], ts, price, "make") == RowCredit(row, ts, price, "make");
      assert Credited([row], ts, price, "take") == RowCredit(row, ts, price, "take");
      assert Credited([row], ts, price, "set") == RowCredit(row, ts, price, "set");
    } else {
      assert Lookup(r, ts, price) == Lookup(t, ts, price);
    }
  }

  /**
   * The whole fold, bucket by bucket: a bucket exists afterwards exactly when
   * it existed before or some row with a parsable amount touched it; its
   * totals are the earlier totals plus the amounts of its make, take and set
   * rows; its begin id is that of the last such row (last write wins).
   */
  lemma {:induction false} FoldAllBucket(t: Table, rows: seq<Row>, ts: string, price: string)
    ensures Lookup(FoldAll(t, rows), ts, price) ==
      if LastBeginId(rows, ts, price).None? then Lookup(t, ts, price)
      else Some(Accumulated(BucketOr(t, ts, price), rows, ts, price, LastBeginId(rows, ts, price).value))
    decreases |rows|
  {
    if rows != [] {
      var row, rest := rows[0], rows[1..];
      var t1 := FoldRow(t, row);
      FoldAllBucket(t1, rest, ts, price);
      FoldRowBucket(t, row, ts, price);
      var b0, b1 := BucketOr(t, ts, price), BucketOr(t1, ts, price);
      OneRowCredit(b0, row, ts, price);
      match LastBeginId(rest, ts, price)
      case Some(id) =>
        AccumulatedCons(b0, b1, rows, ts, price, id);
      case None =>
        UntouchedCredited(rest, ts, price, "make");
        UntouchedCredited(rest, ts, price, "take");
        UntouchedCredited(rest, ts, price, "set");
        if Touches(row, ts, price) {
          AccumulatedCons(b0, b1, rows, ts, price, row.beginId);
        }
    }
  }

  /** One touching row adds its own credit to each total. */
  lemma OneRowCredit(b: Bucket, row: Row, ts: string, price: string)
    ensures var r := Accumulated(b, [row], ts, price, row.beginId);
      r.buyAmount == b.buyAmount + RowCredit(row, ts, price, "make")
      && r.sellAmount == b.sellAmount + RowCredit(row, ts, price, "take")
      && r.setAmount == b.setAmount + RowCredit(row, ts, price, "set")
  {
    assert [row][0] == row && [row][1..] == [];
    assert Credited([row], ts, price, "make") == RowCredit(row, ts, price, "make");
    assert Credited([row], ts, price, "take") == RowCredit(row, ts, price, "take");
    assert Credited([row], ts, price, "set") == RowCredit(row, ts, price, "set");
  }

  /** Crediting the first row, then the rest, credits all rows. */
  lemma AccumulatedCons(b0: Bucket, b1: Bucket, rows: seq<Row>, ts: string, price: string, id: string)
    requires rows != []
    requires b1.buyAmount == b0.buyAmount + RowCredit(rows[0], ts, price, "make")
    requires b1.sellAmount == b0.sellAmount + RowCredit(rows[0], ts, price, "take")
    requires b1.setAmount == b0.setAmount + RowCredit(rows[0], ts, price, "set")
    ensures Accumulated(b1, rows[1..], ts, price, id) == Accumulated(b0, rows, ts, price, id)
  {
  }

  lemma {:induction false} CreditedConcat(a: seq<Row>, b: seq<Row>, ts: string, price: string, action: string)
    ensures Credited(a + b, ts, price, action) == Credited(a, ts, price, action) + Credited(b, ts, price, action)
  {
    if a != [] {
      assert (a + b)[1..] == a[1..] + b;
      CreditedConcat(a[1..], b, ts, price, action);
    } else {
      assert a + b == b;
    }
  }

  /** Taking one row out of the middle takes out its credit. */
  lemma CreditedRemove(b: seq<Row>, i: nat, ts: string, price: string, action: string)
    requires i < |b|
    ensures Credited(b, ts, price, action)
         == RowCredit(b[i], ts, price, action) + Credited(b[..i] + b[i + 1..], ts, price, action)
  {
    assert b == b[..i] + ([b[i]] + b[i + 1..]);
    CreditedConcat(b[..i], [b[i]] + b[i + 1..], ts, price, action);
    assert ([b[i]] + b[i + 1..])[1..] == b[i + 1..];
    CreditedConcat(b[..i], b[i + 1..], ts, price, action);
  }

  lemma MultisetRemove(a: seq<Row>, b: seq<Row>, i: nat)
    requires multiset(a) == multiset(b) && a != [] && i < |b| && b[i] == a[0]
    ensures multiset(a[1..]) == multiset(b[..i] + b[i + 1..])
  {
    var rest := b[..i] + b[i + 1..];
    calc {
      multiset(b);
      { assert b == b[..i] + [b[i]] + b[i + 1..]; }
      multiset(b[..i] + [b[i]] + b[i + 1..]);
      multiset(b[..i]) + multiset{b[i]} + multiset(b[i + 1..]);
      multiset(rest) + multiset{a[0]};
    }
    calc {
      multiset(a);
      { assert a == [a[0]] + a[1..]; }
      multiset(a[1..]) + multiset{a[0]};
    }
    assert multiset(a[1..]) == multiset(a) - multiset{a[0]};
    assert multiset(rest) == multiset(b) - multiset{a[0]};
  }

  /** Totals do not depend on the order of the rows. */
  lemma {:induction false} CreditedPermutation(a: seq<Row>, b: seq<Row>, ts: string, price: string, action: string)
    requires multiset(a) == multiset(b)
    ensures Credited(a, ts, price, action) == Credited(b, ts, price, action)
    decreases |a|
  {
    if a == [] {
      assert |multiset(b)| == 0;
    } else {
      assert a[0] in multiset(b);
      var i :| 0 <= i < |b| && b[i] == a[0];
      MultisetRemove(a, b, i);
      CreditedPermutation(a[1..], b[..i] + b[i + 1..], ts, price, action);
      CreditedRemove(b, i, ts, price, action);
    }
  }

  /**
   * Reading an input file's records (parser.go:157-214): read errors are
   * skipped; None when a record is too short to index, where the source panics.
   */
  function FoldReads(t: Table, records: seq<CsvRead>): Option<Table>
    decreases |records|
  {
    if records == [] then Some(t)
    else match records[0]
      case ReadFailure => FoldReads(t, records[1..])
      case Record(fields) =>
        match RowOf(fields)
        case None => None
        case Some(row) => FoldReads(FoldRow(t, row), records[1..])
  }

  /** The rows of the records that were read, in file order. */
  function RowsRead(records: seq<CsvRead>): seq<Row> {
    if records == [] then []
    else match records[0]
      case ReadFailure => RowsRead(records[1..])
      case Record(fields) =>
        match RowOf(fields)
        case None => RowsRead(records[1..])
        case Some(row) => [row] + RowsRead(records[1..])
  }

  /** No record is too short. */
  predicate AllRecordsComplete(records: seq<CsvRead>) {
    forall i :: 0 <= i < |records| && records[i].Record? ==> BeginIdColumn < |records[i].fields|
  }

  /**
   * Reading a file either fails on a short record or is the fold of the rows
   * read, in file order.
   */
  lemma {:induction false} FoldReadsIsFoldAll(t: Table, records: seq<CsvRead>)
    ensures FoldReads(t, records).Some? <==> AllRecordsComplete(records)
    ensures FoldReads(t, records).Some? ==> FoldReads(t, records).value == FoldAll(t, RowsRead(records))
    decreases |records|
  {
    if records != [] {
      assert forall i :: 0 < i < |records| ==> records[1..][i - 1] == records[i];
      match records[0]
      case ReadFailure =>
        FoldReadsIsFoldAll(t, records[1..]);
      case Record(fields) =>
        match RowOf(fields)
        case None =>
        case Some(row) =>
          FoldReadsIsFoldAll(FoldRow(t, row), records[1..]);
          assert ([row] + RowsRead(records[1..]))[1..] == RowsRead(records[1..]);
    }
  }

  /** Every timestamp of the table has at least one price bucket. */
  predicate NoEmptyTimestamp(t: Table) {
    forall ts :: ts in t ==> t[ts] != map[]
  }

  /**
   * A timestamp entry is only ever created together with a bucket
   * (parser.go:188-196), so a table read from records has no empty timestamp.
   */
  lemma {:induction false} FoldReadsNoEmptyTimestamp(t: Table, records: seq<CsvRead>)
    requires NoEmptyTimestamp(t)
    ensures FoldReads(t, records).Some? ==> NoEmptyTimestamp(FoldReads(t, records).value)
    decreases |records|
  {
    if records != [] {
      match records[0]
      case ReadFailure =>
        FoldReadsNoEmptyTimestamp(t, records[1..]);
      case Record(fields) =>
        match RowOf(fields)
        case None =>
        case Some(row) =>
          var t1 := FoldRow(t, row);
          assert NoEmptyTimestamp(t1) by {
            forall ts | ts in t1 ensures t1[ts] != map[] {
              if ts == row.timestamp && ParseDecimal(row.amount).Some? {
                assert Lookup(t1, ts, row.price).Some?;
                assert row.price in t1[ts];
              } else {
                assert ts in t;
                var p :| p in t[ts];
                assert Lookup(t1, ts, p) == Lookup(t, ts, p);
              }
            }
          }
          FoldReadsNoEmptyTimestamp(t1, records[1..]);
    }
  }

  /**
   * The aggregation table a file's row loop builds in place: a nested map that
   * the loop creates buckets in and updates.
   */
  class AmountsTable {
    var buckets: Table

    constructor ()
      ensures buckets == map[]
    {
      buckets := map[];
    }

    /** Fold one row into the table (parser.go:181-212). */
    method Fold(row: Row)
      modifies this
      ensures buckets == FoldRow(old(buckets), row)
    {
      var parsed := ParseDecimal(row.amount);
      if parsed.None? {
        return;
      }
      var amount := parsed.value;
      // look up or create the timestamp map and the price bucket
      var prices := if row.timestamp in buckets then buckets[row.timestamp] else map[];
      var b := if row.price in prices then prices[row.price] else EmptyBucket;
      b := b.(beginId := row.beginId);
      if row.action == "make" {
        b := b.(buyAmount := b.buyAmount + amount);
      } else if row.action == "take" {
        b := b.(sellAmount := b.sellAmount + amount);
      } else if row.action == "set" {
        b := b.(setAmount := b.setAmount + amount);
      }
      buckets := buckets[row.timestamp := prices[row.price := b]];
    }
  }

  /**
   * The row loop of one input file: a fresh table, each record folded in file
   * order; None when a record is too short to index.
   */
  method AggregateFile(records: seq<CsvRead>) returns (table: Option<Table>)
    ensures table == FoldReads(map[], records)
  {
    var amounts := new AmountsTable();
    for i := 0 to |records|
      invariant FoldReads(map[], records) == FoldReads(amounts.buckets, records[i..])
    {
      assert records[i..][1..] == records[i + 1..];
      match records[i]
      case ReadFailure =>
      case Record(fields) =>
        var row := RowOf(fields);
        if row.None? {
          return None;
        }
        amounts.Fold(row.value);
    }
    return Some(amounts.buckets);
  }
}
