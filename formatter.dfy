/**
 * The tick formatter (parser.go, `ssFormatter`): the output path of a ticker
 * and date folder, the source time of a timestamp, and the tick lines that an
 * aggregation table turns into.
 */
module Formatter {
  import opened Wrappers
  import opened Text
  import opened Decimal
  import opened Calendar
  import opened Aggregation

  /** Amounts whose magnitude is at most this are treated as zero. */
  const Epsilon: real := 0.00000001

  const RecordType: string := "P"
  const Venue: string := "IEX"
  const BuySide: nat := 1
  const SellSide: nat := 2
  const OutputDir: string := "parsed_data"

  /**
   * One output line before the amount is rendered: source time (written twice),
   * begin id, side code and price text; record type and venue are fixed.
   */
  datatype TickLine = TickLine(sourceTime: string, beginId: string, side: nat, price: string, amount: real)

  function Abs(x: real): real {
    if x < 0.0 then -x else x
  }

  /**
   * The lines of one bucket (parser.go:290-301): a buy line (side 1) when the
   * buy total is not near zero, then a sell line (side 2) when the sell total
   * is not near zero. The set total is never written.
   */
  function BucketLines(sourceTime: string, price: string, b: Bucket): (lines: seq<TickLine>)
    ensures |lines| <= 2
    ensures (|lines| > 0 && lines[0].side == BuySide) <==> Abs(b.buyAmount) > Epsilon
    ensures (|lines| > 0 && lines[|lines| - 1].side == SellSide) <==> Abs(b.sellAmount) > Epsilon
    ensures forall i :: 0 <= i < |lines| ==>
      && lines[i].sourceTime == sourceTime && lines[i].price == price && lines[i].beginId == b.beginId
      && (lines[i].side == BuySide || lines[i].side == SellSide)
      && lines[i].amount == (if lines[i].side == BuySide then b.buyAmount else b.sellAmount)
    ensures forall i, j :: 0 <= i < j < |lines| ==> lines[i].side < lines[j].side
  {
    (if Abs(b.buyAmount) > Epsilon then [TickLine(sourceTime, b.beginId, BuySide, price, b.buyAmount)] else [])
    + (if Abs(b.sellAmount) > Epsilon then [TickLine(sourceTime, b.beginId, SellSide, price, b.sellAmount)] else [])
  }

  /**
   * The fields of a line in output order: source time twice, begin id, record
   * type, venue, side, price, amount, three empty fields and "0". The amount's
   * "%f" text is given, since float formatting is not modelled.
   */
  function LineFields(line: TickLine, amountText: string): seq<string> {
    [line.sourceTime, line.sourceTime, line.beginId, RecordType, Venue, PadNat(line.side, 1),
     line.price, amountText, "", "", "", "0"]
  }

  /** The texts a line carries hold no comma, and its side is a buy or a sell. */
  predicate CommaFree(line: TickLine, amountText: string) {
    && ',' !in line.sourceTime && ',' !in line.beginId && ',' !in line.price && ',' !in amountText
    && (line.side == BuySide || line.side == SellSide)
  }

  /**
   * The text of one tick line (parser.go:291 and 297): its fields joined by
   * commas. When the texts it carries hold no comma, it splits at its commas
   * into exactly its twelve fields, so price and begin id come out verbatim.
   */
  function RenderLine(line: TickLine, amountText: string): (r: string)
    ensures CommaFree(line, amountText) ==> Split(r, ',') == LineFields(line, amountText)
  {
    var r := Join(LineFields(line, amountText), ',');
    if CommaFree(line, amountText) then
      JoinedFieldsSplit(line, amountText);
      r
    else r
  }

  lemma JoinedFieldsSplit(line: TickLine, amountText: string)
    requires CommaFree(line, amountText)
    ensures Split(Join(LineFields(line, amountText), ','), ',') == LineFields(line, amountText)
  {
    SideText(line.side);
    FieldsWithoutComma(line, amountText);
    SplitJoin(LineFields(line, amountText), ',');
  }

  lemma FieldsWithoutComma(line: TickLine, amountText: string)
    requires ',' !in line.sourceTime && ',' !in line.beginId && ',' !in line.price && ',' !in amountText
    requires PadNat(line.side, 1) == "1" || PadNat(line.side, 1) == "2"
    ensures forall p :: p in LineFields(line, amountText) ==> ',' !in p
  {
    var fields := LineFields(line, amountText);
    forall i | 0 <= i < |fields| ensures ',' !in fields[i] {
      if i == 5 {
        assert fields[5] == "1" || fields[5] == "2";
      }
    }
  }

  /** The "%d" text of a side code. */
  lemma SideText(side: nat)
    requires side == BuySide || side == SellSide
    ensures PadNat(side, 1) == if side == BuySide then "1" else "2"
  {
    assert FixedDigits(side, 1) == FixedDigits(side / 10, 0) + [DigitChar(side % 10)];
  }

  /**
   * The source time of a timestamp text (parser.go:252-264): the UTC time of
   * its whole seconds, '.', and six digits of microseconds. None when the
   * text does not parse, and (a limit of this model) when it is negative.
   */
  function SourceTime(ts: string): (r: Option<string>)
    ensures r.Some? <==> ParseDecimal(ts).Some? && ParseDecimal(ts).value >= 0.0
  {
    match ParseDecimal(ts)
    case None => None
    case Some(v) =>
      if v < 0.0 then None
      else Some(UtcText(WholeSeconds(v)) + "." + FixedDigits(Microseconds(v), 6))
  }

  /** The whole seconds of a nonnegative time (Go's truncating `int64` conversion). */
  function WholeSeconds(v: real): nat
    requires v >= 0.0
  {
    v.Floor
  }

  /** The microseconds past the whole second, truncated. */
  function Microseconds(v: real): (micro: nat)
    requires v >= 0.0
    ensures micro < 1000000
  {
    ((v - v.Floor as real) * 1000000.0).Floor
  }

  /** Texts joined at a '.' after equally long heads come apart into the same pieces. */
  lemma SameSplit(u1: string, f1: string, u2: string, f2: string)
    requires |u1| == |u2| && u1 + "." + f1 == u2 + "." + f2
    ensures u1 == u2 && f1 == f2
  {
    var r := u1 + "." + f1;
    assert u1 == r[..|u1|] == u2;
    assert f1 == r[|u1| + 1..] == f2;
  }

  /**
   * Before year 10000 the source time identifies the instant to the
   * microsecond: two timestamps with the same source time agree on their
   * whole seconds and on their microseconds.
   */
  lemma SourceTimeDetermines(a: string, b: string)
    requires SourceTime(a).Some? && SourceTime(a) == SourceTime(b)
    requires FromUnix(WholeSeconds(ParseDecimal(a).value)).date.year < 10000
    requires FromUnix(WholeSeconds(ParseDecimal(b).value)).date.year < 10000
    ensures WholeSeconds(ParseDecimal(a).value) == WholeSeconds(ParseDecimal(b).value)
    ensures Microseconds(ParseDecimal(a).value) == Microseconds(ParseDecimal(b).value)
  {
    var va, vb := ParseDecimal(a).value, ParseDecimal(b).value;
    var sa, sb := WholeSeconds(va), WholeSeconds(vb);
    var ma, mb := Microseconds(va), Microseconds(vb);
    var ua, ub := UtcText(sa), UtcText(sb);
    var fa, fb := FixedDigits(ma, 6), FixedDigits(mb, 6);
    DateTimeTextLayout(FromUnix(sa));
    DateTimeTextLayout(FromUnix(sb));
    assert ua + "." + fa == ub + "." + fb;
    SameSplit(ua, fa, ub, fb);
    UtcTextInjective(sa, sb);
    assert Pow10(6) == 1000000;
    DigitsValueOfFixed(ma, 6);
    DigitsValueOfFixed(mb, 6);
  }

  // As in Calendar, the worked example is split into small lemmas, one per
  // step, to keep the verifier's work on string literals small.

  /** The timestamp text "1641085200.4" is the source time 2022-01-02 01:00:00.400000 (UTC). */
  lemma SourceTimeExample()
    ensures SourceTime("1641085200.4") == Some("2022-01-02 01:00:00.400000")
  {
    var v := 1641085200.4;
    assert SourceTime("1641085200.4") == Some(UtcText(1641085200) + "." + FixedDigits(400000, 6)) by {
      ExampleTimestampValue();
      assert v.Floor == 1641085200;
      assert WholeSeconds(v) == 1641085200;
      assert Microseconds(v) == 400000;
    }
    UtcTextExample();
    ExampleMicrosecondsText();
    ExampleSourceTimeText();
  }

  lemma ExampleSourceTimeText()
    ensures "2022-01-02 01:00:00" + "." + "400000" == "2022-01-02 01:00:00.400000"
  {
  }

  lemma ExampleTimestampValue()
    ensures ParseDecimal("1641085200.4") == Some(1641085200.4)
  {
    ExampleTimestampText();
    assert Pow10(1) == 10;
    DecimalRoundTrip(1641085200, 4, 1);
  }

  lemma ExampleTimestampText()
    ensures DecimalText(1641085200, 4, 1) == "1641085200.4"
  {
    ExampleSecondsText();
    assert FixedDigits(4, 1) == FixedDigits(0, 0) + [DigitChar(4)] == "4";
    assert DecimalText(1641085200, 4, 1) == NatText(1641085200) + ("." + FixedDigits(4, 1));
    assert "1641085200" + ".4" == "1641085200.4";
  }

  lemma ExampleSecondsText()
    ensures NatText(1641085200) == "1641085200"
  {
    ExampleSecondsWidth();
    ExampleSecondsDigits();
  }

  lemma ExampleSecondsWidth()
    ensures NumDigits(1641085200) == 10
  {
    assert NumDigits(1) == 1;
    assert NumDigits(16) == 2;
    assert NumDigits(164) == 3;
    assert NumDigits(1641) == 4;
    assert NumDigits(16410) == 5;
    assert NumDigits(164108) == 6;
    assert NumDigits(1641085) == 7;
    assert NumDigits(16410852) == 8;
    assert NumDigits(164108520) == 9;
  }

  lemma ExampleSecondsDigits()
    ensures FixedDigits(1641085200, 10) == "1641085200"
  {
    ExampleLeadingDigits();
    assert FixedDigits(164108, 6) == "16410" + [DigitChar(8)] == "164108";
    assert FixedDigits(1641085, 7) == "164108" + [DigitChar(5)] == "1641085";
    assert FixedDigits(16410852, 8) == "1641085" + [DigitChar(2)] == "16410852";
    assert FixedDigits(164108520, 9) == "16410852" + [DigitChar(0)] == "164108520";
    assert FixedDigits(1641085200, 10) == "164108520" + [DigitChar(0)] == "1641085200";
  }

  lemma ExampleLeadingDigits()
    ensures FixedDigits(16410, 5) == "16410"
  {
    assert FixedDigits(1, 1) == FixedDigits(0, 0) + [DigitChar(1)] == "1";
    assert FixedDigits(16, 2) == "1" + [DigitChar(6)] == "16";
    assert FixedDigits(164, 3) == "16" + [DigitChar(4)] == "164";
    assert FixedDigits(1641, 4) == "164" + [DigitChar(1)] == "1641";
    assert FixedDigits(16410, 5) == "1641" + [DigitChar(0)] == "16410";
  }

  lemma ExampleMicrosecondsText()
    ensures FixedDigits(400000, 6) == "400000"
  {
    assert FixedDigits(4, 1) == FixedDigits(0, 0) + [DigitChar(4)] == "4";
    assert FixedDigits(40, 2) == "4" + [DigitChar(0)] == "40";
    assert FixedDigits(400, 3) == "40" + [DigitChar(0)] == "400";
    assert FixedDigits(4000, 4) == "400" + [DigitChar(0)] == "4000";
    assert FixedDigits(40000, 5) == "4000" + [DigitChar(0)] == "40000";
    assert FixedDigits(400000, 6) == "40000" + [DigitChar(0)] == "400000";
  }

  /** The folder-name parse with layout "2006-01-02" (parser.go:232). */
  function ParseFolderDate(folder: string): (r: Option<Date>)
    ensures r.Some? ==> ValidDate(r.value) && 0 <= r.value.year < 10000
    ensures r.Some? ==> DateText(r.value) == folder
  {
    if |folder| != 10 || folder[4] != '-' || folder[7] != '-'
       || !AllDigits(folder[..4]) || !AllDigits(folder[5..7]) || !AllDigits(folder[8..])
    then None
    else
      var d := Date(DigitsValue(folder[..4]), DigitsValue(folder[5..7]), DigitsValue(folder[8..]));
      if ValidDate(d) then
        FolderText(folder, d);
        Some(d)
      else None
  }

  /** A "YYYY-MM-DD" name is the text of the date its digits spell. */
  lemma FolderText(folder: string, d: Date)
    requires |folder| == 10 && folder[4] == '-' && folder[7] == '-'
    requires AllDigits(folder[..4]) && AllDigits(folder[5..7]) && AllDigits(folder[8..])
    requires d == Date(DigitsValue(folder[..4]), DigitsValue(folder[5..7]), DigitsValue(folder[8..]))
    requires ValidDate(d)
    ensures DateText(d) == folder
  {
    var y, m, day := folder[..4], folder[5..7], folder[8..];
    PadOfDigits(y);
    PadOfDigits(m);
    PadOfDigits(day);
    assert DateText(d) == y + "-" + m + "-" + day;
    assert folder == y + [folder[4]] + m + [folder[7]] + day;
  }

  /** A digit string is the padded text of its value at its own width. */
  lemma PadOfDigits(p: string)
    requires AllDigits(p)
    ensures PadNat(DigitsValue(p), |p|) == p
  {
    FixedOfDigitsValue(p);
  }

  /** A valid date's "2006-01-02" text parses back to it. */
  lemma FolderDateRoundTrip(d: Date)
    requires ValidDate(d) && 0 <= d.year < 10000
    ensures ParseFolderDate(DateText(d)) == Some(d)
  {
    var y, m, day := PadNat(d.year, 4), PadNat(d.month, 2), PadNat(d.day, 2);
    var f := DateText(d);
    assert f == y + "-" + m + "-" + day;
    assert f[..4] == y && f[5..7] == m && f[8..] == day;
  }

  /** The date in layout "20060102" (parser.go:237). */
  function CompactDate(d: Date): (r: string)
    requires ValidDate(d) && d.year >= 0
    ensures d.year < 10000 ==> var f := DateText(d); |r| == 8 && r == f[..4] + f[5..7] + f[8..]
  {
    var r := PadNat(d.year, 4) + PadNat(d.month, 2) + PadNat(d.day, 2);
    if d.year < 10000 then
      DateTextLayout(d);
      r
    else r
  }

  /** A date folder's compact date is its name without the hyphens. */
  lemma CompactFolderDate(folder: string)
    requires ParseFolderDate(folder).Some?
    ensures CompactDate(ParseFolderDate(folder).value) == folder[..4] + folder[5..7] + folder[8..]
  {
  }

  /**
   * The output file of a ticker and date folder (parser.go:232-239): the
   * ticker with every '_' removed and the folder's date without its hyphens;
   * None when the folder name is not a date.
   */
  function OutputPath(folder: string, ticker: string): (r: Option<string>)
    ensures r.Some? <==> ParseFolderDate(folder).Some?
    ensures r.Some? ==>
      r.value == OutputDir + "/tick_" + RemoveAll(ticker, '_') + "_" + folder[..4] + folder[5..7] + folder[8..] + ".txt"
  {
    match ParseFolderDate(folder)
    case None => None
    case Some(d) =>
      CompactFolderDate(folder);
      Some(OutputDir + "/tick_" + RemoveAll(ticker, '_') + "_" + CompactDate(d) + ".txt")
  }

  /** Sum, over the entries of `m` in any order, of the lines `f` gives for each. */
  ghost function SumOver<K, V>(m: map<K, V>, f: (K, V) -> multiset<TickLine>): multiset<TickLine>
    decreases m.Keys
  {
    if m == map[] then multiset{}
    else
      var k :| k in m;
      f(k, m[k]) + SumOver(m - {k}, f)
  }

  /** The sum does not depend on which entry is taken first. */
  lemma SumOverPick<K, V>(m: map<K, V>, f: (K, V) -> multiset<TickLine>, k: K)
    requires k in m
    ensures SumOver(m, f) == f(k, m[k]) + SumOver(m - {k}, f)
    decreases m.Keys
  {
    var k' :| k' in m && SumOver(m, f) == f(k', m[k']) + SumOver(m - {k'}, f);
    if k' != k {
      SumOverPick(m - {k'}, f, k);
      SumOverPick(m - {k}, f, k');
      assert m - {k'} - {k} == m - {k} - {k'};
    }
  }

  /** A line is in the sum exactly when some entry contributes it. */
  lemma SumOverMember<K, V>(m: map<K, V>, f: (K, V) -> multiset<TickLine>, line: TickLine)
    ensures line in SumOver(m, f) <==> exists k :: k in m && line in f(k, m[k])
    decreases m.Keys
  {
    if m != map[] {
      var k :| k in m;
      SumOverPick(m, f, k);
      SumOverMember(m - {k}, f, line);
      if line in SumOver(m, f) && line !in f(k, m[k]) {
        var k' :| k' in m - {k} && line in f(k', (m - {k})[k']);
        assert k' in m && line in f(k', m[k']);
      }
      if exists k' :: k' in m && line in f(k', m[k']) {
        var k' :| k' in m && line in f(k', m[k']);
        if k' != k {
          assert k' in m - {k} && line in f(k', (m - {k})[k']);
        }
      }
    }
  }

  /** Taking one entry's lines out of the sum keeps the total. */
  lemma SumOverStep<K, V>(done: multiset<TickLine>, m: map<K, V>, f: (K, V) -> multiset<TickLine>, k: K,
                          more: multiset<TickLine>, total: multiset<TickLine>)
    requires k in m && more == f(k, m[k])
    requires done + SumOver(m, f) == total
    ensures done + more + SumOver(m - {k}, f) == total
  {
    SumOverPick(m, f, k);
  }

  function PriceLines(sourceTime: string): (string, Bucket) -> multiset<TickLine> {
    (price, b) => multiset(BucketLines(sourceTime, price, b))
  }

  /** The lines of one timestamp's buckets (none when its source time is unknown). */
  ghost function TimestampLines(ts: string, prices: map<string, Bucket>): multiset<TickLine> {
    match SourceTime(ts)
    case None => multiset{}
    case Some(st) => SumOver(prices, PriceLines(st))
  }

  /** All lines of a table, as a multiset: Go's map iteration order is unspecified. */
  ghost function TableLines(t: Table): multiset<TickLine> {
    SumOver(t, TimestampLines)
  }

  /** Every timestamp that has buckets has a source time. */
  predicate TimestampsReadable(t: Table) {
    forall ts :: ts in t && t[ts] != map[] ==> SourceTime(ts).Some?
  }

  /**
   * A line belongs to a table's output exactly when it is one of the lines of
   * one of its buckets, with the source time of the bucket's timestamp.
   */
  lemma TableLinesMember(t: Table, line: TickLine)
    ensures line in TableLines(t) <==>
      exists ts, price :: ts in t && price in t[ts] && SourceTime(ts).Some?
        && line in BucketLines(SourceTime(ts).value, price, t[ts][price])
  {
    SumOverMember(t, TimestampLines, line);
    forall ts | ts in t && SourceTime(ts).Some? {
      SumOverMember(t[ts], PriceLines(SourceTime(ts).value), line);
    }
  }

  /** Writing the lines of one more bucket keeps the total of written and pending lines. */
  lemma EmitStep(lines: seq<TickLine>, more: seq<TickLine>, pending: map<string, Bucket>, sourceTime: string,
                 price: string, total: multiset<TickLine>)
    requires price in pending && more == BucketLines(sourceTime, price, pending[price])
    requires multiset(lines) + SumOver(pending, PriceLines(sourceTime)) == total
    ensures multiset(lines + more) + SumOver(pending - {price}, PriceLines(sourceTime)) == total
  {
    SumOverPick(pending, PriceLines(sourceTime), price);
    assert PriceLines(sourceTime)(price, pending[price]) == multiset(more);
  }

  /**
   * The inner writing loop of `ssFormatter` (parser.go:248-303) for one
   * timestamp: its buckets in an arbitrary order, the timestamp text parsed
   * for each; false when a bucket is reached and the timestamp does not parse.
   */
  method EmitTimestamp(ts: string, prices: map<string, Bucket>) returns (lines: seq<TickLine>, ok: bool)
    ensures ok <==> prices == map[] || SourceTime(ts).Some?
    ensures ok ==> multiset(lines) == TimestampLines(ts, prices)
    ensures !ok ==> lines == []
  {
    lines := [];
    var pending := prices;
    ghost var known := SourceTime(ts);
    while pending != map[]
      invariant pending != prices ==> known.Some?
      invariant known.Some? ==> multiset(lines) + SumOver(pending, PriceLines(known.value)) == TimestampLines(ts, prices)
      invariant known.None? ==> lines == []
      decreases pending.Keys
    {
      var price :| price in pending;
      var sourceTime := SourceTime(ts);
      if sourceTime.None? {
        return [], false;
      }
      var more := BucketLines(sourceTime.value, price, pending[price]);
      EmitStep(lines, more, pending, sourceTime.value, price, TimestampLines(ts, prices));
      lines := lines + more;
      pending := pending - {price};
    }
    return lines, true;
  }

  /**
   * The writing loops of `ssFormatter` (parser.go:246-304), visiting the
   * timestamps in an arbitrary order as Go's map iteration does. The first
   * timestamp that does not parse ends the loops and is the failure.
   */
  method EmitLines(t: Table) returns (lines: seq<TickLine>, failure: Option<string>)
    ensures failure.None? <==> TimestampsReadable(t)
    ensures failure.None? ==> multiset(lines) == TableLines(t)
    ensures failure.Some? ==>
      failure.value in t && t[failure.value] != map[] && SourceTime(failure.value).None?
      && multiset(lines) <= TableLines(t)
  {
    lines := [];
    var rest := t;
    while rest != map[]
      invariant forall ts :: ts in rest ==> ts in t && rest[ts] == t[ts]
      invariant forall ts :: ts in t && ts !in rest ==> t[ts] == map[] || SourceTime(ts).Some?
      invariant multiset(lines) + SumOver(rest, TimestampLines) == TableLines(t)
      decreases rest.Keys
    {
      var ts :| ts in rest;
      var written, ok := EmitTimestamp(ts, rest[ts]);
      if !ok {
        return lines, Some(ts);
      }
      SumOverStep(multiset(lines), rest, TimestampLines, ts, multiset(written), TableLines(t));
      lines := lines + written;
      rest := rest - {ts};
    }
    return lines, None;
  }
}
