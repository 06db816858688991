# GateIO order-book tick parser, modelled in Dafny

GateIODataMiner downloads Gate.io spot order-book event files. Each file is
a gzip-compressed CSV of events: timestamp, side, action, price, amount,
begin id. Its parser (`parser/parser.go`) turns them into per-day tick files.
This project models the parser's core:

- **Walking the input** (`processTicker`, `processFolder`). The walk goes
  through the date folders under `<ticker>/spot/orderbooks` in sorted order.
  Inside each folder it takes the `.csv.gz` files in sorted order.
- **Aggregating one file** (`processFile`). Every event whose amount parses
  is folded into a table keyed by timestamp text and price text. Each bucket
  holds the cumulative buy ("make"), sell ("take") and set amounts and the
  begin id of the last event.
- **Emitting ticks** (`ssFormatter`). Each bucket gives a buy line when its
  buy total is not within 1e-8 of zero. It gives a sell line when its sell
  total is not. The lines are appended to `parsed_data/tick_<ticker without
  '_'>_<YYYYMMDD>.txt`.
- **Source time.** Each line carries the source time of its timestamp. That
  is the UTC time of the whole seconds, in layout `2006-01-02 15:04:05`,
  followed by six digits of microseconds.

## Modules

One file per module:

- `Wrappers` defines `Option`.
- `Text` covers decimal digits, zero padding, `strings.HasSuffix`, the `'_'`
  removal, and splitting and joining at a separator.
- `Sorting` gives the byte order of `sort.Strings` and a sort that produces
  it. The sorted arrangement is unique.
- `Decimal` reads decimal text into exact rationals. It covers the part of
  `strconv.ParseFloat` that the event files use.
- `Calendar` covers Unix time, the proleptic Gregorian calendar and the two
  date layouts.
- `Walker` selects the entries of a directory listing:
  - `DateFolders` models the loop at parser.go:86-93.
  - `DataFiles` models the loop at parser.go:109-115.
- `Aggregation` holds the fold:
  - the specification functions `FoldRow`, `FoldAll` and `FoldReads`;
  - the class `AmountsTable`, whose `Fold` method updates the nested map in
    place;
  - the row loop `AggregateFile`.
- `Formatter` holds the tick lines, the output path and the source time. It
  also holds the writing loops `EmitTimestamp` and `EmitLines`. Go's map
  iteration order is unspecified, so these loops pick each next key
  arbitrarily. Their output is specified as a multiset.
- `Pipeline` runs a ticker over a file system given as a value. Every
  `log.Fatal` becomes a `Fault` that ends the run. A run is the sequence of
  appends made before it ended.

The source time is rendered in UTC: timestamp `1641085200.4` becomes
`2022-01-02 01:00:00.400000`, as `Formatter.SourceTimeExample` proves.

## Model

| member | source | states |
|---|---|---|
| Walker.Selected | parser/parser.go:86-91 | The selected names are exactly the names of the kept entries, and there are no more of them than entries |
| Walker.SelectedOnce | parser/parser.go:86-91 | A listing with distinct names yields each selected name at most once |
| Walker.DateFolders | parser/parser.go:85-93 | The result is sorted and is a permutation of the names of the sub-directories in the listing |
| Walker.DataFiles | parser/parser.go:108-115 | The result is sorted and is a permutation of the names ending in ".csv.gz" |
| Sorting.LexLeTotal | parser/parser.go:93 | The string order compares any two strings |
| Sorting.LexLeAntisymmetric | parser/parser.go:93 | Strings ordered both ways are equal |
| Sorting.LexLeTransitive | parser/parser.go:93 | The string order is transitive |
| Sorting.Sort | parser/parser.go:93 | The result is sorted and is a permutation of the input |
| Sorting.SortedUnique | parser/parser.go:93 | Two sorted permutations of the same strings are identical, so the processing order depends only on which names are listed |
| Text.RemoveAll | parser/parser.go:238 | No '_' is left, every other character keeps its count, and a text without '_' is unchanged |
| Text.RemoveAllConcat | parser/parser.go:238 | Removing '_' distributes over concatenation, so the kept characters keep their order |
| Text.PadNat | parser/parser.go:237 | The padded text is all digits and reads back as the number. It is exactly the width when the number fits; otherwise it has the number's own digit count and does not start with '0' |
| Text.DigitsValueOfFixed | parser/parser.go:264 | A number below 10^width, written in width digits, reads back as itself |
| Text.FixedOfDigitsValue | parser/parser.go:232-237 | A digit string, rewritten in as many digits as it has, is itself |
| Text.SplitJoin | parser/parser.go:291 | Splitting comma-joined fields that hold no comma gives the fields back |
| Decimal.DecimalAccepted | parser/parser.go:181-185 | The amount parser accepts a text iff it is an optional sign followed by digits with at most one '.' and at least one digit; every other text is rejected, so its row is skipped |
| Decimal.ParseDigits | parser/parser.go:181 | Digits, optionally followed by '.' and more digits ("5", "5.", ".5", "5.25"), parse to their decimal value |
| Decimal.ParseSigned | parser/parser.go:181 | A '-' negates the value of the unsigned text after it, a '+' keeps it, and a second sign is rejected |
| Decimal.DecimalRoundTrip | parser/parser.go:181 | The decimal text of whole.frac parses back to whole + frac/10^places |
| Calendar.DaysBeforeYearClosedForm | parser/parser.go:259 | The days before a year from 1970 on are 365 per year plus one per leap year passed |
| Calendar.CivilFromDays | parser/parser.go:259 | The civil date of day n is a valid date from 1970 on, and its day number is n |
| Calendar.EpochDayRoundTrip | parser/parser.go:259 | Every valid date from 1970 on is the civil date of its own day number |
| Calendar.FromUnix | parser/parser.go:259 | A nonnegative Unix time breaks down into a valid date and time of day from 1970 on |
| Calendar.UnixRoundTrip | parser/parser.go:259 | Breaking down a Unix time and converting back gives the same time |
| Calendar.BrokenDownRoundTrip | parser/parser.go:259 | A valid broken-down time from 1970 on converts to a Unix time that breaks down into it again |
| Calendar.DateTextLayout | parser/parser.go:232 | A date before year 10000 is written in 10 characters, "YYYY-MM-DD", with the padded fields at fixed positions |
| Calendar.DateTimeTextLayout | parser/parser.go:264 | A time before year 10000 is written in 19 characters: the date, a space, and "HH:MM:SS" |
| Calendar.UtcTextInjective | parser/parser.go:264 | Distinct Unix times before year 10000 have distinct UTC texts |
| Calendar.UtcText | parser/parser.go:259-264 | The UTC text of a time before year 10000 is 19 characters with '-', '-', ' ', ':', ':' at the layout's fixed places |
| Calendar.UtcTextExample | parser/parser.go:256-264 | Unix time 1641085200 is rendered as 2022-01-02 01:00:00 |
| Aggregation.RowOf | parser/parser.go:168-172 | A record yields a row exactly when it has a begin-id column (six or more fields) |
| Aggregation.FoldRow | parser/parser.go:181-212 | An unparsable amount leaves the table unchanged. Otherwise the row's bucket is the old or zero bucket, with the amount added to the total its action names and the row's begin id. Every other bucket is unchanged, and no key is lost |
| Aggregation.FoldAllBucket | parser/parser.go:158-214 | After a fold, a bucket exists iff it existed before or a row with a parsable amount touched it. Its totals are the earlier totals plus the sums of its make, take and set rows. Its begin id is the last such row's |
| Aggregation.CreditedPermutation | parser/parser.go:205-212 | A bucket's total for an action is the same for any order of the rows |
| Aggregation.FoldReadsIsFoldAll | parser/parser.go:158-185 | Reading a file succeeds iff no record is too short to index. It then equals the fold of the rows read in file order, with read errors skipped |
| Aggregation.FoldReadsNoEmptyTimestamp | parser/parser.go:187-200 | A timestamp entry is only created together with a bucket, so a table read from records has no empty timestamp |
| Aggregation.AmountsTable.constructor | parser/parser.go:157 | The table starts empty |
| Aggregation.AmountsTable.Fold | parser/parser.go:181-212 | The in-place update leaves exactly the table FoldRow gives |
| Aggregation.AggregateFile | parser/parser.go:157-214 | The row loop returns the table FoldReads gives for the records, and None on a short record |
| Formatter.BucketLines | parser/parser.go:290-301 | A buy line is present iff the buy total's magnitude exceeds 1e-8, and likewise a sell line for the sell total. The buy line comes first. Each line carries the bucket's source time, price, begin id and matching total |
| Formatter.RenderLine | parser/parser.go:291 | A rendered tick line (`LineFields` joined by commas) splits at its commas into its twelve fields when the texts it carries hold no comma and the side is 1 or 2 |
| Formatter.SourceTime | parser/parser.go:252-264 | A source time exists iff the timestamp parses to a nonnegative value |
| Formatter.Microseconds | parser/parser.go:263 | The truncated microseconds are below one million |
| Formatter.SourceTimeDetermines | parser/parser.go:252-264 | Before year 10000, two timestamps with the same source time agree on their whole seconds and on their microseconds |
| Formatter.SourceTimeExample | parser/parser.go:252-264 | "1641085200.4" has source time 2022-01-02 01:00:00.400000 |
| Formatter.ParseFolderDate | parser/parser.go:232-236 | A parsed folder date is a valid date before year 10000 whose "2006-01-02" text is the folder name itself |
| Formatter.FolderDateRoundTrip | parser/parser.go:232 | The "2006-01-02" text of a valid date before year 10000 parses back to that date |
| Formatter.CompactDate | parser/parser.go:237 | The "20060102" text of a date before year 10000 is its "2006-01-02" text without the hyphens, 8 characters |
| Formatter.CompactFolderDate | parser/parser.go:237 | The "20060102" text of a folder's date is the folder name without its hyphens |
| Formatter.OutputPath | parser/parser.go:231-239 | A path exists iff the folder name is a date. It is parsed_data/tick_ followed by the ticker without '_', '_', the folder name without hyphens, and ".txt" |
| Formatter.TableLinesMember | parser/parser.go:246-301 | A line is in a table's output iff it is a line of one of its buckets, under the source time of the bucket's timestamp |
| Formatter.EmitTimestamp | parser/parser.go:248-303 | Visiting one timestamp's buckets in any order succeeds iff it has no bucket or its timestamp has a source time. It then writes exactly the multiset of its buckets' lines, and nothing otherwise |
| Formatter.EmitLines | parser/parser.go:246-304 | Visiting the timestamps in any order fails iff some timestamp with buckets has no source time. On success it writes exactly the table's lines. On failure it names such a timestamp and has written part of them |
| Pipeline.ProcessFile | parser/parser.go:124-220 | The run of one file is FileRun: open fault, skip on a gzip error, short-record fault, folder-date fault, timestamp fault, or one append of the table's lines to the output path |
| Pipeline.ProcessFolder | parser/parser.go:102-122 | The run of one folder is its listing fault, or its files' runs in sorted order, stopping at the first fault |
| Pipeline.ProcessTicker | parser/parser.go:76-100 | The run of a ticker is its listing fault, or its date folders' runs in sorted order, stopping at the first fault |
| Pipeline.ProcessFiles | parser/parser.go:118-121 | The file loop runs each file in turn and stops at the first fault |
| Pipeline.ProcessFolders | parser/parser.go:96-99 | The folder loop runs each date folder in turn and stops at the first fault |
| Pipeline.FilesRunConcat | parser/parser.go:118-121 | Running two lists of files runs the first, then the second unless the first faulted |
| Pipeline.UndecodableSkipped | parser/parser.go:145-149 | A file the gzip reader rejects changes nothing: the folder's run equals the run without it |
| Pipeline.BadFolderDateWritesNothing | parser/parser.go:232-236 | A folder whose name is not a date appends nothing |
| Pipeline.FolderAppendsPath | parser/parser.go:239-241 | Every append of a date folder goes to the output path of the ticker and date |
| Pipeline.FileRunOutcome | parser/parser.go:252-255 | For a complete file in a date folder, the run faults on a timestamp iff some timestamp of its table has no source time. Otherwise it appends the table's lines to the output path |

## Left out

- `main.go` is not part of this model. It covers downloading, the command line and the ticker list.
- Concurrency is not modelled (parser.go:44-65). The goroutine per ticker, the semaphore and the wait group are left out, and so is any interleaving of appends from tickers whose output paths coincide.
- `compressToTarGz` and the final archive (parser.go:66-73, 310-356) are file-system I/O and are left out.
- gzip decompression and CSV tokenising are given, not modelled. A file is either rejected by the gzip reader or is the sequence of record and read-error results of the CSV reader.
- The CSV reader could fail forever on a persistent read error, so the source's loop would not end. The read sequence here is finite, so that case is not modelled.
- float64 is modelled as exact `real`. Sums do not round, so the 1e-8 test works on exact totals. The "%f" text of an amount is taken as a given string (`RenderLine`'s `amountText`).
- Decimal.ParseDecimal: accepts only an optional sign, digits, and an optional '.' and digits. `strconv.ParseFloat` also accepts exponents, "inf", "nan", hexadecimal and underscores; such texts are rejected here. It also accepts every such text at exact value, while `strconv.ParseFloat` reports a range error for a value beyond float64's range (for example "1" followed by 400 zeros). The source then skips that row, or faults on that timestamp; the model credits the amount, or renders the timestamp.
- Formatter.SourceTime: rejects negative timestamps, which Go renders as pre-1970 times. It works on the exact value, while Go first rounds the text to float64. With at most six fraction digits, Go's truncated microseconds can come out one lower. With more, the rounding can carry into the next second: Go renders "1641085200.9999999" as 2022-01-02 01:00:01.000000, and the model renders it as 2022-01-02 01:00:00.999999.
- The debug prints for timestamp "1641085200.4" (parser.go:192-199, 265-267) and the log messages are left out.
- Failures of `os.MkdirAll`, `os.OpenFile` and `WriteString` are not modelled: writing always succeeds.
- Pipeline.ProcessFile: when a timestamp fails to parse, the run records no append. In the source, the lines written before that point stay in the file. `Formatter.EmitLines` returns them, and its contract bounds them by the table's lines.
- Aggregation.AmountsTable.Fold: the source's buckets are `*CumulativeAmounts` pointers updated through the map. Here the nested map holds bucket values and is reassigned, so there is no pointer aliasing. No pointer escapes the table.
- Names that are not valid UTF-8: strings are sequences of Unicode scalar values, so a file or folder name that is not valid UTF-8 cannot be represented. Go's `sort.Strings` orders such names by their bytes.
- The `merged` and `side` columns of a record are never read by the fold, so they are not modelled.
