/** The row transforms of `run_preprocess_pipeline`: drop rows with a repeated ticket id,
    fill missing text, lower-case the priority, derive the age segment and mask the email.
    A data frame is its set of column names and its rows, in order. */
module Preprocessor {
  import opened Values
  import opened Columns

  datatype Frame = Frame(columns: set<string>, rows: seq<Record>)

  /** The exceptions the pipeline can raise: a column that is not there, an age that
      cannot be compared with a number, an email whose text is empty. */
  datatype PipelineError = KeyError(column: string) | TypeError(column: string) | IndexError(column: string)

  // ---------------------------------------------------------------------------
  // drop_duplicates(subset=['Ticket ID']), keeping the first row of each id

  function Key(row: Record): Value {
    Get(row, TicketIdColumn)
  }

  function KeysOf(rows: seq<Record>): set<Value> {
    set i | 0 <= i < |rows| :: Key(rows[i])
  }

  /** Row `i` is the first with its ticket id. */
  predicate IsFirstOccurrence(rows: seq<Record>, i: nat)
    requires i < |rows|
  {
    forall j :: 0 <= j < i ==> Key(rows[j]) != Key(rows[i])
  }

  /** The rows kept: those that are the first with their id, in input order. */
  function Dedup(rows: seq<Record>): seq<Record>
    decreases |rows|
  {
    if rows == [] then []
    else
      var n := |rows| - 1;
      Dedup(rows[..n]) + (if Key(rows[n]) in KeysOf(rows[..n]) then [] else [rows[n]])
  }

  /** The input positions of the kept rows. */
  function DedupIndices(rows: seq<Record>): seq<nat>
    decreases |rows|
  {
    if rows == [] then []
    else
      var n := |rows| - 1;
      DedupIndices(rows[..n]) + (if Key(rows[n]) in KeysOf(rows[..n]) then [] else [n])
  }

  predicate DistinctKeys(rows: seq<Record>) {
    forall a, b :: 0 <= a < b < |rows| ==> Key(rows[a]) != Key(rows[b])
  }

  lemma KeysOfSnoc(rows: seq<Record>, n: nat)
    requires n < |rows|
    ensures KeysOf(rows[..n + 1]) == KeysOf(rows[..n]) + {Key(rows[n])}
  {
    var p, q := rows[..n], rows[..n + 1];
    forall i | 0 <= i < n ensures q[i] == p[i] { }
    assert q[n] == rows[n];
  }

  /** The filtering pass: a row is kept when its id has not been seen before. */
  method DropDuplicates(rows: seq<Record>) returns (kept: seq<Record>)
    ensures kept == Dedup(rows)
  {
    kept := [];
    var seen: set<Value> := {};
    var i := 0;
    while i < |rows|
      invariant 0 <= i <= |rows|
      invariant kept == Dedup(rows[..i])
      invariant seen == KeysOf(rows[..i])
    {
      var id := Key(rows[i]);
      assert rows[..i + 1][..i] == rows[..i];
      KeysOfSnoc(rows, i);
      if id !in seen {
        kept := kept + [rows[i]];
        seen := seen + {id};
      }
      i := i + 1;
    }
    assert rows[..i] == rows;
  }

  lemma FirstOccurrenceInPrefix(rows: seq<Record>, n: nat, i: nat)
    requires i < n <= |rows|
    ensures IsFirstOccurrence(rows[..n], i) <==> IsFirstOccurrence(rows, i)
  {
    var p := rows[..n];
    assert forall j :: 0 <= j <= i ==> p[j] == rows[j];
  }

  /** The last row is a first occurrence exactly when its id is not among the earlier ones. */
  lemma LastFirstOccurrence(rows: seq<Record>)
    requires rows != []
    ensures IsFirstOccurrence(rows, |rows| - 1) <==> Key(rows[|rows| - 1]) !in KeysOf(rows[..|rows| - 1])
  {
    var n := |rows| - 1;
    var p := rows[..n];
    assert forall j :: 0 <= j < n ==> p[j] == rows[j];
    if Key(rows[n]) in KeysOf(p) {
      var j :| 0 <= j < n && Key(p[j]) == Key(rows[n]);
      assert Key(rows[j]) == Key(rows[n]);
    }
  }

  /** Each kept row is the input row at its index, and that row is a first occurrence. */
  lemma {:induction false} DedupIndicesPick(rows: seq<Record>)
    ensures var idx, out := DedupIndices(rows), Dedup(rows);
      && |idx| == |out|
      && forall m :: 0 <= m < |idx| ==> idx[m] < |rows| && out[m] == rows[idx[m]] && IsFirstOccurrence(rows, idx[m])
    decreases |rows|
  {
    if rows != [] {
      var n := |rows| - 1;
      var p := rows[..n];
      DedupIndicesPick(p);
      LastFirstOccurrence(rows);
      var pidx, pout := DedupIndices(p), Dedup(p);
      forall m | 0 <= m < |pidx| ensures IsFirstOccurrence(rows, pidx[m]) && pout[m] == rows[pidx[m]] {
        FirstOccurrenceInPrefix(rows, n, pidx[m]);
      }
    }
  }

  /** The kept indices are strictly increasing: input order is preserved. */
  lemma {:induction false} DedupIndicesIncreasing(rows: seq<Record>)
    ensures forall m :: 0 <= m < |DedupIndices(rows)| ==> DedupIndices(rows)[m] < |rows|
    ensures forall m, m' :: 0 <= m < m' < |DedupIndices(rows)| ==> DedupIndices(rows)[m] < DedupIndices(rows)[m']
    decreases |rows|
  {
    if rows != [] {
      var n := |rows| - 1;
      var p := rows[..n];
      DedupIndicesIncreasing(p);
      var idx, pidx := DedupIndices(rows), DedupIndices(p);
      var extra: seq<nat> := if Key(rows[n]) in KeysOf(p) then [] else [n];
      assert idx == pidx + extra;
      assert |p| == n;
      assert forall m :: 0 <= m < |pidx| ==> pidx[m] < n;
      assert forall m :: 0 <= m < |pidx| ==> idx[m] == pidx[m];
      assert forall m :: |pidx| <= m < |idx| ==> idx[m] == n;
      forall m, m' | 0 <= m < m' < |idx| ensures idx[m] < idx[m'] {
        if m' >= |pidx| {
          assert m < |pidx| && idx[m] == pidx[m] && idx[m'] == n;
        } else {
          assert idx[m] == pidx[m] && idx[m'] == pidx[m'] && pidx[m] < pidx[m'];
        }
      }
    }
  }

  /** Every first occurrence is kept. */
  lemma {:induction false} DedupIndicesComplete(rows: seq<Record>)
    ensures forall i :: 0 <= i < |rows| && IsFirstOccurrence(rows, i) ==> i in DedupIndices(rows)
    decreases |rows|
  {
    if rows != [] {
      var n := |rows| - 1;
      var p := rows[..n];
      DedupIndicesComplete(p);
      LastFirstOccurrence(rows);
      forall i | 0 <= i < n && IsFirstOccurrence(rows, i) ensures i in DedupIndices(p) {
        FirstOccurrenceInPrefix(rows, n, i);
      }
    }
  }

  /** The kept rows are exactly the first occurrences, in input order: `DedupIndices` is
      strictly increasing, picks the kept rows, and holds every first occurrence. */
  lemma DedupIsFirstOccurrences(rows: seq<Record>)
    ensures var idx, out := DedupIndices(rows), Dedup(rows);
      && |idx| == |out|
      && (forall m :: 0 <= m < |idx| ==> idx[m] < |rows| && out[m] == rows[idx[m]] && IsFirstOccurrence(rows, idx[m]))
      && (forall m, m' :: 0 <= m < m' < |idx| ==> idx[m] < idx[m'])
      && (forall i :: 0 <= i < |rows| && IsFirstOccurrence(rows, i) ==> i in idx)
  {
    DedupIndicesPick(rows);
    DedupIndicesIncreasing(rows);
    DedupIndicesComplete(rows);
  }

  /** Kept rows have pairwise distinct ids, and every id of the input is still there. */
  lemma {:induction false} DedupDistinct(rows: seq<Record>)
    ensures DistinctKeys(Dedup(rows))
    ensures KeysOf(Dedup(rows)) == KeysOf(rows)
    decreases |rows|
  {
    if rows != [] {
      var n := |rows| - 1;
      var p := rows[..n];
      DedupDistinct(p);
      KeysOfSnoc(rows, n);
      assert rows[..n + 1] == rows;
      var d := Dedup(p);
      var out := Dedup(rows);
      if Key(rows[n]) !in KeysOf(p) {
        assert out == d + [rows[n]];
        forall a | 0 <= a < |d| ensures Key(out[a]) != Key(rows[n]) {
          assert out[a] == d[a];
          assert Key(d[a]) in KeysOf(d);
        }
        assert KeysOf(out) == KeysOf(d) + {Key(rows[n])} by {
          forall a | 0 <= a < |d| ensures out[a] == d[a] { }
          assert out[|d|] == rows[n];
        }
        forall a, b | 0 <= a < b < |out| ensures Key(out[a]) != Key(out[b]) {
          if b < |d| {
            assert out[a] == d[a] && out[b] == d[b];
          }
        }
      } else {
        assert out == d;
      }
    }
  }

  /** Deduplication never adds rows. */
  lemma {:induction false} DedupShorter(rows: seq<Record>)
    ensures |Dedup(rows)| <= |rows|
    decreases |rows|
  {
    if rows != [] {
      DedupShorter(rows[..|rows| - 1]);
    }
  }

  /** Rows with distinct ids are kept as they are, so deduplication is idempotent. */
  lemma {:induction false} DedupOfDistinct(rows: seq<Record>)
    requires DistinctKeys(rows)
    ensures Dedup(rows) == rows
    decreases |rows|
  {
    if rows != [] {
      var n := |rows| - 1;
      var p := rows[..n];
      assert DistinctKeys(p) by {
        forall a, b | 0 <= a < b < |p| ensures Key(p[a]) != Key(p[b]) {
          assert p[a] == rows[a] && p[b] == rows[b];
        }
      }
      DedupOfDistinct(p);
      assert Key(rows[n]) !in KeysOf(p) by {
        forall j | 0 <= j < n ensures Key(p[j]) != Key(rows[n]) {
          assert p[j] == rows[j];
        }
      }
      assert p + [rows[n]] == rows;
    }
  }

  lemma DedupIdempotent(rows: seq<Record>)
    ensures Dedup(Dedup(rows)) == Dedup(rows)
  {
    DedupDistinct(rows);
    DedupOfDistinct(Dedup(rows));
  }

  // ---------------------------------------------------------------------------
  // Column transforms

  /** `series.fillna(default)`: missing cells take the default, present cells stay. */
  function FillNa(v: Value, default: Value): (r: Value)
    ensures IsMissing(v) ==> r == default
    ensures !IsMissing(v) ==> r == v
  {
    if IsMissing(v) then default else v
  }

  /** `df[col] = df[col].apply(f)` for a transform that cannot fail. */
  function MapColumn(rows: seq<Record>, col: string, f: Value -> Value): (r: seq<Record>)
    ensures |r| == |rows|
    ensures forall i :: 0 <= i < |rows| ==> r[i] == rows[i][col := f(Get(rows[i], col))]
  {
    seq(|rows|, i requires 0 <= i < |rows| => rows[i][col := f(Get(rows[i], col))])
  }

  /** `df[dst] = df[src].apply(f)` for a transform that may raise: one failing cell fails
      the whole column. */
  function TryMapColumn(rows: seq<Record>, src: string, dst: string, f: Value -> Option<Value>): (r: Option<seq<Record>>)
    ensures r.Some? <==> forall i :: 0 <= i < |rows| ==> f(Get(rows[i], src)).Some?
    ensures r.Some? ==> |r.value| == |rows|
    ensures r.Some? ==> forall i :: 0 <= i < |rows| ==> r.value[i] == rows[i][dst := f(Get(rows[i], src)).value]
    decreases |rows|
  {
    if rows == [] then Some([])
    else match f(Get(rows[0], src))
      case None => None
      case Some(v) =>
        match TryMapColumn(rows[1..], src, dst, f)
        case None => None
        case Some(rest) => Some([rows[0][dst := v]] + rest)
  }

  function LowerChar(c: char): char {
    if 'A' <= c <= 'Z' then (c as int + 32) as char else c
  }

  /** `str.lower`, on the ASCII letters. */
  function LowerAscii(s: string): (r: string)
    ensures |r| == |s|
    ensures forall k :: 0 <= k < |s| ==> r[k] == LowerChar(s[k])
  {
    seq(|s|, k requires 0 <= k < |s| => LowerChar(s[k]))
  }

  predicate HasNoUpper(s: string) {
    forall k :: 0 <= k < |s| ==> !('A' <= s[k] <= 'Z')
  }

  /** `series.str.lower()`: strings are lower-cased, missing cells stay as they are, any
      other value becomes NaN. */
  function LowerPriority(v: Value): Value {
    match v
    case Str(s) => Str(LowerAscii(s))
    case Int(_) => NaN
    case _ => v
  }

  /** Every lower-cased priority is missing or a string without capitals, and lower-casing
      twice is lower-casing once. */
  lemma LowerPriorityProperties(v: Value)
    ensures IsMissing(LowerPriority(v)) || (LowerPriority(v).Str? && HasNoUpper(LowerPriority(v).s))
    ensures LowerPriority(LowerPriority(v)) == LowerPriority(v)
    ensures v.Str? ==> LowerPriority(v).Str? && |LowerPriority(v).s| == |v.s|
  {
    if v.Str? {
      var r := LowerAscii(v.s);
      assert LowerAscii(r) == r;
    }
  }

  /** The age segment: below 30 Youth, from 30 below 50 Adult, from 50 Senior. */
  function SegmentOf(age: int): (r: string)
    ensures r == "Youth" <==> age < 30
    ensures r == "Adult" <==> 30 <= age < 50
    ensures r == "Senior" <==> 50 <= age
  {
    if age < 30 then "Youth" else if age < 50 then "Adult" else "Senior"
  }

  /** The segment lambda on a cell: a NaN age fails both comparisons and is Senior; a
      None, a NaT or a string cannot be compared with a number. */
  function Segment(v: Value): (r: Option<Value>)
    ensures v.Int? ==> r == Some(Str(SegmentOf(v.i)))
    ensures v.NaN? ==> r == Some(Str("Senior"))
    ensures r.None? <==> !(v.Int? || v.NaN?)
  {
    match v
    case Int(i) => Some(Str(SegmentOf(i)))
    case NaN => Some(Str("Senior"))
    case _ => None
  }

  /** Python's `s[start:]`, where a negative start counts from the end. */
  function SliceFrom(s: string, start: int): (r: string)
    ensures 0 <= start <= |s| ==> r == s[start..]
    ensures -|s| <= start < 0 ==> r == s[|s| + start..]
  {
    if start >= |s| then []
    else if start >= 0 then s[start..]
    else if start >= -|s| then s[|s| + start..]
    else s
  }

  /** The email-mask lambda on the text of a cell: first character, three stars, and the
      rest from the first `@`. `str(x)[0]` raises on an empty text. */
  function MaskEmail(s: string): Option<string> {
    if s == [] then None else Some([s[0]] + "***" + SliceFrom(s, Find(s, '@')))
  }

  function MaskValue(v: Value): Option<Value> {
    match MaskEmail(Show(v))
    case None => None
    case Some(m) => Some(Str(m))
  }

  /** With an `@` at index i (its first occurrence) the mask keeps the first character and
      the domain part from the `@` on. */
  lemma MaskWithAt(s: string, i: nat)
    requires i < |s| && s[i] == '@' && forall k :: 0 <= k < i ==> s[k] != '@'
    ensures MaskEmail(s) == Some([s[0]] + "***" + s[i..])
    ensures |MaskEmail(s).value| == 4 + |s| - i
  {
    assert Find(s, '@') == i;
  }

  /** Without `@`, `find` gives -1 and the slice `[-1:]` keeps only the last character. */
  lemma MaskWithoutAt(s: string)
    requires s != [] && '@' !in s
    ensures MaskEmail(s) == Some([s[0]] + "***" + [s[|s| - 1]])
  {
    assert s[|s| - 1..] == [s[|s| - 1]];
  }

  /** Masking a masked text changes nothing, unless the text starts with `@`. */
  lemma MaskIdempotent(s: string)
    requires s != [] && s[0] != '@'
    ensures MaskEmail(MaskEmail(s).value) == MaskEmail(s)
  {
    var m := MaskEmail(s).value;
    var i := Find(s, '@');
    if i >= 0 {
      assert m == [s[0]] + "***" + s[i..];
      assert m[4] == '@';
      assert forall k :: 0 <= k < 4 ==> m[k] != '@';
      MaskWithAt(m, 4);
      assert m[4..] == s[i..];
    } else {
      MaskWithoutAt(s);
      assert m == [s[0]] + "***" + [s[|s| - 1]];
      assert '@' !in m;
      MaskWithoutAt(m);
    }
  }

  // ---------------------------------------------------------------------------
  // The pipeline

  const SubjectDefault := Str("Unknown Subject")
  const DescriptionDefault := Str("No description provided.")
  const ResolutionDefault := Str("Active/In-Progress")
  const RatingDefault := Int(0)

  function FillColumn(rows: seq<Record>, col: string, default: Value): seq<Record> {
    MapColumn(rows, col, v => FillNa(v, default))
  }

  /** Steps 1 to 3 on the rows: deduplicate, fill the four columns, lower-case the
      priority. None of them can fail once the columns are there. */
  function CleanRows(rows: seq<Record>): seq<Record> {
    var filled :=
      FillColumn(FillColumn(FillColumn(FillColumn(Dedup(rows),
        SubjectColumn, SubjectDefault), DescriptionColumn, DescriptionDefault),
        ResolutionColumn, ResolutionDefault), RatingColumn, RatingDefault);
    MapColumn(filled, PriorityColumn, LowerPriority)
  }

  /** The columns the steps read before the email column, in the order they read them:
      the id, the four filled columns, the two dates, the priority and the age. */
  const ReadOrder: seq<string> := [TicketIdColumn, SubjectColumn, DescriptionColumn,
    ResolutionColumn, RatingColumn, DateOfPurchaseColumn, TimeToResolutionColumn,
    PriorityColumn, AgeColumn]

  const LoadedColumns: set<string> := {TicketIdColumn, SubjectColumn, DescriptionColumn,
    ResolutionColumn, RatingColumn, DateOfPurchaseColumn, TimeToResolutionColumn,
    PriorityColumn, AgeColumn}

  /** `order[k]` is missing and every column before it is there. */
  predicate FirstAbsentAt(order: seq<string>, columns: set<string>, k: nat) {
    k < |order| && order[k] !in columns && forall j :: 0 <= j < k ==> order[j] in columns
  }

  /** The first column of `order` that is not among `columns`. */
  function FirstMissing(order: seq<string>, columns: set<string>): (r: Option<string>)
    ensures r.None? <==> forall k :: 0 <= k < |order| ==> order[k] in columns
    ensures r.Some? ==> exists k: nat :: FirstAbsentAt(order, columns, k) && r.value == order[k]
  {
    if order == [] then None
    else if order[0] !in columns then Some(order[0])
    else
      var rest := FirstMissing(order[1..], columns);
      assert rest.Some? ==> exists k: nat :: FirstAbsentAt(order, columns, k) && rest.value == order[k] by {
        if rest.Some? {
          var k: nat :| FirstAbsentAt(order[1..], columns, k) && rest.value == order[1..][k];
          assert forall j :: 0 <= j < k + 1 ==> order[j] in columns by {
            forall j | 0 <= j < k + 1 ensures order[j] in columns {
              if j > 0 { assert order[j] == order[1..][j - 1]; }
            }
          }
          assert FirstAbsentAt(order, columns, k + 1);
        }
      }
      assert rest.None? ==> forall k :: 0 <= k < |order| ==> order[k] in columns by {
        if rest.None? {
          forall k | 0 <= k < |order| ensures order[k] in columns {
            if k > 0 { assert order[k] == order[1..][k - 1]; }
          }
        }
      }
      rest
  }

  /** A column missing after every earlier one was found is the one reported. */
  lemma {:induction false} FirstMissingAt(order: seq<string>, columns: set<string>, k: nat)
    requires FirstAbsentAt(order, columns, k)
    ensures FirstMissing(order, columns) == Some(order[k])
    decreases k
  {
    if k > 0 {
      assert order[0] in columns;
      assert FirstAbsentAt(order[1..], columns, k - 1) by {
        forall j | 0 <= j < k - 1 ensures order[1..][j] in columns { assert order[1..][j] == order[j + 1]; }
      }
      FirstMissingAt(order[1..], columns, k - 1);
    }
  }

  /** The first of the columns read before the email column that the frame lacks. */
  function MissingColumn(columns: set<string>): (r: Option<string>)
    ensures r.None? <==> LoadedColumns <= columns
    ensures r.Some? ==> r.value in LoadedColumns && r.value !in columns
    ensures r.Some? ==> exists k: nat :: FirstAbsentAt(ReadOrder, columns, k) && r.value == ReadOrder[k]
  {
    var r := FirstMissing(ReadOrder, columns);
    assert forall k :: 0 <= k < |ReadOrder| ==> ReadOrder[k] in LoadedColumns;
    assert forall c :: c in LoadedColumns ==> exists k :: 0 <= k < |ReadOrder| && ReadOrder[k] == c by {
      assert ReadOrder[0] == TicketIdColumn && ReadOrder[1] == SubjectColumn;
      assert ReadOrder[2] == DescriptionColumn && ReadOrder[3] == ResolutionColumn;
      assert ReadOrder[4] == RatingColumn && ReadOrder[5] == DateOfPurchaseColumn;
      assert ReadOrder[6] == TimeToResolutionColumn && ReadOrder[7] == PriorityColumn;
      assert ReadOrder[8] == AgeColumn;
    }
    r
  }

  /** The modelled steps of `run_preprocess_pipeline`, in order. */
  function Preprocess(f: Frame): Result<Frame, PipelineError> {
    match MissingColumn(f.columns)
    case Some(column) => Err(KeyError(column))
    case None =>
      match TryMapColumn(CleanRows(f.rows), AgeColumn, SegmentColumn, Segment)
      case None => Err(TypeError(AgeColumn))
      case Some(segmented) =>
        if EmailColumn !in f.columns then Err(KeyError(EmailColumn))
        else match TryMapColumn(segmented, EmailColumn, EmailColumn, MaskValue)
          case None => Err(IndexError(EmailColumn))
          case Some(masked) => Ok(Frame(f.columns + {SegmentColumn}, masked))
  }

  /** A cell the mask produced: first character, three stars, then a suffix. */
  predicate IsMasked(v: Value) {
    v.Str? && |v.s| >= 5 && v.s[1..4] == "***"
  }

  /** What a row satisfies after steps 1 to 3. */
  predicate CleanedRow(row: Record) {
    && SubjectColumn in row && !IsMissing(row[SubjectColumn])
    && DescriptionColumn in row && !IsMissing(row[DescriptionColumn])
    && ResolutionColumn in row && !IsMissing(row[ResolutionColumn])
    && RatingColumn in row && !IsMissing(row[RatingColumn])
    && PriorityColumn in row && LowerPriority(row[PriorityColumn]) == row[PriorityColumn]
  }

  /** What every row of a preprocessed frame satisfies. */
  predicate PreprocessedRow(row: Record) {
    && CleanedRow(row)
    && SegmentColumn in row && row[SegmentColumn] in {Str("Youth"), Str("Adult"), Str("Senior")}
    && EmailColumn in row && IsMasked(row[EmailColumn])
  }

  lemma FillColumnAt(rows: seq<Record>, col: string, default: Value, i: nat)
    requires i < |rows|
    ensures |FillColumn(rows, col, default)| == |rows|
    ensures FillColumn(rows, col, default)[i] == rows[i][col := FillNa(Get(rows[i], col), default)]
  {
  }

  /** The cleaned rows are the deduplicated rows, one for one, with the same ids, and
      each is filled and lower-cased. */
  lemma CleanRowsProperties(rows: seq<Record>)
    ensures |CleanRows(rows)| == |Dedup(rows)|
    ensures forall i :: 0 <= i < |Dedup(rows)| ==>
      Key(CleanRows(rows)[i]) == Key(Dedup(rows)[i]) && CleanedRow(CleanRows(rows)[i])
  {
    var d := Dedup(rows);
    var r1 := FillColumn(d, SubjectColumn, SubjectDefault);
    var r2 := FillColumn(r1, DescriptionColumn, DescriptionDefault);
    var r3 := FillColumn(r2, ResolutionColumn, ResolutionDefault);
    var r4 := FillColumn(r3, RatingColumn, RatingDefault);
    var r5 := MapColumn(r4, PriorityColumn, LowerPriority);
    assert r5 == CleanRows(rows);
    forall i | 0 <= i < |d| ensures Key(r5[i]) == Key(d[i]) && CleanedRow(r5[i]) {
      FillColumnAt(d, SubjectColumn, SubjectDefault, i);
      FillColumnAt(r1, DescriptionColumn, DescriptionDefault, i);
      FillColumnAt(r2, ResolutionColumn, ResolutionDefault, i);
      FillColumnAt(r3, RatingColumn, RatingDefault, i);
      LowerPriorityProperties(Get(r4[i], PriorityColumn));
      assert Key(r4[i]) == Key(d[i]);
    }
  }

  /** A filled cell takes the column's default when it was missing and keeps its value
      otherwise; the ticket id is untouched. */
  lemma CleanRowsFilled(rows: seq<Record>, i: nat)
    requires i < |Dedup(rows)|
    ensures |CleanRows(rows)| == |Dedup(rows)|
    ensures var before, after := Dedup(rows)[i], CleanRows(rows)[i];
      && after[SubjectColumn] == FillNa(Get(before, SubjectColumn), SubjectDefault)
      && after[DescriptionColumn] == FillNa(Get(before, DescriptionColumn), DescriptionDefault)
      && after[ResolutionColumn] == FillNa(Get(before, ResolutionColumn), ResolutionDefault)
      && after[RatingColumn] == FillNa(Get(before, RatingColumn), RatingDefault)
      && after[PriorityColumn] == LowerPriority(Get(before, PriorityColumn))
  {
    var d := Dedup(rows);
    var r1 := FillColumn(d, SubjectColumn, SubjectDefault);
    var r2 := FillColumn(r1, DescriptionColumn, DescriptionDefault);
    var r3 := FillColumn(r2, ResolutionColumn, ResolutionDefault);
    var r4 := FillColumn(r3, RatingColumn, RatingDefault);
    FillColumnAt(d, SubjectColumn, SubjectDefault, i);
    FillColumnAt(r1, DescriptionColumn, DescriptionDefault, i);
    FillColumnAt(r2, ResolutionColumn, ResolutionDefault, i);
    FillColumnAt(r3, RatingColumn, RatingDefault, i);
    assert Get(r4[i], PriorityColumn) == Get(d[i], PriorityColumn);
  }

  /** Cleaning leaves every other column of a row as it was. */
  lemma CleanRowsKeep(rows: seq<Record>, i: nat, col: string)
    requires i < |Dedup(rows)|
    requires col !in {SubjectColumn, DescriptionColumn, ResolutionColumn, RatingColumn, PriorityColumn}
    ensures |CleanRows(rows)| == |Dedup(rows)|
    ensures Get(CleanRows(rows)[i], col) == Get(Dedup(rows)[i], col)
  {
    var d := Dedup(rows);
    var r1 := FillColumn(d, SubjectColumn, SubjectDefault);
    var r2 := FillColumn(r1, DescriptionColumn, DescriptionDefault);
    var r3 := FillColumn(r2, ResolutionColumn, ResolutionDefault);
    var r4 := FillColumn(r3, RatingColumn, RatingDefault);
    FillColumnAt(d, SubjectColumn, SubjectDefault, i);
    FillColumnAt(r1, DescriptionColumn, DescriptionDefault, i);
    FillColumnAt(r2, ResolutionColumn, ResolutionDefault, i);
    FillColumnAt(r3, RatingColumn, RatingDefault, i);
  }

  lemma MaskValueIsMasked(v: Value)
    requires MaskValue(v).Some?
    ensures IsMasked(MaskValue(v).value)
  {
    var s := Show(v);
    var m := MaskEmail(s).value;
    var tail := SliceFrom(s, Find(s, '@'));
    assert |tail| >= 1;
    assert m == [s[0]] + "***" + tail;
    assert m[1..4] == "***";
  }

  /** Steps 5 and 6 on one cleaned row keep its id and complete its properties. */
  lemma FinishRow(row: Record)
    requires CleanedRow(row) && Segment(Get(row, AgeColumn)).Some?
    ensures var sg := row[SegmentColumn := Segment(Get(row, AgeColumn)).value];
      MaskValue(Get(sg, EmailColumn)).Some? ==>
        var out := sg[EmailColumn := MaskValue(Get(sg, EmailColumn)).value];
        Key(out) == Key(row) && PreprocessedRow(out)
  {
    var sg := row[SegmentColumn := Segment(Get(row, AgeColumn)).value];
    if MaskValue(Get(sg, EmailColumn)).Some? {
      MaskValueIsMasked(Get(sg, EmailColumn));
    }
  }

  /** The rows of a successful run, step by step. */
  lemma PreprocessRows(f: Frame)
    requires Preprocess(f).Ok?
    ensures var sg := TryMapColumn(CleanRows(f.rows), AgeColumn, SegmentColumn, Segment);
      && sg.Some?
      && TryMapColumn(sg.value, EmailColumn, EmailColumn, MaskValue).Some?
      && Preprocess(f).value.rows == TryMapColumn(sg.value, EmailColumn, EmailColumn, MaskValue).value
  {
  }

  /** Row i of a successful run is the i-th kept input row, cleaned, with the segment of
      its age added and its email masked; its other columns are those of the cleaned row. */
  lemma PreprocessRowValues(f: Frame, i: nat)
    requires Preprocess(f).Ok? && i < |Dedup(f.rows)|
    ensures var out, d, c := Preprocess(f).value.rows, Dedup(f.rows), CleanRows(f.rows);
      && |out| == |d| == |c|
      && Segment(Get(d[i], AgeColumn)) == Some(Get(out[i], SegmentColumn))
      && MaskValue(Get(d[i], EmailColumn)) == Some(Get(out[i], EmailColumn))
      && (forall col :: col != SegmentColumn && col != EmailColumn ==> Get(out[i], col) == Get(c[i], col))
  {
    PreprocessRows(f);
    CleanRowsKeep(f.rows, i, AgeColumn);
    CleanRowsKeep(f.rows, i, EmailColumn);
    var c := CleanRows(f.rows);
    var sg := TryMapColumn(c, AgeColumn, SegmentColumn, Segment).value;
    var out := TryMapColumn(sg, EmailColumn, EmailColumn, MaskValue).value;
    assert sg[i] == c[i][SegmentColumn := Segment(Get(c[i], AgeColumn)).value];
    assert out[i] == sg[i][EmailColumn := MaskValue(Get(sg[i], EmailColumn)).value];
    assert Get(sg[i], EmailColumn) == Get(c[i], EmailColumn);
  }

  /** A successful run keeps at most the input's rows, with pairwise distinct ticket ids
      and every id of the input, and every row filled, lower-cased, segmented and masked. */
  lemma PreprocessProperties(f: Frame)
    requires Preprocess(f).Ok?
    ensures var out := Preprocess(f).value;
      && |out.rows| <= |f.rows|
      && DistinctKeys(out.rows)
      && KeysOf(out.rows) == KeysOf(f.rows)
      && (forall i :: 0 <= i < |out.rows| ==> PreprocessedRow(out.rows[i]))
  {
    var d := Dedup(f.rows);
    DedupShorter(f.rows);
    DedupDistinct(f.rows);
    CleanRowsProperties(f.rows);
    PreprocessRows(f);
    var c := CleanRows(f.rows);
    var sg := TryMapColumn(c, AgeColumn, SegmentColumn, Segment).value;
    var out := TryMapColumn(sg, EmailColumn, EmailColumn, MaskValue).value;
    assert |out| == |d|;
    forall i | 0 <= i < |out| ensures Key(out[i]) == Key(d[i]) && PreprocessedRow(out[i]) {
      FinishRow(c[i]);
    }
    SameKeysRowwise(d, out);
  }

  /** Only an empty text makes the mask raise: every other cell has a non-empty `str()`. */
  lemma MaskValueFails(v: Value)
    ensures MaskValue(v).None? <==> v == Str("")
  {
    if v.Int? {
      assert |NatToDecimal(if v.i < 0 then -v.i else v.i)| > 0;
    }
  }

  const RequiredColumns: set<string> := LoadedColumns + {EmailColumn}

  /** A KeyError names a column the frame lacks; one of the nine loaded columns missing
      always ends in a KeyError; a missing email column is reported only once every age
      was segmented. */
  lemma PreprocessKeyError(f: Frame)
    ensures Preprocess(f).Err? && Preprocess(f).error.KeyError? ==>
      Preprocess(f).error.column in RequiredColumns - f.columns
    ensures !(LoadedColumns <= f.columns) ==> Preprocess(f).Err? && Preprocess(f).error.KeyError?
    ensures LoadedColumns <= f.columns && EmailColumn !in f.columns ==>
      Preprocess(f).Err? &&
      (Preprocess(f).error == KeyError(EmailColumn) <==>
        TryMapColumn(CleanRows(f.rows), AgeColumn, SegmentColumn, Segment).Some?)
  {
  }

  /** With every column there, the run succeeds exactly when every age can be segmented
      and every email has a non-empty text. */
  lemma PreprocessSucceeds(f: Frame)
    requires RequiredColumns <= f.columns
    ensures Preprocess(f).Ok? <==>
      forall i :: 0 <= i < |CleanRows(f.rows)| ==>
        Segment(Get(CleanRows(f.rows)[i], AgeColumn)).Some? &&
        Get(CleanRows(f.rows)[i], EmailColumn) != Str("")
  {
    var c := CleanRows(f.rows);
    var sg := TryMapColumn(c, AgeColumn, SegmentColumn, Segment);
    if sg.Some? {
      forall i | 0 <= i < |c|
        ensures MaskValue(Get(sg.value[i], EmailColumn)).Some? <==> Get(c[i], EmailColumn) != Str("")
      {
        assert Get(sg.value[i], EmailColumn) == Get(c[i], EmailColumn);
        MaskValueFails(Get(c[i], EmailColumn));
      }
    }
  }

  lemma SameKeysRowwise(a: seq<Record>, b: seq<Record>)
    requires |a| == |b| && forall i :: 0 <= i < |a| ==> Key(a[i]) == Key(b[i])
    ensures DistinctKeys(a) ==> DistinctKeys(b)
    ensures KeysOf(a) == KeysOf(b)
  {
    assert DistinctKeys(a) ==> DistinctKeys(b) by {
      if DistinctKeys(a) {
        forall i, j | 0 <= i < j < |b| ensures Key(b[i]) != Key(b[j]) {
          assert Key(a[i]) != Key(a[j]);
        }
      }
    }
  }

  /** Steps 1 to 3, each reading its columns first: the first missing column raises, and
      otherwise the cleaned rows come out. */
  method LoadAndClean(f: Frame) returns (r: Result<seq<Record>, PipelineError>)
    ensures MissingColumn(f.columns).Some? ==> r == Err(KeyError(MissingColumn(f.columns).value))
    ensures MissingColumn(f.columns).None? ==> r == Ok(CleanRows(f.rows))
  {
    var columns := f.columns;
    if TicketIdColumn !in columns { FirstMissingAt(ReadOrder, columns, 0); return Err(KeyError(TicketIdColumn)); }
    var rows := DropDuplicates(f.rows);
    if SubjectColumn !in columns { FirstMissingAt(ReadOrder, columns, 1); return Err(KeyError(SubjectColumn)); }
    rows := FillColumn(rows, SubjectColumn, SubjectDefault);
    if DescriptionColumn !in columns { FirstMissingAt(ReadOrder, columns, 2); return Err(KeyError(DescriptionColumn)); }
    rows := FillColumn(rows, DescriptionColumn, DescriptionDefault);
    if ResolutionColumn !in columns { FirstMissingAt(ReadOrder, columns, 3); return Err(KeyError(ResolutionColumn)); }
    rows := FillColumn(rows, ResolutionColumn, ResolutionDefault);
    if RatingColumn !in columns { FirstMissingAt(ReadOrder, columns, 4); return Err(KeyError(RatingColumn)); }
    rows := FillColumn(rows, RatingColumn, RatingDefault);
    // The two date columns are read (and parsed, which is not modelled) here.
    if DateOfPurchaseColumn !in columns { FirstMissingAt(ReadOrder, columns, 5); return Err(KeyError(DateOfPurchaseColumn)); }
    if TimeToResolutionColumn !in columns { FirstMissingAt(ReadOrder, columns, 6); return Err(KeyError(TimeToResolutionColumn)); }
    if PriorityColumn !in columns { FirstMissingAt(ReadOrder, columns, 7); return Err(KeyError(PriorityColumn)); }
    rows := MapColumn(rows, PriorityColumn, LowerPriority);
    if AgeColumn !in columns { FirstMissingAt(ReadOrder, columns, 8); return Err(KeyError(AgeColumn)); }
    return Ok(rows);
  }

  /** The pipeline: each step reassigns the frame. Date parsing, the resolution-time
      column and the ingestion timestamp are not part of this model. */
  method RunPreprocessPipeline(f: Frame) returns (r: Result<Frame, PipelineError>)
    ensures r == Preprocess(f)
  {
    var cleaned := LoadAndClean(f);
    if cleaned.Err? { return Err(cleaned.error); }
    var rows, columns := cleaned.value, f.columns;
    var segmented := TryMapColumn(rows, AgeColumn, SegmentColumn, Segment);
    if segmented.None? { return Err(TypeError(AgeColumn)); }
    rows, columns := segmented.value, columns + {SegmentColumn};
    if EmailColumn !in f.columns { return Err(KeyError(EmailColumn)); }
    var masked := TryMapColumn(rows, EmailColumn, EmailColumn, MaskValue);
    if masked.None? { return Err(IndexError(EmailColumn)); }
    return Ok(Frame(columns, masked.value));
  }
}
