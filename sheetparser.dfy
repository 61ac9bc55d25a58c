/**
 * The spreadsheet feed: locating the sheet id in a sheet URL, building the
 * export URL, stripping the fixed-size callback envelope off the response,
 * and normalising the decoded table's rows into trades.
 */
module SheetParser {
  import opened Results
  import opened Digits
  import opened JsValues
  import opened Sequences
  import opened Trades

  // ---------------------------------------------------------------------
  // Sheet id: the first capture of /\/spreadsheets\/d\/([a-zA-Z0-9-_]+)/
  // ---------------------------------------------------------------------

  const Marker: string := "/spreadsheets/d/"

  /** The character class `[a-zA-Z0-9-_]` (the dash after a range is literal). */
  predicate IsIdChar(c: char) {
    'a' <= c <= 'z' || 'A' <= c <= 'Z' || '0' <= c <= '9' || c == '-' || c == '_'
  }

  predicate AllIdChars(s: string) { forall k :: 0 <= k < |s| ==> IsIdChar(s[k]) }

  predicate MarkerAt(url: string, i: nat) {
    i + |Marker| <= |url| && url[i..i + |Marker|] == Marker
  }

  /** The regular expression matches at position i: the marker followed by at least one id character. */
  predicate HitAt(url: string, i: nat) {
    MarkerAt(url, i) && i + |Marker| < |url| && IsIdChar(url[i + |Marker|])
  }

  /** `id` is the maximal run of id characters starting at j. */
  predicate MaximalIdAt(url: string, j: nat, id: string) {
    j + |id| <= |url| && url[j..j + |id|] == id && AllIdChars(id)
    && (j + |id| == |url| || !IsIdChar(url[j + |id|]))
  }

  /** The expression first matches at i, and its capture there is id. */
  predicate FirstIdAt(url: string, i: nat, id: string) {
    HitAt(url, i) && (forall j :: 0 <= j < i ==> !HitAt(url, j)) && MaximalIdAt(url, i + |Marker|, id)
  }

  function IdRunEnd(url: string, j: nat): (k: nat)
    requires j <= |url|
    ensures j <= k <= |url|
    ensures forall m :: j <= m < k ==> IsIdChar(url[m])
    ensures k == |url| || !IsIdChar(url[k])
    decreases |url| - j
  {
    if j < |url| && IsIdChar(url[j]) then IdRunEnd(url, j + 1) else j
  }

  /** The leftmost position at or after i where the expression matches. */
  function FirstHit(url: string, i: nat): (r: Option<nat>)
    requires i <= |url|
    ensures r.Some? ==> i <= r.value < |url| && HitAt(url, r.value)
    ensures r.Some? ==> forall j :: i <= j < r.value ==> !HitAt(url, j)
    ensures r.None? ==> forall j :: i <= j < |url| ==> !HitAt(url, j)
    decreases |url| - i
  {
    if i == |url| then None else if HitAt(url, i) then Some(i) else FirstHit(url, i + 1)
  }

  /**
   * `extractSheetId(url)`: the maximal run of id characters right after the first
   * "/spreadsheets/d/" that is followed by at least one of them; None (`null`) if there is none.
   */
  function ExtractSheetId(url: string): (r: Option<string>)
    ensures r.None? <==> forall i :: 0 <= i < |url| ==> !HitAt(url, i)
    ensures r.Some? ==> |r.value| > 0 && exists i :: 0 <= i < |url| && FirstIdAt(url, i, r.value)
  {
    match FirstHit(url, 0)
    case None => None
    case Some(i) =>
      var id := url[i + |Marker|..IdRunEnd(url, i + |Marker|)];
      assert FirstIdAt(url, i, id);
      Some(id)
  }

  /** No "/s" inside s: nothing in s can start the marker. */
  predicate NoSlashS(s: string) { forall j :: 0 <= j < |s| - 1 ==> !(s[j] == '/' && s[j + 1] == 's') }

  lemma MaximalIdIsRunEnd(url: string, j: nat, id: string)
    requires MaximalIdAt(url, j, id)
    ensures IdRunEnd(url, j) == j + |id|
  {
  }

  /**
   * Round trip: in a URL of the form prefix + "/spreadsheets/d/" + id + suffix, where nothing
   * in the prefix starts the marker and the suffix does not continue the id, the id is found.
   */
  lemma {:induction false} ExtractFromSheetUrl(prefix: string, id: string, suffix: string)
    requires NoSlashS(prefix)
    requires |id| > 0 && AllIdChars(id)
    requires suffix == [] || !IsIdChar(suffix[0])
    ensures ExtractSheetId(prefix + Marker + id + suffix) == Some(id)
  {
    var url := prefix + Marker + id + suffix;
    var p := |prefix|;
    var tail := Marker + id + suffix;
    JoinRegroup(prefix, Marker, id, [], suffix);
    assert url == prefix + tail;
    NoHitInPrefix(prefix, tail);
    HitAfterPrefix(prefix, id, suffix);
    var h := FirstHit(url, 0);
    assert h == Some(p);
    IdAfterMarker(prefix, id, suffix);
    MaximalIdIsRunEnd(url, p + |Marker|, id);
  }

  /** Nothing in a prefix free of "/s" starts a match, when what follows begins with "/". */
  lemma NoHitInPrefix(prefix: string, tail: string)
    requires NoSlashS(prefix)
    requires |tail| > 0 && tail[0] == '/'
    ensures forall j :: 0 <= j < |prefix| ==> !HitAt(prefix + tail, j)
  {
    var url := prefix + tail;
    forall j | 0 <= j < |prefix|
      ensures !MarkerAt(url, j)
    {
      if j + 1 < |prefix| {
        assert url[j] == prefix[j] && url[j + 1] == prefix[j + 1];
      } else {
        assert url[j + 1] == '/';
      }
      MarkerStart(url, j);
    }
  }

  /** The marker opens with "/s". */
  lemma MarkerStart(url: string, j: nat)
    ensures MarkerAt(url, j) ==> url[j] == '/' && url[j + 1] == 's'
  {
    if MarkerAt(url, j) {
      assert url[j..j + |Marker|][0] == url[j] && url[j..j + |Marker|][1] == url[j + 1];
    }
  }

  lemma HitAfterPrefix(prefix: string, id: string, suffix: string)
    requires |id| > 0 && AllIdChars(id)
    ensures HitAt(prefix + Marker + id + suffix, |prefix|)
  {
    var url := prefix + Marker + id + suffix;
    var p := |prefix|;
    assert url[p..p + |Marker|] == Marker;
    assert url[p + |Marker|] == id[0];
  }

  lemma IdAfterMarker(prefix: string, id: string, suffix: string)
    requires AllIdChars(id)
    requires suffix == [] || !IsIdChar(suffix[0])
    ensures MaximalIdAt(prefix + Marker + id + suffix, |prefix| + |Marker|, id)
  {
    var url := prefix + Marker + id + suffix;
    var j := |prefix| + |Marker|;
    assert url[j..j + |id|] == id;
    assert j + |id| < |url| ==> url[j + |id|] == suffix[0];
  }

  const ExportHost: string := "https://docs.google.com"
  const ExportQuery: string := "/gviz/tq?tqx=out:json&sheet="

  /** How `${sheetId}` renders the extraction result: a missing id becomes the text "null". */
  function IdText(id: Option<string>): string {
    match id
    case Some(s) => s
    case None => "null"
  }

  /** The export URL; `sheet` is the text of the selected sheet as the template renders it. */
  function ExportUrl(sheetUrl: string, sheet: string): string {
    ExportHost + Marker + IdText(ExtractSheetId(sheetUrl)) + ExportQuery + sheet
  }

  /**
   * The export URL names the sheet id found in the user's URL; when none was found
   * the request still goes out, for the sheet id "null".
   */
  lemma ExportUrlCarriesId(sheetUrl: string, sheet: string)
    ensures ExtractSheetId(ExportUrl(sheetUrl, sheet)) == Some(IdText(ExtractSheetId(sheetUrl)))
  {
    var id := IdText(ExtractSheetId(sheetUrl));
    IdTextIsId(sheetUrl);
    ExportUrlFor(id, sheet);
  }

  /** Whatever was extracted, the text put into the export URL is a non-empty id. */
  lemma IdTextIsId(url: string)
    ensures |IdText(ExtractSheetId(url))| > 0 && AllIdChars(IdText(ExtractSheetId(url)))
  {
    if ExtractSheetId(url).Some? {
      var i :| 0 <= i < |url| && FirstIdAt(url, i, ExtractSheetId(url).value);
    }
  }

  lemma HostHasNoMarker()
    ensures NoSlashS(ExportHost)
  {
  }

  /** The export URL built around a non-empty id gives that id back. */
  lemma ExportUrlFor(id: string, sheet: string)
    requires |id| > 0 && AllIdChars(id)
    ensures ExtractSheetId(ExportHost + Marker + id + ExportQuery + sheet) == Some(id)
  {
    var suffix := ExportQuery + sheet;
    HostHasNoMarker();
    assert suffix[0] == '/';
    ExtractFromSheetUrl(ExportHost, id, suffix);
    assert ExportHost + Marker + id + suffix == ExportHost + Marker + id + ExportQuery + sheet;
  }

  // ---------------------------------------------------------------------
  // Envelope: text.substring(47).slice(0, -2)
  // ---------------------------------------------------------------------

  /** `s.substring(start)` for one argument. */
  function Substring(s: string, start: int): string {
    if start <= 0 then s else if start >= |s| then [] else s[start..]
  }

  /** `s.slice(0, -k)`. */
  function SliceDropLast(s: string, k: nat): string {
    if |s| >= k then s[..|s| - k] else []
  }

  const HeaderLength: nat := 47
  const TrailerLength: nat := 2

  /** The remainder after dropping the fixed 47-character header and 2-character trailer. */
  function StripEnvelope(text: string): (r: string)
    ensures |r| == if |text| >= HeaderLength + TrailerLength then |text| - HeaderLength - TrailerLength else 0
    ensures |text| >= HeaderLength + TrailerLength ==> r == text[HeaderLength..|text| - TrailerLength]
  {
    SliceDropLast(Substring(text, HeaderLength), TrailerLength)
  }

  /** Any body wrapped in a 47-character header and a 2-character trailer comes back out unchanged. */
  lemma StripWrapped(header: string, body: string, trailer: string)
    requires |header| == HeaderLength && |trailer| == TrailerLength
    ensures StripEnvelope(header + body + trailer) == body
  {
    var text := header + body + trailer;
    assert text[HeaderLength..|text| - TrailerLength] == body;
  }

  // ---------------------------------------------------------------------
  // Date cells: /Date\((\d+),(\d+),(\d+)\)/ and the six-number form
  // ---------------------------------------------------------------------

  const DateOpen: string := "Date("

  /**
   * n comma-separated digit runs at the front of t, closed by ")". Each `\d+` takes the
   * maximal run: a shorter run would be followed by a digit, which is neither ',' nor ')'.
   */
  function FieldsOf(t: string, n: nat): (r: Option<seq<nat>>)
    requires n >= 1
    ensures r.Some? ==> |r.value| == n
    decreases n
  {
    var k := DigitRunEnd(t, 0);
    if k == 0 || k == |t| then None
    else
      assert t[..k] == t[0..k];
      var v := DecimalValue(t[..k]);
      if n == 1 then (if t[k] == ')' then Some([v]) else None)
      else if t[k] != ',' then None
      else match FieldsOf(t[k + 1..], n - 1)
        case None => None
        case Some(rest) => Some([v] + rest)
  }

  /** The n-number pattern anchored at position i. */
  function PatternAt(s: string, i: nat, n: nat): Option<seq<nat>>
    requires i <= |s| && n >= 1
  {
    if i + |DateOpen| <= |s| && s[i..i + |DateOpen|] == DateOpen then FieldsOf(s[i + |DateOpen|..], n) else None
  }

  function FirstPatternAt(s: string, i: nat, n: nat): (r: Option<nat>)
    requires i <= |s| && n >= 1
    ensures r.Some? ==> i <= r.value <= |s| && PatternAt(s, r.value, n).Some?
    ensures r.Some? ==> forall j :: i <= j < r.value ==> PatternAt(s, j, n).None?
    ensures r.None? ==> forall j :: i <= j <= |s| ==> PatternAt(s, j, n).None?
    decreases |s| - i
  {
    if PatternAt(s, i, n).Some? then Some(i) else if i == |s| then None else FirstPatternAt(s, i + 1, n)
  }

  /** The pattern matches at i and nowhere before. */
  predicate LeftmostAt(s: string, i: nat, n: nat)
    requires i <= |s| && n >= 1
  {
    PatternAt(s, i, n).Some? && forall j :: 0 <= j < i ==> PatternAt(s, j, n).None?
  }

  /** `s.match(pattern)` for the n-number pattern: the numbers captured by the leftmost match. */
  function MatchDate(s: string, n: nat): (r: Option<seq<nat>>)
    requires n >= 1
    ensures r.None? <==> forall i :: 0 <= i <= |s| ==> PatternAt(s, i, n).None?
    ensures r.Some? ==> |r.value| == n
    ensures r.Some? ==> exists i :: 0 <= i <= |s| && LeftmostAt(s, i, n) && PatternAt(s, i, n) == r
  {
    match FirstPatternAt(s, 0, n)
    case None => None
    case Some(i) =>
      assert LeftmostAt(s, i, n);
      PatternAt(s, i, n)
  }

  /** The numbers joined by commas, in their shortest decimal form. */
  function JoinFields(fs: seq<nat>): string
    requires |fs| >= 1
  {
    if |fs| == 1 then NatText(fs[0]) else NatText(fs[0]) + "," + JoinFields(fs[1..])
  }

  /** A joined field list holds only digits and commas. */
  lemma {:induction false} JoinFieldsAlphabet(fs: seq<nat>)
    requires |fs| >= 1
    ensures forall k :: 0 <= k < |JoinFields(fs)| ==> IsDigit(JoinFields(fs)[k]) || JoinFields(fs)[k] == ','
  {
    if |fs| > 1 {
      JoinFieldsAlphabet(fs[1..]);
      var t, rest := NatText(fs[0]), JoinFields(fs[1..]);
      assert JoinFields(fs) == t + "," + rest;
      forall k | 0 <= k < |JoinFields(fs)|
        ensures IsDigit(JoinFields(fs)[k]) || JoinFields(fs)[k] == ','
      {
        if k > |t| {
          assert JoinFields(fs)[k] == rest[k - |t| - 1];
        }
      }
    }
  }

  /** The cell text the feed writes for a date (three numbers) or a date-time (six numbers). */
  function DateCellText(fs: seq<nat>): string
    requires |fs| >= 1
  {
    DateOpen + JoinFields(fs) + ")"
  }

  /** A digit run closed by ")" is the last field. */
  lemma FieldsOfClose(t: string, post: string, n: nat)
    requires |t| > 0 && AllDigits(t) && n >= 1
    ensures FieldsOf(t + [')'] + post, n) == if n == 1 then Some([DecimalValue(t)]) else None
  {
    ReadRun(t, ')', post);
  }

  /** A digit run followed by "," is a field with more to come. */
  lemma FieldsOfComma(t: string, more: string, post: string, n: nat)
    requires |t| > 0 && AllDigits(t) && n >= 1
    ensures FieldsOf(t + "," + more + ")" + post, n) ==
      if n == 1 then None
      else match FieldsOf(more + ")" + post, n - 1)
        case None => None
        case Some(fs) => Some([DecimalValue(t)] + fs)
  {
    JoinRegroup(t, ",", more, ")", post);
    ReadRun(t, ',', more + ")" + post);
  }

  /**
   * The n-number fields read from a rendered list of m numbers, whatever follows the
   * closing ")": the list itself when n == m, no match otherwise.
   */
  lemma {:induction false} FieldsOfRendered(fs: seq<nat>, n: nat, post: string)
    requires |fs| >= 1 && n >= 1
    ensures FieldsOf(JoinFields(fs) + ")" + post, n) == if n == |fs| then Some(fs) else None
    decreases |fs|
  {
    if |fs| == 1 {
      FieldsOfRenderedLast(fs, n, post);
    } else if n == 1 {
      FieldsOfComma(NatText(fs[0]), JoinFields(fs[1..]), post, n);
    } else {
      FieldsOfRendered(fs[1..], n - 1, post);
      FieldsOfRenderedStep(fs, n, post);
    }
  }

  /** One more number in front: the fields read are that number and then the rest's. */
  lemma FieldsOfRenderedStep(fs: seq<nat>, n: nat, post: string)
    requires |fs| > 1 && n > 1
    requires FieldsOf(JoinFields(fs[1..]) + ")" + post, n - 1) == if n - 1 == |fs[1..]| then Some(fs[1..]) else None
    ensures FieldsOf(JoinFields(fs) + ")" + post, n) == if n == |fs| then Some(fs) else None
  {
    FieldsOfComma(NatText(fs[0]), JoinFields(fs[1..]), post, n);
    ConsSplit(fs);
  }

  /** The rendered list of one number. */
  lemma FieldsOfRenderedLast(fs: seq<nat>, n: nat, post: string)
    requires |fs| == 1 && n >= 1
    ensures FieldsOf(JoinFields(fs) + ")" + post, n) == if n == 1 then Some(fs) else None
  {
    assert JoinFields(fs) + ")" + post == NatText(fs[0]) + [')'] + post;
    FieldsOfClose(NatText(fs[0]), post, n);
    assert fs == [fs[0]];
  }

  /** Past its first character a "Date(...)" text holds only digits, commas and ")", so no second match starts there. */
  lemma NoLaterMatch(fs: seq<nat>, n: nat, i: nat)
    requires |fs| >= 1 && n >= 1
    requires 1 <= i <= |DateCellText(fs)|
    ensures PatternAt(DateCellText(fs), i, n).None?
  {
    var s := DateCellText(fs);
    var J := JoinFields(fs);
    JoinFieldsAlphabet(fs);
    if i < |s| {
      if i < |DateOpen| {
        assert s[i] == DateOpen[i];
      } else if i < |DateOpen| + |J| {
        assert s[i] == J[i - |DateOpen|];
      } else {
        assert s[i] == ')';
      }
      assert s[i] != 'D';
      if i + |DateOpen| <= |s| {
        assert s[i..i + |DateOpen|][0] == s[i];
      }
    }
  }

  /**
   * A cell written as "Date(...)" with m numbers matches the n-number pattern exactly
   * when n == m, and then yields those numbers; so a date-time cell never passes as a date
   * and a date cell never passes as a time.
   */
  lemma MatchDateCellText(fs: seq<nat>, n: nat)
    requires |fs| >= 1 && n >= 1
    ensures MatchDate(DateCellText(fs), n) == if n == |fs| then Some(fs) else None
  {
    var s := DateCellText(fs);
    assert s[..|DateOpen|] == DateOpen;
    assert s[|DateOpen|..] == JoinFields(fs) + ")" + "";
    FieldsOfRendered(fs, n, "");
    forall i | 1 <= i <= |s|
      ensures PatternAt(s, i, n).None?
    {
      NoLaterMatch(fs, n, i);
    }
    var r := MatchDate(s, n);
    if n == |fs| && r.Some? {
      var i :| 0 <= i <= |s| && LeftmostAt(s, i, n) && PatternAt(s, i, n) == r;
      assert i == 0;
    }
  }

  // ---------------------------------------------------------------------
  // Rows into trades
  // ---------------------------------------------------------------------

  /** The decoded table: the column labels and, per row, its cells in column order. */
  datatype Table = Table(cols: seq<string>, rows: seq<seq<Cell>>)

  /** `row.c.map(cell => cell?.v ?? null)`: a cell without a value reads as null. */
  function RowData(row: seq<Cell>): seq<Cell> {
    seq(|row|, i requires 0 <= i < |row| => if row[i].Undefined? then Null else row[i])
  }

  /** `rowData[headers.indexOf(label)]`: undefined when the column is missing or the row is short. */
  function Field(headers: seq<string>, row: seq<Cell>, column: string): Cell {
    At(RowData(row), IndexOf(headers, column))
  }

  /** What the row callback does with a row: return early, push a trade, or throw. */
  datatype RowKind = SkipRow | KeepRow | ThrowRow

  /**
   * All three `.match` calls happen before any check, so a truthy Date cell with any
   * non-string among the Date and time cells throws a TypeError rather than skipping.
   */
  function Classify(headers: seq<string>, row: seq<Cell>): RowKind {
    var date := Field(headers, row, "Date");
    var entry := Field(headers, row, "Time of entry");
    var exit := Field(headers, row, "Time of exit");
    if !Truthy(date) then SkipRow
    else if !date.Str? || !entry.Str? || !exit.Str? then ThrowRow
    else if MatchDate(date.s, 3).None? then SkipRow
    else if MatchDate(entry.s, 6).None? || MatchDate(exit.s, 6).None? then SkipRow
    else KeepRow
  }

  function NumberField(headers: seq<string>, row: seq<Cell>, column: string): Number {
    ToNumber(Field(headers, row, column))
  }

  /**
   * The numbers the n-number pattern captures in a cell. A kept row always has them;
   * the zeros for a cell without a match are never read.
   */
  function Captured(c: Cell, n: nat): (r: seq<nat>)
    requires n >= 1
    ensures |r| == n
  {
    if c.Str? && MatchDate(c.s, n).Some? then MatchDate(c.s, n).value else seq(n, _ => 0)
  }

  /**
   * The trade a kept row becomes, given the id it is assigned: both timestamps take the
   * day of the Date cell and only the clock time of their own cell.
   */
  function NormaliseRow(headers: seq<string>, row: seq<Cell>, id: nat): (t: Trade)
    ensures t.id == id
  {
    var d := Captured(Field(headers, row, "Date"), 3);
    var e := Captured(Field(headers, row, "Time of entry"), 6);
    var x := Captured(Field(headers, row, "Time of exit"), 6);
    var date := Day(d[0], d[1], d[2]);
    Trade(
      id := id,
      symbol := Field(headers, row, "Symbol"),
      date := date,
      timeOfEntry := Stamp(date, Clock(e[3], e[4], e[5])),
      timeOfExit := Stamp(date, Clock(x[3], x[4], x[5])),
      buys := NumberField(headers, row, "Buys"),
      sells := NumberField(headers, row, "Sells"),
      net := NumberField(headers, row, "Net"),
      averageBuyPrice := NumberField(headers, row, "Average Buy Price"),
      averageSellPrice := NumberField(headers, row, "Average Sell Price"),
      totalBuyPrice := NumberField(headers, row, "Total Buy Price"),
      totalSoldPrice := NumberField(headers, row, "Total Sold Price"),
      netTotal := NumberField(headers, row, "Net Total"),
      realizedPnLPercent := NumberField(headers, row, "Realized P&L%"),
      realizedPnL := NumberField(headers, row, "Realized P&L"),
      commission := NumberField(headers, row, "Commission"),
      netInclCommission := NumberField(headers, row, "Net Incl. Commission"),
      whatHappenedBeforeEnter := OrEmpty(Field(headers, row, "What happened before enter")),
      whatHappenedAfterExit := OrEmpty(Field(headers, row, "What happened after exit")),
      comment := OrEmpty(Field(headers, row, "Comment")),
      onWork := Field(headers, row, "On work") == Str("TRUE"))
  }

  function KeptBy(headers: seq<string>): seq<Cell> -> bool {
    row => Classify(headers, row) == KeepRow
  }

  function SkippedBy(headers: seq<string>): seq<Cell> -> bool {
    row => Classify(headers, row) == SkipRow
  }

  function ThrownBy(headers: seq<string>): seq<Cell> -> bool {
    row => Classify(headers, row) == ThrowRow
  }

  /** The k-th kept row becomes the trade with id k. */
  function NumberedBy(headers: seq<string>): (seq<Cell>, nat) -> Trade {
    (row, k: nat) => NormaliseRow(headers, row, k)
  }

  /** The exception `transformToTrades` can raise: a `.match` call on a non-string. */
  datatype Failure = TypeError

  /**
   * Reference description of the normaliser: the batch fails if any row throws,
   * otherwise it is the kept rows, in feed order, numbered from 0.
   */
  function Normalise(headers: seq<string>, rows: seq<seq<Cell>>): Result<seq<Trade>, Failure> {
    if AnyOf(rows, ThrownBy(headers)) then Failure(TypeError)
    else Success(Enumerate(Keep(rows, KeptBy(headers)), NumberedBy(headers)))
  }

  /** `transformToTrades(table)`: one pass over the rows, pushing each kept row's trade with id = trades.length. */
  method TransformToTrades(table: Table) returns (r: Result<seq<Trade>, Failure>)
    ensures r == Normalise(table.cols, table.rows)
  {
    var headers, rows := table.cols, table.rows;
    var trades: seq<Trade> := [];
    for i := 0 to |rows|
      invariant !AnyOf(rows[..i], ThrownBy(headers))
      invariant trades == Enumerate(Keep(rows[..i], KeptBy(headers)), NumberedBy(headers))
    {
      var row := rows[i];
      var kind := Classify(headers, row);
      AnyOfStep(rows, i, ThrownBy(headers));
      KeepEnumerateStep(rows, i, KeptBy(headers), NumberedBy(headers), trades);
      if kind == ThrowRow {
        return Failure(TypeError);
      }
      if kind == KeepRow {
        trades := trades + [NormaliseRow(headers, row, |trades|)];
      }
    }
    assert rows[..|rows|] == rows;
    return Success(trades);
  }

  /** Without a throwing row the batch is the kept rows, their order kept, numbered 0, 1, ... */
  lemma NormalisedTrades(headers: seq<string>, rows: seq<seq<Cell>>)
    requires !AnyOf(rows, ThrownBy(headers))
    ensures Normalise(headers, rows).Success?
    ensures var ts, idx := Normalise(headers, rows).value, KeptIndices(rows, KeptBy(headers));
      && (forall i :: 0 <= i < |rows| ==> (Classify(headers, rows[i]) == KeepRow <==> i in idx))
      && |ts| == |idx| && Increasing(idx)
      && (forall k :: 0 <= k < |ts| ==> ts[k].id == k && idx[k] < |rows| && ts[k] == NormaliseRow(headers, rows[idx[k]], k))
  {
    KeepSelects(rows, KeptBy(headers));
  }

  /** A skipped row contributes no trade and does not disturb the rows around it. */
  lemma SkippedRowIsTransparent(headers: seq<string>, before: seq<seq<Cell>>, row: seq<Cell>, after: seq<seq<Cell>>)
    requires Classify(headers, row) == SkipRow
    ensures Normalise(headers, before + [row] + after) == Normalise(headers, before + after)
  {
    KeepDropsRejected(before, row, after, KeptBy(headers));
    AnyOfDropsRejected(before, row, after, ThrownBy(headers));
  }

  /** A row whose Date cell is empty, null, missing or otherwise falsy is skipped without effect. */
  lemma FalsyDateRowIsSkipped(headers: seq<string>, before: seq<seq<Cell>>, row: seq<Cell>, after: seq<seq<Cell>>)
    requires !Truthy(Field(headers, row, "Date"))
    ensures Classify(headers, row) == SkipRow
    ensures Normalise(headers, before + [row] + after) == Normalise(headers, before + after)
  {
    SkippedRowIsTransparent(headers, before, row, after);
  }

  /** One throwing row fails the whole batch, whatever surrounds it. */
  lemma ThrowingRowFailsBatch(headers: seq<string>, before: seq<seq<Cell>>, row: seq<Cell>, after: seq<seq<Cell>>)
    requires Classify(headers, row) == ThrowRow
    ensures Normalise(headers, before + [row] + after) == Failure(TypeError)
  {
    assert (before + [row] + after)[|before|] == row;
  }

  /**
   * A row with a truthy Date cell and any non-string among its Date and time cells
   * (null, missing, a number, a boolean) is not skipped: `.match` on it throws and the
   * batch fails.
   */
  lemma NonStringCellFailsBatch(headers: seq<string>, before: seq<seq<Cell>>, row: seq<Cell>, after: seq<seq<Cell>>)
    requires Truthy(Field(headers, row, "Date"))
    requires !Field(headers, row, "Date").Str? || !Field(headers, row, "Time of entry").Str? || !Field(headers, row, "Time of exit").Str?
    ensures Normalise(headers, before + [row] + after) == Failure(TypeError)
  {
    ThrowingRowFailsBatch(headers, before, row, after);
  }

  /** Every row is kept or skipped when none throws, so trades + skipped rows = rows. */
  lemma KeptPlusSkipped(headers: seq<string>, rows: seq<seq<Cell>>)
    requires !AnyOf(rows, ThrownBy(headers))
    ensures |Normalise(headers, rows).value| + |Keep(rows, SkippedBy(headers))| == |rows|
  {
    forall k | 0 <= k < |rows|
      ensures SkippedBy(headers)(rows[k]) == !KeptBy(headers)(rows[k])
    {
      assert Classify(headers, rows[k]) != ThrowRow;
    }
    KeepSplits(rows, KeptBy(headers), SkippedBy(headers));
  }

  /**
   * A row whose Date cell is "Date(y,m,d)" and whose time cells are six-number
   * "Date(...)" texts is kept; both timestamps carry the row's own (y, m, d), and only
   * the hour, minute and second come from the time cells.
   */
  lemma RenderedRowIsKept(headers: seq<string>, row: seq<Cell>, y: nat, m: nat, d: nat, e: seq<nat>, x: seq<nat>, id: nat)
    requires |e| == 6 && |x| == 6
    requires Field(headers, row, "Date") == Str(DateCellText([y, m, d]))
    requires Field(headers, row, "Time of entry") == Str(DateCellText(e))
    requires Field(headers, row, "Time of exit") == Str(DateCellText(x))
    ensures Classify(headers, row) == KeepRow
    ensures NormaliseRow(headers, row, id).date == Day(y, m, d)
    ensures NormaliseRow(headers, row, id).timeOfEntry == Stamp(Day(y, m, d), Clock(e[3], e[4], e[5]))
    ensures NormaliseRow(headers, row, id).timeOfExit == Stamp(Day(y, m, d), Clock(x[3], x[4], x[5]))
  {
    MatchDateCellText([y, m, d], 3);
    MatchDateCellText(e, 6);
    MatchDateCellText(x, 6);
  }

  /** A Date cell written with other than three numbers, or either time cell with other than six, skips the row. */
  lemma WrongArityCellSkipsRow(headers: seq<string>, row: seq<Cell>, fs: seq<nat>)
    requires |fs| >= 1
    requires Field(headers, row, "Time of entry").Str? && Field(headers, row, "Time of exit").Str?
    requires (|fs| != 3 && Field(headers, row, "Date") == Str(DateCellText(fs)))
      || (|fs| != 6 && Field(headers, row, "Date").Str? && Field(headers, row, "Time of entry") == Str(DateCellText(fs)))
      || (|fs| != 6 && Field(headers, row, "Date").Str? && Field(headers, row, "Time of exit") == Str(DateCellText(fs)))
    ensures Classify(headers, row) == SkipRow
  {
    MatchDateCellText(fs, 3);
    MatchDateCellText(fs, 6);
  }

  /**
   * What `c || ""` leaves in a free-text field: never null or undefined; "" for a blank
   * cell (null, undefined, "", 0 or false); a non-empty string, a non-zero number or true unchanged.
   */
  predicate FreeTextOf(c: Cell, v: Cell) {
    && !v.Null? && !v.Undefined?
    && ((c.Null? || c.Undefined? || c == Str("") || c == Num(0.0) || c == Bool(false)) ==> v == Str(""))
    && ((c.Str? && c.s != "") ==> v == c)
    && ((c.Num? && c.x != 0.0) ==> v == c)
    && (c == Bool(true) ==> v == c)
  }

  /**
   * The free-text fields of a trade, by the kind of their cell; onWork is true only for
   * the string "TRUE", so not for a checked checkbox (`true`) nor for the text "true".
   */
  lemma OptionalFields(headers: seq<string>, row: seq<Cell>, id: nat)
    ensures var t := NormaliseRow(headers, row, id);
      && FreeTextOf(Field(headers, row, "What happened before enter"), t.whatHappenedBeforeEnter)
      && FreeTextOf(Field(headers, row, "What happened after exit"), t.whatHappenedAfterExit)
      && FreeTextOf(Field(headers, row, "Comment"), t.comment)
    ensures var t, c := NormaliseRow(headers, row, id), Field(headers, row, "On work");
      && (t.onWork ==> c == Str("TRUE"))
      && (c == Str("TRUE") ==> t.onWork)
      && (c == Bool(true) ==> !t.onWork)
      && (c == Str("true") ==> !t.onWork)
  {
    var t := NormaliseRow(headers, row, id);
    OrEmptyCases(Field(headers, row, "What happened before enter"));
    OrEmptyCases(Field(headers, row, "What happened after exit"));
    OrEmptyCases(Field(headers, row, "Comment"));
    assert Str("true") != Str("TRUE") by {
      assert "true"[0] != "TRUE"[0];
    }
  }

  /** `c || ""` by the kind of c. */
  lemma OrEmptyCases(c: Cell)
    ensures FreeTextOf(c, OrEmpty(c))
  {
  }

  /**
   * A numeric field whose column is missing, or whose row is too short to reach it, reads
   * `undefined` and becomes NaN.
   */
  lemma MissingNumberIsNaN(headers: seq<string>, row: seq<Cell>, column: string)
    requires column !in headers || IndexOf(headers, column) >= |row|
    ensures NumberField(headers, row, column) == NaN
  {
  }

  /**
   * A blank numeric cell (a null value, or a cell without a value, which the row mapping
   * turns into null) becomes 0, not NaN.
   */
  lemma BlankNumberIsZero(headers: seq<string>, row: seq<Cell>, column: string)
    requires column in headers && IndexOf(headers, column) < |row|
    requires row[IndexOf(headers, column)].Null? || row[IndexOf(headers, column)].Undefined?
    ensures NumberField(headers, row, column) == Finite(0.0)
  {
    assert RowData(row)[IndexOf(headers, column)] == Null;
  }

  // ---------------------------------------------------------------------
  // fetchTradesFromSheet after the network call
  // ---------------------------------------------------------------------

  const FetchFailed: string := "Failed to fetch trading data"

  /**
   * The decoded table of the response to the export URL: `fetchText` stands for the
   * network request and `response.text()` (None: it rejected), `parseTable` for
   * `JSON.parse(...).table` (None: it threw).
   */
  function DecodedTable(sheetUrl: string, sheet: string, fetchText: string -> Option<string>, parseTable: string -> Option<Table>): Option<Table> {
    match fetchText(ExportUrl(sheetUrl, sheet))
    case None => None
    case Some(text) => parseTable(StripEnvelope(text))
  }

  /**
   * `fetchTradesFromSheet`: every failure after the URL is built (network, JSON, a
   * throwing row) becomes the one error "Failed to fetch trading data".
   */
  method FetchTradesFromSheet(sheetUrl: string, sheet: string, fetchText: string -> Option<string>, parseTable: string -> Option<Table>)
    returns (r: Result<seq<Trade>, string>)
    ensures r.Failure? ==> r.error == FetchFailed
    ensures var table := DecodedTable(sheetUrl, sheet, fetchText, parseTable);
      r.Success? <==> table.Some? && Normalise(table.value.cols, table.value.rows).Success?
    ensures var table := DecodedTable(sheetUrl, sheet, fetchText, parseTable);
      r.Success? ==> table.Some? && r.value == Normalise(table.value.cols, table.value.rows).value
  {
    var exportUrl := ExportUrl(sheetUrl, sheet);
    var response := fetchText(exportUrl);
    if response.None? {
      return Failure(FetchFailed);
    }
    var jsonString := StripEnvelope(response.value);
    var data := parseTable(jsonString);
    if data.None? {
      return Failure(FetchFailed);
    }
    var trades := TransformToTrades(data.value);
    if trades.Failure? {
      return Failure(FetchFailed);
    }
    return Success(trades.value);
  }
}
