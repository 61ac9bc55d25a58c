/**
 * Finding a trade's screenshots: the names, from the images listing, that start
 * with the trade's day token (`dd-MM-yyyy`), its symbol and the separators between
 * them. Any failure on the way yields no images.
 */
module ImageUtils {
  import opened Results
  import opened Digits
  import opened JsValues
  import opened Sequences
  import opened Trades
  import ImagesRoute

  // ---------------------------------------------------------------------
  // The day token
  // ---------------------------------------------------------------------

  /** `format(date, "dd-MM-yyyy")`: day, one-based month and year, zero-padded to 2, 2 and 4 digits. */
  function DayToken(d: Day): string {
    ZeroPadded(d.day, 2) + "-" + ZeroPadded(d.month0 + 1, 2) + "-" + ZeroPadded(d.year, 4)
  }

  /** For an ordinary date the token is exactly `dd-MM-yyyy`: ten characters, dashes at 2 and 5. */
  lemma DayTokenShape(d: Day)
    requires d.day < 100 && d.month0 + 1 < 100 && d.year < 10000
    ensures var t := DayToken(d);
      && |t| == 10 && t[2] == '-' && t[5] == '-'
      && AllDigits(t[..2]) && DecimalValue(t[..2]) == d.day
      && AllDigits(t[3..5]) && DecimalValue(t[3..5]) == d.month0 + 1
      && AllDigits(t[6..]) && DecimalValue(t[6..]) == d.year
  {
    DayTokenLength(d);
    DashedShape(ZeroPadded(d.day, 2), ZeroPadded(d.month0 + 1, 2), ZeroPadded(d.year, 4));
  }

  /** Parts of widths 2, 2 and 4 joined by dashes sit at fixed positions. */
  lemma DashedShape(a: string, b: string, c: string)
    requires |a| == 2 && |b| == 2 && |c| == 4
    ensures var t := a + "-" + b + "-" + c;
      |t| == 10 && t[2] == '-' && t[5] == '-' && t[..2] == a && t[3..5] == b && t[6..] == c
  {
  }

  /** A leading run of digits closed by '-': the digits and what follows the dash. */
  function DashedRun(s: string): (r: Option<(string, string)>)
    ensures r.Some? ==> |r.value.0| > 0 && AllDigits(r.value.0)
  {
    var k := DigitRunEnd(s, 0);
    if k == 0 || k == |s| || s[k] != '-' then None
    else
      assert s[..k] == s[0..k];
      Some((s[..k], s[k + 1..]))
  }

  predicate IsNumeral(s: string) { |s| > 0 && AllDigits(s) }

  /** Reads a token of the form digits-digits-digits back into a day (month written one-based). */
  function ParseDayToken(tok: string): Option<Day> {
    match DashedRun(tok)
    case None => None
    case Some((dd, rest)) =>
      match DashedRun(rest)
      case None => None
      case Some((mm, yyyy)) =>
        if !IsNumeral(yyyy) || DecimalValue(mm) == 0 then None
        else Some(Day(DecimalValue(yyyy), DecimalValue(mm) - 1, DecimalValue(dd)))
  }

  lemma DashedRunOf(t: string, rest: string)
    requires |t| > 0 && AllDigits(t)
    ensures DashedRun(t + "-" + rest) == Some((t, rest))
  {
    ReadRun(t, '-', rest);
    var u := t + "-" + rest;
    assert u == t + ['-'] + rest;
    assert u[..|t|] == t;
  }

  /** The token parser in terms of its two dash-closed runs and the trailing numeral. */
  lemma ParseParts(tok: string, dd: string, rest: string, mm: string, yyyy: string)
    requires DashedRun(tok) == Some((dd, rest)) && DashedRun(rest) == Some((mm, yyyy))
    requires IsNumeral(yyyy) && IsNumeral(mm) && DecimalValue(mm) >= 1
    ensures IsNumeral(dd)
    ensures ParseDayToken(tok) == Some(Day(DecimalValue(yyyy), DecimalValue(mm) - 1, DecimalValue(dd)))
  {
  }

  /** Three digit strings joined by dashes read back as their values. */
  lemma ParseDashed(a: string, b: string, c: string)
    requires IsNumeral(a) && IsNumeral(b) && IsNumeral(c) && DecimalValue(b) >= 1
    ensures ParseDayToken(a + "-" + b + "-" + c) == Some(Day(DecimalValue(c), DecimalValue(b) - 1, DecimalValue(a)))
  {
    JoinRegroup(a, "-", b, "-", c);
    DashedRunOf(a, b + "-" + c);
    DashedRunOf(b, c);
    ParseParts(a + "-" + (b + "-" + c), a, b + "-" + c, b, c);
  }

  /** Digit strings for the day, the one-based month and the year read back as that day. */
  lemma ParseDayParts(d: Day, a: string, b: string, c: string)
    requires IsNumeral(a) && IsNumeral(b) && IsNumeral(c)
    requires DecimalValue(a) == d.day && DecimalValue(b) == d.month0 + 1 && DecimalValue(c) == d.year
    ensures ParseDayToken(a + "-" + b + "-" + c) == Some(d)
  {
    ParseDashed(a, b, c);
  }

  /** The token reads back as the day it was made from, whatever the day. */
  lemma DayTokenRoundTrip(d: Day)
    ensures ParseDayToken(DayToken(d)) == Some(d)
  {
    ParseDayParts(d, ZeroPadded(d.day, 2), ZeroPadded(d.month0 + 1, 2), ZeroPadded(d.year, 4));
  }

  /** Distinct days have distinct tokens. */
  lemma DayTokenInjective(d: Day, e: Day)
    ensures DayToken(d) == DayToken(e) ==> d == e
  {
    DayTokenRoundTrip(d);
    DayTokenRoundTrip(e);
  }

  // ---------------------------------------------------------------------
  // findTradeImages
  // ---------------------------------------------------------------------

  /** The name prefix of a trade's images: `${dateStr} - ${symbol} -`. */
  function ImagePrefix(trade: Trade, numberText: real -> string): string {
    DayToken(trade.date) + " - " + TemplateText(trade.symbol, numberText) + " -"
  }

  predicate StartsWith(s: string, p: string) { |p| <= |s| && s[..|p|] == p }

  /**
   * What `fetch("/api/images")` delivers: an error thrown on the way (the network,
   * or a body that is not JSON), or a response with its decoded JSON body.
   */
  datatype Fetched = Thrown | Received(response: ImagesRoute.Response)

  /** The fetch succeeded with a 2xx status and an array of names. */
  predicate Listed(fetched: Fetched) {
    fetched.Received? && ImagesRoute.Ok(fetched.response) && fetched.response.body.FileList?
  }

  /**
   * `findTradeImages(trade)`. A non-2xx status throws and is caught; an error
   * object where an array is expected fails at `.filter` and is caught; both give [].
   * `numberText` stands for the engine's rendering of a numeric symbol cell.
   */
  function FindTradeImages(trade: Trade, fetched: Fetched, numberText: real -> string): (r: seq<string>)
    ensures !Listed(fetched) ==> r == []
    ensures Listed(fetched) ==> forall name :: name in r <==>
      name in fetched.response.body.names && StartsWith(name, ImagePrefix(trade, numberText))
  {
    match fetched
    case Thrown => []
    case Received(response) =>
      if !ImagesRoute.Ok(response) then []
      else
        match response.body
        case ErrorBody(_) => []
        case FileList(names) => Keep(names, (name: string) => StartsWith(name, ImagePrefix(trade, numberText)))
  }

  /** The found names are the listing's names at increasing positions, each position used iff its name has the prefix. */
  lemma FoundImagesKeepOrder(trade: Trade, names: seq<string>, numberText: real -> string)
    ensures var fetched := Received(ImagesRoute.Response(200, ImagesRoute.FileList(names)));
      var p := (name: string) => StartsWith(name, ImagePrefix(trade, numberText));
      var r := FindTradeImages(trade, fetched, numberText);
      var idx := KeptIndices(names, p);
      && |r| == |idx| && Increasing(idx)
      && (forall k :: 0 <= k < |idx| ==> idx[k] < |names| && r[k] == names[idx[k]])
      && (forall i :: 0 <= i < |names| ==> (StartsWith(names[i], ImagePrefix(trade, numberText)) <==> i in idx))
  {
    KeepSelects(names, (name: string) => StartsWith(name, ImagePrefix(trade, numberText)));
  }

  /** s contains the separator " -". */
  predicate HasSeparator(s: string) {
    exists i :: 0 <= i < |s| - 1 && s[i] == ' ' && s[i + 1] == '-'
  }

  /** Two prefixes of one name: the shorter is a prefix of the longer. */
  lemma PrefixesNest(name: string, p: string, q: string)
    requires StartsWith(name, p) && StartsWith(name, q) && |p| <= |q|
    ensures StartsWith(q, p)
  {
    assert q[..|p|] == name[..|q|][..|p|];
  }

  /** Closed symbols of equal length, one a prefix of the other, are equal. */
  lemma ClosedSameLength(sa: string, sb: string)
    requires |sa| == |sb| && StartsWith(sb + " -", sa + " -")
    ensures sa == sb
  {
    var u, v := sa + " -", sb + " -";
    assert u == v;
    assert sa == u[..|sa|] && sb == v[..|sb|];
  }

  /** A closed symbol one character shorter than another is not a prefix of it. */
  lemma ClosedOneShorter(sa: string, sb: string)
    requires |sa| + 1 == |sb|
    ensures !StartsWith(sb + " -", sa + " -")
  {
    var u, v := sa + " -", sb + " -";
    assert u[|sa| + 1] == '-' && v[|sa| + 1] == ' ';
  }

  /** A closed symbol that is a prefix of a longer symbol puts a separator inside it. */
  lemma ClosedPrefixSeparates(sa: string, sb: string)
    requires |sa| + 1 < |sb| && StartsWith(sb + " -", sa + " -")
    ensures HasSeparator(sb)
  {
    var u, v := sa + " -", sb + " -";
    var i := |sa|;
    assert u[i] == ' ' && u[i + 1] == '-';
    assert v[..|u|][i] == v[i] == sb[i] && v[..|u|][i + 1] == v[i + 1] == sb[i + 1];
  }

  /** A symbol, closed by " -", is not the start of a different symbol without a separator. */
  lemma ClosedSymbolsDiffer(sa: string, sb: string)
    requires sa != sb && !HasSeparator(sb) && |sa| <= |sb|
    ensures !StartsWith(sb + " -", sa + " -")
  {
    if |sa| == |sb| {
      if StartsWith(sb + " -", sa + " -") {
        ClosedSameLength(sa, sb);
      }
    } else if |sa| + 1 == |sb| {
      ClosedOneShorter(sa, sb);
    } else if StartsWith(sb + " -", sa + " -") {
      ClosedPrefixSeparates(sa, sb);
    }
  }

  /**
   * The symbol is delimited: on one day, no name belongs to two different symbols
   * that do not themselves contain " -" ("AB" does not pick up the images of "ABC").
   */
  lemma SymbolIsDelimited(token: string, sa: string, sb: string, name: string)
    requires sa != sb && !HasSeparator(sa) && !HasSeparator(sb)
    ensures !(StartsWith(name, token + " - " + sa + " -") && StartsWith(name, token + " - " + sb + " -"))
  {
    var pa, pb := token + " - " + sa + " -", token + " - " + sb + " -";
    var n := |token + " - "|;
    if StartsWith(name, pa) && StartsWith(name, pb) {
      var x, y := if |sa| <= |sb| then sa else sb, if |sa| <= |sb| then sb else sa;
      var px, py := token + " - " + x + " -", token + " - " + y + " -";
      PrefixesNest(name, px, py);
      assert px[n..] == x + " -" && py[n..] == y + " -";
      assert (y + " -")[..|x + " -"|] == py[..|px|][n..];
      ClosedSymbolsDiffer(x, y);
    }
  }

  /** Two prefixes of one name agree on their common length. */
  lemma CommonPrefix(name: string, p: string, q: string, n: nat)
    requires StartsWith(name, p) && StartsWith(name, q) && n <= |p| && n <= |q|
    ensures p[..n] == q[..n]
  {
    assert p[..n] == name[..|p|][..n] && q[..n] == name[..|q|][..n];
  }

  /** Images of two trades on different ordinary days never coincide: the leading day tokens differ. */
  lemma DayIsDelimited(a: Trade, b: Trade, numberText: real -> string, name: string)
    requires a.date != b.date
    requires a.date.day < 100 && a.date.month0 + 1 < 100 && a.date.year < 10000
    requires b.date.day < 100 && b.date.month0 + 1 < 100 && b.date.year < 10000
    ensures !(StartsWith(name, ImagePrefix(a, numberText)) && StartsWith(name, ImagePrefix(b, numberText)))
  {
    DayTokenLength(a.date);
    DayTokenLength(b.date);
    DayTokenInjective(a.date, b.date);
    PrefixStartsWithDay(a, numberText);
    PrefixStartsWithDay(b, numberText);
    if StartsWith(name, ImagePrefix(a, numberText)) && StartsWith(name, ImagePrefix(b, numberText)) {
      CommonPrefix(name, ImagePrefix(a, numberText), ImagePrefix(b, numberText), 10);
    }
  }

  /** Within the widths a day token has ten characters. */
  lemma DayTokenLength(d: Day)
    requires d.day < 100 && d.month0 + 1 < 100 && d.year < 10000
    ensures |DayToken(d)| == 10
  {
    assert Power10(2) == 100 && Power10(4) == 10000;
    NatTextWidth(d.day, 2);
    NatTextWidth(d.month0 + 1, 2);
    NatTextWidth(d.year, 4);
  }

  /** An image prefix opens with the trade's day token. */
  lemma PrefixStartsWithDay(trade: Trade, numberText: real -> string)
    ensures var t, p := DayToken(trade.date), ImagePrefix(trade, numberText);
      |t| <= |p| && p[..|t|] == t
  {
    PrefixOpens(DayToken(trade.date), " - ", TemplateText(trade.symbol, numberText), " -");
  }

  /**
   * Against the images route: the found names are exactly the listed image files
   * carrying the trade's prefix; an unreadable directory gives none.
   */
  lemma FoundImagesComeFromDirectory(trade: Trade, listing: Option<seq<string>>, numberText: real -> string)
    ensures var r := FindTradeImages(trade, Received(ImagesRoute.Get(listing)), numberText);
      && (listing.None? ==> r == [])
      && (forall name :: name in r <==>
            listing.Some? && name in listing.value && ImagesRoute.IsImageFile(name)
            && StartsWith(name, ImagePrefix(trade, numberText)))
  {
  }
}
