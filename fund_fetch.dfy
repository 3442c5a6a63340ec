/**
 * fetch_fund_data of fund_app.py: sanitise the code, ask the primary
 * (fundgz "jsonpgz(...)") source, and fall back to the Sina quote line, whose
 * quoted comma-separated record is parsed here. Every failure is "no data".
 */
module FundFetch {
  import opened Wrappers
  import opened TextScan

  /** The fixed label each source puts on its quote: "今日估值" (primary) and "当日净值" (fallback). */
  datatype Mode = TodayEstimate | DailyNetValue

  /** The dictionary fetch_fund_data returns. */
  datatype Quote = Quote(name: string, curr: real, last: real, rate: real, date: string, mode: Mode)

  /**
   * What the primary source yields once its JSON payload has been decoded and
   * its numeric fields converted: name, gsz (estimate), dwjz (last net value),
   * gszzl (change in percent) and gztime.
   */
  datatype GzRecord = GzRecord(name: string, estimate: real, lastNav: real, changePct: real, time: string)

  /** Python's float() on a field: a partial parser that gives None where float() raises. */
  type FloatParser = string -> Option<real>

  /** rate = (curr - last) / last * 100, the day's change in percent. */
  function ChangePercent(curr: real, last: real): (rate: real)
    requires last != 0.0
    ensures last * (1.0 + rate / 100.0) == curr
    ensures last > 0.0 ==> (rate >= 0.0 <==> curr >= last)
  {
    (curr - last) / last * 100.0
  }

  /**
   * Lines 62-68 on the fields of the record: field 0 is the name, field 1 the
   * current value, field 3 the previous value and field 4 the date. A current
   * value of zero is replaced by the previous one. Each step that raises in
   * fund_app.py (an index out of range, float() failing, division by zero)
   * gives None.
   */
  function QuoteOfFields(parts: seq<string>, parseFloat: FloatParser): (r: Option<Quote>)
    ensures r.Some? ==> r.value.mode == DailyNetValue && r.value.last != 0.0
    ensures r.Some? ==> r.value.last * (1.0 + r.value.rate / 100.0) == r.value.curr
  {
    if |parts| < 2 then None
    else match parseFloat(parts[1])
      case None => None
      case Some(c) =>
        if |parts| < 4 then None
        else match parseFloat(parts[3])
          case None => None
          case Some(last) =>
            var curr := if c == 0.0 then last else c;
            if last == 0.0 then None
            else if |parts| < 5 then None
            else Some(Quote(parts[0], curr, last, ChangePercent(curr, last), parts[4], DailyNetValue))
  }

  /**
   * The fallback parse of one Sina response line: the first match of
   * "([^"]+)" is split on ',' and its fields read; no match is no data.
   */
  function ParseSinaLine(line: string, parseFloat: FloatParser): (r: Option<Quote>)
    ensures FirstQuoted(line).None? ==> r.None?
  {
    match FirstQuoted(line)
    case None => None
    case Some(record) => QuoteOfFields(Split(record, ','), parseFloat)
  }

  /** The whole of fetch_fund_data, with the two network requests as parameters. */
  function FetchFundData(code: string, primary: string -> Option<GzRecord>,
                         sinaLine: string -> Option<string>, parseFloat: FloatParser): (r: Option<Quote>)
    ensures (forall i :: 0 <= i < |code| ==> !IsDigit(code[i])) ==> r.None?
    ensures r.Some? && r.value.mode == DailyNetValue ==> r.value.last != 0.0
  {
    var c := Digits(code);
    DigitsEmpty(code);
    if c == [] then None
    else match primary(c)
      case Some(g) => Some(Quote(g.name, g.estimate, g.lastNav, g.changePct, g.time, TodayEstimate))
      case None =>
        match sinaLine(c)
        case None => None
        case Some(line) => ParseSinaLine(line, parseFloat)
  }

  /** When and how the fallback parse succeeds: exactly the cases where no step of fund_app.py raises. */
  lemma ParseSinaLineSucceeds(line: string, parseFloat: FloatParser)
    ensures ParseSinaLine(line, parseFloat).Some? <==>
      FirstQuoted(line).Some? &&
      var p := Split(FirstQuoted(line).value, ',');
      |p| >= 5 && parseFloat(p[1]).Some? && parseFloat(p[3]).Some? && parseFloat(p[3]).value != 0.0
    ensures ParseSinaLine(line, parseFloat).Some? ==>
      var p := Split(FirstQuoted(line).value, ',');
      var q := ParseSinaLine(line, parseFloat).value;
      q.name == p[0] && q.last == parseFloat(p[3]).value && q.date == p[4] &&
      q.curr == (if parseFloat(p[1]).value == 0.0 then q.last else parseFloat(p[1]).value)
  {
  }

  /** A record with fewer than five fields is "no data". */
  lemma ShortRecordIsNoData(line: string, parseFloat: FloatParser)
    requires FirstQuoted(line).Some? && |Split(FirstQuoted(line).value, ',')| < 5
    ensures ParseSinaLine(line, parseFloat) == None
  {
  }

  /** A non-numeric current or previous field is "no data". */
  lemma NonNumericIsNoData(line: string, parseFloat: FloatParser)
    requires FirstQuoted(line).Some?
    requires var p := Split(FirstQuoted(line).value, ',');
      |p| >= 4 && (parseFloat(p[1]).None? || parseFloat(p[3]).None?)
    ensures ParseSinaLine(line, parseFloat) == None
  {
  }

  /** A previous value of zero is "no data" (the division raises), not a rate of 0. */
  lemma ZeroLastIsNoData(line: string, parseFloat: FloatParser)
    requires FirstQuoted(line).Some?
    requires var p := Split(FirstQuoted(line).value, ',');
      |p| >= 4 && parseFloat(p[3]) == Some(0.0)
    ensures ParseSinaLine(line, parseFloat) == None
  {
  }

  /** With the market not yet open (current reads 0), the quote is the previous value and the rate is 0. */
  lemma ZeroCurrentMeansNoChange(line: string, parseFloat: FloatParser)
    requires FirstQuoted(line).Some?
    requires var p := Split(FirstQuoted(line).value, ',');
      |p| >= 2 && parseFloat(p[1]) == Some(0.0)
    ensures ParseSinaLine(line, parseFloat).Some? ==>
      ParseSinaLine(line, parseFloat).value.curr == ParseSinaLine(line, parseFloat).value.last &&
      ParseSinaLine(line, parseFloat).value.rate == 0.0
  {
  }

  /** re.search finds the first quoted body when nothing before it is a quote. */
  lemma FirstQuotedOf(pre: string, body: string, post: string)
    requires '"' !in pre && '"' !in body && |body| > 0
    ensures FirstQuoted(pre + ['"'] + body + ['"'] + post) == Some(body)
  {
    var s := pre + ['"'] + body + ['"'] + post;
    var a, b := |pre|, |pre| + |body| + 1;
    assert s[a] == '"' && s[b] == '"';
    assert forall k :: a < k < b ==> s[k] == body[k - a - 1];
    assert QuotedSpan(s, a, b);
    var r := FindQuotedFrom(s, 0);
    assert r.Some?;
    var (i, j) := r.value;
    assert forall k :: 0 <= k < a ==> s[k] == pre[k];
    assert forall k :: 0 <= k < a ==> s[k] != '"';
    assert i == a;
    assert forall k :: a < k < b ==> s[k] != '"';
    assert j == b;
    assert s[i + 1..j] == body;
  }

  /** A record of at least five fields whose fields 1 and 3 are numbers, field 3 non-zero, gives the quote they describe. */
  lemma QuoteOfFiveFields(fields: seq<string>, parseFloat: FloatParser)
    requires |fields| >= 5
    requires parseFloat(fields[1]).Some? && parseFloat(fields[3]).Some? && parseFloat(fields[3]).value != 0.0
    ensures var c, l := parseFloat(fields[1]).value, parseFloat(fields[3]).value;
      var curr := if c == 0.0 then l else c;
      QuoteOfFields(fields, parseFloat) ==
        Some(Quote(fields[0], curr, l, (curr - l) / l * 100.0, fields[4], DailyNetValue))
  {
  }

  /** The fields of the first quoted record of a line are read as they were joined. */
  lemma SinaLineFields(pre: string, fields: seq<string>, post: string, parseFloat: FloatParser)
    requires '"' !in pre
    requires |fields| > 1 || (|fields| == 1 && |fields[0]| > 0)
    requires forall i :: 0 <= i < |fields| ==> '"' !in fields[i] && ',' !in fields[i]
    ensures ParseSinaLine(pre + ['"'] + Join(fields, ',') + ['"'] + post, parseFloat) ==
            QuoteOfFields(fields, parseFloat)
  {
    var record := Join(fields, ',');
    JoinAvoids(fields, ',', '"');
    assert |record| > 0 by {
      if |fields| > 1 {
        assert record == fields[0] + [','] + Join(fields[1..], ',');
      }
    }
    FirstQuotedOf(pre, record, post);
    SplitJoin(fields, ',');
  }

  /**
   * Parsing what the Sina source sends: a line whose first quoted part is a
   * record of at least five comma-separated fields gives the quote those
   * fields describe.
   */
  lemma ParseSinaRecord(pre: string, fields: seq<string>, post: string, parseFloat: FloatParser)
    requires '"' !in pre
    requires |fields| >= 5
    requires forall i :: 0 <= i < |fields| ==> '"' !in fields[i] && ',' !in fields[i]
    requires parseFloat(fields[1]).Some? && parseFloat(fields[3]).Some? && parseFloat(fields[3]).value != 0.0
    ensures var c, l := parseFloat(fields[1]).value, parseFloat(fields[3]).value;
      var curr := if c == 0.0 then l else c;
      ParseSinaLine(pre + ['"'] + Join(fields, ',') + ['"'] + post, parseFloat) ==
        Some(Quote(fields[0], curr, l, (curr - l) / l * 100.0, fields[4], DailyNetValue))
  {
    SinaLineFields(pre, fields, post, parseFloat);
    QuoteOfFiveFields(fields, parseFloat);
  }

  /** Only the digits of the code matter: fetching the sanitised code gives the same answer. */
  lemma FetchSeesOnlyDigits(code: string, primary: string -> Option<GzRecord>,
                            sinaLine: string -> Option<string>, parseFloat: FloatParser)
    ensures FetchFundData(code, primary, sinaLine, parseFloat) ==
            FetchFundData(Digits(code), primary, sinaLine, parseFloat)
  {
    DigitsIdempotent(code);
  }

  /** The primary source answers whenever it can; the fallback is asked only when it cannot. */
  lemma FetchPrefersPrimary(code: string, primary: string -> Option<GzRecord>,
                            sinaLine: string -> Option<string>, parseFloat: FloatParser)
    requires Digits(code) != []
    ensures var r := FetchFundData(code, primary, sinaLine, parseFloat);
      (r.Some? && r.value.mode == TodayEstimate) <==> primary(Digits(code)).Some?
    ensures primary(Digits(code)).Some? ==>
      var g := primary(Digits(code)).value;
      FetchFundData(code, primary, sinaLine, parseFloat) ==
        Some(Quote(g.name, g.estimate, g.lastNav, g.changePct, g.time, TodayEstimate))
    ensures primary(Digits(code)).None? ==>
      FetchFundData(code, primary, sinaLine, parseFloat) ==
        (if sinaLine(Digits(code)).None? then None else ParseSinaLine(sinaLine(Digits(code)).value, parseFloat))
  {
  }
}
