/**
 * fetchHistoricalPrices once the response body has been decoded: find the
 * daily time series, parse every entry of its entry set into a (date, close)
 * point, put the points into the date-ordered map, then add the entries dated
 * on or after the range's first day to the chart series. Any bad entry fails
 * the whole call before a series exists; a kept date whose year the chart's
 * Day cannot hold fails it while the series is being built.
 */
module PriceHistory {
  import opened Results
  import opened Calendar
  import opened Json
  import opened DateParsing
  import opened PriceMap

  const TimeSeriesKey: string := "Time Series (Daily)"
  const CloseKey: string := "4. close"

  /** The exceptions the history build can end with, one per cause. */
  datatype HistoryError =
    | BodyNotAnObject          // the decoded body is not a JSON object
    | NoData(symbol: string)   // the time series member is absent
    | SeriesNotAnObject        // the time series member is not an object
    | BadDate(key: string)     // the key does not parse as yyyy-MM-dd
    | EntryNotAnObject(key: string)
    | MissingClose(key: string)
    | BadClose(key: string)
    | YearOutsideChart         // new Day(...) refuses a year outside 1900..9999

  /** The text of the error raised when the time series is absent; it names the symbol. */
  function NoDataMessage(symbol: string): (msg: string)
    ensures |msg| >= |symbol| && msg[|msg| - |symbol|..] == symbol
  {
    "No se encontr\U{00F3} informaci\U{00F3}n hist\U{00F3}rica para " + symbol
  }

  /**
   * The message of an exception the method raises itself. Only the missing
   * time series is one; the others come from the libraries it calls.
   */
  function OwnMessage(e: HistoryError): (msg: Option<string>)
    ensures msg.Some? <==> e.NoData?
    ensures msg.Some? ==> |msg.value| >= |e.symbol| && msg.value[|msg.value| - |e.symbol|..] == e.symbol
  {
    match e
    case NoData(symbol) => Some(NoDataMessage(symbol))
    case _ => None
  }

  /**
   * One entry of the time series: the key parsed as a date, then the value
   * taken as an object, then its close member read as a number.
   */
  function DecodeEntry(m: Member): (r: Result<Point, HistoryError>)
    ensures r.Success? <==> ParseDate(m.key).Some? && m.value.JObject?
                            && Get(m.value.members, CloseKey).Some?
                            && AsNumberText(Get(m.value.members, CloseKey).value).Some?
    ensures r.Success? ==> r.value.date == ParseDate(m.key).value
                           && r.value.close == AsNumberText(Get(m.value.members, CloseKey).value).value
    ensures ParseDate(m.key).None? ==> r == Failure(BadDate(m.key))
  {
    match ParseDate(m.key)
    case None => Failure(BadDate(m.key))
    case Some(date) =>
      match AsObject(m.value)
      case Failure(_) => Failure(EntryNotAnObject(m.key))
      case Success(fields) =>
        match Get(fields, CloseKey)
        case None => Failure(MissingClose(m.key))
        case Some(v) =>
          match AsNumberText(v)
          case None => Failure(BadClose(m.key))
          case Some(close) => Success(Point(date, close))
  }

  /** Each entry's own outcome, in order. */
  function Decoded(ms: seq<Member>): (rs: seq<Result<Point, HistoryError>>)
    ensures |rs| == |ms| && forall i :: 0 <= i < |ms| ==> rs[i] == DecodeEntry(ms[i])
  {
    if |ms| == 0 then [] else Decoded(ms[..|ms| - 1]) + [DecodeEntry(ms[|ms| - 1])]
  }

  /** Outcomes taken in order: all the points, or the first failure. */
  function Collect(rs: seq<Result<Point, HistoryError>>): (r: Result<seq<Point>, HistoryError>)
    ensures r.Success? <==> forall i :: 0 <= i < |rs| ==> rs[i].Success?
    ensures r.Success? ==> |r.value| == |rs| && forall i :: 0 <= i < |rs| ==> rs[i] == Success(r.value[i])
    ensures r.Failure? ==> exists i :: 0 <= i < |rs| && rs[i] == Failure(r.error)
                                       && forall j :: 0 <= j < i ==> rs[j].Success?
  {
    if |rs| == 0 then Success([])
    else
      var init := rs[..|rs| - 1];
      assert forall i :: 0 <= i < |init| ==> init[i] == rs[i];
      match Collect(init)
      case Failure(e) => Failure(e)
      case Success(pts) =>
        match rs[|rs| - 1]
        case Failure(e) => Failure(e)
        case Success(pt) =>
          assert forall i :: 0 <= i < |init| ==> (pts + [pt])[i] == pts[i];
          Success(pts + [pt])
  }

  /** The first loop's parsing, entry by entry in order: all points, or the first failure. */
  function DecodeAll(ms: seq<Member>): (r: Result<seq<Point>, HistoryError>)
    ensures r.Success? <==> forall i :: 0 <= i < |ms| ==> DecodeEntry(ms[i]).Success?
    ensures r.Success? ==> |r.value| == |ms|
                           && forall i :: 0 <= i < |ms| ==> DecodeEntry(ms[i]) == Success(r.value[i])
    ensures r.Failure? ==> exists i :: 0 <= i < |ms| && DecodeEntry(ms[i]) == Failure(r.error)
                                       && forall j :: 0 <= j < i ==> DecodeEntry(ms[j]).Success?
  {
    Collect(Decoded(ms))
  }

  /** The years JFreeChart's Day can hold. */
  predicate ChartableYear(d: Date) {
    1900 <= d.year <= 9999
  }

  /**
   * Adding the kept points to the chart series one by one: the points, or the
   * exception new Day raises at a year it cannot hold.
   */
  function ChartSeries(kept: seq<Point>): Result<seq<Point>, HistoryError> {
    if forall q :: q in kept ==> ChartableYear(q.date) then Success(kept) else Failure(YearOutsideChart)
  }

  /** The series a decoded response body yields, or the error that ends the call. */
  function History(body: Json, symbol: string, from: Date): Result<seq<Point>, HistoryError> {
    match AsObject(body)
    case Failure(_) => Failure(BodyNotAnObject)
    case Success(top) =>
      match GetObject(top, TimeSeriesKey)
      case Failure(_) => Failure(SeriesNotAnObject)
      case Success(None) => Failure(NoData(symbol))
      case Success(Some(members)) =>
        match DataMap(members)
        case Failure(e) => Failure(e)
        case Success(listing) => ChartSeries(FilterFrom(listing, from))
  }

  /** Entries after the first failing one cannot change the outcome. */
  lemma {:induction false} FirstFailureDecides(ms: seq<Member>, i: int)
    requires 0 <= i < |ms| && DecodeAll(ms[..i]).Success? && DecodeEntry(ms[i]).Failure?
    ensures DecodeAll(ms) == Failure(DecodeEntry(ms[i]).error)
  {
    var init := ms[..|ms| - 1];
    if i == |ms| - 1 {
      assert init == ms[..i];
    } else {
      assert init[..i] == ms[..i] && init[i] == ms[i];
      FirstFailureDecides(init, i);
    }
  }

  lemma DecodeStep(ms: seq<Member>, i: int, pts: seq<Point>, pt: Point)
    requires 0 <= i < |ms| && DecodeAll(ms[..i]) == Success(pts) && DecodeEntry(ms[i]) == Success(pt)
    ensures DecodeAll(ms[..i + 1]) == Success(pts + [pt])
  {
    assert ms[..i + 1][..i] == ms[..i] && ms[..i + 1][i] == ms[i];
  }

  /**
   * The first loop's result: the ascending listing of the map the entry set's
   * points are put into, or the first failure.
   */
  function DataMap(members: seq<Member>): Result<seq<Point>, HistoryError> {
    match DecodeAll(EntrySet(members))
    case Failure(e) => Failure(e)
    case Success(pts) => Success(Tabulate(pts))
  }

  /**
   * fetchHistoricalPrices after the HTTP call: the body is the decoded
   * response, the series is built only once every entry has parsed.
   */
  method FetchHistoricalPrices(body: Json, symbol: string, fromDate: Date)
    returns (r: Result<seq<Point>, HistoryError>)
    ensures r == History(body, symbol, fromDate)
  {
    if !body.JObject? {
      return Failure(BodyNotAnObject);
    }
    var timeSeries := GetObject(body.members, TimeSeriesKey);
    if timeSeries.Failure? {
      return Failure(SeriesNotAnObject);
    }
    if timeSeries.value.None? {
      return Failure(NoData(symbol));
    }
    var dataMap := PutEntries(timeSeries.value.value);
    if dataMap.Failure? {
      return Failure(dataMap.error);
    }
    r := SeriesFrom(dataMap.value, fromDate);
  }

  /** The first loop: put every entry of the time series' entry set, in order, into the date-ordered map. */
  method PutEntries(timeSeries: seq<Member>) returns (r: Result<seq<Point>, HistoryError>)
    ensures r == DataMap(timeSeries)
  {
    var entries := EntrySet(timeSeries);
    var dataMap: seq<Point> := [];
    ghost var decoded: seq<Point> := [];
    var i := 0;
    while i < |entries|
      invariant 0 <= i <= |entries|
      invariant DecodeAll(entries[..i]) == Success(decoded)
      invariant dataMap == Tabulate(decoded)
    {
      var point := DecodeEntry(entries[i]);
      if point.Failure? {
        FirstFailureDecides(entries, i);
        return Failure(point.error);
      }
      DecodeStep(entries, i, decoded, point.value);
      assert (decoded + [point.value])[..|decoded|] == decoded;
      dataMap := Insert(dataMap, point.value);
      decoded := decoded + [point.value];
      i := i + 1;
    }
    assert entries[..i] == entries;
    return Success(dataMap);
  }

  /**
   * The second loop: skip the entries before fromDate and add the rest to the
   * series as chart Days, which fails at the first year a Day cannot hold.
   */
  method SeriesFrom(dataMap: seq<Point>, fromDate: Date) returns (r: Result<seq<Point>, HistoryError>)
    ensures r == ChartSeries(FilterFrom(dataMap, fromDate))
  {
    var series := [];
    var j := 0;
    while j < |dataMap|
      invariant 0 <= j <= |dataMap|
      invariant series == FilterFrom(dataMap[..j], fromDate)
      invariant forall q :: q in series ==> ChartableYear(q.date)
    {
      var entry := dataMap[j];
      assert dataMap[..j + 1][..j] == dataMap[..j];
      j := j + 1;
      if Before(entry.date, fromDate) {
        continue;
      }
      if !ChartableYear(entry.date) {
        assert entry in FilterFrom(dataMap, fromDate);
        return Failure(YearOutsideChart);
      }
      series := series + [entry];
    }
    assert dataMap[..j] == dataMap;
    return Success(series);
  }

  // ---------------------------------------------------------------------------
  // What the history build promises
  // ---------------------------------------------------------------------------

  /** The body is an object whose time series member is the object with these members. */
  predicate HasSeries(body: Json, members: seq<Member>) {
    body.JObject? && Get(body.members, TimeSeriesKey) == Some(JObject(members))
  }

  /** With a time series present, a failing first loop is the call's failure. */
  lemma HistoryOfBadEntry(body: Json, symbol: string, from: Date, members: seq<Member>)
    requires HasSeries(body, members)
    ensures DataMap(members).Failure? ==> History(body, symbol, from) == Failure(DataMap(members).error)
  {
  }

  /** With a time series present, a listing from the first loop is filtered and charted. */
  lemma HistoryOfListing(body: Json, symbol: string, from: Date, members: seq<Member>, listing: seq<Point>)
    requires HasSeries(body, members) && DataMap(members) == Success(listing)
    ensures History(body, symbol, from) == ChartSeries(FilterFrom(listing, from))
  {
  }

  /** Decoded entries give the listing of their points. */
  lemma DataMapOfPoints(members: seq<Member>, pts: seq<Point>)
    requires DecodeAll(EntrySet(members)) == Success(pts)
    ensures DataMap(members) == Success(Tabulate(pts))
  {
  }

  /** Without a time series the call fails with the error naming the symbol, and no series exists. */
  lemma AbsentSeriesIsNoData(body: Json, symbol: string, from: Date)
    requires body.JObject? && Get(body.members, TimeSeriesKey).None?
    ensures History(body, symbol, from) == Failure(NoData(symbol))
    ensures OwnMessage(History(body, symbol, from).error) == Some(NoDataMessage(symbol))
  {
  }

  /**
   * With a time series, the first loop succeeds exactly when every key decodes
   * with its last value; a value that a later repeat of its key replaced plays
   * no part. Otherwise the call fails with the error of the first entry of the
   * entry set that does not decode, and no series exists.
   */
  lemma BadEntryFailsWholeCall(body: Json, symbol: string, from: Date, members: seq<Member>)
    requires HasSeries(body, members)
    ensures DataMap(members).Success? <==> forall m :: Holds(members, m) ==> DecodeEntry(m).Success?
    ensures DataMap(members).Failure? ==> History(body, symbol, from) == Failure(DataMap(members).error)
    ensures DataMap(members).Failure? ==>
              exists i :: 0 <= i < |EntrySet(members)|
                          && DecodeEntry(EntrySet(members)[i]) == Failure(DataMap(members).error)
                          && forall j :: 0 <= j < i ==> DecodeEntry(EntrySet(members)[j]).Success?
  {
    var es := EntrySet(members);
    EntrySetMembers(members);
    HistoryOfBadEntry(body, symbol, from, members);
    if DataMap(members).Success? {
      forall m | Holds(members, m) ensures DecodeEntry(m).Success? {
        assert m in es;
      }
    } else {
      var i :| 0 <= i < |es| && DecodeEntry(es[i]).Failure?;
      assert Holds(members, es[i]) by {
        assert es[i] in es;
      }
    }
  }

  /**
   * A successful series is strictly ascending by date, holds exactly the
   * entries of the date-ordered map whose date is not before from, and every
   * one of its years is one a chart Day can hold.
   */
  lemma SeriesIsFilteredMap(body: Json, symbol: string, from: Date, members: seq<Member>)
    requires HasSeries(body, members) && History(body, symbol, from).Success?
    ensures DecodeAll(EntrySet(members)).Success?
    ensures var out := History(body, symbol, from).value;
            var m := PutAll(DecodeAll(EntrySet(members)).value);
            StrictlyAscending(out)
            && (forall q :: q in out <==> q.date in m && m[q.date] == q.close && !Before(q.date, from))
            && forall q :: q in out ==> ChartableYear(q.date)
  {
    HistoryOfBadEntry(body, symbol, from, members);
    var pts := DecodeAll(EntrySet(members)).value;
    DataMapOfPoints(members, pts);
    HistoryOfListing(body, symbol, from, members, Tabulate(pts));
  }

  /**
   * Once every entry decodes, the call fails exactly when a kept entry has a
   * year before 1900: no parsed year lies past 9999, so that is the only way a
   * chart Day can refuse one.
   */
  lemma KeptYearsDecideChart(body: Json, symbol: string, from: Date, members: seq<Member>)
    requires HasSeries(body, members) && DataMap(members).Success?
    ensures History(body, symbol, from).Success? <==>
              forall m :: Holds(members, m) && DecodeEntry(m).Success? && !Before(DecodeEntry(m).value.date, from)
                          ==> 1900 <= DecodeEntry(m).value.date.year
    ensures History(body, symbol, from).Failure? ==> History(body, symbol, from).error == YearOutsideChart
  {
    var pts := DecodeAll(EntrySet(members)).value;
    DataMapOfPoints(members, pts);
    HistoryOfListing(body, symbol, from, members, Tabulate(pts));
    EntryYears(members, pts, from);
    KeptPointsChart(pts, from);
  }

  /** The chart takes the kept points exactly when every point put in the range has a year from 1900 on. */
  lemma KeptPointsChart(pts: seq<Point>, from: Date)
    requires forall k :: 0 <= k < |pts| ==> pts[k].date.year <= 9999
    ensures ChartSeries(FilterFrom(Tabulate(pts), from)).Success? <==>
              forall k :: 0 <= k < |pts| && !Before(pts[k].date, from) ==> 1900 <= pts[k].date.year
  {
    var kept := FilterFrom(Tabulate(pts), from);
    if ChartSeries(kept).Success? {
      forall k | 0 <= k < |pts| && !Before(pts[k].date, from) ensures 1900 <= pts[k].date.year {
        PutDateKept(pts, from, k);
      }
    } else {
      var q :| q in kept && !ChartableYear(q.date);
      var k := KeptDateWasPut(pts, from, q);
    }
  }

  /** The points put are the decoded entries: their years are parsed ones, and those in the range are the members'. */
  lemma EntryYears(members: seq<Member>, pts: seq<Point>, from: Date)
    requires DecodeAll(EntrySet(members)) == Success(pts)
    ensures forall k :: 0 <= k < |pts| ==> pts[k].date.year <= 9999
    ensures (forall k :: 0 <= k < |pts| && !Before(pts[k].date, from) ==> 1900 <= pts[k].date.year) <==>
              forall m :: Holds(members, m) && DecodeEntry(m).Success? && !Before(DecodeEntry(m).value.date, from)
                          ==> 1900 <= DecodeEntry(m).value.date.year
  {
    PointsAreEntries(members, pts);
    EntriesArePoints(members, pts);
  }

  /** Each point put is the decoding of a key with its last value. */
  lemma PointsAreEntries(members: seq<Member>, pts: seq<Point>)
    requires DecodeAll(EntrySet(members)) == Success(pts)
    ensures forall k :: 0 <= k < |pts| ==>
              Holds(members, EntrySet(members)[k]) && DecodeEntry(EntrySet(members)[k]) == Success(pts[k])
  {
    var es := EntrySet(members);
    EntrySetMembers(members);
    forall k | 0 <= k < |pts| ensures Holds(members, es[k]) {
      assert es[k] in es;
    }
  }

  /** Each key with its last value decodes to a point put. */
  lemma EntriesArePoints(members: seq<Member>, pts: seq<Point>)
    requires DecodeAll(EntrySet(members)) == Success(pts)
    ensures forall m :: Holds(members, m) ==> DecodeEntry(m).Success? && DecodeEntry(m).value in pts
  {
    forall m | Holds(members, m) ensures DecodeEntry(m).Success? && DecodeEntry(m).value in pts {
      var k := EntryIndex(members, EntrySet(members), pts, m);
    }
  }

  /** A key with its last value is an entry of the entry set, and decodes to the point at its place. */
  lemma EntryIndex(members: seq<Member>, es: seq<Member>, pts: seq<Point>, m: Member) returns (k: int)
    requires es == EntrySet(members) && DecodeAll(es) == Success(pts) && Holds(members, m)
    ensures 0 <= k < |es| && es[k] == m && DecodeEntry(m) == Success(pts[k])
  {
    EntrySetMembers(members);
    assert m in es;
    k :| 0 <= k < |es| && es[k] == m;
  }

  /** A kept point carries the date of some point put into the map. */
  lemma KeptDateWasPut(pts: seq<Point>, from: Date, q: Point) returns (k: int)
    requires q in FilterFrom(Tabulate(pts), from)
    ensures 0 <= k < |pts| && pts[k].date == q.date && !Before(q.date, from)
  {
    PutAllKeys(pts);
    k :| 0 <= k < |pts| && pts[k].date == q.date;
  }

  /** The date of a point put into the map and not before from is kept, with the close the map holds for it. */
  lemma PutDateKept(pts: seq<Point>, from: Date, k: int)
    requires 0 <= k < |pts| && !Before(pts[k].date, from)
    ensures pts[k].date in PutAll(pts)
    ensures Point(pts[k].date, PutAll(pts)[pts[k].date]) in FilterFrom(Tabulate(pts), from)
  {
    PutAllKeys(pts);
  }

  /** A range that starts in 1900 or later never reaches a year the chart cannot hold. */
  lemma RecentRangeCharts(body: Json, symbol: string, from: Date, members: seq<Member>)
    requires HasSeries(body, members) && DataMap(members).Success? && 1900 <= from.year
    ensures History(body, symbol, from) == Success(FilterFrom(DataMap(members).value, from))
  {
    KeptYearsDecideChart(body, symbol, from, members);
  }

  /**
   * An entry of the entry set dated on or after from, whose date no later
   * entry of the set shares, is in the series with its close.
   */
  lemma {:induction false} LastEntryOfEachDateListed(body: Json, symbol: string, from: Date,
                                                     members: seq<Member>, es: seq<Member>, i: int)
    requires HasSeries(body, members) && History(body, symbol, from).Success?
    requires es == EntrySet(members) && 0 <= i < |es|
    requires forall j :: i < j < |es| ==> ParseDate(es[j].key) != ParseDate(es[i].key)
    requires !Before(ParseDate(es[i].key).value, from)
    ensures DecodeEntry(es[i]).Success?
    ensures DecodeEntry(es[i]).value in History(body, symbol, from).value
  {
    HistoryOfBadEntry(body, symbol, from, members);
    var pts := DecodeAll(es).value;
    DataMapOfPoints(members, pts);
    HistoryOfListing(body, symbol, from, members, Tabulate(pts));
    LaterDatesDiffer(es, pts, i);
    LastPointKept(pts, from, i);
  }

  /** Entries whose keys parse to different dates decode to points with different dates. */
  lemma LaterDatesDiffer(es: seq<Member>, pts: seq<Point>, i: int)
    requires DecodeAll(es) == Success(pts) && 0 <= i < |es|
    requires forall j :: i < j < |es| ==> ParseDate(es[j].key) != ParseDate(es[i].key)
    ensures DecodeEntry(es[i]) == Success(pts[i])
    ensures forall j :: i < j < |pts| ==> pts[j].date != pts[i].date
  {
    forall j | i < j < |pts| ensures pts[j].date != pts[i].date {
      assert DecodeEntry(es[j]) == Success(pts[j]);
      assert ParseDate(es[j].key) != ParseDate(es[i].key);
    }
  }

  /** A point in the range whose date no later point shares is in the charted series. */
  lemma LastPointKept(pts: seq<Point>, from: Date, i: int)
    requires 0 <= i < |pts| && !Before(pts[i].date, from)
    requires forall j :: i < j < |pts| ==> pts[j].date != pts[i].date
    requires ChartSeries(FilterFrom(Tabulate(pts), from)).Success?
    ensures pts[i] in ChartSeries(FilterFrom(Tabulate(pts), from)).value
  {
    LastPutWins(pts, i);
    PutDateKept(pts, from, i);
  }

  /**
   * Only the final date-to-close map decides the series: two responses whose
   * entries, in whatever order, leave the same map give the same series.
   */
  lemma {:induction false} SeriesDependsOnlyOnMap(b1: Json, m1: seq<Member>, b2: Json, m2: seq<Member>,
                                                  symbol: string, from: Date)
    requires HasSeries(b1, m1) && HasSeries(b2, m2)
    requires DecodeAll(EntrySet(m1)).Success? && DecodeAll(EntrySet(m2)).Success?
    requires PutAll(DecodeAll(EntrySet(m1)).value) == PutAll(DecodeAll(EntrySet(m2)).value)
    ensures History(b1, symbol, from) == History(b2, symbol, from)
  {
    var p1, p2 := DecodeAll(EntrySet(m1)).value, DecodeAll(EntrySet(m2)).value;
    ListingUnique(Tabulate(p1), Tabulate(p2));
    DataMapOfPoints(m1, p1);
    DataMapOfPoints(m2, p2);
    HistoryOfListing(b1, symbol, from, m1, Tabulate(p1));
    HistoryOfListing(b2, symbol, from, m2, Tabulate(p2));
  }

  /** A range that starts after every entry gives an empty series, not an error. */
  lemma EmptySeriesIsNotAnError(body: Json, symbol: string, from: Date, members: seq<Member>)
    requires HasSeries(body, members)
    requires forall m :: Holds(members, m) ==> DecodeEntry(m).Success? && Before(DecodeEntry(m).value.date, from)
    ensures History(body, symbol, from) == Success([])
  {
    BadEntryFailsWholeCall(body, symbol, from, members);
    var pts := DecodeAll(EntrySet(members)).value;
    var kept := FilterFrom(Tabulate(pts), from);
    DataMapOfPoints(members, pts);
    HistoryOfListing(body, symbol, from, members, Tabulate(pts));
    PointsAreEntries(members, pts);
    PutAllKeys(pts);
    forall q ensures q !in kept {
      if q.date in PutAll(pts) {
        var k :| 0 <= k < |pts| && pts[k].date == q.date;
        assert Holds(members, EntrySet(members)[k]);
      }
    }
    SameMembersBothEmpty(kept, []);
  }

  /** The close object of one day, as the service sends it. */
  function CloseObject(close: string): Json {
    JObject([Member(CloseKey, JString(close))])
  }

  /** A day whose key parses and whose object holds a close decodes to that date and close. */
  lemma DecodeDay(key: string, date: Date, close: string)
    requires ParseDate(key) == Some(date)
    ensures DecodeEntry(Member(key, CloseObject(close))) == Success(Point(date, close))
  {
    assert Get([Member(CloseKey, JString(close))], CloseKey) == Some(JString(close));
  }

  /** The entries of a two-day payload, newest first as the service sends them. */
  function TwoDayEntries(): seq<Member> {
    [Member("2024-01-02", CloseObject("100.0")), Member("2024-01-01", CloseObject("99.0"))]
  }

  lemma TwoDayEntriesAreTheEntrySet()
    ensures EntrySet(TwoDayEntries()) == TwoDayEntries()
  {
    var entries := TwoDayEntries();
    assert entries[0].key[9] != entries[1].key[9];
    EntrySetOfDistinct(entries);
  }

  /** Decoding two entries in order lists their points in the same order. */
  lemma DecodeTwo(ms: seq<Member>, first: Point, second: Point)
    requires |ms| == 2 && DecodeEntry(ms[0]) == Success(first) && DecodeEntry(ms[1]) == Success(second)
    ensures DecodeAll(ms) == Success([first, second])
  {
    forall i | 0 <= i < |ms| ensures DecodeEntry(ms[i]).Success? {
      assert i == 0 || i == 1;
    }
    DecodedInOrder(ms, first, second);
  }

  lemma DecodedInOrder(ms: seq<Member>, first: Point, second: Point)
    requires |ms| == 2 && DecodeAll(ms).Success?
    requires DecodeEntry(ms[0]) == Success(first) && DecodeEntry(ms[1]) == Success(second)
    ensures DecodeAll(ms).value == [first, second]
  {
    var pts := DecodeAll(ms).value;
    assert DecodeEntry(ms[0]) == Success(pts[0]) && DecodeEntry(ms[1]) == Success(pts[1]);
  }

  lemma TwoDayEntriesDecode()
    ensures DecodeAll(TwoDayEntries())
            == Success([Point(Date(2024, 1, 2), "100.0"), Point(Date(2024, 1, 1), "99.0")])
  {
    var entries := TwoDayEntries();
    ParseFields("2024-01-02", 2024, 1, 2);
    ParseFields("2024-01-01", 2024, 1, 1);
    DecodeDay("2024-01-02", Date(2024, 1, 2), "100.0");
    DecodeDay("2024-01-01", Date(2024, 1, 1), "99.0");
    DecodeTwo(entries, Point(Date(2024, 1, 2), "100.0"), Point(Date(2024, 1, 1), "99.0"));
  }

  /** Two points that arrive newest first and both start on or after from come out oldest first. */
  lemma {:induction false} TwoPointsReordered(body: Json, members: seq<Member>, symbol: string, from: Date,
                                              newer: Point, older: Point)
    requires HasSeries(body, members) && DecodeAll(EntrySet(members)) == Success([newer, older])
    requires Before(older.date, newer.date) && !Before(older.date, from)
    requires ChartableYear(older.date) && ChartableYear(newer.date)
    ensures History(body, symbol, from) == Success([older, newer])
  {
    DataMapOfPoints(members, [newer, older]);
    HistoryOfListing(body, symbol, from, members, Tabulate([newer, older]));
    TwoPointsCharted(newer, older, from);
  }

  lemma TwoPointsCharted(newer: Point, older: Point, from: Date)
    requires Before(older.date, newer.date) && !Before(older.date, from)
    requires ChartableYear(older.date) && ChartableYear(newer.date)
    ensures ChartSeries(FilterFrom(Tabulate([newer, older]), from)) == Success([older, newer])
  {
    TwoPutsListed(newer, older, from);
  }

  /** The two-day payload with the range starting on its first day: both points, oldest first. */
  lemma TwoDayExample()
    ensures History(JObject([Member(TimeSeriesKey, JObject(TwoDayEntries()))]), "IBM", Date(2024, 1, 1))
            == Success([Point(Date(2024, 1, 1), "99.0"), Point(Date(2024, 1, 2), "100.0")])
  {
    var body := JObject([Member(TimeSeriesKey, JObject(TwoDayEntries()))]);
    TwoDayEntriesDecode();
    TwoDayEntriesAreTheEntrySet();
    assert HasSeries(body, TwoDayEntries());
    TwoPointsReordered(body, TwoDayEntries(), "IBM", Date(2024, 1, 1),
                       Point(Date(2024, 1, 2), "100.0"), Point(Date(2024, 1, 1), "99.0"));
  }

  /** Decoding a single entry lists its point. */
  lemma DecodeOne(m: Member, pt: Point)
    requires DecodeEntry(m) == Success(pt)
    ensures DecodeAll([m]) == Success([pt])
  {
    assert [m][..0] == [];
    assert DecodeAll([m][..0]) == Success([]);
    assert [] + [pt] == [pt];
  }

  /** A single point is listed, and kept when it is not before from. */
  lemma OnePointListed(pt: Point, from: Date)
    requires !Before(pt.date, from)
    ensures FilterFrom(Tabulate([pt]), from) == [pt]
  {
    assert [pt][..0] == [];
    assert Tabulate([pt]) == [pt];
  }

  /**
   * A key written twice counts once, with its last value: an earlier value
   * without a close does not fail the call.
   */
  lemma RepeatedKeyKeepsLastValue()
    ensures var members := [Member("2024-01-01", JObject([])), Member("2024-01-01", CloseObject("1"))];
            History(JObject([Member(TimeSeriesKey, JObject(members))]), "IBM", Date(2024, 1, 1))
            == Success([Point(Date(2024, 1, 1), "1")])
  {
    var members := [Member("2024-01-01", JObject([])), Member("2024-01-01", CloseObject("1"))];
    var body := JObject([Member(TimeSeriesKey, JObject(members))]);
    var pt := Point(Date(2024, 1, 1), "1");
    EntrySetOfRepeat(members[0], members[1]);
    NewYearListed();
    DataMapOfPoints(members, [pt]);
    HistoryOfListing(body, "IBM", Date(2024, 1, 1), members, Tabulate([pt]));
  }

  lemma NewYearListed()
    ensures var pt := Point(Date(2024, 1, 1), "1");
            DecodeAll([Member("2024-01-01", CloseObject("1"))]) == Success([pt])
            && FilterFrom(Tabulate([pt]), Date(2024, 1, 1)) == [pt]
  {
    var pt := Point(Date(2024, 1, 1), "1");
    ParseFields("2024-01-01", 2024, 1, 1);
    DecodeDay("2024-01-01", Date(2024, 1, 1), "1");
    DecodeOne(Member("2024-01-01", CloseObject("1")), pt);
    OnePointListed(pt, Date(2024, 1, 1));
  }

  /**
   * Two keys that the resolver reads as one date, the first of them repeated
   * after the second: the entry set keeps the repeated key in its first place,
   * so the other key is put last and its close is the one the map keeps.
   */
  lemma ClampedKeysLaterEntryWins()
    ensures DataMap([Member("2023-02-30", CloseObject("1")), Member("2023-02-28", CloseObject("2")),
                     Member("2023-02-30", CloseObject("3"))])
            == Success([Point(Date(2023, 2, 28), "2")])
  {
    var a, b, c := Member("2023-02-30", CloseObject("1")), Member("2023-02-28", CloseObject("2")),
                   Member("2023-02-30", CloseObject("3"));
    assert a.key[9] != b.key[9];
    EntrySetOfReturn(a, b, c);
    ClampedPairDecodes();
  }

  lemma ClampedPairDecodes()
    ensures DecodeAll([Member("2023-02-30", CloseObject("3")), Member("2023-02-28", CloseObject("2"))])
            == Success([Point(Date(2023, 2, 28), "3"), Point(Date(2023, 2, 28), "2")])
    ensures Tabulate([Point(Date(2023, 2, 28), "3"), Point(Date(2023, 2, 28), "2")]) == [Point(Date(2023, 2, 28), "2")]
  {
    var p2, p3 := Point(Date(2023, 2, 28), "2"), Point(Date(2023, 2, 28), "3");
    ClampedDaysDecode();
    DecodeTwo([Member("2023-02-30", CloseObject("3")), Member("2023-02-28", CloseObject("2"))], p3, p2);
    SameDatePutsListed(p3, p2);
  }

  lemma ClampedDaysDecode()
    ensures DecodeEntry(Member("2023-02-30", CloseObject("3"))) == Success(Point(Date(2023, 2, 28), "3"))
    ensures DecodeEntry(Member("2023-02-28", CloseObject("2"))) == Success(Point(Date(2023, 2, 28), "2"))
  {
    ClampedDayDecodes();
    ParseFields("2023-02-28", 2023, 2, 28);
    DecodeDay("2023-02-28", Date(2023, 2, 28), "2");
  }

  lemma ClampedDayDecodes()
    ensures DecodeEntry(Member("2023-02-30", CloseObject("3"))) == Success(Point(Date(2023, 2, 28), "3"))
  {
    SmartResolverClamps();
    DecodeDay("2023-02-30", Date(2023, 2, 28), "3");
  }

  /** Two puts of one date list only the later point. */
  lemma SameDatePutsListed(first: Point, second: Point)
    requires first.date == second.date
    ensures Tabulate([first, second]) == [second]
  {
    assert [first, second][..1] == [first] && [first][..0] == [];
    assert Tabulate([first]) == [first];
  }
}
