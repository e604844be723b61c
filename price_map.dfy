/**
 * The TreeMap<LocalDate, Double> of the history build, seen through its
 * ascending entry listing: a strictly ascending sequence of (date, close)
 * points. put is Insert; the map it denotes is PutAll, the plain result of
 * the same puts into a map, which is the reference the listing is checked
 * against.
 */
module PriceMap {
  import opened Calendar

  /** A closing price, carried as the text it had in the response. */
  type Price = string

  /** One chart point: a trading day and its closing price. */
  datatype Point = Point(date: Date, close: Price)

  predicate StrictlyAscending(ps: seq<Point>) {
    forall i, j :: 0 <= i < j < |ps| ==> Before(ps[i].date, ps[j].date)
  }

  /** The map left by putting each point's date and close in turn: a later put replaces. */
  function PutAll(ps: seq<Point>): map<Date, Price> {
    if |ps| == 0 then map[]
    else PutAll(ps[..|ps| - 1])[ps[|ps| - 1].date := ps[|ps| - 1].close]
  }

  /**
   * TreeMap.put on the ascending listing: the point replaces the entry with
   * the same date, or goes in front of the first later date.
   */
  function Insert(ps: seq<Point>, pt: Point): (r: seq<Point>)
    requires StrictlyAscending(ps)
    ensures StrictlyAscending(r)
    ensures forall q :: q in r <==> q == pt || (q in ps && q.date != pt.date)
  {
    if |ps| == 0 then [pt]
    else if ps[0].date == pt.date then [pt] + ps[1..]
    else if Before(pt.date, ps[0].date) then [pt] + ps
    else [ps[0]] + Insert(ps[1..], pt)
  }

  /** The listing after the puts of pts, in order, into an empty map. */
  function Tabulate(pts: seq<Point>): (r: seq<Point>)
    ensures StrictlyAscending(r)
    ensures forall q :: q in r <==> q.date in PutAll(pts) && PutAll(pts)[q.date] == q.close
  {
    if |pts| == 0 then []
    else Insert(Tabulate(pts[..|pts| - 1]), pts[|pts| - 1])
  }

  /**
   * The second loop of the history build: the entries of the listing whose
   * date is not before from, in the order of the listing.
   */
  function FilterFrom(ps: seq<Point>, from: Date): (r: seq<Point>)
    ensures forall q :: q in r <==> q in ps && !Before(q.date, from)
    ensures StrictlyAscending(ps) ==> StrictlyAscending(r)
  {
    if |ps| == 0 then []
    else
      var init := ps[..|ps| - 1];
      var rest := FilterFrom(init, from);
      var last := ps[|ps| - 1];
      assert forall q :: q in init ==> q in ps;
      if Before(last.date, from) then rest
      else
        assert StrictlyAscending(ps) ==> StrictlyAscending(rest + [last]) by {
          if StrictlyAscending(ps) {
            AllBeforeLast(ps);
            AppendAscending(rest, last);
          }
        }
        rest + [last]
  }

  /** In an ascending listing every earlier point comes before the last one. */
  lemma AllBeforeLast(ps: seq<Point>)
    requires StrictlyAscending(ps) && |ps| > 0
    ensures StrictlyAscending(ps[..|ps| - 1])
    ensures forall q :: q in ps[..|ps| - 1] ==> Before(q.date, ps[|ps| - 1].date)
  {
  }

  /** A point after every point of an ascending listing extends it ascending. */
  lemma AppendAscending(ps: seq<Point>, pt: Point)
    requires StrictlyAscending(ps) && forall q :: q in ps ==> Before(q.date, pt.date)
    ensures StrictlyAscending(ps + [pt])
  {
    forall i, j | 0 <= i < j < |ps| + 1 ensures Before((ps + [pt])[i].date, (ps + [pt])[j].date) {
      if j == |ps| {
        assert ps[i] in ps;
      }
    }
  }

  /**
   * A put wins over every earlier put of the same date: the map holds exactly
   * the dates put, each with the close of its last put.
   */
  lemma {:induction false} LastPutWins(pts: seq<Point>, i: int)
    requires 0 <= i < |pts|
    requires forall j :: i < j < |pts| ==> pts[j].date != pts[i].date
    ensures pts[i].date in PutAll(pts) && PutAll(pts)[pts[i].date] == pts[i].close
  {
    if i < |pts| - 1 {
      LastPutWins(pts[..|pts| - 1], i);
    }
  }

  lemma {:induction false} PutAllKeys(pts: seq<Point>)
    ensures forall d :: d in PutAll(pts) <==> exists i :: 0 <= i < |pts| && pts[i].date == d
  {
    if |pts| > 0 {
      var init := pts[..|pts| - 1];
      PutAllKeys(init);
      forall d | d in PutAll(pts)
        ensures exists i :: 0 <= i < |pts| && pts[i].date == d
      {
        if d != pts[|pts| - 1].date {
          assert d in PutAll(init);
          var i :| 0 <= i < |init| && init[i].date == d;
          assert pts[i].date == d;
        }
      }
    }
  }

  lemma SameMembersBothEmpty(a: seq<Point>, b: seq<Point>)
    requires forall q :: q in a <==> q in b
    ensures a == [] <==> b == []
  {
    if a != [] {
      assert a[0] in b;
    }
    if b != [] {
      assert b[0] in a;
    }
  }

  /** A strictly ascending listing is determined by the points it holds. */
  lemma {:induction false} ListingUnique(a: seq<Point>, b: seq<Point>)
    requires StrictlyAscending(a) && StrictlyAscending(b)
    requires forall q :: q in a <==> q in b
    ensures a == b
  {
    if |a| > 0 && |b| > 0 {
      assert a[0] in b && b[0] in a;
      forall q ensures q in a[1..] <==> q in b[1..] {
        if q in a[1..] {
          var i :| 1 <= i < |a| && a[i] == q;
          assert q in b && q != b[0];
        }
        if q in b[1..] {
          var j :| 1 <= j < |b| && b[j] == q;
          assert q in a && q != a[0];
        }
      }
      ListingUnique(a[1..], b[1..]);
    } else {
      SameMembersBothEmpty(a, b);
    }
  }

  /** Putting a date and then an earlier one lists the earlier first; from before both keeps both. */
  lemma TwoPutsListed(newer: Point, older: Point, from: Date)
    requires Before(older.date, newer.date) && !Before(older.date, from)
    ensures FilterFrom(Tabulate([newer, older]), from) == [older, newer]
  {
    assert [newer, older][..1] == [newer] && [newer][..0] == [];
    assert Tabulate([newer]) == [newer];
    assert Tabulate([newer, older]) == Insert([newer], older) == [older, newer];
    assert [older, newer][..1] == [older] && [older][..0] == [];
    assert FilterFrom([older], from) == [older];
    assert !Before(newer.date, from);
  }
}
