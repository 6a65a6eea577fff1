/**
 * The listing addresses built by `get_url_list`: one per cell of the grid
 * years 2012..now.year x months 1..12 x days 1..31, walked in the order of
 * `itertools.product` (year, then month, then day), stopping at the first cell
 * equal to today's date. Impossible dates such as 2/31 are cells like any other.
 */
module UrlList {
  import opened Wrappers
  import opened Text

  /** A (year, month, day) triple, as the clock reports it or as a grid cell. */
  datatype Date = Date(year: nat, month: nat, day: nat)

  const FirstYear: nat := 2012
  const Months: nat := 12
  const Days: nat := 31
  const CellsPerYear: nat := 372
  const Site := "https://www.mk.ru/news/"

  /** A month and day that `datetime.now()` can report. */
  predicate IsClockDay(d: Date)
  {
    1 <= d.month <= Months && 1 <= d.day <= Days
  }

  /** A cell of the grid, whatever the last year: year from 2012, month 1..12, day 1..31. */
  predicate IsCell(c: Date)
  {
    FirstYear <= c.year && IsClockDay(c)
  }

  /** `a` comes strictly before `b` in year-then-month-then-day order. */
  predicate Before(a: Date, b: Date)
  {
    a.year < b.year || (a.year == b.year && (a.month < b.month || (a.month == b.month && a.day < b.day)))
  }

  /** The position of a cell in the product order. */
  function Index(c: Date): int
  {
    (c.year - FirstYear) * CellsPerYear + (c.month - 1) * Days + (c.day - 1)
  }

  /** The k-th tuple produced by itertools.product(years, months, days). */
  function Cell(k: nat): (c: Date)
    ensures IsCell(c) && Index(c) == k
  {
    var r := k % CellsPerYear;
    Date(FirstYear + k / CellsPerYear, r / Days + 1, r % Days + 1)
  }

  /** Cells are numbered without gaps: the cell at a cell's index is that cell. */
  lemma CellOfIndex(c: Date)
    requires IsCell(c)
    ensures Index(c) >= 0 && Cell(Index(c)) == c
  {
    var k := Index(c);
    var within := (c.month - 1) * Days + (c.day - 1);
    assert 0 <= within < CellsPerYear;
    assert k / CellsPerYear == c.year - FirstYear && k % CellsPerYear == within;
    assert within / Days == c.month - 1 && within % Days == c.day - 1;
  }

  /** On cells, the product order is the order of the indices. */
  lemma IndexOrder(a: Date, b: Date)
    requires IsCell(a) && IsCell(b)
    ensures Before(a, b) <==> Index(a) < Index(b)
  {
  }

  /** Number of tuples in itertools.product over the years 2012..lastYear. */
  function GridSize(lastYear: int): nat
  {
    if lastYear < FirstYear then 0 else (lastYear - FirstYear + 1) * CellsPerYear
  }

  /** How many cells the walk passes before it breaks (or the whole grid when today is not a cell). */
  function StopIndex(now: Date): nat
  {
    if IsCell(now) then Index(now) else GridSize(now.year)
  }

  /** Today's cell lies strictly inside the grid the walk covers, so the walk reaches it and breaks there. */
  lemma StopWithinGrid(now: Date)
    ensures StopIndex(now) <= GridSize(now.year)
    ensures IsCell(now) ==> StopIndex(now) < GridSize(now.year) && Cell(StopIndex(now)) == now
  {
    if IsCell(now) {
      assert Index(now) < (now.year - FirstYear) * CellsPerYear + CellsPerYear;
      CellOfIndex(now);
    }
  }

  /** The address f'https://www.mk.ru/news/{y}/{m}/{d}/' of a cell. */
  function Url(c: Date): string
  {
    Site + Decimal(c.year) + "/" + Decimal(c.month) + "/" + Decimal(c.day) + "/"
  }

  /** Reads a listing address back into its date: the inverse of `Url`. */
  function ParseUrl(s: string): Option<Date>
  {
    if !(Site <= s) then None
    else
      var (y, r1) := SplitFirst(s[|Site|..], '/');
      var (m, r2) := SplitFirst(r1, '/');
      var (d, r3) := SplitFirst(r2, '/');
      if IsNumeral(y) && IsNumeral(m) && IsNumeral(d) && r2 == d + "/" then
        Some(Date(ValueOf(y), ValueOf(m), ValueOf(d)))
      else
        None
  }

  /** A numeral never contains the path separator. */
  lemma NoSlashInDecimal(n: nat)
    ensures '/' !in Decimal(n)
  {
    var s := Decimal(n);
    assert forall i :: 0 <= i < |s| ==> s[i] != '/';
  }

  /** Every listing address reads back as the date it was built from. */
  lemma ParseUrlRoundTrip(c: Date)
    ensures ParseUrl(Url(c)) == Some(c)
  {
    var y, m, d := Decimal(c.year), Decimal(c.month), Decimal(c.day);
    NoSlashInDecimal(c.year);
    NoSlashInDecimal(c.month);
    NoSlashInDecimal(c.day);
    var s := Url(c);
    assert s == Site + (y + "/" + (m + "/" + (d + "/")));
    assert s[|Site|..] == y + ['/'] + (m + "/" + d + "/");
    SplitFirstJoin(y, '/', m + "/" + d + "/");
    assert m + "/" + d + "/" == m + ['/'] + (d + "/");
    SplitFirstJoin(m, '/', d + "/");
    assert d + "/" == d + ['/'] + "";
    SplitFirstJoin(d, '/', "");
    ValueOfDecimal(c.year);
    ValueOfDecimal(c.month);
    ValueOfDecimal(c.day);
  }

  /** Distinct dates give distinct addresses. */
  lemma UrlInjective(a: Date, b: Date)
    requires Url(a) == Url(b)
    ensures a == b
  {
    ParseUrlRoundTrip(a);
    ParseUrlRoundTrip(b);
  }

  /** The list `get_url_list` returns when the clock reads `now`. */
  function UrlPrefix(now: Date): (urls: seq<string>)
  {
    seq(StopIndex(now), k requires 0 <= k => Url(Cell(k)))
  }

  /**
   * For a clock reading `now`, the address of a cell is listed exactly when the cell
   * comes before today: nothing for today or later (the walk breaks), and nothing
   * earlier is skipped, impossible dates such as 2/31 included.
   */
  lemma UrlPrefixMembership(now: Date, c: Date)
    requires IsClockDay(now) && IsCell(c)
    ensures Url(c) in UrlPrefix(now) <==> Before(c, now)
  {
    var urls := UrlPrefix(now);
    CellOfIndex(c);
    if Before(c, now) {
      assert now.year >= FirstYear;
      IndexOrder(c, now);
      assert urls[Index(c)] == Url(Cell(Index(c)));
    }
    if Url(c) in urls {
      var k :| 0 <= k < |urls| && urls[k] == Url(c);
      UrlInjective(Cell(k), c);
      assert now.year >= FirstYear;
      IndexOrder(c, now);
    }
  }

  /** Consecutive entries follow the product order: year, then month, then day. */
  lemma UrlPrefixOrdered(now: Date, i: nat, j: nat)
    requires i < j < |UrlPrefix(now)|
    ensures UrlPrefix(now)[i] == Url(Cell(i)) && UrlPrefix(now)[j] == Url(Cell(j))
    ensures Before(Cell(i), Cell(j))
  {
    IndexOrder(Cell(i), Cell(j));
  }

  /** Once a year has passed, its impossible dates 2/30, 2/31, 4/31, 6/31, 9/31 and 11/31 are all listed. */
  lemma ImpossibleDatesListed(now: Date, year: nat)
    requires IsClockDay(now) && FirstYear <= year < now.year
    ensures forall day :: 30 <= day <= 31 ==> Url(Date(year, 2, day)) in UrlPrefix(now)
    ensures forall month :: month in {4, 6, 9, 11} ==> Url(Date(year, month, 31)) in UrlPrefix(now)
  {
    forall day | 30 <= day <= 31 ensures Url(Date(year, 2, day)) in UrlPrefix(now) {
      UrlPrefixMembership(now, Date(year, 2, day));
    }
    forall month | month in {4, 6, 9, 11} ensures Url(Date(year, month, 31)) in UrlPrefix(now) {
      UrlPrefixMembership(now, Date(year, month, 31));
    }
  }

  /**
   * get_url_list with the clock reading `now`: walks the product and breaks at
   * the first cell whose numbers, read back with `int`, equal today's.
   */
  method GetUrlList(now: Date) returns (urls: seq<string>)
    ensures urls == UrlPrefix(now)
    ensures IsClockDay(now) ==>
      |urls| == if now.year < FirstYear then 0
                else (now.year - FirstYear) * 372 + (now.month - 1) * 31 + (now.day - 1)
  {
    urls := [];
    var size := GridSize(now.year);
    StopWithinGrid(now);
    var k := 0;
    while k < size
      invariant k <= StopIndex(now) <= size
      invariant |urls| == k
      invariant forall j :: 0 <= j < k ==> urls[j] == Url(Cell(j))
    {
      var c := Cell(k);
      var y, m, d := Decimal(c.year), Decimal(c.month), Decimal(c.day);
      ValueOfDecimal(c.year);
      ValueOfDecimal(c.month);
      ValueOfDecimal(c.day);
      if ValueOf(y) == now.year && ValueOf(m) == now.month && ValueOf(d) == now.day {
        assert c == now;
        break;
      }
      assert c != now;
      assert k != StopIndex(now) by {
        if IsCell(now) && k == Index(now) {
          CellOfIndex(now);
        }
      }
      urls := urls + [Site + y + "/" + m + "/" + d + "/"];
      k := k + 1;
    }
    assert k == StopIndex(now);
  }
}
