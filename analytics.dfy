/** The figures of the analytics page (src/components/admin/AdminAnalytics.tsx):
    view counts for the last week, the last month and in total, the click
    total with the list of blogs by clicks, and per author the number of
    blogs and the most viewed and most clicked one. The query results and the
    clock are inputs; `Date.now()` is read once per refresh. */
module AdminAnalytics {
  import opened Str

  /** Seven and thirty days in milliseconds. */
  const WeekMs: int := 1000 * 60 * 60 * 24 * 7
  const MonthMs: int := 1000 * 60 * 60 * 24 * 30

  // ---------------------------------------------------------------------
  // parseInt

  predicate IsDigit(c: char) {
    '0' <= c <= '9'
  }

  predicate IsDigitIn(c: char, hex: bool) {
    IsDigit(c) || (hex && ('a' <= c <= 'f' || 'A' <= c <= 'F'))
  }

  function DigitValue(c: char): (v: nat)
    ensures IsDigit(c) ==> v == c as int - '0' as int
  {
    if IsDigit(c) then c as int - '0' as int
    else if 'a' <= c <= 'f' then c as int - 'a' as int + 10
    else if 'A' <= c <= 'F' then c as int - 'A' as int + 10
    else 0
  }

  /** The length of the run of digits of the base starting at `i`. */
  function DigitRun(s: string, i: nat, hex: bool): (n: nat)
    requires i <= |s|
    ensures i + n <= |s|
    ensures forall k :: i <= k < i + n ==> IsDigitIn(s[k], hex)
    ensures i + n < |s| ==> !IsDigitIn(s[i + n], hex)
    decreases |s| - i
  {
    if i == |s| || !IsDigitIn(s[i], hex) then 0 else 1 + DigitRun(s, i + 1, hex)
  }

  /** The number a string of digits denotes. */
  function DigitsValue(ds: string, base: nat): nat {
    if ds == [] then 0 else DigitsValue(ds[..|ds| - 1], base) * base + DigitValue(ds[|ds| - 1])
  }

  /** `parseInt(s)` with no radix: leading whitespace is skipped, then an
      optional sign, then `0x` or `0X` selects base 16; the longest run of
      digits that follows is read, and with no digit at all the result is
      `NaN`, here `None`. */
  function ParseInt(s: string): Option<int> {
    var t := s[LeadLen(s)..];
    var neg := t != [] && t[0] == '-';
    var u := if t != [] && (t[0] == '-' || t[0] == '+') then t[1..] else t;
    var hex := |u| >= 2 && u[0] == '0' && (u[1] == 'x' || u[1] == 'X');
    var body := if hex then u[2..] else u;
    var n := DigitRun(body, 0, hex);
    if n == 0 then None
    else
      var v: int := DigitsValue(body[..n], if hex then 16 else 10);
      Some(if neg then -v else v)
  }

  lemma {:induction false} DecimalValue(n: nat)
    ensures DigitsValue(NatToString(n), 10) == n
    decreases n
  {
    if n >= 10 {
      DecimalValue(n / 10);
      var p := NatToString(n / 10);
      assert (p + [DigitChar(n % 10)])[..|p|] == p;
    }
  }

  /** A run of decimal digits is read whole. */
  lemma DigitRunAll(s: string)
    requires forall i :: 0 <= i < |s| ==> IsDigit(s[i])
    ensures DigitRun(s, 0, false) == |s|
  {
    assert forall k :: 0 <= k < |s| ==> IsDigitIn(s[k], false);
  }

  /** A non-empty string of decimal digits parses to the number it denotes. */
  lemma ParseIntDigits(s: string)
    requires s != [] && forall i :: 0 <= i < |s| ==> IsDigit(s[i])
    ensures ParseInt(s) == Some(DigitsValue(s, 10) as int)
  {
    assert !IsSpace(s[0]);
    assert LeadLen(s) == 0;
    assert s[LeadLen(s)..] == s;
    assert s[0] != '-' && s[0] != '+';
    assert !(|s| >= 2 && s[0] == '0' && (s[1] == 'x' || s[1] == 'X'));
    DigitRunAll(s);
    assert s[..DigitRun(s, 0, false)] == s;
  }

  /** A time stamp written in decimal, as `Date.now()` gives it, is read back
      as the same number. */
  lemma ParseIntDecimal(n: nat)
    ensures ParseInt(NatToString(n)) == Some(n)
  {
    ParseIntDigits(NatToString(n));
    DecimalValue(n);
  }

  /** Text that does not start with a number (after whitespace and a sign) is `NaN`. */
  lemma ParseIntNaN(s: string)
    requires LeadLen(s) < |s| && !IsDigit(s[LeadLen(s)]) && s[LeadLen(s)] != '-' && s[LeadLen(s)] != '+'
    ensures ParseInt(s).None?
  {
    var t := s[LeadLen(s)..];
    assert t[0] == s[LeadLen(s)];
  }

  // ---------------------------------------------------------------------
  // Views

  /** A view counts for a window when its stamp parses and is at most that
      far in the past; stamps in the future always count. */
  predicate Within(v: string, now: int, window: int) {
    var t := ParseInt(v);
    t.Some? && now - t.value <= window
  }

  function CountWithin(vs: seq<string>, now: int, window: int): (n: nat)
    ensures n <= |vs|
  {
    if vs == [] then 0
    else CountWithin(vs[..|vs| - 1], now, window) + (if Within(vs[|vs| - 1], now, window) then 1 else 0)
  }

  /** A row's `views` column: `None` when it is null or not an array. */
  function RowViews(row: Option<seq<string>>): seq<string> {
    if row.Some? then row.value else []
  }

  function TotalViews(rows: seq<Option<seq<string>>>): nat {
    if rows == [] then 0 else TotalViews(rows[..|rows| - 1]) + |RowViews(rows[|rows| - 1])|
  }

  function ViewsWithin(rows: seq<Option<seq<string>>>, now: int, window: int): nat {
    if rows == [] then 0
    else ViewsWithin(rows[..|rows| - 1], now, window) + CountWithin(RowViews(rows[|rows| - 1]), now, window)
  }

  lemma {:induction false} CountWithinMonotone(vs: seq<string>, now: int, w1: int, w2: int)
    requires w1 <= w2
    ensures CountWithin(vs, now, w1) <= CountWithin(vs, now, w2)
    decreases |vs|
  {
    if vs != [] {
      CountWithinMonotone(vs[..|vs| - 1], now, w1, w2);
    }
  }

  /** A wider window never counts fewer views, and no window counts more
      views than there are. */
  lemma {:induction false} ViewsWithinMonotone(rows: seq<Option<seq<string>>>, now: int, w1: int, w2: int)
    requires w1 <= w2
    ensures ViewsWithin(rows, now, w1) <= ViewsWithin(rows, now, w2) <= TotalViews(rows)
    decreases |rows|
  {
    if rows != [] {
      ViewsWithinMonotone(rows[..|rows| - 1], now, w1, w2);
      CountWithinMonotone(RowViews(rows[|rows| - 1]), now, w1, w2);
    }
  }

  /** This week's views are among this month's, which are among all views. */
  lemma ViewsOrdered(rows: seq<Option<seq<string>>>, now: int)
    ensures ViewsWithin(rows, now, WeekMs) <= ViewsWithin(rows, now, MonthMs) <= TotalViews(rows)
  {
    ViewsWithinMonotone(rows, now, WeekMs, MonthMs);
  }

  /** One more stamp counts in a window exactly when it falls within it. */
  lemma CountStep(vs: seq<string>, j: nat, now: int, window: int)
    requires j < |vs|
    ensures CountWithin(vs[..j + 1], now, window) ==
      CountWithin(vs[..j], now, window) + (if Within(vs[j], now, window) then 1 else 0)
  {
    var p := vs[..j + 1];
    assert p[..|p| - 1] == vs[..j];
    assert p[|p| - 1] == vs[j];
  }

  /** One more row adds its own counts. */
  lemma ViewsStep(rows: seq<Option<seq<string>>>, i: nat, now: int)
    requires i < |rows|
    ensures TotalViews(rows[..i + 1]) == TotalViews(rows[..i]) + |RowViews(rows[i])|
    ensures ViewsWithin(rows[..i + 1], now, WeekMs) ==
      ViewsWithin(rows[..i], now, WeekMs) + CountWithin(RowViews(rows[i]), now, WeekMs)
    ensures ViewsWithin(rows[..i + 1], now, MonthMs) ==
      ViewsWithin(rows[..i], now, MonthMs) + CountWithin(RowViews(rows[i]), now, MonthMs)
  {
    assert rows[..i + 1][..i] == rows[..i];
  }

  /** The inner loop of `getViewsData` over one blog's view stamps
      (AdminAnalytics.tsx:67-73). */
  method CountRowViews(vs: seq<string>, now: int) returns (week: nat, month: nat)
    ensures week == CountWithin(vs, now, WeekMs)
    ensures month == CountWithin(vs, now, MonthMs)
  {
    week, month := 0, 0;
    var j := 0;
    while j < |vs|
      invariant j <= |vs|
      invariant week == CountWithin(vs[..j], now, WeekMs)
      invariant month == CountWithin(vs[..j], now, MonthMs)
    {
      CountStep(vs, j, now, WeekMs);
      CountStep(vs, j, now, MonthMs);
      var timestamp := ParseInt(vs[j]);
      if timestamp.Some? && now - timestamp.value <= WeekMs {
        week := week + 1;
      }
      if timestamp.Some? && now - timestamp.value <= MonthMs {
        month := month + 1;
      }
      j := j + 1;
    }
    assert vs[..j] == vs;
  }

  /** The counting loops of `getViewsData` (AdminAnalytics.tsx:62-76). */
  method CountViews(rows: seq<Option<seq<string>>>, now: int) returns (week: nat, month: nat, total: nat)
    ensures week == ViewsWithin(rows, now, WeekMs)
    ensures month == ViewsWithin(rows, now, MonthMs)
    ensures total == TotalViews(rows)
  {
    week, month, total := 0, 0, 0;
    var i := 0;
    while i < |rows|
      invariant i <= |rows|
      invariant week == ViewsWithin(rows[..i], now, WeekMs)
      invariant month == ViewsWithin(rows[..i], now, MonthMs)
      invariant total == TotalViews(rows[..i])
    {
      ViewsStep(rows, i, now);
      var w, m := CountRowViews(RowViews(rows[i]), now);
      week, month, total := week + w, month + m, total + |RowViews(rows[i])|;
      i := i + 1;
    }
    assert rows[..i] == rows;
  }

  // ---------------------------------------------------------------------
  // Clicks

  /** A row of `select('clicks,title,slug,views,author_id')`. */
  datatype ClickRow = ClickRow(clicks: Option<int>, title: Option<string>, slug: Option<string>,
                               views: Option<seq<string>>, authorId: Option<string>)

  /** An entry of the click list. */
  datatype BlogClick = BlogClick(title: string, clicks: int, slug: string, authorId: string, views: seq<string>)

  /** The entry a row with clicks contributes (AdminAnalytics.tsx:96). */
  function Entry(r: ClickRow): BlogClick
    requires r.clicks.Some?
  {
    BlogClick(OrEmpty(r.title), r.clicks.value, OrEmpty(r.slug), OrEmpty(r.authorId),
              if r.views.Some? then r.views.value else [])
  }

  /** The entries of the rows whose clicks are not null, in row order. */
  function Included(rows: seq<ClickRow>): (r: seq<BlogClick>)
    ensures |r| <= |rows|
  {
    if rows == [] then []
    else
      var last := rows[|rows| - 1];
      Included(rows[..|rows| - 1]) + (if last.clicks.Some? then [Entry(last)] else [])
  }

  function TotalClicks(rows: seq<ClickRow>): int {
    if rows == [] then 0
    else
      var last := rows[|rows| - 1];
      TotalClicks(rows[..|rows| - 1]) + (if last.clicks.Some? then last.clicks.value else 0)
  }

  function SumClicks(xs: seq<BlogClick>): int {
    if xs == [] then 0 else SumClicks(xs[..|xs| - 1]) + xs[|xs| - 1].clicks
  }

  lemma {:induction false} SumClicksAppend(a: seq<BlogClick>, b: seq<BlogClick>)
    ensures SumClicks(a + b) == SumClicks(a) + SumClicks(b)
    decreases |b|
  {
    if b == [] {
      assert a + b == a;
    } else {
      assert (a + b)[..|a + b| - 1] == a + b[..|b| - 1];
      SumClicksAppend(a, b[..|b| - 1]);
    }
  }

  /** The total is the sum of the clicks of the listed blogs. */
  lemma {:induction false} IncludedTotal(rows: seq<ClickRow>)
    ensures TotalClicks(rows) == SumClicks(Included(rows))
    decreases |rows|
  {
    if rows != [] {
      var init := rows[..|rows| - 1];
      var last := rows[|rows| - 1];
      IncludedTotal(init);
      SumClicksAppend(Included(init), if last.clicks.Some? then [Entry(last)] else []);
    }
  }

  /** A blog is listed exactly when its row has clicks. */
  lemma {:induction false} IncludedSpec(rows: seq<ClickRow>)
    ensures forall x :: x in Included(rows) <==> exists r :: r in rows && r.clicks.Some? && x == Entry(r)
    decreases |rows|
  {
    if rows != [] {
      var init := rows[..|rows| - 1];
      var last := rows[|rows| - 1];
      IncludedSpec(init);
      assert rows == init + [last];
      forall x | x in Included(rows)
        ensures exists r :: r in rows && r.clicks.Some? && x == Entry(r)
      {
        if x in Included(init) {
          var r :| r in init && r.clicks.Some? && x == Entry(r);
          assert r in rows;
        } else {
          assert last in rows;
        }
      }
      forall x | exists r :: r in rows && r.clicks.Some? && x == Entry(r)
        ensures x in Included(rows)
      {
        var r :| r in rows && r.clicks.Some? && x == Entry(r);
        if r != last {
          assert r in init;
        }
      }
    }
  }

  /** `blogClicks.push(...)` for one row, one stable insertion at a time:
      `x` goes before the first entry with no more clicks. */
  function InsertByClicks(x: BlogClick, ys: seq<BlogClick>): (r: seq<BlogClick>)
    ensures multiset(r) == multiset(ys) + multiset{x}
  {
    if ys == [] then [x]
    else if ys[0].clicks <= x.clicks then [x] + ys
    else
      assert ys == [ys[0]] + ys[1..];
      [ys[0]] + InsertByClicks(x, ys[1..])
  }

  /** `blogClicks.sort((a, b) => b.clicks - a.clicks)`: the sort is stable,
      so this is insertion sort by decreasing clicks. */
  function SortByClicks(xs: seq<BlogClick>): seq<BlogClick> {
    if xs == [] then [] else InsertByClicks(xs[0], SortByClicks(xs[1..]))
  }

  ghost predicate SortedByClicks(xs: seq<BlogClick>) {
    forall i, j :: 0 <= i < j < |xs| ==> xs[i].clicks >= xs[j].clicks
  }

  /** The entries with exactly `c` clicks, in order. */
  function WithClicks(xs: seq<BlogClick>, c: int): seq<BlogClick> {
    if xs == [] then []
    else (if xs[0].clicks == c then [xs[0]] else []) + WithClicks(xs[1..], c)
  }

  lemma {:induction false} InsertSorted(x: BlogClick, ys: seq<BlogClick>)
    requires SortedByClicks(ys)
    ensures SortedByClicks(InsertByClicks(x, ys))
    decreases |ys|
  {
    if ys != [] && ys[0].clicks > x.clicks {
      InsertSorted(x, ys[1..]);
      var r := InsertByClicks(x, ys[1..]);
      forall e | e in r ensures e.clicks <= ys[0].clicks {
        assert e in multiset(r);
        if e != x {
          assert e in multiset(ys[1..]);
        }
      }
    }
  }

  /** Entries with equal clicks are never reordered by an insertion. */
  lemma {:induction false} InsertKeepsTies(x: BlogClick, ys: seq<BlogClick>, c: int)
    ensures WithClicks(InsertByClicks(x, ys), c) == WithClicks([x] + ys, c)
    decreases |ys|
  {
    if ys != [] && ys[0].clicks > x.clicks {
      InsertKeepsTies(x, ys[1..], c);
      assert ([x] + ys)[1..] == ys;
      assert ([x] + ys[1..])[1..] == ys[1..];
      var r := InsertByClicks(x, ys[1..]);
      assert ([ys[0]] + r)[1..] == r;
    } else if ys != [] {
      assert ([x] + ys)[1..] == ys;
    } else {
      assert ([x] + ys)[1..] == [];
    }
  }

  /** The click list is ordered by decreasing clicks. */
  lemma {:induction false} SortByClicksSorted(xs: seq<BlogClick>)
    ensures SortedByClicks(SortByClicks(xs))
    decreases |xs|
  {
    if xs != [] {
      SortByClicksSorted(xs[1..]);
      InsertSorted(xs[0], SortByClicks(xs[1..]));
    }
  }

  /** The click list holds exactly the entries it was given. */
  lemma {:induction false} SortByClicksPermutes(xs: seq<BlogClick>)
    ensures multiset(SortByClicks(xs)) == multiset(xs)
    decreases |xs|
  {
    if xs != [] {
      SortByClicksPermutes(xs[1..]);
      assert xs == [xs[0]] + xs[1..];
    }
  }

  /** The sort is stable: entries with equal clicks stay in the order of the rows. */
  lemma {:induction false} SortByClicksStable(xs: seq<BlogClick>, c: int)
    ensures WithClicks(SortByClicks(xs), c) == WithClicks(xs, c)
    decreases |xs|
  {
    if xs != [] {
      SortByClicksStable(xs[1..], c);
      var rest := SortByClicks(xs[1..]);
      InsertKeepsTies(xs[0], rest, c);
      assert ([xs[0]] + rest)[1..] == rest;
    }
  }

  /** The collecting loop and the sort of `getClicksData` (AdminAnalytics.tsx:91-99). */
  method CollectClicks(rows: seq<ClickRow>) returns (total: int, blogClicks: seq<BlogClick>)
    ensures total == TotalClicks(rows)
    ensures blogClicks == SortByClicks(Included(rows))
  {
    total := 0;
    blogClicks := [];
    var i := 0;
    while i < |rows|
      invariant i <= |rows|
      invariant total == TotalClicks(rows[..i])
      invariant blogClicks == Included(rows[..i])
    {
      assert rows[..i + 1][..i] == rows[..i];
      var row := rows[i];
      if row.clicks.Some? {
        total := total + row.clicks.value;
        blogClicks := blogClicks + [Entry(row)];
      }
      i := i + 1;
    }
    assert rows[..i] == rows;
    blogClicks := SortByClicks(blogClicks);
  }

  // ---------------------------------------------------------------------
  // Authors

  /** `clicksData[1].filter(item => item.author_id === id)`. */
  function ByAuthor(xs: seq<BlogClick>, id: string): (r: seq<BlogClick>)
    ensures |r| <= |xs|
  {
    if xs == [] then []
    else (if xs[0].authorId == id then [xs[0]] else []) + ByAuthor(xs[1..], id)
  }

  /** Filtering by author distributes over concatenation. */
  lemma {:induction false} ByAuthorAppend(a: seq<BlogClick>, b: seq<BlogClick>, id: string)
    ensures ByAuthor(a + b, id) == ByAuthor(a, id) + ByAuthor(b, id)
    decreases |a|
  {
    if a == [] {
      assert a + b == b;
    } else {
      var ab := a + b;
      assert ab[0] == a[0] && ab[1..] == a[1..] + b;
      ByAuthorAppend(a[1..], b, id);
      assert ByAuthor(ab, id) == (if a[0].authorId == id then [a[0]] else []) + ByAuthor(a[1..] + b, id);
    }
  }

  /** An author's blogs are exactly the listed entries with that author, so
      the count shown is the number of such entries, and it is the whole
      list exactly when every entry is the author's. */
  lemma {:induction false} ByAuthorSpec(a: seq<BlogClick>, id: string)
    ensures forall x :: x in ByAuthor(a, id) <==> x in a && x.authorId == id
    ensures |ByAuthor(a, id)| == |a| <==> forall i :: 0 <= i < |a| ==> a[i].authorId == id
    decreases |a|
  {
    if a != [] {
      ByAuthorSpec(a[1..], id);
      if |ByAuthor(a, id)| == |a| {
        assert a[0].authorId == id;
        assert forall i :: 1 <= i < |a| ==> a[i] == a[1..][i - 1];
      }
      if forall i :: 0 <= i < |a| ==> a[i].authorId == id {
        assert forall i :: 0 <= i < |a[1..]| ==> a[1..][i] == a[i + 1];
      }
    }
  }

  datatype Measure = ByViews | ByClicks

  /** `item.views?.length || 0` or `item.clicks`. */
  function Score(b: BlogClick, m: Measure): int {
    match m
    case ByViews => |b.views|
    case ByClicks => b.clicks
  }

  /** The `reduce` of "Most Viewed" and "Most Clicked"
      (AdminAnalytics.tsx:183-187, 194-196): starting from null, an entry
      replaces the best so far when it scores strictly more, and null scores 0. */
  function MostBy(xs: seq<BlogClick>, m: Measure): Option<BlogClick> {
    if xs == [] then None
    else
      var best := MostBy(xs[..|xs| - 1], m);
      var item := xs[|xs| - 1];
      if Score(item, m) > (if best.Some? then Score(best.value, m) else 0) then Some(item) else best
  }

  /** The winner is the first entry with the highest score, which is above 0;
      `k` is its position. */
  lemma {:induction false} MostBySound(xs: seq<BlogClick>, m: Measure) returns (k: nat)
    requires MostBy(xs, m).Some?
    ensures k < |xs| && xs[k] == MostBy(xs, m).value && Score(xs[k], m) > 0
    ensures forall j :: 0 <= j < |xs| ==> Score(xs[j], m) <= Score(xs[k], m)
    ensures forall j :: 0 <= j < k ==> Score(xs[j], m) < Score(xs[k], m)
    decreases |xs|
  {
    var init := xs[..|xs| - 1];
    var item := xs[|xs| - 1];
    var best := MostBy(init, m);
    assert forall j :: 0 <= j < |init| ==> xs[j] == init[j];
    if best.Some? {
      var k0 := MostBySound(init, m);
      k := if Score(item, m) > Score(best.value, m) then |xs| - 1 else k0;
    } else {
      MostByNone(init, m);
      k := |xs| - 1;
    }
  }

  /** There is no winner exactly when no entry scores above 0. */
  lemma {:induction false} MostByNone(xs: seq<BlogClick>, m: Measure)
    ensures MostBy(xs, m).None? <==> forall j :: 0 <= j < |xs| ==> Score(xs[j], m) <= 0
    decreases |xs|
  {
    if xs != [] {
      var init := xs[..|xs| - 1];
      MostByNone(init, m);
      assert forall j :: 0 <= j < |init| ==> xs[j] == init[j];
      if MostBy(init, m).Some? {
        var k := MostBySound(init, m);
        assert Score(xs[k], m) > 0;
      }
    }
  }

  /** "Total Blogs" for an author (AdminAnalytics.tsx:180). */
  function AuthorBlogCount(xs: seq<BlogClick>, id: string): nat {
    |ByAuthor(xs, id)|
  }

  /** "Most Viewed" and "Most Clicked" for an author: where the link leads,
      if anywhere (AdminAnalytics.tsx:182-199). */
  function MostTarget(xs: seq<BlogClick>, id: string, m: Measure): Option<string> {
    var best := MostBy(ByAuthor(xs, id), m);
    if best.Some? && best.value.slug != "" then Some("/blog/" + best.value.slug) else None
  }

  /** The link goes to a blog of that author that has the highest score
      among the author's blogs, and there is none when every one scores 0. */
  lemma MostTargetSpec(xs: seq<BlogClick>, id: string, m: Measure)
    ensures MostTarget(xs, id, m).Some? ==>
      exists b :: b in xs && b.authorId == id && MostTarget(xs, id, m) == Some("/blog/" + b.slug)
        && Score(b, m) > 0
        && forall x :: x in xs && x.authorId == id ==> Score(x, m) <= Score(b, m)
    ensures (forall x :: x in xs && x.authorId == id ==> Score(x, m) <= 0) ==> MostTarget(xs, id, m).None?
  {
    var mine := ByAuthor(xs, id);
    ByAuthorSpec(xs, id);
    if MostBy(mine, m).Some? {
      var k := MostBySound(mine, m);
      assert mine[k] in mine;
    } else if MostTarget(xs, id, m).Some? {
      assert false;
    }
    MostByNone(mine, m);
    if forall x :: x in xs && x.authorId == id ==> Score(x, m) <= 0 {
      assert forall j :: 0 <= j < |mine| ==> mine[j] in mine;
    }
  }

  /** The page's figures. */
  class Analytics {
    var viewsData: (nat, nat, nat)
    var clicksData: (int, seq<BlogClick>)

    constructor ()
      ensures viewsData == (0, 0, 0) && clicksData == (0, [])
    {
      viewsData := (0, 0, 0);
      clicksData := (0, []);
    }

    /** `getViewsData` (AdminAnalytics.tsx:56-83): a failed query leaves the
        figures as they were, and a null result counts as no rows. */
    method GetViewsData(failed: bool, data: Option<seq<Option<seq<string>>>>, now: int)
      modifies this
      ensures failed ==> viewsData == old(viewsData)
      ensures !failed ==>
        var rows := if data.Some? then data.value else [];
        viewsData == (ViewsWithin(rows, now, WeekMs), ViewsWithin(rows, now, MonthMs), TotalViews(rows))
      ensures viewsData.0 <= viewsData.1 <= viewsData.2 || viewsData == old(viewsData)
      ensures clicksData == old(clicksData)
    {
      if failed {
        return;
      }
      var rows := if data.Some? then data.value else [];
      var week, month, total := CountViews(rows, now);
      ViewsOrdered(rows, now);
      viewsData := (week, month, total);
    }

    /** `getClicksData` (AdminAnalytics.tsx:85-106). */
    method GetClicksData(failed: bool, data: Option<seq<ClickRow>>)
      modifies this
      ensures failed ==> clicksData == old(clicksData)
      ensures !failed ==>
        var rows := if data.Some? then data.value else [];
        clicksData == (TotalClicks(rows), SortByClicks(Included(rows)))
      ensures viewsData == old(viewsData)
    {
      if failed {
        return;
      }
      var rows := if data.Some? then data.value else [];
      var total, list := CollectClicks(rows);
      clicksData := (total, list);
    }
  }
}
