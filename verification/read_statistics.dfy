/** The ReAD Statistics widget: a two-field configuration (instance URL and
    API key), the statistics request, the sparkline drawn behind the text, and
    the two sentences it shows. The request is a parameter from URL to the
    statistics, or to the message of what it threw. */
module ReadStatistics {
  import opened Wrappers
  import opened Strings
  import opened Numerals
  import opened ConfigDialog

  /** The form: the instance's host and path, and its API key. */
  const StatsForm := Form(["url", "api_key"], "Neither text field may be blank – both are required.",
    "Couldn't read one or both values.")

  const Scheme := "https://"
  /** The API path after the instance's `/`, and the query after the key's `&`. */
  const ApiPath := "api.php?key="
  const ActionQuery := "action=stats_for_widget"

  /** The statistics request for an instance and key. */
  function StatsUrl(url: string, key: string): (u: string)
    ensures |u| == |Scheme| + |url| + 1 + |ApiPath| + |key| + 1 + |ActionQuery|
  {
    Scheme + url + (['/'] + ApiPath) + key + (['&'] + ActionQuery)
  }

  /** An instance given without a trailing path and a key without `&` can be
      read back out of the request: the instance runs up to the first `/`
      after the scheme, the key up to the `&` after the API path. */
  lemma StatsUrlParts(url: string, key: string)
    requires '/' !in url && '&' !in key
    ensures var u := StatsUrl(url, key);
      PrefixBefore(u[|Scheme|..], '/') == url &&
      PrefixBefore(u[|Scheme| + |url| + 1 + |ApiPath|..], '&') == key
  {
    TwoSeparated(Scheme, url, ApiPath, key, ActionQuery);
  }

  lemma TwoSeparated(h: string, a: string, r1: string, b: string, r2: string)
    requires '/' !in a && '&' !in b
    ensures var u := h + a + (['/'] + r1) + b + (['&'] + r2);
      PrefixBefore(u[|h|..], '/') == a && PrefixBefore(u[|h| + |a| + 1 + |r1|..], '&') == b
  {
    var u := h + a + (['/'] + r1) + b + (['&'] + r2);
    assert u[|h|..] == a + ['/'] + (r1 + b + ['&'] + r2);
    PrefixOfSeparated(a, r1 + b + ['&'] + r2, '/');
    assert u[|h| + |a| + 1 + |r1|..] == b + ['&'] + r2;
    PrefixOfSeparated(b, r2, '&');
  }

  /** The figures the instance reports: unread articles, seconds spent reading
      today, articles archived and added today, and the sparkline series. */
  datatype Stats = Stats(unread: int, readingTime: int, archived: int, added: int, sparkline: seq<int>)

  /** The plural ending: none for exactly one. */
  function Plural(n: int): (ending: string)
    ensures ending == "" <==> n == 1
    ensures ending == "" || ending == "s"
  {
    if n == 1 then "" else "s"
  }

  /** `Math.round(seconds / 60)`: whole minutes, half a minute rounded up. */
  function Minutes(seconds: int): int {
    JsRound(seconds as real / 60.0)
  }

  /** Rounding to minutes is integer division after adding half a minute. */
  lemma MinutesByDivision(seconds: int)
    ensures Minutes(seconds) == (seconds + 30) / 60
  {
    var q, m := (seconds + 30) / 60, (seconds + 30) % 60;
    assert seconds + 30 == 60 * q + m && 0 <= m < 60;
    var x := seconds as real / 60.0 + 0.5;
    assert x == q as real + m as real / 60.0;
    assert q as real <= x < q as real + 1.0;
  }

  /** Minutes only grow with the time spent. */
  lemma MinutesMonotone(a: int, b: int)
    requires a <= b
    ensures Minutes(a) <= Minutes(b)
  {
    MinutesByDivision(a);
    MinutesByDivision(b);
  }

  const Blossom := "\U{1F4AE}"
  const Books := "\U{1F4DA}"

  /** The closing emoji: a blossom from an hour of reading on, books before. */
  function Emoji(minutes: int): string {
    if minutes >= 60 then Blossom else Books
  }

  /** The blossom shows from 59 minutes 30 seconds on, when the rounded
      minutes reach 60. */
  lemma BlossomThreshold(seconds: int)
    ensures Emoji(Minutes(seconds)) == Blossom <==> seconds >= 3570
  {
    MinutesByDivision(seconds);
  }

  const HeadlineStart := "ReAD holds "
  const DetailsStart := "Today, you've spent "

  /** The first sentence. */
  function Headline(s: Stats): string {
    HeadlineStart + IntToString(s.unread) + " unread article" + Plural(s.unread) + "."
  }

  /** The second sentence. */
  function Details(s: Stats): string {
    var m := Minutes(s.readingTime);
    DetailsStart + IntToString(m) + DetailsAfterMinutes(s, m)
  }

  /** The second sentence after the minutes. */
  function DetailsAfterMinutes(s: Stats, m: int): (t: string)
    ensures |t| >= 1 && t[0] == ' '
  {
    " minute" + Plural(m) +
    " reading " + IntToString(s.archived) + " article" + Plural(s.archived) +
    " and added " + IntToString(s.added) + " fresh one" + Plural(s.added) + ". " + Emoji(m)
  }

  /** A number printed after a fixed opening and before a non-digit reads back
      from the text after the opening. */
  lemma NumberAfter(opening: string, n: int, rest: string)
    requires rest == [] || !IsDigit(rest[0])
    ensures ParseSigned((opening + IntToString(n) + rest)[|opening|..]) == Some(n)
  {
    assert (opening + IntToString(n) + rest)[|opening|..] == IntToString(n) + rest;
    ParseSignedOfIntToString(n, rest);
  }

  /** The headline names the unread count, which reads back from it. */
  lemma HeadlineCount(s: Stats)
    ensures ParseSigned(Headline(s)[|HeadlineStart|..]) == Some(s.unread)
  {
    var rest := " unread article" + Plural(s.unread) + ".";
    assert Headline(s) == HeadlineStart + IntToString(s.unread) + rest;
    NumberAfter(HeadlineStart, s.unread, rest);
  }

  /** The headline says "articles." unless exactly one is unread. */
  lemma HeadlinePlural(s: Stats)
    ensures EndsWith(Headline(s), "articles.") <==> s.unread != 1
  {
    var x := HeadlineStart + IntToString(s.unread) + " unread";
    if s.unread == 1 {
      assert Headline(s) == x + " article.";
      Tail(x, " article.");
    } else {
      assert Headline(s) == x + " articles.";
      Tail(x + " ", "articles.");
      assert x + " articles." == (x + " ") + "articles.";
    }
  }

  lemma Tail(x: string, t: string)
    ensures (x + t)[|x + t| - |t|..] == t
  {
  }

  /** The details open with the rounded minutes, which read back from them. */
  lemma DetailsSay(s: Stats)
    ensures ParseSigned(Details(s)[|DetailsStart|..]) == Some(Minutes(s.readingTime))
  {
    var m := Minutes(s.readingTime);
    NumberAfter(DetailsStart, m, DetailsAfterMinutes(s, m));
  }

  datatype Point = Point(x: real, y: real)

  /** The canvas is 500 by 500; each unit of the series is 10 high. */
  const Side := 500.0
  const Scale := 10.0

  /** The left and right end of the step for entry `i` of `data`. */
  function LeftEnd(data: seq<int>, i: nat): Point
    requires i < |data|
  {
    Point(i as real / |data| as real * Side, Side - Scale * data[i] as real)
  }

  function RightEnd(data: seq<int>, i: nat): Point
    requires i < |data|
  {
    var l := LeftEnd(data, i);
    Point(l.x + 1.0 / |data| as real * Side, l.y)
  }

  /** The sparkline: a step per entry, its left end then its right end, in order. */
  function Sparkline(data: seq<int>): (path: seq<Point>)
    ensures |path| == 2 * |data|
  {
    seq(2 * |data|, k requires 0 <= k < 2 * |data| =>
      if k % 2 == 0 then LeftEnd(data, k / 2) else RightEnd(data, k / 2))
  }

  /** Where step `i` of `n` begins across the canvas. */
  function StepX(i: int, n: nat): real
    requires n > 0
  {
    i as real * Side / n as real
  }

  /** Step `i` runs from `StepX(i)` to `StepX(i + 1)` at the height of its entry. */
  lemma StepEnds(data: seq<int>, i: nat)
    requires i < |data|
    ensures Sparkline(data)[2 * i] == Point(StepX(i, |data|), Side - Scale * data[i] as real)
    ensures Sparkline(data)[2 * i + 1] == Point(StepX(i + 1, |data|), Side - Scale * data[i] as real)
  {
    var k := 2 * i;
    assert k % 2 == 0 && k / 2 == i && (k + 1) % 2 == 1 && (k + 1) / 2 == i;
    StepArithmetic(i as real, |data| as real);
  }

  lemma StepArithmetic(i: real, n: real)
    requires n > 0.0
    ensures i / n * Side == i * Side / n
    ensures i / n * Side + 1.0 / n * Side == (i + 1.0) * Side / n
  {
  }

  /** The sparkline spans the canvas: from the left edge to the right edge. */
  lemma SparklineSpansWidth(data: seq<int>)
    requires |data| >= 1
    ensures Sparkline(data)[0].x == 0.0
    ensures Sparkline(data)[2 * |data| - 1].x == Side
  {
    StepEnds(data, 0);
    StepEnds(data, |data| - 1);
  }

  /** Each step of the sparkline is flat, at the height of its entry. */
  lemma SparklineFlatSteps(data: seq<int>)
    ensures forall i :: 0 <= i < |data| ==>
      Sparkline(data)[2 * i].y == Sparkline(data)[2 * i + 1].y == Side - Scale * data[i] as real
  {
    forall i | 0 <= i < |data|
      ensures Sparkline(data)[2 * i].y == Sparkline(data)[2 * i + 1].y == Side - Scale * data[i] as real
    {
      StepEnds(data, i);
    }
  }

  /** The next step of the sparkline starts where the previous one ended. */
  lemma SparklineConnected(data: seq<int>)
    ensures forall i :: 0 <= i < |data| - 1 ==> Sparkline(data)[2 * i + 1].x == Sparkline(data)[2 * i + 2].x
  {
    forall i | 0 <= i < |data| - 1
      ensures Sparkline(data)[2 * i + 1].x == Sparkline(data)[2 * i + 2].x
    {
      StepEnds(data, i);
      StepEnds(data, i + 1);
      assert 2 * (i + 1) == 2 * i + 2;
    }
  }

  /** The sparkline never runs backwards: its points go left to right. */
  lemma SparklineLeftToRight(data: seq<int>)
    ensures forall k :: 0 <= k < 2 * |data| - 1 ==> Sparkline(data)[k].x <= Sparkline(data)[k + 1].x
  {
    forall k | 0 <= k < 2 * |data| - 1
      ensures Sparkline(data)[k].x <= Sparkline(data)[k + 1].x
    {
      var i := k / 2;
      StepEnds(data, i);
      if k % 2 == 0 {
        assert k == 2 * i;
        StepGrows(i, |data|);
      } else {
        assert k == 2 * i + 1;
        StepEnds(data, i + 1);
      }
    }
  }

  lemma StepGrows(i: int, n: nat)
    requires n > 0
    ensures StepX(i, n) <= StepX(i + 1, n)
  {
  }

  /** The area under the sparkline: the path closed along the bottom edge. */
  function FilledArea(data: seq<int>): (area: seq<Point>)
    ensures |area| == 2 * |data| + 2
    ensures area[..2 * |data|] == Sparkline(data)
    ensures area[2 * |data|] == Point(Side, Side) && area[2 * |data| + 1] == Point(0.0, Side)
  {
    Sparkline(data) + [Point(Side, Side), Point(0.0, Side)]
  }

  /** For a non-empty series the filled area is a closed outline: it starts on
      the left edge, drops straight down the right edge from the last step to
      the bottom corner, runs along the bottom and ends directly below its start. */
  lemma FilledAreaClosed(data: seq<int>)
    requires |data| >= 1
    ensures FilledArea(data)[0].x == 0.0
    ensures FilledArea(data)[2 * |data| - 1].x == Side
    ensures FilledArea(data)[2 * |data|] == Point(Side, Side)
    ensures FilledArea(data)[2 * |data| + 1] == Point(FilledArea(data)[0].x, Side)
  {
    var a := FilledArea(data);
    SparklineSpansWidth(data);
    assert a[0] == Sparkline(data)[0];
    assert a[2 * |data| - 1] == Sparkline(data)[2 * |data| - 1];
  }

  /** What the widget shows: where tapping it leads, and its two sentences
      over the sparkline. */
  datatype View = View(link: string, headline: string, details: string, sparkline: seq<Point>)

  /** One run of the widget: the configuration dialog (in the app), reading
      the instance and key back, fetching the statistics, and laying out the view. */
  function Run(inWidget: bool, store: Option<seq<Field>>, answer: int, entered: seq<string>, removed: bool,
               missing: string, fetch: string -> Result<Stats>): Result<View>
    requires |entered| == 2
  {
    match Startup(StatsForm, inWidget, store, answer, entered, removed, missing)
    case Err(e) => Err(e)
    case Ok(values) =>
      match fetch(StatsUrl(values[0], values[1]))
      case Err(e) => Err(e)
      case Ok(s) => Ok(View("https://" + values[0], Headline(s), Details(s), Sparkline(s.sparkline)))
  }

  /** Entering an instance and key in the app and saving them shows the
      statistics that instance reports for that key. */
  lemma SavedInstanceShown(store: Option<seq<Field>>, url: string, key: string, removed: bool,
                           missing: string, fetch: string -> Result<Stats>, s: Stats)
    requires url != "" && key != ""
    requires fetch(StatsUrl(url, key)) == Ok(s)
    ensures Run(false, store, 0, [url, key], removed, missing, fetch) ==
      Ok(View("https://" + url, Headline(s), Details(s), Sparkline(s.sparkline)))
  {
    SaveThenRead(StatsForm, store, 0, [url, key], removed, missing);
  }

  /** A configuration missing either value stops the run before any request. */
  lemma IncompleteConfigStops(fields: seq<Field>, missing: string, fetch: string -> Result<Stats>)
    requires !Filled(Get(fields, 0)) || !Filled(Get(fields, 1))
    ensures Run(true, Some(fields), 0, ["", ""], false, missing, fetch) ==
      Err(ReadPrefix + "Couldn't read one or both values.")
  {
  }
}
