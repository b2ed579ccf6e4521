/** The Small Seasons widget: the table of the 24 solar terms (sekki), the
    backwards day-by-day search for the term today belongs to, and the texts
    the widget shows for it. */
module SmallSeasons {
  import opened Wrappers
  import opened Strings
  import opened Numerals

  /** One solar term as the widget's table lists it; `startDate` is `MM-DD` text. */
  datatype Sekki = Sekki(id: string, kanji: string, title: string, startDate: string, notes: string)

  /** The table, in the order the widget lists it: from the start of spring in
      February to the great cold in January. */
  const Table: seq<Sekki> := [
    Sekki("risshun", "立春", "Start of spring", "02-04", "Ground thaws, fish appear under ice."),
    Sekki("usui", "雨水", "Rain waters", "02-18", "Snow recedes, mist lingers in the air."),
    Sekki("keichitsu", "啓蟄", "Going-out of the worms", "03-06", "Bugs surface from hibernation."),
    Sekki("shunbun", "春分", "Vernal equinox", "03-21", "Sparrows start to nest, cherry blossoms bloom."),
    Sekki("seimei", "清明", "Clear and bright", "04-04", "Geese fly north, the first rainbows of the year appear."),
    Sekki("koku", "穀雨", "Rain for harvests", "04-21", "Reeds sprout by rivers, rice seedlings grow."),
    Sekki("rikka", "立夏", "Start of summer", "05-06", "Birds and frogs start the songs of summer."),
    Sekki("shoman", "小満", "Small blooming", "05-21", "Flowers and plants bloom, wheat ripens."),
    Sekki("boshu", "芒種", "Seeds and cereals", "06-05", "Praying mantises hatch, fireflies come out. Time to seed the soil."),
    Sekki("geshi", "夏至", "Reaching summer", "06-21", "Longest days of the year, irises bloom."),
    Sekki("shousho", "小暑", "Small heat", "07-07", "Warm winds blow, young hawks learn to fly."),
    Sekki("taisho", "大暑", "Big heat", "07-23", "Summer heat at its strongest, accompanied by great rains."),
    Sekki("risshu", "立秋", "Start of autumn", "08-08", "Cooler winds blow, thick fogs roll through hills."),
    Sekki("shosho", "処暑", "Lessening heat", "08-23", "Rice has ripened, the heat of summer, forgotten."),
    Sekki("hakuro", "白露", "White dew", "09-07", "Drops of dew on grass."),
    Sekki("shubun", "秋分", "Autumnal equinox", "09-23", "Day and night are of equal length."),
    Sekki("kanro", "寒露", "Cold dew", "10-08", "Temperatures begin to drop, crickets stop chirping."),
    Sekki("soko", "霜降", "Frosting", "10-23", "The first frosts, maple leaves turn yellow."),
    Sekki("ritto", "立冬", "Start of winter", "11-08", "The ground starts to freeze."),
    Sekki("shosetsu", "小雪", "Small snow", "11-23", "Light snow, the last leaves have fallen from trees."),
    Sekki("taisetsu", "大雪", "Big snow", "12-08", "Cold sets in, bears hibernate."),
    Sekki("toji", "冬至", "Winter solstice", "12-22", "Shortest days of the year."),
    Sekki("shokan", "小寒", "Small cold", "01-06", "Temperatures quickly drop."),
    Sekki("daikan", "大寒", "Big cold", "01-20", "Ice thickens on the streams, hens huddle together.")
  ]

  /** A month and day as the search walks them. The walk also visits days no
      month has, such as 31 February; they match no start date. */
  datatype Date = Date(month: int, day: int)

  predicate ValidDate(d: Date) {
    1 <= d.month <= 12 && 1 <= d.day <= 31
  }

  /** Calendar order within one year. */
  predicate OnOrBefore(a: Date, b: Date) {
    a.month < b.month || (a.month == b.month && a.day <= b.day)
  }

  /** Reading `MM-DD`: split at `-` and `parseInt` both parts; a missing or
      non-numeric part is `None`, which equals no day or month. */
  function ParseStartDate(s: string): (r: (Option<int>, Option<int>))
    ensures '-' !in s ==> r.1.None?
  {
    var parts := Split(s, '-');
    (ParseSigned(parts[0]), if |parts| > 1 then ParseSigned(parts[1]) else None)
  }

  /** Does `e` start on date `d`? The widget compares the parsed month and day
      with the walked ones. */
  predicate StartsOn(e: Sekki, d: Date) {
    var (month, day) := ParseStartDate(e.startDate);
    month == Some(d.month) && day == Some(d.day)
  }

  /** The inner scan: the first index from `i` on, below `n`, that `hit` accepts. */
  function MatchFrom(hit: nat -> bool, n: nat, i: nat): (r: Option<nat>)
    requires i <= n
    ensures r.Some? ==> i <= r.value < n && hit(r.value)
    decreases n - i
  {
    if i == n then None
    else if hit(i) then Some(i)
    else MatchFrom(hit, n, i + 1)
  }

  /** When the scan finds nothing, no index from `i` on is a hit. */
  lemma {:induction false} MatchFromMisses(hit: nat -> bool, n: nat, i: nat, j: nat)
    requires i <= j < n && MatchFrom(hit, n, i).None?
    ensures !hit(j)
    decreases j - i
  {
    if i < j {
      MatchFromMisses(hit, n, i + 1, j);
    }
  }

  /** The scan's test at walked date `d`: entry `k` of `table` starts on `d`. */
  function StartsOnAt(table: seq<Sekki>, d: Date): nat -> bool {
    (k: nat) => k < |table| && StartsOn(table[k], d)
  }

  /** Position of a walked date in the 12 x 31 days the walk cycles through. */
  function Ordinal(d: Date): int {
    (d.month - 1) * 31 + (d.day - 1)
  }

  const Cycle := 12 * 31

  /** The step back by one day: day 0 becomes the 31st of the month before,
      month 0 becomes 31 December. On the walked dates it is one step back
      around the cycle. */
  function Previous(d: Date): (p: Date)
    ensures ValidDate(d) ==> ValidDate(p) && Ordinal(p) == (Ordinal(d) - 1) % Cycle
  {
    var day := d.day - 1;
    var (month, day) := if day == 0 then (d.month - 1, 31) else (d.month, day);
    if month == 0 then Date(12, 31) else Date(month, day)
  }

  /** Ordinals number the walked dates in calendar order. */
  lemma OrdinalOrder(a: Date, b: Date)
    requires ValidDate(a) && ValidDate(b)
    ensures 0 <= Ordinal(a) < Cycle
    ensures OnOrBefore(a, b) <==> Ordinal(a) <= Ordinal(b)
    ensures Ordinal(a) == Ordinal(b) ==> a == b
  {
  }

  /** The start dates the table's texts denote, in table order. */
  const Starts: seq<Date> := [
    Date(2, 4), Date(2, 18), Date(3, 6), Date(3, 21), Date(4, 4), Date(4, 21),
    Date(5, 6), Date(5, 21), Date(6, 5), Date(6, 21), Date(7, 7), Date(7, 23),
    Date(8, 8), Date(8, 23), Date(9, 7), Date(9, 23), Date(10, 8), Date(10, 23),
    Date(11, 8), Date(11, 23), Date(12, 8), Date(12, 22), Date(1, 6), Date(1, 20)
  ]

  /** Table index of the winter solstice, the latest start in calendar order. */
  const Toji := 21

  /** Text of the form `DD-DD`. */
  predicate DateShaped(s: string) {
    |s| == 5 && IsDigit(s[0]) && IsDigit(s[1]) && s[2] == '-' && IsDigit(s[3]) && IsDigit(s[4])
  }

  function TwoDigitValue(a: char, b: char): nat
    requires IsDigit(a) && IsDigit(b)
  {
    10 * DigitValue(a) + DigitValue(b)
  }

  /** `e`'s start-date text is written as the date `d`. */
  predicate Listed(e: Sekki, d: Date) {
    var s := e.startDate;
    DateShaped(s) && TwoDigitValue(s[0], s[1]) == d.month && TwoDigitValue(s[3], s[4]) == d.day
  }

  lemma ParseTwoDigits(s: string)
    requires |s| == 2 && IsDigit(s[0]) && IsDigit(s[1])
    ensures ParseSigned(s) == Some(TwoDigitValue(s[0], s[1]) as int)
  {
    assert AllDigits(s, 10);
    LeadingNumberOfDigits(s, []);
    assert s + [] == s;
    assert s[..|s| - 1] == [s[0]];
    assert [s[0]][..0] == [];
    assert Value(s, 10) == Value([s[0]], 10) * 10 + DigitValue(s[1]);
  }

  /** Splitting `MM-DD` at the dash and parsing both halves gives the month and the day. */
  lemma ParseShaped(s: string)
    requires DateShaped(s)
    ensures ParseStartDate(s) == (Some(TwoDigitValue(s[0], s[1]) as int), Some(TwoDigitValue(s[3], s[4]) as int))
  {
    assert s == s[..2] + ['-'] + s[3..];
    SplitAtFirst(s[..2], s[3..], '-');
    assert Split(s[3..], '-') == [s[3..]];
    ParseTwoDigits(s[..2]);
    ParseTwoDigits(s[3..]);
  }

  /** `n` in two decimal digits, zero-padded in front. */
  function TwoDigits(n: nat): string
    requires n < 100
  {
    PadStart(NatToString(n, 10), 2, '0')
  }

  lemma RepadTwoDigits(a: char, b: char)
    requires IsDigit(a) && IsDigit(b)
    ensures TwoDigits(TwoDigitValue(a, b)) == [a, b]
  {
    var v := TwoDigitValue(a, b);
    if DigitValue(a) == 0 {
      assert NatToString(v, 10) == [b];
      assert seq(1, _ => '0') + [b] == [a, b];
    } else {
      assert v / 10 == DigitValue(a) && v % 10 == DigitValue(b);
      assert NatToString(v, 10) == NatToString(DigitValue(a), 10) + [DigitChar(DigitValue(b))] == [a, b];
    }
  }

  /** A start-date text parses to a month and a day that, printed again in two
      digits each, give back the text. */
  lemma StartDateRoundTrip(s: string)
    requires DateShaped(s)
    ensures ParseStartDate(s) == (Some(TwoDigitValue(s[0], s[1]) as int), Some(TwoDigitValue(s[3], s[4]) as int))
    ensures TwoDigits(TwoDigitValue(s[0], s[1])) + "-" + TwoDigits(TwoDigitValue(s[3], s[4])) == s
  {
    ParseShaped(s);
    RepadTwoDigits(s[0], s[1]);
    RepadTwoDigits(s[3], s[4]);
    Reassemble(s);
  }

  lemma Reassemble(s: string)
    requires |s| == 5 && s[2] == '-'
    ensures [s[0], s[1]] + "-" + [s[3], s[4]] == s
  {
    assert ([s[0], s[1]] + "-" + [s[3], s[4]])[2] == '-';
  }

  /** Every start-date text of the table is written as the date listed in `Starts`. */
  lemma TableListsStarts()
    ensures |Table| == |Starts|
    ensures forall i :: 0 <= i < |Starts| ==> ValidDate(Starts[i]) && Listed(Table[i], Starts[i])
  {
    SpringListed();
    SummerListed();
    AutumnListed();
    WinterListed();
  }

  /** The six spring terms. */
  lemma SpringListed()
    ensures |Table| == |Starts|
    ensures forall i :: 0 <= i < 6 ==> ValidDate(Starts[i]) && Listed(Table[i], Starts[i])
  {
    forall i | 0 <= i < 6
      ensures ValidDate(Starts[i]) && Listed(Table[i], Starts[i])
    {
      assert i == 0 || i == 1 || i == 2 || i == 3 || i == 4 || i == 5;
    }
  }

  /** The six summer terms. */
  lemma SummerListed()
    ensures |Table| == |Starts|
    ensures forall i :: 6 <= i < 12 ==> ValidDate(Starts[i]) && Listed(Table[i], Starts[i])
  {
    forall i | 6 <= i < 12
      ensures ValidDate(Starts[i]) && Listed(Table[i], Starts[i])
    {
      assert i == 6 || i == 7 || i == 8 || i == 9 || i == 10 || i == 11;
    }
  }

  /** The six autumn terms. */
  lemma AutumnListed()
    ensures |Table| == |Starts|
    ensures forall i :: 12 <= i < 18 ==> ValidDate(Starts[i]) && Listed(Table[i], Starts[i])
  {
    forall i | 12 <= i < 18
      ensures ValidDate(Starts[i]) && Listed(Table[i], Starts[i])
    {
      assert i == 12 || i == 13 || i == 14 || i == 15 || i == 16 || i == 17;
    }
  }

  /** The six winter terms. */
  lemma WinterListed()
    ensures |Table| == |Starts|
    ensures forall i :: 18 <= i < 24 ==> ValidDate(Starts[i]) && Listed(Table[i], Starts[i])
  {
    forall i | 18 <= i < 24
      ensures ValidDate(Starts[i]) && Listed(Table[i], Starts[i])
    {
      assert i == 18 || i == 19 || i == 20 || i == 21 || i == 22 || i == 23;
    }
  }

  /** A table entry starts on `d` exactly when `d` is its listed start date. */
  lemma StartsOnIff(i: nat, d: Date)
    requires i < |Table|
    ensures i < |Starts|
    ensures StartsOn(Table[i], d) <==> d == Starts[i]
  {
    TableListsStarts();
    ListedStartsOn(Table, i, d);
  }

  /** A table whose start-date texts are the dates of `Starts`, in order. */
  predicate ListsStarts(table: seq<Sekki>) {
    |table| == |Starts| && forall i :: 0 <= i < |table| ==> Listed(table[i], Starts[i])
  }

  lemma ListedStartsOn(table: seq<Sekki>, i: nat, d: Date)
    requires ListsStarts(table) && i < |table|
    ensures StartsOn(table[i], d) <==> d == Starts[i]
  {
    ParseShaped(table[i].startDate);
  }

  /** The term current on `d`: the one whose start is the latest on or before
      `d` within the calendar year, or, when `d` comes before every start of
      the year, the one that began latest in the year before. */
  predicate IsCurrent(i: int, d: Date) {
    0 <= i < |Starts| &&
    if exists j :: 0 <= j < |Starts| && OnOrBefore(Starts[j], d) then
      OnOrBefore(Starts[i], d) &&
      forall j :: 0 <= j < |Starts| && OnOrBefore(Starts[j], d) ==> OnOrBefore(Starts[j], Starts[i])
    else
      forall j :: 0 <= j < |Starts| ==> OnOrBefore(Starts[j], Starts[i])
  }

  /** The listed start dates are valid, pairwise different, and the winter
      solstice's is the latest of the year. */
  lemma StartsFacts()
    ensures Toji < |Starts|
    ensures forall j :: 0 <= j < |Starts| ==> ValidDate(Starts[j]) && OnOrBefore(Starts[j], Starts[Toji])
    ensures forall i, j :: 0 <= i < j < |Starts| ==> Starts[i] != Starts[j]
  {
    forall j | 0 <= j < |Starts|
      ensures ValidDate(Starts[j]) && OnOrBefore(Starts[j], Starts[Toji])
    {
      StartsAscend(j);
    }
    forall i, j | 0 <= i < j < |Starts|
      ensures Starts[i] != Starts[j]
    {
      RotatedIncreasing(i, j);
    }
  }

  /** Position of a start in the year begun at the start of spring. */
  function Rotated(d: Date): int {
    var o := Ordinal(d) - Ordinal(Starts[0]);
    if o >= 0 then o else o + Cycle
  }

  /** Each start is a valid date no later than the winter solstice's, and the
      next entry of the table starts later in the year begun at the start of spring. */
  lemma StartsAscend(i: int)
    requires 0 <= i < |Starts|
    ensures ValidDate(Starts[i]) && OnOrBefore(Starts[i], Starts[Toji])
    ensures Starts[i].day <= DaysIn(Starts[i].month)
    ensures i + 1 < |Starts| ==> Rotated(Starts[i]) < Rotated(Starts[i + 1])
  {
    assert i == 0 || i == 1 || i == 2 || i == 3 || i == 4 || i == 5 || i == 6 || i == 7
        || i == 8 || i == 9 || i == 10 || i == 11 || i == 12 || i == 13 || i == 14 || i == 15
        || i == 16 || i == 17 || i == 18 || i == 19 || i == 20 || i == 21 || i == 22 || i == 23;
  }

  lemma {:induction false} RotatedIncreasing(i: int, j: int)
    requires 0 <= i < j < |Starts|
    ensures Rotated(Starts[i]) < Rotated(Starts[j])
    decreases j - i
  {
    StartsAscend(i);
    if i + 1 < j {
      RotatedIncreasing(i + 1, j);
    }
  }

  /** How many days `e` lies behind `d` when walking back around the cycle. */
  function Behind(d: Date, e: Date): int {
    var b := Ordinal(d) - Ordinal(e);
    if b >= 0 then b else b + Cycle
  }

  /** The term whose start the walk back from `d` meets first is the current one. */
  lemma NearestStartIsCurrent(i: int, d: Date)
    requires ValidDate(d) && 0 <= i < |Starts|
    requires forall j :: 0 <= j < |Starts| ==> Behind(d, Starts[i]) <= Behind(d, Starts[j])
    ensures IsCurrent(i, d)
  {
    StartsFacts();
    OrdinalOrder(Starts[i], d);
    if exists j :: 0 <= j < |Starts| && OnOrBefore(Starts[j], d) {
      var j :| 0 <= j < |Starts| && OnOrBefore(Starts[j], d);
      OrdinalOrder(Starts[j], d);
      forall k | 0 <= k < |Starts| && OnOrBefore(Starts[k], d)
        ensures OnOrBefore(Starts[k], Starts[i])
      {
        OrdinalOrder(Starts[k], d);
        OrdinalOrder(Starts[k], Starts[i]);
      }
    } else {
      forall k | 0 <= k < |Starts|
        ensures OnOrBefore(Starts[k], Starts[i])
      {
        OrdinalOrder(Starts[k], d);
        OrdinalOrder(Starts[k], Starts[i]);
      }
    }
  }

  /** At most one term is current on any date. */
  lemma CurrentUnique(a: int, b: int, d: Date)
    requires IsCurrent(a, d) && IsCurrent(b, d)
    ensures a == b
  {
    StartsFacts();
    assert Starts[a] == Starts[b];
  }

  /** Walking back one day from `cur` moves one day further behind `d`, until
      the walk would come round to `d` again. */
  lemma StepBack(d: Date, cur: Date)
    requires ValidDate(d) && ValidDate(cur) && Behind(d, cur) + 1 < Cycle
    ensures Behind(d, Previous(cur)) == Behind(d, cur) + 1
  {
    OrdinalOrder(d, cur);
    OrdinalOrder(Previous(cur), cur);
  }

  /** One round of the search: a match is the nearest start behind `today`;
      otherwise every start lies further behind, and the walk may step on. */
  lemma ScanStep(table: seq<Sekki>, today: Date, cur: Date, k: int, found: Option<nat>)
    requires ListsStarts(table)
    requires ValidDate(today) && ValidDate(cur) && Behind(today, cur) == k
    requires k <= Behind(today, Starts[Toji])
    requires forall j :: 0 <= j < |Starts| ==> k <= Behind(today, Starts[j])
    requires found == MatchFrom(StartsOnAt(table, cur), |table|, 0)
    ensures found.Some? ==> found.value < |Starts|
    ensures found.Some? ==> forall j :: 0 <= j < |Starts| ==> Behind(today, Starts[found.value]) <= Behind(today, Starts[j])
    ensures found.None? ==> forall j :: 0 <= j < |Starts| ==> k < Behind(today, Starts[j])
    ensures found.None? ==> Behind(today, Previous(cur)) == k + 1
  {
    if found.Some? {
      ListedStartsOn(table, found.value, cur);
    } else {
      forall j | 0 <= j < |table|
        ensures !StartsOn(table[j], cur)
      {
        MatchFromMisses(StartsOnAt(table, cur), |table|, 0, j);
      }
      ScanMissed(table, today, cur, k);
    }
  }

  /** No term starts on `cur`: every start lies further behind `today`, and
      one step back from `cur` is one day further behind. */
  lemma ScanMissed(table: seq<Sekki>, today: Date, cur: Date, k: int)
    requires ListsStarts(table)
    requires ValidDate(today) && ValidDate(cur) && Behind(today, cur) == k
    requires forall j :: 0 <= j < |Starts| ==> k <= Behind(today, Starts[j])
    requires forall j :: 0 <= j < |table| ==> !StartsOn(table[j], cur)
    ensures forall j :: 0 <= j < |Starts| ==> k < Behind(today, Starts[j])
    ensures Behind(today, Previous(cur)) == k + 1
  {
    forall j | 0 <= j < |Starts|
      ensures k < Behind(today, Starts[j])
    {
      StartsAscend(j);
      ListedStartsOn(table, j, cur);
      OrdinalOrder(today, Starts[j]);
      OrdinalOrder(cur, Starts[j]);
    }
    StartsAscend(Toji);
    OrdinalOrder(today, Starts[Toji]);
    StepBack(today, cur);
  }

  /** The widget's search: starting from today, scan the table for a term that
      starts on the walked date and step back one day until one does. */
  method CurrentSekki(today: Date) returns (i: nat, sekki: Sekki)
    requires ValidDate(today)
    ensures i < |Table| && sekki == Table[i]
    ensures IsCurrent(i, today)
  {
    TableListsStarts();
    i := Search(Table, today);
    sekki := Table[i];
  }

  /** The search on any table that lists the start dates of `Starts`. */
  method Search(table: seq<Sekki>, today: Date) returns (i: nat)
    requires ListsStarts(table) && ValidDate(today)
    ensures i < |table| && IsCurrent(i, today)
  {
    StartsFacts();
    var cur := today;
    var found: Option<nat> := None;
    ghost var k := 0;
    OrdinalOrder(today, Starts[Toji]);
    while found.None?
      invariant ValidDate(cur)
      invariant found.None? ==> Behind(today, cur) == k <= Behind(today, Starts[Toji])
      invariant found.None? ==> forall j :: 0 <= j < |Starts| ==> k <= Behind(today, Starts[j])
      invariant found.Some? ==> found.value < |Starts|
      invariant found.Some? ==> forall j :: 0 <= j < |Starts| ==> Behind(today, Starts[found.value]) <= Behind(today, Starts[j])
      decreases if found.None? then Behind(today, Starts[Toji]) - k + 1 else 0
    {
      found := MatchFrom(StartsOnAt(table, cur), |table|, 0);
      ScanStep(table, today, cur, k, found);
      cur := Previous(cur);
      k := k + 1;
    }
    i := found.value;
    NearestStartIsCurrent(i, today);
  }

  /** No term starts between 21 January and 3 February, nor before 6 January. */
  lemma StartGaps(j: int)
    requires 0 <= j < |Starts|
    ensures !(OnOrBefore(Date(1, 21), Starts[j]) && OnOrBefore(Starts[j], Date(2, 3)))
    ensures !OnOrBefore(Starts[j], Date(1, 5))
  {
    assert j == 0 || j == 1 || j == 2 || j == 3 || j == 4 || j == 5 || j == 6 || j == 7
        || j == 8 || j == 9 || j == 10 || j == 11 || j == 12 || j == 13 || j == 14 || j == 15
        || j == 16 || j == 17 || j == 18 || j == 19 || j == 20 || j == 21 || j == 22 || j == 23;
  }

  /** The dates the widget's own comments give with the term they expect: the
      winter solstice on 30 December and 2 January, the small cold on
      6 January, the great cold on 20 January and 1 February, and the start of
      spring on 4 February. */
  lemma DocumentedDates()
    ensures forall i :: IsCurrent(i, Date(12, 30)) ==> Table[i].kanji == "冬至"
    ensures forall i :: IsCurrent(i, Date(1, 2)) ==> Table[i].kanji == "冬至"
    ensures forall i :: IsCurrent(i, Date(1, 6)) ==> Table[i].kanji == "小寒"
    ensures forall i :: IsCurrent(i, Date(1, 20)) ==> Table[i].kanji == "大寒"
    ensures forall i :: IsCurrent(i, Date(2, 1)) ==> Table[i].kanji == "大寒"
    ensures forall i :: IsCurrent(i, Date(2, 4)) ==> Table[i].kanji == "立春"
  {
    StartsFacts();
    forall i | IsCurrent(i, Date(12, 30)) ensures i == Toji {
      assert IsCurrent(Toji, Date(12, 30));
      CurrentUnique(i, Toji, Date(12, 30));
    }
    forall i | IsCurrent(i, Date(1, 2)) ensures i == Toji {
      forall j | 0 <= j < |Starts| ensures !OnOrBefore(Starts[j], Date(1, 2)) {
        StartGaps(j);
      }
      assert IsCurrent(Toji, Date(1, 2));
      CurrentUnique(i, Toji, Date(1, 2));
    }
    forall i | IsCurrent(i, Date(1, 6)) ensures i == 22 {
      assert IsCurrent(22, Date(1, 6));
      CurrentUnique(i, 22, Date(1, 6));
    }
    forall i | IsCurrent(i, Date(1, 20)) ensures i == 23 {
      assert IsCurrent(23, Date(1, 20));
      CurrentUnique(i, 23, Date(1, 20));
    }
    forall i | IsCurrent(i, Date(2, 1)) ensures i == 23 {
      forall j | 0 <= j < |Starts| && OnOrBefore(Starts[j], Date(2, 1))
        ensures OnOrBefore(Starts[j], Starts[23])
      {
        StartGaps(j);
      }
      assert IsCurrent(23, Date(2, 1));
      CurrentUnique(i, 23, Date(2, 1));
    }
    forall i | IsCurrent(i, Date(2, 4)) ensures i == 0 {
      assert IsCurrent(0, Date(2, 4));
      CurrentUnique(i, 0, Date(2, 4));
    }
  }

  /** What the widget shows: the kanji, the title in capitals and the notes. */
  datatype Face = Face(kanji: string, caption: string, notes: string)

  function FaceOf(e: Sekki): (f: Face)
    ensures f.kanji == e.kanji && f.notes == e.notes
    ensures |f.caption| == |e.title|
    ensures forall c :: c in f.caption ==> !IsLowerAscii(c)
    ensures forall i :: 0 <= i < |e.title| ==>
      f.caption[i] == (if IsLowerAscii(e.title[i]) then (e.title[i] as int - 32) as char else e.title[i])
  {
    Face(e.kanji, ToUpper(e.title), e.notes)
  }

  lemma SolsticeFace()
    ensures FaceOf(Table[Toji]).caption == "WINTER SOLSTICE"
  {
  }

  /** The most days month `m` has in any year. */
  function DaysIn(m: int): int {
    if m == 2 then 29 else if m == 4 || m == 6 || m == 9 || m == 11 then 30 else 31
  }

  /** A day the walk visits that no calendar has (31 April, 30 February, ...)
      matches no entry, so it only costs the walk a step. */
  lemma PhantomDatesNeverMatch(i: nat, d: Date)
    requires i < |Table| && d.day > DaysIn(d.month)
    ensures !StartsOn(Table[i], d)
  {
    StartsOnIff(i, d);
    StartsAscend(i);
  }

  /** Today's own term is found when today is a start date. */
  lemma ExactMatch(i: int)
    requires 0 <= i < |Starts|
    ensures IsCurrent(i, Starts[i])
  {
  }

  /** Every month holds a start date, so the walk back never passes a whole
      month without finding one. */
  lemma EveryMonthHasStart(m: int)
    requires 1 <= m <= 12
    ensures exists i :: 0 <= i < |Starts| && Starts[i].month == m
  {
    var i := if m == 1 then 22 else 2 * m - 4;
    assert Starts[i].month == m;
  }
}
