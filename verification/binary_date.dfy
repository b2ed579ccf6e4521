/** The Binary Date widget: the weekday flag, the zero-padded binary numerals
    of day, month and year, and the grid of blocks that shows their bits. */
module BinaryDate {
  import opened Numerals

  /** The calendar fields the widget reads off the current date: `getDay()`
      (0 is Sunday), `getDate()`, `getMonth()` (0 is January) and `getFullYear()`. */
  datatype Calendar = Calendar(dayOfWeek: int, date: nat, monthIndex: nat, year: nat)

  /** Monday to Friday. */
  function IsWeekday(dayOfWeek: int): (r: bool)
    ensures 0 <= dayOfWeek <= 6 ==> (r <==> 1 <= dayOfWeek <= 5)
  {
    dayOfWeek != 0 && dayOfWeek != 6
  }

  /** `n.toString(2).padStart(width, "0")`. */
  function Bits(n: nat, width: nat): string {
    PadStart(NatToString(n, 2), width, '0')
  }

  function DayBits(c: Calendar): string { Bits(c.date, 5) }
  function MonthBits(c: Calendar): string { Bits(c.monthIndex + 1, 4) }
  function YearBits(c: Calendar): string { Bits(c.year, 12) }

  /** `s` is `n` in exactly `width` binary digits, most significant first. */
  predicate Encodes(s: string, width: nat, n: nat) {
    |s| == width && AllDigits(s, 2) && Value(s, 2) == n
  }

  /** A number below `2^width` is written in exactly `width` binary digits, and
      reading them back gives the number. */
  lemma BitsRoundTrip(n: nat, width: nat)
    requires 1 <= width && n < Pow(2, width)
    ensures Encodes(Bits(n, width), width, n)
  {
    var digits := NatToString(n, 2);
    NatToStringLength(n, 2, width);
    ValueOfNatToString(n, 2);
    var k := width - |digits|;
    ValueIgnoresLeadingZeros(k, digits, 2);
    if k == 0 {
      assert seq(k, _ => '0') + digits == digits;
    }
    assert Bits(n, width) == seq(k, _ => '0') + digits;
  }

  /** A number of `2^width` or more needs more than `width` binary digits. */
  lemma BitsOverflow(n: nat, width: nat)
    requires 1 <= width && n >= Pow(2, width)
    ensures |Bits(n, width)| > width
  {
    NatToStringLength(n, 2, width);
  }

  lemma PowersOfTwo()
    ensures Pow(2, 4) == 16 && Pow(2, 5) == 32 && Pow(2, 12) == 4096
  {
  }

  /** A day of the month (1..31) always fits its five bits. */
  lemma DayRoundTrip(c: Calendar)
    requires 1 <= c.date <= 31
    ensures Encodes(DayBits(c), 5, c.date)
  {
    PowersOfTwo();
    BitsRoundTrip(c.date, 5);
  }

  /** A month (1..12) always fits its four bits. */
  lemma MonthRoundTrip(c: Calendar)
    requires c.monthIndex <= 11
    ensures Encodes(MonthBits(c), 4, c.monthIndex + 1)
  {
    PowersOfTwo();
    BitsRoundTrip(c.monthIndex + 1, 4);
  }

  /** Years up to 4095 fit their twelve bits. */
  lemma YearRoundTrip(c: Calendar)
    requires c.year < 4096
    ensures Encodes(YearBits(c), 12, c.year)
  {
    PowersOfTwo();
    BitsRoundTrip(c.year, 12);
  }

  /** Canvas width, block size and spacing between blocks. */
  const Width := 1024
  const Size := 64
  const Gap := 12
  /** Distance from one block column (or row) to the next. */
  const Pitch := Size + Gap

  /** The canvas is square, or half as tall on a medium widget. */
  function Height(medium: bool): int {
    if medium then Width / 2 else Width
  }

  /** Left edge of the 12 x 2 block array, centring it horizontally. */
  function X0(): (x: int)
    ensures x + (12 * Size + 11 * Gap) + x == Width
  {
    (Width - (12 * Size + 11 * Gap)) / 2
  }

  /** Top edge of the block array, centring it vertically. */
  function Y0(medium: bool): (y: int)
    ensures y + (2 * Size + Gap) + y == Height(medium)
  {
    (Height(medium) - (2 * Size + Gap)) / 2
  }

  datatype Shape = Square | Dot

  /** One filled shape: a block in `on` or `off` colour, or a separator dot in
      the `off` colour. */
  datatype Block = Block(shape: Shape, x: int, y: int, size: int, on: bool)

  /** The square in grid column `col` of grid row `row`. */
  function SquareAt(col: int, row: int, on: bool, medium: bool): Block {
    Block(Square, X0() + col * Pitch, Y0(medium) + row * Pitch, Size, on)
  }

  /** The separator dot: a circle half a block across in the middle of column `col` of the top row. */
  function DotAt(col: int, medium: bool): Block {
    Block(Dot, X0() + col * Pitch + Size / 4, Y0(medium) + Size / 4, Size / 2, false)
  }

  /** Bit `i` of a bit string is drawn on unless its character is `0`
      (`charAt` past the end gives the empty string, which is not `0`). */
  predicate BitOn(s: string, i: int) {
    !(0 <= i < |s| && s[i] == '0')
  }

  /** Shape `k` in drawing order: weekday block, dot, five day bits, dot, four
      month bits, then the twelve year bits on the second row. */
  function BlockAt(c: Calendar, medium: bool, k: int): Block {
    if k == 0 then SquareAt(0, 0, IsWeekday(c.dayOfWeek), medium)
    else if k == 1 then DotAt(1, medium)
    else if k < 7 then SquareAt(k, 0, BitOn(DayBits(c), k - 2), medium)
    else if k == 7 then DotAt(7, medium)
    else if k < 12 then SquareAt(k, 0, BitOn(MonthBits(c), k - 8), medium)
    else SquareAt(k - 12, 1, BitOn(YearBits(c), k - 12), medium)
  }

  /** All 24 shapes, in drawing order. */
  function Blocks(c: Calendar, medium: bool): (bs: seq<Block>)
    ensures |bs| == 24
  {
    seq(24, k => BlockAt(c, medium, k))
  }

  /** Grid column and row of a shape, read back from its position. */
  function Column(b: Block): int { (b.x - X0()) / Pitch }
  function Row(b: Block, medium: bool): int { (b.y - Y0(medium)) / Pitch }

  /** Shape `k` sits in column `k % 12` of row `k / 12`: the top row's twelve
      columns are weekday, dot, day, dot and month, each exactly once, and the
      year fills the second row. Only columns 1 and 7 hold dots. */
  lemma BlocksFillGrid(c: Calendar, medium: bool, k: int)
    requires 0 <= k < 24
    ensures Column(Blocks(c, medium)[k]) == k % 12
    ensures Row(Blocks(c, medium)[k], medium) == k / 12
    ensures Blocks(c, medium)[k].shape == Dot <==> k == 1 || k == 7
  {
    var b := BlockAt(c, medium, k);
    var col, row := if k < 12 then k else k - 12, if k < 12 then 0 else 1;
    assert k % 12 == col && k / 12 == row;
    var dx, dy := b.x - X0() - col * Pitch, b.y - Y0(medium) - row * Pitch;
    assert 0 <= dx < Pitch && 0 <= dy < Pitch;
    CellOf(col, dx);
    CellOf(row, dy);
  }

  /** An offset inside a cell does not change the cell. */
  lemma CellOf(cell: int, d: int)
    requires 0 <= d < Pitch
    ensures (cell * Pitch + d) / Pitch == cell
  {
  }

  /** Every shape lies inside its own grid cell, and so inside the canvas: no two overlap. */
  lemma BlocksInsideCells(c: Calendar, medium: bool, k: int)
    requires 0 <= k < 24
    ensures var b := Blocks(c, medium)[k];
      X0() + (k % 12) * Pitch <= b.x && b.x + b.size <= X0() + (k % 12) * Pitch + Size &&
      Y0(medium) + (k / 12) * Pitch <= b.y && b.y + b.size <= Y0(medium) + (k / 12) * Pitch + Size
    ensures var b := Blocks(c, medium)[k];
      0 <= b.x && b.x + b.size <= Width && 0 <= b.y && b.y + b.size <= Height(medium)
  {
    var col, row := if k < 12 then k else k - 12, if k < 12 then 0 else 1;
    assert k % 12 == col && k / 12 == row;
  }

  /** The bits a run of `n` blocks from `from` shows, `1` for on and `0` for off. */
  function Shown(bs: seq<Block>, from: nat, n: nat): (s: string)
    requires from + n <= |bs|
    ensures |s| == n
    ensures forall i :: 0 <= i < n ==> (s[i] == '1' <==> bs[from + i].on)
    ensures forall i :: 0 <= i < n ==> s[i] == '0' || s[i] == '1'
  {
    seq(n, i requires 0 <= i < n => if bs[from + i].on then '1' else '0')
  }

  lemma ShownBits(bs: seq<Block>, from: nat, s: string)
    requires from + |s| <= |bs| && AllDigits(s, 2)
    requires forall i :: 0 <= i < |s| ==> bs[from + i].on == BitOn(s, i)
    ensures Shown(bs, from, |s|) == s
  {
    forall i | 0 <= i < |s|
      ensures Shown(bs, from, |s|)[i] == s[i]
    {
      assert IsDigit(s[i]) && DigitValue(s[i]) < 2;
      assert s[i] == '0' || s[i] == '1';
      assert bs[from + i].on == BitOn(s, i);
      var t := Shown(bs, from, |s|);
      assert t[i] == '0' || t[i] == '1';
    }
  }

  /** Reading the picture back: the weekday block is on exactly on weekdays, and
      for years up to 4095 the day, month and year blocks spell the binary
      numerals of the date, so they decode to it. */
  lemma PictureShowsDate(c: Calendar, medium: bool)
    requires 0 <= c.dayOfWeek <= 6 && 1 <= c.date <= 31 && c.monthIndex <= 11 && c.year < 4096
    ensures Blocks(c, medium)[0].on <==> 1 <= c.dayOfWeek <= 5
    ensures Encodes(Shown(Blocks(c, medium), 2, 5), 5, c.date)
    ensures Encodes(Shown(Blocks(c, medium), 8, 4), 4, c.monthIndex + 1)
    ensures Encodes(Shown(Blocks(c, medium), 12, 12), 12, c.year)
  {
    DayShown(c, medium);
    MonthShown(c, medium);
    YearShown(c, medium);
  }

  lemma DayShown(c: Calendar, medium: bool)
    requires 0 <= c.dayOfWeek <= 6 && 1 <= c.date <= 31 && c.monthIndex <= 11 && c.year < 4096
    ensures Encodes(Shown(Blocks(c, medium), 2, 5), 5, c.date)
  {
    DayRoundTrip(c);
    ShownBits(Blocks(c, medium), 2, DayBits(c));
  }

  lemma MonthShown(c: Calendar, medium: bool)
    requires 0 <= c.dayOfWeek <= 6 && 1 <= c.date <= 31 && c.monthIndex <= 11 && c.year < 4096
    ensures Encodes(Shown(Blocks(c, medium), 8, 4), 4, c.monthIndex + 1)
  {
    MonthRoundTrip(c);
    ShownBits(Blocks(c, medium), 8, MonthBits(c));
  }

  lemma YearShown(c: Calendar, medium: bool)
    requires 0 <= c.dayOfWeek <= 6 && 1 <= c.date <= 31 && c.monthIndex <= 11 && c.year < 4096
    ensures Encodes(Shown(Blocks(c, medium), 12, 12), 12, c.year)
  {
    YearRoundTrip(c);
    ShownBits(Blocks(c, medium), 12, YearBits(c));
  }

  /** From 4096 on, the year needs a thirteenth bit that is never drawn: the
      twelve year blocks then show a number below 4096, not the year. */
  lemma YearBreaksAfter4095(c: Calendar, medium: bool)
    requires c.year >= 4096
    ensures |YearBits(c)| > 12
    ensures Value(Shown(Blocks(c, medium), 12, 12), 2) < 4096 <= c.year
  {
    PowersOfTwo();
    BitsOverflow(c.year, 12);
    var s := Shown(Blocks(c, medium), 12, 12);
    forall i | 0 <= i < |s|
      ensures IsDigit(s[i]) && DigitValue(s[i]) < 2
    {
    }
    ValueBelowPow(s, 2);
  }

  /** `k` digits in `base` are worth less than `base^k`. */
  lemma {:induction false} ValueBelowPow(s: string, base: nat)
    requires 2 <= base && AllDigits(s, base)
    ensures Value(s, base) < Pow(base, |s|)
    decreases |s|
  {
    if s != [] {
      var p := s[..|s| - 1];
      ValueBelowPow(p, base);
      var v, d, q := Value(p, base), DigitValue(s[|s| - 1]), Pow(base, |p|);
      assert Value(s, base) == v * base + d;
      DigitStep(v, d, base, q);
      assert Pow(base, |s|) == base * q;
    }
  }

  /** A number below `q` followed by one more digit stays below `base * q`. */
  lemma DigitStep(v: nat, d: nat, base: nat, q: nat)
    requires d < base && v < q
    ensures v * base + d < base * q
  {
    MulMonotone(base, v + 1, q);
    assert base * (v + 1) == v * base + base;
  }
}
