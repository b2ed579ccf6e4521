/** The server half of Uberspace Quota: a PHP script that takes the account
    name, the short host name and the numbers on the last line of `quota -gl`,
    and prints them as one JSON object. The environment, `hostname` and
    `quota` are parameters: their output arrives as strings. */
module QuotaParser {
  import opened Wrappers
  import opened Strings
  import opened Numerals

  /** The longest run of non-space characters at the start of `s`. */
  function Word(s: string): (w: string)
    ensures |w| <= |s| && w == s[..|w|]
    ensures NoSpace(w)
    ensures |w| < |s| ==> IsSpace(s[|w|])
    ensures |s| > 0 && !IsSpace(s[0]) ==> |w| >= 1
  {
    if s == [] || IsSpace(s[0]) then [] else [s[0]] + Word(s[1..])
  }

  /** `preg_split('/\s+/', s, -1, PREG_SPLIT_NO_EMPTY)`: the maximal runs of
      non-space characters of `s`, in order; empty pieces are dropped. */
  function Tokens(s: string): (ts: seq<string>)
    ensures forall i :: 0 <= i < |ts| ==> |ts[i]| >= 1 && NoSpace(ts[i])
    decreases |s|
  {
    if s == [] then []
    else if IsSpace(s[0]) then Tokens(s[1..])
    else
      var w := Word(s);
      [w] + Tokens(s[|w|..])
  }

  /** Removing the spaces of `s` keeps its first word and then the rest. */
  lemma {:induction false} RemoveSpaceAfterWord(s: string)
    ensures RemoveSpace(s) == Word(s) + RemoveSpace(s[|Word(s)|..])
    decreases |s|
  {
    if s != [] && !IsSpace(s[0]) {
      var t := s[1..];
      var w := Word(t);
      var rest := RemoveSpace(t[|w|..]);
      RemoveSpaceAfterWord(t);
      assert Word(s) == [s[0]] + w;
      assert t[|w|..] == s[|Word(s)|..];
      assert RemoveSpace(s) == [s[0]] + (w + rest);
      assert [s[0]] + (w + rest) == ([s[0]] + w) + rest;
    } else {
      assert Word(s) == [];
      assert s[|Word(s)|..] == s;
    }
  }

  /** The tokens hold every non-space character of the line, in order, and nothing else. */
  lemma {:induction false} TokensCoverLine(s: string)
    ensures Concat(Tokens(s)) == RemoveSpace(s)
    decreases |s|
  {
    if s != [] {
      if IsSpace(s[0]) {
        TokensCoverLine(s[1..]);
      } else {
        var w := Word(s);
        var rest := Tokens(s[|w|..]);
        TokensCoverLine(s[|w|..]);
        assert ([w] + rest)[0] == w && ([w] + rest)[1..] == rest;
        RemoveSpaceAfterWord(s);
      }
    }
  }

  /** A word followed by a space or by nothing is read as exactly that word. */
  lemma {:induction false} WordOf(a: string, rest: string)
    requires NoSpace(a)
    requires rest == [] || IsSpace(rest[0])
    ensures Word(a + rest) == a
    decreases |a|
  {
    if a != [] {
      assert (a + rest)[1..] == a[1..] + rest;
      WordOf(a[1..], rest);
      assert [a[0]] + a[1..] == a;
    } else {
      assert a + rest == rest;
    }
  }

  predicate AllSpace(s: string) {
    forall i :: 0 <= i < |s| ==> IsSpace(s[i])
  }

  /** Leading white space contributes no token. */
  lemma {:induction false} SpaceSkipped(gap: string, s: string)
    requires AllSpace(gap)
    ensures Tokens(gap + s) == Tokens(s)
    decreases |gap|
  {
    if gap != [] {
      assert (gap + s)[1..] == gap[1..] + s;
      SpaceSkipped(gap[1..], s);
    } else {
      assert gap + s == s;
    }
  }

  /** Columns printed with runs of white space around them split back into
      exactly those columns: tokenizing inverts joining. */
  lemma {:induction false} TokensOfJoin(lead: string, ts: seq<string>, gap: string)
    requires AllSpace(lead) && AllSpace(gap) && |gap| >= 1
    requires forall i :: 0 <= i < |ts| ==> |ts[i]| >= 1 && NoSpace(ts[i])
    ensures Tokens(lead + Join(ts, gap)) == ts
    decreases |ts|
  {
    SpaceSkipped(lead, Join(ts, gap));
    if |ts| == 1 {
      WordOf(ts[0], []);
      assert ts[0] + [] == ts[0];
      assert Join(ts, gap)[|ts[0]|..] == [];
    } else if |ts| > 1 {
      var a, rest := ts[0], Join(ts[1..], gap);
      var s := a + (gap + rest);
      assert Join(ts, gap) == s;
      WordOf(a, gap + rest);
      assert s[|a|..] == gap + rest;
      TokensOfJoin(gap, ts[1..], gap);
      assert [a] + ts[1..] == ts;
    }
  }

  /** The smallest and largest PHP integers (64-bit). */
  const MinLong := -0x8000_0000_0000_0000
  const MaxLong := 0x7FFF_FFFF_FFFF_FFFF

  /** PHP's `intval` on a token: an optional sign and the leading decimal
      digits, 0 when there are none, and a value beyond the 64-bit range
      replaced by the nearest bound. */
  function IntVal(s: string): (n: int)
    ensures MinLong <= n <= MaxLong
    ensures ParseSigned(s).None? ==> n == 0
  {
    match ParseSigned(s)
    case None => 0
    case Some(v) => if v < MinLong then MinLong else if v > MaxLong then MaxLong else v
  }

  /** A printed 64-bit integer reads back as itself, whatever non-digit text
      (a quota overrun mark, say) follows it. */
  lemma IntValOfIntToString(n: int, rest: string)
    requires MinLong <= n <= MaxLong
    requires rest == [] || !IsDigit(rest[0])
    ensures IntVal(IntToString(n) + rest) == n
  {
    ParseSignedOfIntToString(n, rest);
  }

  /** A token of decimal digits alone, leading zeros included, converts to its
      value, or to the largest integer when that value is beyond it. */
  lemma IntValOfDigits(s: string)
    requires |s| >= 1 && AllDigits(s, 10)
    ensures IntVal(s) == if Value(s, 10) > MaxLong then MaxLong else Value(s, 10)
  {
    LeadingNumberOfDigits(s, []);
    assert s + [] == s;
  }

  /** Leading zeros are read past: "007" converts to 7. */
  lemma IntValLeadingZeros()
    ensures IntVal("007") == 7
  {
    var s := "007";
    assert s[..2] == "00" && "00"[..1] == "0" && "0"[..0] == [];
    assert Value(s, 10) == 7;
    IntValOfDigits(s);
  }

  /** A printed integer beyond the 64-bit range reads back as the nearest bound. */
  lemma IntValSaturates(n: int)
    requires n < MinLong || n > MaxLong
    ensures IntVal(IntToString(n)) == if n < 0 then MinLong else MaxLong
  {
    ParseSignedOfIntToString(n, []);
    assert IntToString(n) + [] == IntToString(n);
  }

  /** The short host name: `preg_split('/\./', host)[0]`, everything before the first dot. */
  function ServerName(host: string): (name: string)
    ensures '.' !in name
    ensures |name| <= |host| && name == host[..|name|]
    ensures |name| < |host| ==> host[|name|] == '.'
    ensures '.' !in host ==> name == host
  {
    PrefixBefore(host, '.')
  }

  /** The short name of a fully qualified host name is its first label. */
  lemma ServerNameOfHost(first: string, domain: string)
    requires '.' !in first
    ensures ServerName(first + "." + domain) == first
  {
    PrefixOfSeparated(first, domain, '.');
  }

  /** The JSON values the script prints. */
  datatype Json = Null | Bool(b: bool) | Number(n: int) | Text(s: string)

  /** `$numbers[i]`: `null` past the end of the array. */
  function Column(numbers: seq<int>, i: nat): (v: Json)
    ensures i < |numbers| <==> v.Number?
  {
    if i < |numbers| then Number(numbers[i]) else Null
  }

  /** Line `i` of a command's output, read as the empty string when missing. */
  function Line(output: seq<string>, i: nat): string {
    if i < |output| then output[i] else ""
  }

  /** The integers on the third line of the quota output. */
  function Numbers(output: seq<string>): (ns: seq<int>)
    ensures |ns| == |Tokens(Line(output, 2))|
    ensures forall i :: 0 <= i < |ns| ==> ns[i] == IntVal(Tokens(Line(output, 2))[i])
  {
    var ts := Tokens(Line(output, 2));
    seq(|ts|, i requires 0 <= i < |ts| => IntVal(ts[i]))
  }

  /** The object the script prints: `user` is `false` when the environment has
      no `USER`; `used`, `total` and `files` are columns 1, 2 and 4 (used
      kilobytes, kilobyte quota, file count) of the quota line. */
  function Report(user: Option<string>, host: string, output: seq<string>): (o: map<string, Json>)
    ensures o.Keys == {"user", "server", "used", "total", "files"}
    ensures o["server"] == Text(ServerName(host))
    ensures o["user"] == if user.Some? then Text(user.value) else Bool(false)
  {
    var ns := Numbers(output);
    map["user" := if user.Some? then Text(user.value) else Bool(false),
        "server" := Text(ServerName(host)),
        "used" := Column(ns, 1),
        "total" := Column(ns, 2),
        "files" := Column(ns, 4)]
  }

  /** A number is printed without white space. */
  lemma IntToStringNoSpace(n: int)
    ensures |IntToString(n)| >= 1 && NoSpace(IntToString(n))
  {
    IntToStringChars(n);
  }

  /** The quota line as `quota` prints it: the numbers, separated by (and
      starting with) runs of white space. */
  function QuotaLine(lead: string, fields: seq<int>, gap: string): string {
    lead + Join(seq(|fields|, i requires 0 <= i < |fields| => IntToString(fields[i])), gap)
  }

  /** Reading a printed quota line gives back the numbers it shows. */
  lemma NumbersOfQuotaLine(output: seq<string>, lead: string, fields: seq<int>, gap: string)
    requires AllSpace(lead) && AllSpace(gap) && |gap| >= 1
    requires forall i :: 0 <= i < |fields| ==> MinLong <= fields[i] <= MaxLong
    requires |output| >= 3 && output[2] == QuotaLine(lead, fields, gap)
    ensures Numbers(output) == fields
  {
    var ts := seq(|fields|, i requires 0 <= i < |fields| => IntToString(fields[i]));
    forall i | 0 <= i < |ts|
      ensures |ts[i]| >= 1 && NoSpace(ts[i])
    {
      IntToStringNoSpace(fields[i]);
    }
    TokensOfJoin(lead, ts, gap);
    forall i | 0 <= i < |fields|
      ensures Numbers(output)[i] == fields[i]
    {
      IntValOfIntToString(fields[i], []);
      assert IntToString(fields[i]) + [] == ts[i];
    }
  }

  /** For a host `first.domain` and a quota line of at least five numbers, the
      report names the account, the first host label, and columns 1, 2 and 4. */
  lemma ReportOfQuota(user: string, first: string, domain: string, output: seq<string>,
                      lead: string, fields: seq<int>, gap: string)
    requires '.' !in first
    requires AllSpace(lead) && AllSpace(gap) && |gap| >= 1
    requires |fields| >= 5 && forall i :: 0 <= i < |fields| ==> MinLong <= fields[i] <= MaxLong
    requires |output| >= 3 && output[2] == QuotaLine(lead, fields, gap)
    ensures Report(Some(user), first + "." + domain, output) ==
      map["user" := Text(user), "server" := Text(first),
          "used" := Number(fields[1]), "total" := Number(fields[2]), "files" := Number(fields[4])]
  {
    ServerNameOfHost(first, domain);
    NumbersOfQuotaLine(output, lead, fields, gap);
  }

  /** A quota line with fewer than five numbers leaves `files` (and possibly
      more) `null`. */
  lemma ShortLineLeavesFilesNull(user: Option<string>, host: string, output: seq<string>)
    requires |Tokens(Line(output, 2))| < 5
    ensures Report(user, host, output)["files"] == Null
  {
  }
}
