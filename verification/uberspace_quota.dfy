/** The Uberspace Quota widget: its one-field configuration, the checks on the
    report it fetches, and the figures it shows. The request is a parameter
    from URL to the parsed JSON object, or to the message of what it threw. */
module UberspaceQuota {
  import opened Wrappers
  import opened Strings
  import opened Numerals
  import opened ConfigDialog
  import opened QuotaParser

  /** The form: just the URL of the report. */
  const QuotaForm := Form(["url"], "The URL field may not be blank – it's required.", "couldn't read URL.")

  const LoadPrefix := "Error during loading and reading quota JSON file: "

  /** `data[key]`: `None` stands for `undefined`, an absent key. */
  function Lookup(data: map<string, Json>, key: string): Option<Json> {
    if key in data then Some(data[key]) else None
  }

  /** JavaScript truthiness: `undefined`, `null`, `false`, 0 and the empty string are falsy. */
  predicate Truthy(v: Option<Json>) {
    match v
    case None => false
    case Some(Null) => false
    case Some(Bool(b)) => b
    case Some(Number(n)) => n != 0
    case Some(Text(s)) => s != ""
  }

  /** The first of `checks` from index `from` on whose key is falsy in `data`. */
  function FirstUnset(data: map<string, Json>, checks: seq<(string, string)>, from: nat): (r: Option<nat>)
    requires from <= |checks|
    ensures r.None? <==> forall i :: from <= i < |checks| ==> Truthy(Lookup(data, checks[i].0))
    ensures r.Some? ==> from <= r.value < |checks| && !Truthy(Lookup(data, checks[r.value].0))
    ensures r.Some? ==> forall i :: from <= i < r.value ==> Truthy(Lookup(data, checks[i].0))
    decreases |checks| - from
  {
    if from == |checks| then None
    else if !Truthy(Lookup(data, checks[from].0)) then Some(from)
    else FirstUnset(data, checks, from + 1)
  }

  /** The keys the widget insists on, in the order it checks them, each with
      the reason it gives when the key is unset. */
  const Checks: seq<(string, string)> := [
    ("user", "user not set."),
    ("server", "server not set."),
    ("used", "space used not set."),
    ("total", "total space available not set."),
    ("files", "number of files not set.")]

  /** A report that passed the checks. */
  datatype Quota = Quota(user: Json, server: Json, used: Json, total: Json, files: Json)

  /** Loading and checking the report: what the request threw, or the first
      unset key, or the five values. */
  function Validate(fetched: Result<map<string, Json>>): (r: Result<Quota>)
    ensures fetched.Err? ==> r == Err(LoadPrefix + fetched.message)
    ensures r.Ok? <==> (fetched.Ok? &&
      Truthy(Lookup(fetched.value, "user")) && Truthy(Lookup(fetched.value, "server")) &&
      Truthy(Lookup(fetched.value, "used")) && Truthy(Lookup(fetched.value, "total")) &&
      Truthy(Lookup(fetched.value, "files")))
    ensures r.Ok? ==> r.value == Quota(fetched.value["user"], fetched.value["server"],
      fetched.value["used"], fetched.value["total"], fetched.value["files"])
  {
    match fetched
    case Err(e) => Err(LoadPrefix + e)
    case Ok(data) =>
      match FirstUnset(data, Checks, 0)
      case Some(i) => Err(LoadPrefix + Checks[i].1)
      case None => Ok(Quota(data["user"], data["server"], data["used"], data["total"], data["files"]))
  }

  /** The reasons in order: a falsy key is reported only when every key before it is set. */
  lemma ValidateReportsFirstUnset(data: map<string, Json>)
    ensures !Truthy(Lookup(data, "user")) ==> Validate(Ok(data)) == Err(LoadPrefix + "user not set.")
    ensures Truthy(Lookup(data, "user")) && !Truthy(Lookup(data, "server")) ==>
      Validate(Ok(data)) == Err(LoadPrefix + "server not set.")
    ensures Truthy(Lookup(data, "user")) && Truthy(Lookup(data, "server")) && !Truthy(Lookup(data, "used")) ==>
      Validate(Ok(data)) == Err(LoadPrefix + "space used not set.")
    ensures (Truthy(Lookup(data, "user")) && Truthy(Lookup(data, "server")) && Truthy(Lookup(data, "used")) &&
      !Truthy(Lookup(data, "total"))) ==>
      Validate(Ok(data)) == Err(LoadPrefix + "total space available not set.")
    ensures (Truthy(Lookup(data, "user")) && Truthy(Lookup(data, "server")) && Truthy(Lookup(data, "used")) &&
      Truthy(Lookup(data, "total")) && !Truthy(Lookup(data, "files"))) ==>
      Validate(Ok(data)) == Err(LoadPrefix + "number of files not set.")
  {
  }

  /** A JSON value as a template literal shows it. */
  function JsText(v: Json): string {
    match v
    case Null => "null"
    case Bool(b) => if b then "true" else "false"
    case Number(n) => IntToString(n)
    case Text(s) => s
  }

  /** The caption: `user@server` in capitals. */
  function Caption(q: Quota): (c: string)
    ensures |c| == |JsText(q.user)| + 1 + |JsText(q.server)|
  {
    ToUpper(JsText(q.user) + "@" + JsText(q.server))
  }

  /** Upper-casing works character by character, so it distributes over concatenation. */
  lemma ToUpperConcat(a: string, b: string)
    ensures ToUpper(a + b) == ToUpper(a) + ToUpper(b)
  {
    var l, r := ToUpper(a + b), ToUpper(a) + ToUpper(b);
    forall i | 0 <= i < |l|
      ensures l[i] == r[i]
    {
      if i < |a| {
        assert (a + b)[i] == a[i];
      } else {
        assert (a + b)[i] == b[i - |a|];
      }
    }
  }

  /** The caption is the capitalised account, `@`, and the capitalised server;
      an account name without `@` can be read back up to the `@`. */
  lemma CaptionParts(user: string, server: string, used: Json, total: Json, files: Json)
    ensures Caption(Quota(Text(user), Text(server), used, total, files)) == ToUpper(user) + "@" + ToUpper(server)
    ensures '@' !in user ==>
      PrefixBefore(Caption(Quota(Text(user), Text(server), used, total, files)), '@') == ToUpper(user)
  {
    ToUpperConcat(user + "@", server);
    ToUpperConcat(user, "@");
    assert ToUpper("@") == "@";
    if '@' !in user {
      var u := ToUpper(user);
      assert '@' !in u by {
        forall i | 0 <= i < |u|
          ensures u[i] != '@'
        {
          assert user[i] != '@';
        }
      }
      PrefixOfSeparated(u, ToUpper(server), '@');
    }
  }

  /** `Math.round(1000 * (used / 1024 / 1024)) / 1000`: kilobytes as gigabytes,
      rounded to three decimals. */
  function UsedGigabytes(usedKilobytes: int): (g: real)
    ensures usedKilobytes as real / 1048576.0 - 0.0005 < g <= usedKilobytes as real / 1048576.0 + 0.0005
    ensures (g * 1000.0).Floor as real == g * 1000.0
  {
    JsRound(1000.0 * (usedKilobytes as real / 1024.0 / 1024.0)) as real / 1000.0
  }

  /** `Math.round(1000 * (1 - used / total)) / 10`: the free share in percent,
      rounded to one decimal. */
  function FreePercent(used: int, total: int): (p: real)
    requires total != 0
    ensures var exact := 100.0 * (1.0 - used as real / total as real);
      exact - 0.05 < p <= exact + 0.05
    ensures (p * 10.0).Floor as real == p * 10.0
  {
    JsRound(1000.0 * (1.0 - used as real / total as real)) as real / 10.0
  }

  /** Within the quota, the free share lies between 0 and 100 percent, and it
      is 100 when nothing is used. */
  lemma FreePercentInRange(used: int, total: int)
    requires 0 <= used <= total && total != 0
    ensures 0.0 <= FreePercent(used, total) <= 100.0
    ensures used == 0 ==> FreePercent(used, total) == 100.0
  {
    FractionInUnit(used, total);
  }

  lemma FractionInUnit(used: int, total: int)
    requires 0 <= used <= total && total != 0
    ensures 0.0 <= used as real / total as real <= 1.0
  {
    var q := used as real / total as real;
    assert q * total as real == used as real;
  }

  /** One run of the widget: the configuration dialog (in the app), reading the
      URL back, fetching the report and checking it. */
  function Run(inWidget: bool, store: Option<seq<Field>>, answer: int, entered: string, removed: bool,
               missing: string, fetch: string -> Result<map<string, Json>>): Result<Quota>
  {
    match Startup(QuotaForm, inWidget, store, answer, [entered], removed, missing)
    case Err(e) => Err(e)
    case Ok(values) => Validate(fetch(values[0]))
  }

  /** A configured widget shows whatever the PHP script reported for an account
      on host `first.domain` with a quota line of at least five numbers, as long
      as the used kilobytes, the quota and the file count are not zero. */
  lemma ReportAccepted(url: string, fetch: string -> Result<map<string, Json>>,
                       user: string, first: string, domain: string, output: seq<string>,
                       lead: string, fields: seq<int>, gap: string)
    requires url != "" && user != "" && first != "" && '.' !in first
    requires AllSpace(lead) && AllSpace(gap) && |gap| >= 1
    requires |fields| >= 5 && forall i :: 0 <= i < |fields| ==> MinLong <= fields[i] <= MaxLong
    requires fields[1] != 0 && fields[2] != 0 && fields[4] != 0
    requires |output| >= 3 && output[2] == QuotaLine(lead, fields, gap)
    requires fetch(url) == Ok(Report(Some(user), first + "." + domain, output))
    ensures Run(true, Some([Some(url)]), 0, "", false, "", fetch) ==
      Ok(Quota(Text(user), Text(first), Number(fields[1]), Number(fields[2]), Number(fields[4])))
  {
    ReportOfQuota(user, first, domain, output, lead, fields, gap);
    StoredUrlRead(url);
    assert Run(true, Some([Some(url)]), 0, "", false, "", fetch) == Validate(fetch(url));
    ValidateAllSet(Text(user), Text(first), Number(fields[1]), Number(fields[2]), Number(fields[4]));
  }

  /** A report whose five values are all set passes the checks unchanged. */
  lemma ValidateAllSet(user: Json, server: Json, used: Json, total: Json, files: Json)
    requires Truthy(Some(user)) && Truthy(Some(server)) && Truthy(Some(used))
    requires Truthy(Some(total)) && Truthy(Some(files))
    ensures Validate(Ok(map["user" := user, "server" := server, "used" := used, "total" := total, "files" := files]))
      == Ok(Quota(user, server, used, total, files))
  {
    var m := map["user" := user, "server" := server, "used" := used, "total" := total, "files" := files];
    assert Lookup(m, "user") == Some(user) && Lookup(m, "server") == Some(server);
    assert Lookup(m, "used") == Some(used) && Lookup(m, "total") == Some(total) && Lookup(m, "files") == Some(files);
  }

  /** A stored non-empty URL is read back as the configuration. */
  lemma StoredUrlRead(url: string)
    requires url != ""
    ensures Startup(QuotaForm, true, Some([Some(url)]), 0, [""], false, "") == Ok([url])
  {
    var r := ReadConfig(QuotaForm, Some([Some(url)]), "");
    assert Complete(QuotaForm, [Some(url)]);
    assert r.Ok? && r.value == [url];
  }

  /** An account that uses no space at all is refused: the report's 0 reads as
      "not set". */
  lemma ZeroUsageRefused(user: string, first: string, domain: string, output: seq<string>,
                         lead: string, fields: seq<int>, gap: string)
    requires user != "" && first != "" && '.' !in first
    requires AllSpace(lead) && AllSpace(gap) && |gap| >= 1
    requires |fields| >= 5 && forall i :: 0 <= i < |fields| ==> MinLong <= fields[i] <= MaxLong
    requires fields[1] == 0
    requires |output| >= 3 && output[2] == QuotaLine(lead, fields, gap)
    ensures Validate(Ok(Report(Some(user), first + "." + domain, output))) == Err(LoadPrefix + "space used not set.")
  {
    ReportOfQuota(user, first, domain, output, lead, fields, gap);
    ValidateReportsFirstUnset(Report(Some(user), first + "." + domain, output));
  }

  /** Without a `USER` in the environment the report is refused straight away. */
  lemma NoUserRefused(host: string, output: seq<string>)
    ensures Validate(Ok(Report(None, host, output))) == Err(LoadPrefix + "user not set.")
  {
    ValidateReportsFirstUnset(Report(None, host, output));
  }
}
