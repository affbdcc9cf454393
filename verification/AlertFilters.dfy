/** The alert filters of one request, from its path and its query parameters. */
module AlertFilters {
  import opened Common
  import opened Float64
  import opened Durations
  import opened Alerts

  const PREFIX: string := "/api/v2/alerts/"

  function TrimSlashesLeft(s: string): string {
    if s != "" && s[0] == '/' then TrimSlashesLeft(s[1..]) else s
  }

  function TrimSlashesRight(s: string): string {
    if s != "" && s[|s| - 1] == '/' then TrimSlashesRight(s[..|s| - 1]) else s
  }

  /** strings.Trim(s, "/") */
  function TrimSlashes(s: string): string {
    TrimSlashesRight(TrimSlashesLeft(s))
  }

  /** url.Values.Get: the first value, empty when there is none. */
  function Get(query: map<string, string>, key: string): string {
    if key in query then query[key] else ""
  }

  /** The device name in the path, empty when there is none. */
  function NameIn(path: string, prefix: string): string {
    if !(prefix <= path) then "" else TrimSlashes(path[|prefix|..])
  }

  /** The since parameter; none means no duration. */
  function SinceIn(text: string): Parsed {
    if text == "" then Duration(0) else ParseDuration(text)
  }

  function FiltersFrom(path: string, query: map<string, string>): Result<Filters> {
    match SinceIn(Get(query, "since"))
    case Duration(since) =>
      Success(Filters(NameIn(path, PREFIX), Get(query, "device-type"), Get(query, "location"), Get(query, "room"), since))
    case Invalid => Failure
  }

  /** Field after field, as they are found in the request. */
  method ParseAlertFilters(path: string, query: map<string, string>) returns (r: Result<Filters>)
    ensures r == FiltersFrom(path, query)
  {
    var filters := Filters("", "", "", "", 0);
    if PREFIX <= path {
      var deviceName := path[|PREFIX|..];
      NothingToTrim(deviceName);
      if deviceName != "" && deviceName != "/" {
        filters := filters.(deviceName := TrimSlashes(deviceName));
      }
    }
    var deviceType := Get(query, "device-type");
    if deviceType != "" {
      filters := filters.(deviceType := deviceType);
    }
    var location := Get(query, "location");
    if location != "" {
      filters := filters.(location := location);
    }
    var room := Get(query, "room");
    if room != "" {
      filters := filters.(room := room);
    }
    var sinceStr := Get(query, "since");
    if sinceStr != "" {
      var duration := SinceIn(sinceStr);
      if !duration.Duration? {
        return Failure;
      }
      filters := filters.(since := duration.ns);
    }
    r := Success(filters);
  }

  lemma NothingToTrim(s: string)
    ensures s == "" || s == "/" ==> TrimSlashes(s) == ""
  {
    if s == "" || s == "/" {
      assert s != "" ==> s[1..] == "";
      assert TrimSlashesLeft(s) == "";
    }
  }

  /** The request that asks for these filters, with since already printed. */
  function QueryFor(f: Filters, since: string): map<string, string> {
    map["device-type" := f.deviceType, "location" := f.location, "room" := f.room, "since" := since]
  }

  lemma {:induction false} TrimLeftShortens(s: string)
    ensures |TrimSlashesLeft(s)| <= |s|
    ensures s != "" && s[0] == '/' ==> |TrimSlashesLeft(s)| < |s|
  {
    if s != "" && s[0] == '/' {
      TrimLeftShortens(s[1..]);
    }
  }

  lemma {:induction false} TrimRightShortens(s: string)
    ensures |TrimSlashesRight(s)| <= |s|
    ensures s != "" && s[|s| - 1] == '/' ==> |TrimSlashesRight(s)| < |s|
  {
    if s != "" && s[|s| - 1] == '/' {
      TrimRightShortens(s[..|s| - 1]);
    }
  }

  predicate HasEdgeSlash(s: string) {
    s != "" && (s[0] == '/' || s[|s| - 1] == '/')
  }

  lemma TrimIsIdentityIff(s: string)
    ensures TrimSlashes(s) == s <==> !HasEdgeSlash(s)
  {
    TrimLeftShortens(s);
    TrimRightShortens(TrimSlashesLeft(s));
  }

  ghost predicate AreSlashes(s: string) {
    forall i :: 0 <= i < |s| ==> s[i] == '/'
  }

  lemma {:induction false} LeftSlashes(s: string) returns (l: string)
    ensures s == l + TrimSlashesLeft(s) && AreSlashes(l)
    ensures TrimSlashesLeft(s) == "" || TrimSlashesLeft(s)[0] != '/'
  {
    l := "";
    if s != "" && s[0] == '/' {
      l := LeftSlashes(s[1..]);
      l := "/" + l;
    }
  }

  lemma {:induction false} RightSlashes(s: string) returns (r: string)
    ensures s == TrimSlashesRight(s) + r && AreSlashes(r)
    ensures TrimSlashesRight(s) == "" || TrimSlashesRight(s)[|TrimSlashesRight(s)| - 1] != '/'
  {
    r := "";
    if s != "" && s[|s| - 1] == '/' {
      r := RightSlashes(s[..|s| - 1]);
      r := r + "/";
    }
  }

  /** Exactly the slashes at both edges are dropped. */
  lemma EdgeSlashes(s: string) returns (l: string, r: string)
    ensures s == l + TrimSlashes(s) + r && AreSlashes(l) && AreSlashes(r) && !HasEdgeSlash(TrimSlashes(s))
  {
    l := LeftSlashes(s);
    r := RightSlashes(TrimSlashesLeft(s));
    assert TrimSlashes(s) != "" ==> TrimSlashes(s)[0] == TrimSlashesLeft(s)[0];
  }

  lemma NameOf(name: string, prefix: string)
    ensures NameIn(prefix + name, prefix) == TrimSlashes(name)
  {
    assert (prefix + name)[|prefix|..] == name;
  }

  /** What is not asked for is not filtered by. */
  lemma NothingAsked(path: string)
    requires !("/api/v2/alerts/" <= path)
    ensures FiltersFrom(path, map[]) == Success(Filters("", "", "", "", 0))
  {
  }

  /** A duration in nanoseconds. */
  function SinceText(n: int): string {
    WithSign(SignOf(n), Digits(Abs(n)) + "ns")
  }

  /**
   Every filter can be asked for: for every int64 duration the request written for
   the filters parses, to exactly these filters if and only if the device name
   neither begins nor ends with a slash, and else without these slashes.
   */
  lemma FiltersRoundTrip(f: Filters)
    requires IsInt64(f.since)
    ensures var r := FiltersFrom("/api/v2/alerts/" + f.deviceName, QueryFor(f, SinceText(f.since)));
            && r == Success(f.(deviceName := TrimSlashes(f.deviceName)))
            && (r == Success(f) <==> !HasEdgeSlash(f.deviceName))
  {
    NameOf(f.deviceName, PREFIX);
    TrimIsIdentityIff(f.deviceName);
    EveryDurationCanBeWritten(f.since);
    assert SinceText(f.since) != "";
  }

  lemma FiltersWith(f: Filters, since: string, d: Parsed)
    requires !HasEdgeSlash(f.deviceName) && since != "" && d == ParseDuration(since)
    ensures FiltersFrom(PREFIX + f.deviceName, QueryFor(f, since))
         == match d case Duration(ns) => Success(f.(since := ns)) case Invalid => Failure
  {
    NameOf(f.deviceName, PREFIX);
    TrimIsIdentityIff(f.deviceName);
  }

  /**
   Any other writing of the duration does as well, with fractions, several units, a
   sign and blanks around it, up to the pairs of parts that cancel out.
   */
  lemma {:induction false} AnyWritingOfSince(f: Filters, left: string, parts: seq<Part>, sign: Sign, right: string)
    requires !HasEdgeSlash(f.deviceName) && IsBlank(left) && IsBlank(right)
    requires AreSpelled(parts) && KnownUnits(RespellAll(parts, RULES), UNITS) && parts != []
    ensures FiltersFrom("/api/v2/alerts/" + f.deviceName, QueryFor(f, left + Written(parts, sign) + right))
         == match Exact(Total(Tail(RespellAll(parts, RULES), UNITS), UNITS), sign)
            case Duration(ns) => Success(f.(since := ns))
            case Invalid => Failure
  {
    RoundTrip(left, parts, sign, right);
    assert Number(parts[0]) != "";
    var since := left + Written(parts, sign) + right;
    assert since != "";
    FiltersWith(f, since, ParseDuration(since));
  }
}
