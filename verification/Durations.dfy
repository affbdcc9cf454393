/**
 The "since" parameter: parseDuration with its chained replacements, on top of
 Go's time.ParseDuration.  Durations are int64 nanoseconds.
 */
module Durations {
  import opened Common
  import Decimals
  import opened Float64

  const HOUR: int := 3_600_000_000_000

  datatype Parsed = Duration(ns: int) | Invalid

  predicate IsDigit(c: char) {
    '0' <= c <= '9'
  }

  function DigitValue(c: char): (d: nat)
    requires IsDigit(c)
    ensures d < 10
  {
    (c - '0') as nat
  }

  // ------------------------------------------------------------- strings package

  function ReplaceAll(s: string, old': string, new': string): string
    requires old' != ""
  {
    if s == "" then ""
    else if old' <= s then new' + ReplaceAll(s[|old'|..], old', new')
    else [s[0]] + ReplaceAll(s[1..], old', new')
  }

  /** unicode.IsSpace */
  predicate IsSpace(c: char) {
    || '\U{9}' <= c <= '\U{D}' || c == ' ' || c == '\U{85}' || c == '\U{A0}' || c == '\U{1680}'
    || '\U{2000}' <= c <= '\U{200A}' || c == '\U{2028}' || c == '\U{2029}' || c == '\U{202F}'
    || c == '\U{205F}' || c == '\U{3000}'
  }

  function TrimSpaceLeft(s: string): string {
    if s != "" && IsSpace(s[0]) then TrimSpaceLeft(s[1..]) else s
  }

  function TrimSpaceRight(s: string): string {
    if s != "" && IsSpace(s[|s| - 1]) then TrimSpaceRight(s[..|s| - 1]) else s
  }

  function TrimSpace(s: string): string {
    TrimSpaceRight(TrimSpaceLeft(s))
  }

  // ---------------------------------------------------------- time.ParseDuration

  /** The leading digits of s, as long as they last. */
  function DigitPrefix(s: string): (n: nat)
    ensures n <= |s| && forall i :: 0 <= i < n ==> IsDigit(s[i])
  {
    if s != "" && IsDigit(s[0]) then 1 + DigitPrefix(s[1..]) else 0
  }

  /** The unit name: everything up to the next digit or point. */
  function UnitPrefix(s: string): (n: nat)
    ensures n <= |s|
  {
    if s != "" && !IsDigit(s[0]) && s[0] != '.' then 1 + UnitPrefix(s[1..]) else 0
  }

  /** leadingInt: the value of a digit string, or failure past 1<<63, checked digit by digit. */
  function LeadingInt(digits: string, x: nat): Result<nat>
    requires forall i :: 0 <= i < |digits| ==> IsDigit(digits[i])
  {
    if digits == "" then Success(x)
    else if x > INT64_LIMIT / 10 then Failure
    else
      var y := 10 * x + DigitValue(digits[0]);
      if y > INT64_LIMIT then Failure else LeadingInt(digits[1..], y)
  }

  /** leadingFraction: as many digits as fit below 1<<63 and how many these are; the rest is skipped. */
  function LeadingFraction(digits: string, x: nat, k: nat): (nat, nat) {
    if digits == "" || !IsDigit(digits[0]) || x > (INT64_LIMIT - 1) / 10 then (x, k)
    else
      var y := 10 * x + DigitValue(digits[0]);
      if y > INT64_LIMIT then (x, k) else LeadingFraction(digits[1..], y, k + 1)
  }

  /** The nanoseconds of the digits behind the point. */
  function FractionOf(digits: string, unit: nat): nat {
    var (f, k) := LeadingFraction(digits, 0, 0);
    Decimals.FractionNs(f, Decimals.Scale(k), unit)
  }

  /** The nanoseconds of each unit name, and what a fraction of a unit is worth. */
  datatype Units = Units(ns: map<string, nat>, fraction: (string, nat) -> nat)

  /** time.unitMap; the second and third spelling of us have a micro sign and a mu. */
  const UNIT_MAP: map<string, nat> := map[
    "ns" := 1, "us" := 1_000, "\U{B5}s" := 1_000, "\U{3BC}s" := 1_000, "ms" := 1_000_000,
    "s" := 1_000_000_000, "m" := 60_000_000_000, "h" := 3_600_000_000_000]

  const UNITS: Units := Units(UNIT_MAP, FractionOf)

  ghost predicate IsUnitName(u: string) {
    u != "" && forall i :: 0 <= i < |u| ==> !IsDigit(u[i]) && u[i] != '.' && u[i] != 'd' && !IsSpace(u[i])
  }

  ghost predicate WellFormedUnits(units: Units) {
    && (forall u :: u in units.ns ==> IsUnitName(u) && units.ns[u] >= 1)
    && (forall unit :: units.fraction("", unit) == 0)
  }

  datatype Group = Group(count: nat, fraction: string, unit: nat, rest: string) | BadGroup

  /** A number that has been read, digits says whether it had any, and the unit name behind it. */
  function GroupFrom(v: Result<nat>, digits: bool, fraction: string, rest: string, units: Units): (g: Group)
    ensures g.Group? ==> |g.rest| < |rest| && g.unit >= 1
  {
    var u := UnitPrefix(rest);
    if v.Failure? || !digits || u == 0 || rest[..u] !in units.ns || units.ns[rest[..u]] < 1 then BadGroup
    else Group(v.value, fraction, units.ns[rest[..u]], rest[u..])
  }

  /** One pass of the loop: a number, perhaps with a fraction, then a unit name. */
  function NextGroup(s: string, units: Units): (g: Group)
    ensures g.Group? ==> |g.rest| < |s| && g.unit >= 1
  {
    var n := DigitPrefix(s);
    var v := LeadingInt(s[..n], 0);
    if n < |s| && s[n] == '.' then
      var more := s[n + 1..];
      var m := DigitPrefix(more);
      GroupFrom(v, n > 0 || m > 0, more[..m], more[m..], units)
    else
      GroupFrom(v, n > 0, "", s[n..], units)
  }

  /** The nanoseconds of one group. */
  function Worth(count: nat, fraction: string, unit: nat, units: Units): nat {
    count * unit + units.fraction(fraction, unit)
  }

  /** Go's uint64 addition. */
  function AddUint64(d: nat, v: nat): nat {
    (d + v) % (2 * INT64_LIMIT)
  }

  /** The loop over the groups with its overflow tests; d is the total so far. */
  function ParseGroups(s: string, d: nat, units: Units): Parsed
    decreases |s|
  {
    if s == "" then Duration(d)
    else
      match NextGroup(s, units)
      case BadGroup => Invalid
      case Group(v, fraction, unit, rest) =>
        var w := Worth(v, fraction, unit, units);
        if v > INT64_LIMIT / unit || w > INT64_LIMIT || AddUint64(d, w) > INT64_LIMIT then Invalid
        else ParseGroups(rest, AddUint64(d, w), units)
  }

  function ParseGoDuration(s: string, units: Units): Parsed {
    var neg := s != "" && s[0] == '-';
    var body := if s != "" && (s[0] == '-' || s[0] == '+') then s[1..] else s;
    if body == "0" then Duration(0)
    else if body == "" then Invalid
    else
      match ParseGroups(body, 0, units)
      case Duration(d) => if neg then Duration(-d) else if d >= INT64_LIMIT then Invalid else Duration(d)
      case Invalid => Invalid
  }

  // ------------------------------------------------------------- parseDuration

  datatype Rule = Rule(pattern: string, replacement: string)

  /** The chained strings.ReplaceAll calls, in order. */
  const RULES: seq<Rule> := [Rule("min", "m"), Rule("hour", "h"), Rule("sec", "s"), Rule("day", "h")]

  ghost predicate IsWord(w: string) {
    w != "" && forall i :: 0 <= i < |w| ==> 'a' <= w[i] <= 'z'
  }

  ghost predicate WordRules(rules: seq<Rule>) {
    forall i :: 0 <= i < |rules| ==> IsWord(rules[i].pattern)
  }

  function Respell(s: string, rules: seq<Rule>): string
    requires forall i :: 0 <= i < |rules| ==> rules[i].pattern != ""
    decreases |rules|
  {
    if rules == [] then s
    else Respell(ReplaceAll(s, rules[0].pattern, rules[0].replacement), rules[1..])
  }

  /** fmt.Sscanf(s, "%d", &n): leading blanks, a sign, then as many digits as there are; the rest is ignored. */
  function ScanInt(s: string): Result<int> {
    var t := TrimSpaceLeft(s);
    var neg := t != "" && t[0] == '-';
    var body := if t != "" && (t[0] == '-' || t[0] == '+') then t[1..] else t;
    var n := DigitPrefix(body);
    if n == 0 then Failure
    else
      var v := if neg then -DecimalValue(body[..n], 0) else DecimalValue(body[..n], 0);
      if IsInt64(v) then Success(v) else Failure
  }

  function DecimalValue(digits: string, x: nat): (v: int)
    requires forall i :: 0 <= i < |digits| ==> IsDigit(digits[i])
    ensures v >= x
  {
    if digits == "" then x else DecimalValue(digits[1..], 10 * x + DigitValue(digits[0]))
  }

  function ParseWith(input: string, rules: seq<Rule>, units: Units): Parsed
    requires forall i :: 0 <= i < |rules| ==> rules[i].pattern != ""
  {
    var s := Respell(TrimSpace(input), rules);
    if s != "" && s[|s| - 1] == 'd' then
      match ScanInt(s[..|s| - 1])
      case Failure => Invalid
      case Success(days) => Duration(Wrap64(Wrap64(days * 24) * HOUR))
    else
      ParseGoDuration(s, units)
  }

  function ParseDuration(input: string): Parsed {
    ParseWith(input, RULES, UNITS)
  }

  // ------------------------------------------------------------------- printing

  function Digits(n: nat): (s: string)
    ensures s != "" && forall i :: 0 <= i < |s| ==> IsDigit(s[i])
  {
    if n < 10 then ['0' + n as char] else Digits(n / 10) + ['0' + (n % 10) as char]
  }

  type DigitString = s: string | forall i :: 0 <= i < |s| ==> IsDigit(s[i]) witness ""

  /** A count, perhaps with digits behind a point, and the unit as the caller spells it. */
  datatype Part = Part(count: nat, fraction: DigitString, spelling: string)

  /** A part without a fraction. */
  function Whole(count: nat, spelling: string): Part {
    Part(count, "", spelling)
  }

  function PointAndDigits(p: Part): string {
    if p.fraction == "" then "" else "." + p.fraction
  }

  function Number(p: Part): (s: string)
    ensures s != "" && IsDigit(s[0])
  {
    Digits(p.count) + PointAndDigits(p)
  }

  function Print(parts: seq<Part>): string {
    if parts == [] then "" else Number(parts[0]) + parts[0].spelling + Print(parts[1..])
  }

  /** A unit as it may be spelled: it does not begin with a digit, nor end in a blank. */
  ghost predicate IsSpelling(w: string) {
    w != "" && !IsDigit(w[0]) && !IsSpace(w[|w| - 1])
  }

  ghost predicate AreSpelled(parts: seq<Part>) {
    forall i :: 0 <= i < |parts| ==> IsSpelling(parts[i].spelling)
  }

  ghost predicate LacksAll(a: string, chars: string) {
    forall i :: 0 <= i < |a| ==> a[i] !in chars
  }

  /** Characters that do not occur in the pattern pass through. */
  lemma {:induction false} ReplaceSkips(a: string, b: string, old': string, new': string)
    requires old' != "" && LacksAll(a, old')
    ensures ReplaceAll(a + b, old', new') == a + ReplaceAll(b, old', new')
  {
    if a == "" {
      assert a + b == b;
    } else {
      var s := a + b;
      assert !(old' <= s) by {
        assert s[0] == a[0] && a[0] != old'[0];
      }
      assert s[1..] == a[1..] + b;
      ReplaceSkips(a[1..], b, old', new');
    }
  }

  lemma Straddle(a: string, b: string, old': string)
    requires old' != "" && old' <= a + b
    ensures old' <= a || (b != "" && b[0] in old')
  {
    var s := a + b;
    if |old'| <= |a| {
      assert a[..|old'|] == s[..|old'|];
    } else {
      assert old'[|a|] == s[|a|] == b[0];
    }
  }

  lemma Regrouped(x: string, y: string, z: string)
    ensures x + (y + z) == x + y + z
  {
  }

  /** A match cannot reach over a character that does not occur in the pattern. */
  lemma {:induction false} ReplaceSplits(a: string, b: string, old': string, new': string)
    requires old' != "" && (b == "" || b[0] !in old')
    ensures ReplaceAll(a + b, old', new') == ReplaceAll(a, old', new') + ReplaceAll(b, old', new')
    decreases |a|
  {
    var s := a + b;
    var n := |old'|;
    if a == "" {
      assert s == b;
    } else if old' <= a {
      assert old' <= s && s[n..] == a[n..] + b;
      ReplaceSplits(a[n..], b, old', new');
      Regrouped(new', ReplaceAll(a[n..], old', new'), ReplaceAll(b, old', new'));
    } else {
      if old' <= s {
        Straddle(a, b, old');
      }
      assert s[1..] == a[1..] + b && s[0] == a[0];
      ReplaceSplits(a[1..], b, old', new');
      Regrouped([a[0]], ReplaceAll(a[1..], old', new'), ReplaceAll(b, old', new'));
    }
  }

  /** The same numbers with every spelling respelled. */
  function RespellAll(parts: seq<Part>, rules: seq<Rule>): (r: seq<Part>)
    requires forall i :: 0 <= i < |rules| ==> rules[i].pattern != ""
    ensures |r| == |parts|
    ensures forall i :: 0 <= i < |parts| ==> r[i] == parts[i].(spelling := Respell(parts[i].spelling, rules))
  {
    seq(|parts|, i requires 0 <= i < |parts| => parts[i].(spelling := Respell(parts[i].spelling, rules)))
  }

  lemma {:induction false} PrintStartsWithDigit(parts: seq<Part>)
    ensures Print(parts) == "" || IsDigit(Print(parts)[0])
  {
  }

  lemma NumberLacksLetters(p: Part, w: string)
    requires IsWord(w)
    ensures LacksAll(Number(p), w)
  {
  }

  function ReplaceInParts(parts: seq<Part>, rule: Rule): (r: seq<Part>)
    requires rule.pattern != ""
    ensures |r| == |parts|
    ensures forall i :: 0 <= i < |parts| ==>
              r[i] == parts[i].(spelling := ReplaceAll(parts[i].spelling, rule.pattern, rule.replacement))
  {
    seq(|parts|, i requires 0 <= i < |parts| =>
      parts[i].(spelling := ReplaceAll(parts[i].spelling, rule.pattern, rule.replacement)))
  }

  /** A replacement acts on every digit-delimited part separately. */
  lemma {:induction false} ReplaceInPrint(parts: seq<Part>, rule: Rule)
    requires IsWord(rule.pattern)
    ensures ReplaceAll(Print(parts), rule.pattern, rule.replacement) == Print(ReplaceInParts(parts, rule))
  {
    if parts != [] {
      ReplaceInPrint(parts[1..], rule);
      assert ReplaceInParts(parts, rule)[1..] == ReplaceInParts(parts[1..], rule);
      PrintStartsWithDigit(parts[1..]);
      NumberLacksLetters(parts[0], rule.pattern);
      ReplaceInFirst(Number(parts[0]), parts[0].spelling, Print(parts[1..]), rule.pattern, rule.replacement);
    }
  }

  lemma ReplaceInFirst(number: string, w: string, tail: string, old': string, new': string)
    requires old' != "" && LacksAll(number, old') && (tail == "" || tail[0] !in old')
    ensures ReplaceAll(number + w + tail, old', new') == number + ReplaceAll(w, old', new') + ReplaceAll(tail, old', new')
  {
    ReplaceSplits(w, tail, old', new');
    ReplaceSkips(number, w + tail, old', new');
    assert number + w + tail == number + (w + tail);
  }

  /** All replacements together: for every list of parts, whatever the spellings, and every list of rules. */
  lemma {:induction false} RespellPrint(parts: seq<Part>, rules: seq<Rule>)
    requires WordRules(rules)
    ensures Respell(Print(parts), rules) == Print(RespellAll(parts, rules))
    decreases |rules|
  {
    if rules == [] {
      assert RespellAll(parts, rules) == parts;
    } else {
      var parts' := ReplaceInParts(parts, rules[0]);
      ReplaceInPrint(parts, rules[0]);
      RespellPrint(parts', rules[1..]);
      assert RespellAll(parts', rules[1..]) == RespellAll(parts, rules);
    }
  }

  // ------------------------------------------------------------------- round trip

  lemma {:induction false} DecimalValueAppend(a: string, c: char, x: nat)
    requires (forall i :: 0 <= i < |a| ==> IsDigit(a[i])) && IsDigit(c)
    ensures DecimalValue(a + [c], x) == 10 * DecimalValue(a, x) + DigitValue(c)
  {
    if a == "" {
      assert a + [c] == [c];
      assert [c][1..] == "";
    } else {
      assert (a + [c])[1..] == a[1..] + [c];
      DecimalValueAppend(a[1..], c, 10 * x + DigitValue(a[0]));
    }
  }

  lemma {:induction false} DigitsValue(n: nat)
    ensures DecimalValue(Digits(n), 0) == n
  {
    if n < 10 {
      assert Digits(n)[1..] == "";
    } else {
      DigitsValue(n / 10);
      DecimalValueAppend(Digits(n / 10), '0' + (n % 10) as char, 0);
    }
  }

  /** The digit-by-digit overflow tests fail exactly when the value exceeds 1<<63. */
  lemma {:induction false} LeadingIntValue(ds: string, x: nat)
    requires (forall i :: 0 <= i < |ds| ==> IsDigit(ds[i])) && x <= INT64_LIMIT
    ensures LeadingInt(ds, x) == if DecimalValue(ds, x) <= INT64_LIMIT then Success(DecimalValue(ds, x)) else Failure
  {
    if ds != "" && 10 * x + DigitValue(ds[0]) <= INT64_LIMIT {
      LeadingIntValue(ds[1..], 10 * x + DigitValue(ds[0]));
    }
  }

  lemma {:induction false} DecimalValueBound(digits: string, x: nat, k: nat)
    requires forall i :: 0 <= i < |digits| ==> IsDigit(digits[i])
    requires x < Decimals.Pow10(k)
    ensures DecimalValue(digits, x) < Decimals.Pow10(k + |digits|)
  {
    if digits != "" {
      DecimalValueBound(digits[1..], 10 * x + DigitValue(digits[0]), k + 1);
    }
  }

  /** Up to 18 digits all of a fraction is read. */
  lemma {:induction false} LeadingFractionFits(digits: string, x: nat, k: nat)
    requires forall i :: 0 <= i < |digits| ==> IsDigit(digits[i])
    requires k + |digits| <= 18 && x < Decimals.Pow10(k)
    ensures LeadingFraction(digits, x, k) == (DecimalValue(digits, x), k + |digits|)
    ensures DecimalValue(digits, x) < Decimals.Pow10(k + |digits|)
  {
    if digits != "" {
      Pow10Fits(k);
      var y := 10 * x + DigitValue(digits[0]);
      assert y < Decimals.Pow10(k + 1);
      LeadingFractionFits(digits[1..], y, k + 1);
    }
  }

  lemma {:induction false} Pow10Fits(k: nat)
    requires k <= 17
    ensures 10 * Decimals.Pow10(k) <= 1_000_000_000_000_000_000
  {
    Pow10Monotone(k, 17);
    assert Decimals.Pow10(4) == 10_000;
    assert Decimals.Pow10(8) == 100_000_000;
    assert Decimals.Pow10(12) == 1_000_000_000_000;
    assert Decimals.Pow10(16) == 10_000_000_000_000_000;
  }

  lemma {:induction false} Pow10Monotone(a: nat, b: nat)
    requires a <= b
    ensures Decimals.Pow10(a) <= Decimals.Pow10(b)
    decreases b
  {
    if a < b {
      Pow10Monotone(a, b - 1);
    }
  }

  lemma {:induction false} DigitPrefixOf(ds: string, rest: string)
    requires forall i :: 0 <= i < |ds| ==> IsDigit(ds[i])
    requires rest == "" || !IsDigit(rest[0])
    ensures DigitPrefix(ds + rest) == |ds|
  {
    if ds == "" {
      assert ds + rest == rest;
    } else {
      assert (ds + rest)[1..] == ds[1..] + rest;
      DigitPrefixOf(ds[1..], rest);
    }
  }

  lemma {:induction false} UnitPrefixOf(u: string, rest: string)
    requires forall i :: 0 <= i < |u| ==> !IsDigit(u[i]) && u[i] != '.'
    requires rest == "" || IsDigit(rest[0])
    ensures UnitPrefix(u + rest) == |u|
  {
    if u == "" {
      assert u + rest == rest;
    } else {
      assert (u + rest)[1..] == u[1..] + rest;
      UnitPrefixOf(u[1..], rest);
    }
  }

  lemma OverflowTest(v: nat, unit: nat, limit: nat)
    requires unit >= 1
    ensures v > limit / unit <==> v * unit > limit
  {
    DivMod(limit, unit);
    if v > limit / unit {
      MulMonotone(limit / unit + 1, v, unit);
    } else {
      MulMonotone(v, limit / unit, unit);
    }
  }

  ghost predicate KnownUnits(parts: seq<Part>, units: Units) {
    forall i :: 0 <= i < |parts| ==> parts[i].spelling in units.ns
  }

  /** The nanoseconds that one part stands for, to the accuracy of its fraction. */
  function Value(p: Part, units: Units): nat
    requires p.spelling in units.ns
  {
    Worth(p.count, p.fraction, units.ns[p.spelling], units)
  }

  /** The nanoseconds that a list of parts stands for. */
  function Total(parts: seq<Part>, units: Units): nat
    requires KnownUnits(parts, units)
  {
    if parts == [] then 0 else Value(parts[0], units) + Total(parts[1..], units)
  }

  lemma SplitGroup(ds: string, u: string, tail: string)
    requires ds != "" && (forall i :: 0 <= i < |ds| ==> IsDigit(ds[i]))
    requires IsUnitName(u) && (tail == "" || IsDigit(tail[0]))
    ensures var s := ds + u + tail;
            && DigitPrefix(s) == |ds| && s[..|ds|] == ds && s[|ds|] != '.' && !IsDigit(s[|ds|])
            && UnitPrefix(s[|ds|..]) == |u|
            && s[|ds|..][..|u|] == u && s[|ds|..][|u|..] == tail
  {
    var s := ds + u + tail;
    assert s == ds + (u + tail);
    DigitPrefixOf(ds, u + tail);
    assert s[|ds|..] == u + tail;
    UnitPrefixOf(u, tail);
  }

  lemma NextGroupWhole(ds: string, u: string, tail: string, n: nat, units: Units)
    requires ds == Digits(n) && WellFormedUnits(units) && u in units.ns && (tail == "" || IsDigit(tail[0]))
    ensures NextGroup(ds + u + tail, units) == if n > INT64_LIMIT then BadGroup else Group(n, "", units.ns[u], tail)
  {
    SplitGroup(ds, u, tail);
    DigitsValue(n);
    LeadingIntValue(ds, 0);
  }

  lemma SplitPoint(ds: string, frac: string, more: string)
    requires forall i :: 0 <= i < |ds| ==> IsDigit(ds[i])
    ensures var s := ds + "." + frac + more;
            DigitPrefix(s) == |ds| && s[..|ds|] == ds && s[|ds|] == '.' && s[|ds| + 1..] == frac + more
  {
    var s := ds + "." + frac + more;
    assert s == ds + ("." + (frac + more));
    DigitPrefixOf(ds, "." + (frac + more));
  }

  lemma FractionText(ds: string, frac: string, u: string, tail: string)
    requires (forall i :: 0 <= i < |ds| ==> IsDigit(ds[i])) && frac != "" && (forall i :: 0 <= i < |frac| ==> IsDigit(frac[i]))
    requires IsUnitName(u) && (tail == "" || IsDigit(tail[0]))
    ensures var s := ds + "." + frac + (u + tail); var more := s[|ds| + 1..];
            && DigitPrefix(s) == |ds| && s[..|ds|] == ds && s[|ds|] == '.'
            && DigitPrefix(more) == |frac| && more[..|frac|] == frac && more[|frac|..] == u + tail
    ensures UnitPrefix(u + tail) == |u| && (u + tail)[..|u|] == u && (u + tail)[|u|..] == tail
  {
    SplitPoint(ds, frac, u + tail);
    assert frac + u + tail == frac + (u + tail);
    DigitPrefixOf(frac, u + tail);
    UnitPrefixOf(u, tail);
  }

  lemma NextGroupFraction(ds: string, frac: string, u: string, tail: string, n: nat, units: Units)
    requires ds == Digits(n) && frac != "" && (forall i :: 0 <= i < |frac| ==> IsDigit(frac[i]))
    requires WellFormedUnits(units) && u in units.ns && (tail == "" || IsDigit(tail[0]))
    ensures NextGroup(ds + "." + frac + (u + tail), units)
         == if n > INT64_LIMIT then BadGroup else Group(n, frac, units.ns[u], tail)
  {
    FractionText(ds, frac, u, tail);
    DigitsValue(n);
    LeadingIntValue(ds, 0);
  }

  lemma NextGroupPrint(p: Part, tail: string, units: Units)
    requires WellFormedUnits(units) && p.spelling in units.ns && (tail == "" || IsDigit(tail[0]))
    ensures NextGroup(Number(p) + p.spelling + tail, units)
         == if p.count > INT64_LIMIT then BadGroup else Group(p.count, p.fraction, units.ns[p.spelling], tail)
  {
    var ds := Digits(p.count);
    if p.fraction == "" {
      assert Number(p) == ds;
      NextGroupWhole(ds, p.spelling, tail, p.count, units);
    } else {
      assert Number(p) + p.spelling + tail == ds + "." + p.fraction + (p.spelling + tail);
      NextGroupFraction(ds, p.fraction, p.spelling, tail, p.count, units);
    }
  }

  /** The loop on the values of the groups: each is tested, and so is the sum, which is a uint64. */
  function Accumulate(parts: seq<Part>, d: nat, units: Units): Parsed
    requires KnownUnits(parts, units)
    decreases |parts|
  {
    if parts == [] then Duration(d)
    else
      var v := Value(parts[0], units);
      if v > INT64_LIMIT || AddUint64(d, v) > INT64_LIMIT then Invalid
      else Accumulate(parts[1..], AddUint64(d, v), units)
  }

  lemma ParseGroupsStep(s: string, v: nat, fraction: string, unit: nat, tail: string, d: nat, units: Units)
    requires s != "" && unit >= 1
    requires NextGroup(s, units) == if v > INT64_LIMIT then BadGroup else Group(v, fraction, unit, tail)
    ensures var w := Worth(v, fraction, unit, units);
            ParseGroups(s, d, units)
            == if w > INT64_LIMIT || AddUint64(d, w) > INT64_LIMIT then Invalid else ParseGroups(tail, AddUint64(d, w), units)
  {
    OverflowTest(v, unit, INT64_LIMIT);
    MulMonotone(1, unit, v);
  }

  lemma {:induction false} ParseGroupsPrint(parts: seq<Part>, d: nat, units: Units)
    requires WellFormedUnits(units) && KnownUnits(parts, units) && d <= INT64_LIMIT
    ensures ParseGroups(Print(parts), d, units) == Accumulate(parts, d, units)
    decreases |parts|
  {
    if parts != [] {
      var p := parts[0];
      var tail := Print(parts[1..]);
      PrintStartsWithDigit(parts[1..]);
      NextGroupPrint(p, tail, units);
      ParseGroupsStep(Print(parts), p.count, p.fraction, units.ns[p.spelling], tail, d, units);
      var v := Value(p, units);
      if v <= INT64_LIMIT && AddUint64(d, v) <= INT64_LIMIT {
        ParseGroupsPrint(parts[1..], AddUint64(d, v), units);
      }
    }
  }

  /** The sum of the first i parts and the i-th part are both exactly 1<<63: together they are zero as a uint64. */
  ghost predicate WrapsAt(parts: seq<Part>, i: nat, d: nat, units: Units)
    requires KnownUnits(parts, units)
  {
    i < |parts| && Value(parts[i], units) == INT64_LIMIT && d + Total(parts[..i], units) == INT64_LIMIT
  }

  ghost predicate NeverWraps(parts: seq<Part>, d: nat, units: Units)
    requires KnownUnits(parts, units)
  {
    forall i: nat :: !WrapsAt(parts, i, d, units)
  }

  lemma AddIsExact(d: nat, v: nat)
    requires d <= INT64_LIMIT && v <= INT64_LIMIT
    ensures AddUint64(d, v) == if d == v == INT64_LIMIT then 0 else d + v
  {
  }

  lemma {:induction false} WrapsLater(parts: seq<Part>, i: nat, d: nat, units: Units)
    requires parts != [] && KnownUnits(parts, units)
    ensures WrapsAt(parts[1..], i, d + Value(parts[0], units), units) <==> WrapsAt(parts, i + 1, d, units)
  {
    if i + 1 <= |parts| {
      assert parts[1..][..i] == parts[..i + 1][1..];
    }
  }

  lemma {:induction false} NeverWrapsLater(parts: seq<Part>, d: nat, units: Units)
    requires parts != [] && KnownUnits(parts, units) && NeverWraps(parts, d, units)
    ensures NeverWraps(parts[1..], d + Value(parts[0], units), units)
  {
    var d' := d + Value(parts[0], units);
    forall i: nat | WrapsAt(parts[1..], i, d', units) ensures false {
      WrapsLater(parts, i, d, units);
    }
  }

  /** Without such a pair the loop returns the exact sum, and its overflow tests reject exactly the sums past 1<<63. */
  lemma {:induction false} AccumulateIsExact(parts: seq<Part>, d: nat, units: Units)
    requires KnownUnits(parts, units) && d <= INT64_LIMIT && NeverWraps(parts, d, units)
    ensures var total := d + Total(parts, units);
            Accumulate(parts, d, units) == if total <= INT64_LIMIT then Duration(total) else Invalid
    decreases |parts|
  {
    if parts != [] {
      var v := Value(parts[0], units);
      assert parts[..0] == [] && !WrapsAt(parts, 0, d, units);
      if v <= INT64_LIMIT {
        AddIsExact(d, v);
        if d + v <= INT64_LIMIT {
          NeverWrapsLater(parts, d, units);
          AccumulateIsExact(parts[1..], d + v, units);
        }
      }
    }
  }

  lemma {:induction false} TotalFrom(parts: seq<Part>, i: nat, units: Units)
    requires KnownUnits(parts, units) && i < |parts|
    ensures Total(parts, units) >= Total(parts[..i], units) + Value(parts[i], units)
  {
    if i == 0 {
      assert parts[..0] == [];
    } else {
      TotalFrom(parts[1..], i - 1, units);
      assert parts[1..][..i - 1] == parts[..i][1..];
      assert Total(parts[..i], units) == Value(parts[0], units) + Total(parts[..i][1..], units);
    }
  }

  /** A list has at most one such pair, because the sums only grow. */
  lemma {:induction false} WrapsOnce(parts: seq<Part>, i: nat, j: nat, d: nat, units: Units)
    requires KnownUnits(parts, units) && i < j && WrapsAt(parts, i, d, units)
    ensures !WrapsAt(parts, j, d, units)
  {
    if j < |parts| {
      TotalFrom(parts[..j], i, units);
      assert parts[..j][..i] == parts[..i];
    }
  }

  /** After such a pair the loop goes on as if nothing had been before it. */
  lemma {:induction false} AccumulateWraps(parts: seq<Part>, i: nat, d: nat, units: Units)
    requires KnownUnits(parts, units) && d <= INT64_LIMIT && WrapsAt(parts, i, d, units)
    ensures Accumulate(parts, d, units) == Accumulate(parts[i + 1..], 0, units)
    decreases |parts|
  {
    var v := Value(parts[0], units);
    assert parts[..0] == [];
    AddIsExact(d, v);
    if i > 0 {
      if WrapsAt(parts, 0, d, units) {
        WrapsOnce(parts, 0, i, d, units);
      }
      assert Total(parts[..i], units) == v + Total(parts[..i][1..], units);
      WrapsLater(parts, i - 1, d, units);
      AccumulateWraps(parts[1..], i - 1, d + v, units);
      assert parts[1..][i..] == parts[i + 1..];
    }
  }

  /** What is left when every such pair is dropped with all that is before it. */
  ghost function Tail(parts: seq<Part>, units: Units): (r: seq<Part>)
    requires KnownUnits(parts, units)
    ensures KnownUnits(r, units)
    decreases |parts|
  {
    if NeverWraps(parts, 0, units) then parts
    else
      var i: nat :| WrapsAt(parts, i, 0, units);
      Tail(parts[i + 1..], units)
  }

  lemma {:induction false} AccumulateTail(parts: seq<Part>, units: Units)
    requires KnownUnits(parts, units)
    ensures Accumulate(parts, 0, units) == Accumulate(Tail(parts, units), 0, units)
    ensures NeverWraps(Tail(parts, units), 0, units)
    decreases |parts|
  {
    if !NeverWraps(parts, 0, units) {
      var i: nat :| WrapsAt(parts, i, 0, units) && Tail(parts, units) == Tail(parts[i + 1..], units);
      AccumulateWraps(parts, i, 0, units);
      AccumulateTail(parts[i + 1..], units);
    }
  }

  lemma {:induction false} WrappedTotal(parts: seq<Part>, i: nat, units: Units)
    requires KnownUnits(parts, units) && WrapsAt(parts, i, 0, units)
    ensures Total(parts, units) >= 2 * INT64_LIMIT
  {
    TotalFrom(parts, i, units);
  }

  /** The text starts with a digit and ends in c. */
  ghost predicate RunsTo(s: string, c: char) {
    |s| >= 2 && IsDigit(s[0]) && s[|s| - 1] == c
  }

  lemma EndsOfText(number: string, w: string, tail: string, c: char)
    requires number != "" && IsDigit(number[0]) && w != ""
    requires if tail == "" then w[|w| - 1] == c else RunsTo(tail, c)
    ensures RunsTo(number + w + tail, c)
  {
    var s := number + w + tail;
    assert s[0] == number[0];
    if tail == "" {
      assert s == number + w;
    }
  }

  lemma {:induction false} PrintEnds(parts: seq<Part>)
    requires parts != [] && forall i :: 0 <= i < |parts| ==> parts[i].spelling != ""
    ensures var w := parts[|parts| - 1].spelling; RunsTo(Print(parts), w[|w| - 1])
    decreases |parts|
  {
    var rest := parts[1..];
    if rest != [] {
      PrintEnds(rest);
      assert rest[|rest| - 1] == parts[|parts| - 1];
    }
    var w := parts[|parts| - 1].spelling;
    EndsOfText(Number(parts[0]), parts[0].spelling, Print(rest), w[|w| - 1]);
  }

  lemma {:induction false} TrimLeftBlank(pad: string, s: string)
    requires (forall i :: 0 <= i < |pad| ==> IsSpace(pad[i])) && s != "" && !IsSpace(s[0])
    ensures TrimSpaceLeft(pad + s) == s
  {
    if pad == "" {
      assert pad + s == s;
    } else {
      assert (pad + s)[1..] == pad[1..] + s;
      TrimLeftBlank(pad[1..], s);
    }
  }

  lemma {:induction false} TrimRightBlank(s: string, pad: string)
    requires (forall i :: 0 <= i < |pad| ==> IsSpace(pad[i])) && s != "" && !IsSpace(s[|s| - 1])
    ensures TrimSpaceRight(s + pad) == s
    decreases |pad|
  {
    if pad == "" {
      assert s + pad == s;
    } else {
      var t := s + pad;
      assert t[..|t| - 1] == s + pad[..|pad| - 1];
      TrimRightBlank(s, pad[..|pad| - 1]);
    }
  }

  lemma TrimSpacePadded(left: string, s: string, right: string)
    requires (forall i :: 0 <= i < |left| ==> IsSpace(left[i])) && (forall i :: 0 <= i < |right| ==> IsSpace(right[i]))
    requires s != "" && !IsSpace(s[0]) && !IsSpace(s[|s| - 1])
    ensures TrimSpace(left + s + right) == s
  {
    assert left + s + right == left + (s + right);
    TrimLeftBlank(left, s + right);
    TrimRightBlank(s, right);
  }

  /** The blanks: ASCII ones, next line, no-break space, and Unicode's space separators. */
  lemma Blanks(c: char)
    ensures IsSpace(c) <==> c in "\t\n\U{B}\U{C}\r \U{85}\U{A0}\U{1680}" + "\U{2000}\U{2001}\U{2002}\U{2003}\U{2004}\U{2005}"
                                 + "\U{2006}\U{2007}\U{2008}\U{2009}\U{200A}\U{2028}\U{2029}\U{202F}\U{205F}\U{3000}"
  {
  }

  ghost predicate IsBlank(s: string) {
    forall i :: 0 <= i < |s| ==> IsSpace(s[i])
  }

  lemma {:induction false} ReplaceShort(s: string, old': string, new': string)
    requires |s| < |old'|
    ensures ReplaceAll(s, old', new') == s
  {
    if s != "" {
      ReplaceShort(s[1..], old', new');
    }
  }

  lemma ReplaceNone(s: string, old': string, new': string)
    requires old' != "" && LacksAll(s, old')
    ensures ReplaceAll(s, old', new') == s
  {
    ReplaceSkips(s, "", old', new');
    assert s + "" == s;
  }

  lemma ReplaceWhole(s: string, new': string)
    requires s != ""
    ensures ReplaceAll(s, s, new') == new'
  {
    assert s[|s|..] == "";
    assert new' + "" == new';
  }

  lemma {:induction false} RespellShort(s: string, rules: seq<Rule>)
    requires WordRules(rules) && forall i :: 0 <= i < |rules| ==> |s| < |rules[i].pattern|
    ensures Respell(s, rules) == s
  {
    if rules != [] {
      ReplaceShort(s, rules[0].pattern, rules[0].replacement);
      RespellShort(s, rules[1..]);
    }
  }

  /** A word that is one rule's pattern and shares no letter with the patterns before it becomes that replacement. */
  lemma {:induction false} RespellWhole(w: string, rules: seq<Rule>, k: nat)
    requires WordRules(rules) && k < |rules| && rules[k].pattern == w
    requires forall i :: 0 <= i < k ==> LacksAll(w, rules[i].pattern)
    requires forall i :: k < i < |rules| ==> |rules[k].replacement| < |rules[i].pattern|
    ensures Respell(w, rules) == rules[k].replacement
  {
    if k == 0 {
      ReplaceWhole(w, rules[0].replacement);
      RespellShort(rules[0].replacement, rules[1..]);
    } else {
      ReplaceNone(w, rules[0].pattern, rules[0].replacement);
      RespellWhole(w, rules[1..], k - 1);
    }
  }

  lemma RulesAreWords()
    ensures WordRules(RULES) && forall i :: 0 <= i < |RULES| ==> |RULES[i].pattern| >= 3
  {
  }

  lemma RespellMinAndHour()
    ensures Respell("min", RULES) == "m" && Respell("hour", RULES) == "h"
  {
    RulesAreWords();
    RespellWhole("min", RULES, 0);
    RespellWhole("hour", RULES, 1);
  }

  lemma RespellSec()
    ensures Respell("sec", RULES) == "s"
  {
    RulesAreWords();
    assert LacksAll("sec", "min") && LacksAll("sec", "hour");
    RespellWhole("sec", RULES, 2);
  }

  lemma RespellDay()
    ensures Respell("day", RULES) == "h"
  {
    RulesAreWords();
    assert LacksAll("day", "min") && LacksAll("day", "hour") && LacksAll("day", "sec");
    RespellWhole("day", RULES, 3);
  }

  lemma RespellLetter(c: char)
    ensures WordRules(RULES) && Respell([c], RULES) == [c]
  {
    RulesAreWords();
    RespellShort([c], RULES);
  }

  /** The documented spellings and what the replacements make of them; "day" becomes an hour. */
  lemma Spellings()
    ensures Respell("s", RULES) == Respell("sec", RULES) == "s"
    ensures Respell("m", RULES) == Respell("min", RULES) == "m"
    ensures Respell("h", RULES) == Respell("hour", RULES) == Respell("day", RULES) == "h"
  {
    RespellLetter('s');
    RespellLetter('m');
    RespellLetter('h');
    RespellMinAndHour();
    RespellSec();
    RespellDay();
  }

  lemma UnitsWellFormed()
    ensures WellFormedUnits(UNITS)
    ensures "ns" in UNITS.ns && "s" in UNITS.ns && "m" in UNITS.ns && "h" in UNITS.ns
    ensures UNITS.ns["ns"] == 1 && UNITS.ns["s"] == 1_000_000_000
    ensures UNITS.ns["m"] == 60 * UNITS.ns["s"] && UNITS.ns["h"] == 60 * UNITS.ns["m"] == HOUR
  {
  }

  /** The smaller units; those of a microsecond are spelled with u, the micro sign or mu.  There are no others. */
  lemma SmallUnits(u: string)
    ensures "ms" in UNITS.ns && 1_000 * UNITS.ns["ms"] == UNITS.ns["s"]
    ensures u in {"us", "\U{B5}s", "\U{3BC}s"} ==> u in UNITS.ns && 1_000 * UNITS.ns[u] == UNITS.ns["ms"]
    ensures u in UNITS.ns ==> u in {"ns", "us", "\U{B5}s", "\U{3BC}s", "ms", "s", "m", "h"}
  {
  }

  /** What the sign and the last test make of the loop's result. */
  function Signed(r: Parsed, neg: bool): Parsed {
    match r
    case Invalid => Invalid
    case Duration(d) => if neg then Duration(-d) else if d >= INT64_LIMIT then Invalid else Duration(d)
  }

  /** The sign that a duration may be written with. */
  datatype Sign = Bare | Plus | Minus

  function WithSign(sign: Sign, s: string): string {
    match sign
    case Bare => s
    case Plus => "+" + s
    case Minus => "-" + s
  }

  /** The sign of an int as it is printed. */
  function SignOf(n: int): Sign {
    if n < 0 then Minus else Bare
  }

  function SignedValue(sign: Sign, n: nat): int {
    if sign.Minus? then -(n as int) else n
  }

  lemma ParseGoDurationBody(t: string, s: string, units: Units)
    requires t != "" && s != "" && s != "0" && s == if t[0] == '-' || t[0] == '+' then t[1..] else t
    ensures ParseGoDuration(t, units) == Signed(ParseGroups(s, 0, units), t[0] == '-')
  {
  }

  lemma ParseGoDurationSigned(sign: Sign, s: string, units: Units)
    requires s != "" && s != "0" && s[0] != '-' && s[0] != '+'
    ensures ParseGoDuration(WithSign(sign, s), units) == Signed(ParseGroups(s, 0, units), sign.Minus?)
  {
    var t := WithSign(sign, s);
    assert sign.Bare? || t[1..] == s;
    ParseGoDurationBody(t, s, units);
  }

  /** A duration as it is written. */
  function Written(parts: seq<Part>, sign: Sign): string {
    WithSign(sign, Print(parts))
  }

  lemma {:induction false} ParseGoDurationPrint(parts: seq<Part>, sign: Sign, units: Units)
    requires parts != [] && WellFormedUnits(units) && KnownUnits(parts, units)
    ensures ParseGoDuration(Written(parts, sign), units) == Signed(Accumulate(parts, 0, units), sign.Minus?)
    ensures Print(parts) != "" && Print(parts)[|Print(parts)| - 1] != 'd'
  {
    forall i | 0 <= i < |parts| ensures IsUnitName(parts[i].spelling) {
      assert parts[i].spelling in units.ns;
    }
    PrintEnds(parts);
    ParseGroupsPrint(parts, 0, units);
    ParseGoDurationSigned(sign, Print(parts), units);
  }

  lemma {:induction false} RespellMark(c: char, s: string, rules: seq<Rule>)
    requires WordRules(rules) && !('a' <= c <= 'z')
    ensures Respell([c] + s, rules) == [c] + Respell(s, rules)
    decreases |rules|
  {
    if rules != [] {
      ReplaceSkips([c], s, rules[0].pattern, rules[0].replacement);
      RespellMark(c, ReplaceAll(s, rules[0].pattern, rules[0].replacement), rules[1..]);
    }
  }

  lemma {:induction false} RespellSign(sign: Sign, s: string, rules: seq<Rule>)
    requires WordRules(rules)
    ensures Respell(WithSign(sign, s), rules) == WithSign(sign, Respell(s, rules))
  {
    match sign
    case Bare =>
    case Plus => RespellMark('+', s, rules);
    case Minus => RespellMark('-', s, rules);
  }

  lemma {:induction false} RespellWritten(parts: seq<Part>, sign: Sign, rules: seq<Rule>)
    requires WordRules(rules)
    ensures Respell(Written(parts, sign), rules) == Written(RespellAll(parts, rules), sign)
  {
    RespellPrint(parts, rules);
    RespellSign(sign, Print(parts), rules);
  }

  /** Without a final d it is time.ParseDuration that decides. */
  lemma NoDayBranch(input: string, s: string, rules: seq<Rule>, units: Units)
    requires WordRules(rules) && Respell(TrimSpace(input), rules) == s && s != "" && s[|s| - 1] != 'd'
    ensures ParseWith(input, rules, units) == ParseGoDuration(s, units)
  {
  }

  lemma SignKeepsEnd(sign: Sign, s: string)
    requires s != ""
    ensures var t := WithSign(sign, s); t != "" && t[|t| - 1] == s[|s| - 1]
  {
  }

  lemma TrimSigned(left: string, sign: Sign, s: string, right: string)
    requires IsBlank(left) && IsBlank(right) && s != "" && !IsSpace(s[0]) && !IsSpace(s[|s| - 1])
    ensures TrimSpace(left + WithSign(sign, s) + right) == WithSign(sign, s)
  {
    SignKeepsEnd(sign, s);
    TrimSpacePadded(left, WithSign(sign, s), right);
  }

  lemma {:induction false} TrimWritten(left: string, parts: seq<Part>, sign: Sign, right: string)
    requires IsBlank(left) && IsBlank(right) && parts != [] && AreSpelled(parts)
    ensures TrimSpace(left + Written(parts, sign) + right) == Written(parts, sign)
  {
    PrintEnds(parts);
    TrimSigned(left, sign, Print(parts), right);
  }

  lemma {:induction false} ParseWritten(left: string, parts: seq<Part>, sign: Sign, right: string, rules: seq<Rule>, units: Units)
    requires IsBlank(left) && IsBlank(right) && parts != [] && AreSpelled(parts)
    requires WordRules(rules) && WellFormedUnits(units) && KnownUnits(RespellAll(parts, rules), units)
    ensures ParseWith(left + Written(parts, sign) + right, rules, units)
         == Signed(Accumulate(RespellAll(parts, rules), 0, units), sign.Minus?)
  {
    var all := RespellAll(parts, rules);
    TrimWritten(left, parts, sign, right);
    RespellWritten(parts, sign, rules);
    ParseGoDurationPrint(all, sign, units);
    SignKeepsEnd(sign, Print(all));
    NoDayBranch(left + Written(parts, sign) + right, Written(all, sign), rules, units);
  }

  /** What a written duration should parse to. */
  function Exact(total: nat, sign: Sign): Parsed {
    if IsInt64(SignedValue(sign, total)) then Duration(SignedValue(sign, total)) else Invalid
  }

  lemma {:induction false} SignedTail(parts: seq<Part>, sign: Sign, units: Units)
    requires KnownUnits(parts, units)
    ensures var r := Signed(Accumulate(parts, 0, units), sign.Minus?);
            && r == Exact(Total(Tail(parts, units), units), sign)
            && (r == Exact(Total(parts, units), sign) <==> NeverWraps(parts, 0, units) || r == Invalid)
  {
    AccumulateTail(parts, units);
    AccumulateIsExact(Tail(parts, units), 0, units);
    if i: nat :| WrapsAt(parts, i, 0, units) {
      WrappedTotal(parts, i, units);
    }
  }

  /**
   Parsing a written list of parts, with any sign and any blanks around it, gives what
   the parts behind the last cancelling pair stand for.  That is the exact sum, or an
   error past int64, if and only if there is no such pair, or the rest is an error too.
   */
  lemma {:induction false} RoundTrip(left: string, parts: seq<Part>, sign: Sign, right: string)
    requires IsBlank(left) && IsBlank(right)
    requires AreSpelled(parts) && KnownUnits(RespellAll(parts, RULES), UNITS) && parts != []
    ensures var all, r := RespellAll(parts, RULES), ParseDuration(left + Written(parts, sign) + right);
            && r == Exact(Total(Tail(all, UNITS), UNITS), sign)
            && (r == Exact(Total(all, UNITS), sign) <==> NeverWraps(all, 0, UNITS) || r == Invalid)
  {
    UnitsWellFormed();
    RulesAreWords();
    ParseWritten(left, parts, sign, right, RULES, UNITS);
    SignedTail(RespellAll(parts, RULES), sign, UNITS);
  }

  lemma {:induction false} ParsePlain(parts: seq<Part>, sign: Sign)
    requires AreSpelled(parts) && KnownUnits(RespellAll(parts, RULES), UNITS) && parts != []
    ensures ParseDuration(Written(parts, sign)) == Signed(Accumulate(RespellAll(parts, RULES), 0, UNITS), sign.Minus?)
  {
    UnitsWellFormed();
    RulesAreWords();
    ParseWritten("", parts, sign, "", RULES, UNITS);
    assert "" + Written(parts, sign) + "" == Written(parts, sign);
  }

  lemma {:induction false} RespellRest(parts: seq<Part>, i: nat, rules: seq<Rule>)
    requires WordRules(rules) && i < |parts|
    ensures RespellAll(parts, rules)[i + 1..] == RespellAll(parts[i + 1..], rules)
  {
  }

  /**
   A sum of exactly 1<<63 and another 1<<63 cancel out as a uint64: what comes after them
   is parsed as if it stood alone, and nothing after them gives zero.
   */
  lemma {:induction false} WrappedSum(parts: seq<Part>, i: nat, sign: Sign)
    requires AreSpelled(parts) && KnownUnits(RespellAll(parts, RULES), UNITS) && i < |parts|
    requires WrapsAt(RespellAll(parts, RULES), i, 0, UNITS)
    ensures Exact(Total(RespellAll(parts, RULES), UNITS), sign) == Invalid
    ensures ParseDuration(Written(parts, sign))
         == if i + 1 == |parts| then Duration(0) else ParseDuration(Written(parts[i + 1..], sign))
  {
    var all, rest := RespellAll(parts, RULES), parts[i + 1..];
    WrappedTotal(all, i, UNITS);
    AccumulateWraps(all, i, 0, UNITS);
    RulesAreWords();
    RespellRest(parts, i, RULES);
    ParsePlain(parts, sign);
    if rest != [] {
      ParsePlain(rest, sign);
    }
  }

  lemma PrintTwo(p: Part, q: Part)
    ensures Print([p, q]) == Number(p) + p.spelling + (Number(q) + q.spelling)
  {
    assert [p, q][1..] == [q];
    SinglePart(q, Units(map[], (s, u) => 0));
  }

  lemma WrapsWithItself(p: Part, units: Units)
    requires p.spelling in units.ns && Value(p, units) == INT64_LIMIT
    ensures WrapsAt([p, p], 1, 0, units)
  {
    SinglePart(p, units);
    assert [p, p][..1] == [p];
  }

  /** Twice 1<<63 nanoseconds is accepted, as zero. */
  lemma TwiceTheLimit(n: nat)
    requires n == INT64_LIMIT
    ensures ParseDuration(Digits(n) + "ns" + (Digits(n) + "ns")) == Duration(0)
  {
    var p := Whole(n, "ns");
    RulesAreWords();
    RespellShort("ns", RULES);
    UnitsWellFormed();
    WholeValue(n, "ns");
    assert RespellAll([p, p], RULES) == [p, p];
    WrapsWithItself(p, UNITS);
    WrappedSum([p, p], 1, Bare);
    PrintTwo(p, p);
    WholeNumber(n, "ns");
  }

  lemma WholeValue(n: nat, spelling: string)
    requires spelling in UNITS.ns
    ensures Value(Whole(n, spelling), UNITS) == n * UNITS.ns[spelling]
  {
    UnitsWellFormed();
  }

  lemma PartAlone(p: Part, w: string, sign: Sign)
    requires IsSpelling(p.spelling) && Respell(p.spelling, RULES) == w && w in UNITS.ns
    ensures ParseDuration(WithSign(sign, Number(p) + p.spelling)) == Exact(Worth(p.count, p.fraction, UNITS.ns[w], UNITS), sign)
  {
    RulesAreWords();
    SingleKnown(p, RULES, UNITS);
    RespellSingle(p, RULES, w);
    NeverWrapsAlone(p.(spelling := w), UNITS);
    RoundTrip("", [p], sign, "");
    SinglePart(p, UNITS);
    assert "" + Written([p], sign) + "" == Written([p], sign);
  }

  /** A single whole number of a unit. */
  lemma WholeAlone(n: nat, spelling: string, w: string, sign: Sign)
    requires IsSpelling(spelling) && Respell(spelling, RULES) == w && w in UNITS.ns
    ensures ParseDuration(WithSign(sign, Digits(n) + spelling)) == Exact(n * UNITS.ns[w], sign)
  {
    PartAlone(Whole(n, spelling), w, sign);
    WholeNumber(n, spelling);
    WholeValue(n, w);
  }

  /** A number with a fraction is the whole units and the nanoseconds of the fraction. */
  lemma FractionAlone(n: nat, digits: DigitString, spelling: string, w: string, sign: Sign)
    requires digits != "" && IsSpelling(spelling) && Respell(spelling, RULES) == w && w in UNITS.ns
    ensures ParseDuration(WithSign(sign, Digits(n) + ("." + digits) + spelling))
         == Exact(n * UNITS.ns[w] + FractionOf(digits, UNITS.ns[w]), sign)
  {
    PartAlone(Part(n, digits, spelling), w, sign);
  }

  /** Whole milliseconds and microseconds. */
  lemma SmallUnitsParse(n: nat, sign: Sign, u: string)
    requires u in {"us", "\U{B5}s", "\U{3BC}s"}
    ensures ParseDuration(WithSign(sign, Digits(n) + "ms")) == Exact(n * 1_000_000, sign)
    ensures ParseDuration(WithSign(sign, Digits(n) + u)) == Exact(n * 1_000, sign)
  {
    RulesAreWords();
    UnitsWellFormed();
    SmallUnits(u);
    RespellShort("ms", RULES);
    RespellShort(u, RULES);
    WholeAlone(n, "ms", "ms", sign);
    WholeAlone(n, u, u, sign);
  }

  /** Every int64 duration can be written so that it parses back, as nanoseconds. */
  lemma EveryDurationCanBeWritten(n: int)
    requires IsInt64(n)
    ensures ParseDuration(WithSign(SignOf(n), Digits(Abs(n)) + "ns")) == Duration(n)
  {
    RulesAreWords();
    RespellShort("ns", RULES);
    UnitsWellFormed();
    WholeAlone(Abs(n), "ns", "ns", SignOf(n));
  }

  lemma NeverWrapsAlone(p: Part, units: Units)
    requires p.spelling in units.ns
    ensures NeverWraps([p], 0, units)
  {
    forall i: nat ensures !WrapsAt([p], i, 0, units) {
      if i == 0 {
        assert [p][..0] == [];
      }
    }
  }

  /** The digits behind a point count to the nanosecond. */
  lemma FractionIsToTheNanosecond(digits: DigitString, unit: nat)
    requires |digits| <= 18 && unit <= HOUR
    ensures Decimals.IsAccurate(FractionOf(digits, unit), DecimalValue(digits, 0), Decimals.Pow10(|digits|), unit)
  {
    LeadingFractionFits(digits, 0, 0);
    Decimals.ScaleIsExact(|digits|);
    Decimals.FractionIsAccurate(DecimalValue(digits, 0), Decimals.Pow10(|digits|), unit);
  }

  // ------------------------------------------------------- what is not a list of parts

  lemma RespellNoLetters(s: string, rules: seq<Rule>)
    requires WordRules(rules) && forall i :: 0 <= i < |s| ==> !('a' <= s[i] <= 'z')
    ensures Respell(s, rules) == s
    decreases |rules|
  {
    if rules != [] {
      ReplaceNone(s, rules[0].pattern, rules[0].replacement);
      RespellNoLetters(s, rules[1..]);
    }
  }

  lemma {:induction false} TrimBlank(s: string)
    requires IsBlank(s)
    ensures TrimSpace(s) == ""
  {
    if s != "" {
      TrimBlank(s[1..]);
    }
  }

  /** A zero needs no unit. */
  lemma ZeroParses(left: string, sign: Sign, right: string)
    requires IsBlank(left) && IsBlank(right)
    ensures ParseDuration(left + WithSign(sign, "0") + right) == Duration(0)
  {
    var s := WithSign(sign, "0");
    TrimSigned(left, sign, "0", right);
    RulesAreWords();
    RespellNoLetters(s, RULES);
    assert sign.Bare? || s[1..] == "0";
    NoDayBranch(left + s + right, s, RULES, UNITS);
  }

  lemma NumberIsNoGroup(ds: DigitString, units: Units)
    requires ds != ""
    ensures ParseGroups(ds, 0, units) == Invalid
  {
    DigitPrefixOf(ds, "");
    assert ds + "" == ds;
    assert NextGroup(ds, units) == BadGroup;
  }

  lemma NotZero(n: nat)
    requires n != 0
    ensures Digits(n) != "0"
  {
    DigitsValue(n);
  }

  lemma NumberFailsWith(sign: Sign, ds: DigitString, rules: seq<Rule>, units: Units)
    requires WordRules(rules) && ds != "" && ds != "0"
    ensures ParseWith(WithSign(sign, ds), rules, units) == Invalid
  {
    RespellNoLetters(WithSign(sign, ds), rules);
    GoDurationOf(sign, ds, ds, rules, units);
    NumberIsNoGroup(ds, units);
  }

  /** Any other number does: without one it is an error. */
  lemma NoUnitFails(sign: Sign, n: nat)
    requires n != 0
    ensures ParseDuration(WithSign(sign, Digits(n))) == Invalid
  {
    NotZero(n);
    RulesAreWords();
    NumberFailsWith(sign, Digits(n), RULES, UNITS);
  }

  /** So is nothing at all. */
  lemma NothingFails(blank: string)
    requires IsBlank(blank)
    ensures ParseDuration(blank) == Invalid
  {
    TrimBlank(blank);
    RulesAreWords();
    RespellNoLetters("", RULES);
  }

  // ---------------------------------------------------------------- the day branch

  /** What the day branch makes of the number that it reads. */
  function Days(n: int): Parsed {
    if IsInt64(n) then Duration(Wrap64(Wrap64(n * 24) * HOUR)) else Invalid
  }

  ghost predicate StartsOutsideDigits(s: string) {
    s == "" || !IsDigit(s[0])
  }

  lemma ScanSigned(sign: Sign, ds: DigitString, rest: string)
    requires ds != "" && StartsOutsideDigits(rest)
    ensures var n := SignedValue(sign, DecimalValue(ds, 0));
            ScanInt(WithSign(sign, ds + rest)) == if IsInt64(n) then Success(n) else Failure
  {
    var body := ds + rest;
    assert body[0] == ds[0];
    assert ("-" + body)[1..] == body && ("+" + body)[1..] == body;
    DigitPrefixOf(ds, rest);
    assert body[..|ds|] == ds;
  }

  lemma MatchEndsBefore(a: string, c: char, old': string)
    requires old' != "" && old'[|old'| - 1] != c && old' <= a + [c]
    ensures old' <= a
  {
    var n := |old'|;
    assert old'[n - 1] == (a + [c])[n - 1];
    assert a[..n] == (a + [c])[..n];
  }

  /** No replacement reaches a last character in which its pattern does not end. */
  lemma {:induction false} ReplaceKeepsLast(a: string, c: char, old': string, new': string)
    requires old' != "" && old'[|old'| - 1] != c
    ensures ReplaceAll(a + [c], old', new') == ReplaceAll(a, old', new') + [c]
    decreases |a|
  {
    var s := a + [c];
    var n := |old'|;
    if a == "" {
      assert s == [c] && s[1..] == "";
      assert !(old' <= s);
    } else if old' <= a {
      assert old' <= s;
      assert s[n..] == a[n..] + [c];
      ReplaceKeepsLast(a[n..], c, old', new');
      Regrouped(new', ReplaceAll(a[n..], old', new'), [c]);
    } else {
      if old' <= s {
        MatchEndsBefore(a, c, old');
      }
      assert s[1..] == a[1..] + [c] && s[0] == a[0];
      ReplaceKeepsLast(a[1..], c, old', new');
      Regrouped([a[0]], ReplaceAll(a[1..], old', new'), [c]);
    }
  }

  /** The replacements are words, and no pattern ends in d. */
  ghost predicate KeepDays(rules: seq<Rule>) {
    forall i :: 0 <= i < |rules| ==>
      IsWord(rules[i].replacement) && rules[i].pattern != "" && rules[i].pattern[|rules[i].pattern| - 1] != 'd'
  }

  lemma {:induction false} RespellKeepsLast(a: string, rules: seq<Rule>)
    requires KeepDays(rules)
    ensures Respell(a + "d", rules) == Respell(a, rules) + "d"
    decreases |rules|
  {
    if rules != [] {
      ReplaceKeepsLast(a, 'd', rules[0].pattern, rules[0].replacement);
      RespellKeepsLast(ReplaceAll(a, rules[0].pattern, rules[0].replacement), rules[1..]);
    }
  }

  lemma StartOfReplaced(s: string, old': string, new': string)
    requires old' != "" && IsWord(new') && StartsOutsideDigits(s)
    ensures StartsOutsideDigits(ReplaceAll(s, old', new'))
  {
  }

  /** Nor does a replacement touch a number, or put a digit behind it. */
  lemma {:induction false} RespellBehind(ds: DigitString, s: string, rules: seq<Rule>)
    requires WordRules(rules) && KeepDays(rules) && StartsOutsideDigits(s)
    ensures Respell(ds + s, rules) == ds + Respell(s, rules) && StartsOutsideDigits(Respell(s, rules))
    decreases |rules|
  {
    if rules != [] {
      ReplaceSkips(ds, s, rules[0].pattern, rules[0].replacement);
      StartOfReplaced(s, rules[0].pattern, rules[0].replacement);
      RespellBehind(ds, ReplaceAll(s, rules[0].pattern, rules[0].replacement), rules[1..]);
    }
  }

  lemma DayBranch(input: string, body: string, rules: seq<Rule>, units: Units)
    requires WordRules(rules) && Respell(TrimSpace(input), rules) == body + "d"
    ensures ParseWith(input, rules, units) == match ScanInt(body) case Failure => Invalid case Success(n) => Days(n)
  {
    assert (body + "d")[..|body|] == body;
  }

  lemma SignBefore(sign: Sign, s: string, t: string)
    ensures WithSign(sign, s) + t == WithSign(sign, s + t)
  {
    assert "-" + s + t == "-" + (s + t) && "+" + s + t == "+" + (s + t);
  }

  lemma RespellDayText(sign: Sign, ds: DigitString, more: string, rules: seq<Rule>)
    requires WordRules(rules) && KeepDays(rules) && StartsOutsideDigits(more)
    ensures Respell(WithSign(sign, ds + more + "d"), rules) == WithSign(sign, ds + Respell(more, rules)) + "d"
  {
    RespellSign(sign, ds + more + "d", rules);
    RespellKeepsLast(ds + more, rules);
    RespellBehind(ds, more, rules);
    SignBefore(sign, ds + Respell(more, rules), "d");
  }

  lemma DaySuffixParsesWith(left: string, sign: Sign, ds: DigitString, more: string, right: string, rules: seq<Rule>, units: Units)
    requires IsBlank(left) && IsBlank(right) && ds != "" && StartsOutsideDigits(more)
    requires WordRules(rules) && KeepDays(rules)
    ensures ParseWith(left + WithSign(sign, ds + more + "d") + right, rules, units)
         == Days(SignedValue(sign, DecimalValue(ds, 0)))
  {
    TrimSigned(left, sign, ds + more + "d", right);
    RespellDayText(sign, ds, more, rules);
    RespellBehind(ds, more, rules);
    ScanSigned(sign, ds, Respell(more, rules));
    DayBranch(left + WithSign(sign, ds + more + "d") + right, WithSign(sign, ds + Respell(more, rules)), rules, units);
  }

  lemma RulesKeepDays()
    ensures KeepDays(RULES)
  {
  }

  /**
   With a final d, the number that the text begins with is read as days, sign and leading
   zeros included, and everything between it and the d is ignored, whatever it is.
   */
  lemma DaySuffixParses(left: string, sign: Sign, ds: DigitString, more: string, right: string)
    requires IsBlank(left) && IsBlank(right) && ds != "" && StartsOutsideDigits(more)
    ensures ParseDuration(left + WithSign(sign, ds + more + "d") + right) == Days(SignedValue(sign, DecimalValue(ds, 0)))
  {
    RulesAreWords();
    RulesKeepDays();
    DaySuffixParsesWith(left, sign, ds, more, right, RULES, UNITS);
  }

  lemma DaySuffixAlone(sign: Sign, ds: DigitString, more: string)
    requires ds != "" && StartsOutsideDigits(more)
    ensures ParseDuration(WithSign(sign, ds + more + "d")) == Days(SignedValue(sign, DecimalValue(ds, 0)))
  {
    DaySuffixParses("", sign, ds, more, "");
    var s := WithSign(sign, ds + more + "d");
    assert "" + s + "" == s;
  }

  // ---------------------------------------------------------- numbers that begin with a point

  lemma NextGroupPoint(digits: DigitString, u: string, units: Units)
    requires digits != "" && WellFormedUnits(units) && u in units.ns
    ensures NextGroup("." + (digits + u), units) == Group(0, digits, units.ns[u], "")
  {
    var s, more := "." + (digits + u), digits + u;
    assert s[1..] == more;
    DigitPrefixOf(digits, u);
    assert more[..|digits|] == digits && more[|digits|..] == u;
    UnitPrefixOf(u, "");
    assert u + "" == u;
  }

  lemma PointGroup(digits: DigitString, u: string, units: Units)
    requires digits != "" && WellFormedUnits(units) && u in units.ns
    ensures var w := units.fraction(digits, units.ns[u]);
            ParseGroups("." + (digits + u), 0, units) == if w > INT64_LIMIT then Invalid else Duration(w)
  {
    NextGroupPoint(digits, u, units);
    ParseGroupsStep("." + (digits + u), 0, digits, units.ns[u], "", 0, units);
    AddIsExact(0, if units.fraction(digits, units.ns[u]) > INT64_LIMIT then 0 else units.fraction(digits, units.ns[u]));
  }

  lemma RespellPoint(sign: Sign, digits: DigitString, spelling: string, rules: seq<Rule>)
    requires WordRules(rules) && KeepDays(rules) && StartsOutsideDigits(spelling)
    ensures Respell(WithSign(sign, "." + (digits + spelling)), rules) == WithSign(sign, "." + (digits + Respell(spelling, rules)))
  {
    RespellSign(sign, "." + (digits + spelling), rules);
    RespellMark('.', digits + spelling, rules);
    RespellBehind(digits, spelling, rules);
  }

  lemma TrimAlone(sign: Sign, s: string)
    requires s != "" && !IsSpace(s[0]) && !IsSpace(s[|s| - 1])
    ensures TrimSpace(WithSign(sign, s)) == WithSign(sign, s)
  {
    TrimSigned("", sign, s, "");
    assert "" + WithSign(sign, s) + "" == WithSign(sign, s);
  }

  /** What is left of a text after the replacements goes to the loop over the groups. */
  lemma GoDurationOf(sign: Sign, s: string, text: string, rules: seq<Rule>, units: Units)
    requires WordRules(rules) && Respell(WithSign(sign, s), rules) == WithSign(sign, text)
    requires s != "" && !IsSpace(s[0]) && !IsSpace(s[|s| - 1])
    requires text != "" && text != "0" && text[0] != '-' && text[0] != '+' && text[|text| - 1] != 'd'
    ensures ParseWith(WithSign(sign, s), rules, units) == Signed(ParseGroups(text, 0, units), sign.Minus?)
  {
    TrimAlone(sign, s);
    SignKeepsEnd(sign, text);
    NoDayBranch(WithSign(sign, s), WithSign(sign, text), rules, units);
    ParseGoDurationSigned(sign, text, units);
  }

  lemma PointParsesWith(sign: Sign, digits: DigitString, spelling: string, w: string, rules: seq<Rule>, units: Units)
    requires WordRules(rules) && KeepDays(rules) && WellFormedUnits(units)
    requires digits != "" && IsSpelling(spelling) && Respell(spelling, rules) == w && w in units.ns
    ensures ParseWith(WithSign(sign, "." + (digits + spelling)), rules, units)
         == Signed(ParseGroups("." + (digits + w), 0, units), sign.Minus?)
  {
    RespellPoint(sign, digits, spelling, rules);
    var s, text := "." + (digits + spelling), "." + (digits + w);
    assert s[|s| - 1] == spelling[|spelling| - 1];
    assert IsUnitName(w) && text[|text| - 1] == w[|w| - 1];
    GoDurationOf(sign, s, text, rules, units);
  }

  /** A number may begin with its point. */
  lemma PointParses(sign: Sign, digits: DigitString, spelling: string, w: string)
    requires digits != "" && IsSpelling(spelling) && Respell(spelling, RULES) == w && w in UNITS.ns
    ensures ParseDuration(WithSign(sign, "." + (digits + spelling))) == Exact(FractionOf(digits, UNITS.ns[w]), sign)
  {
    RulesAreWords();
    RulesKeepDays();
    UnitsWellFormed();
    PointParsesWith(sign, digits, spelling, w, RULES, UNITS);
    PointGroup(digits, w, UNITS);
  }

  lemma NoDigitsFailsWith(sign: Sign, spelling: string, w: string, rules: seq<Rule>, units: Units)
    requires WordRules(rules) && IsWord(spelling) && Respell(spelling, rules) == w && IsWord(w) && w[|w| - 1] != 'd'
    ensures ParseWith(WithSign(sign, spelling), rules, units) == Invalid
  {
    RespellSign(sign, spelling, rules);
    GoDurationOf(sign, spelling, w, rules, units);
    NoDigitsGroup(w, units);
  }

  lemma NoDigitsBehindPoint(sign: Sign, spelling: string, w: string, rules: seq<Rule>, units: Units)
    requires WordRules(rules) && IsWord(spelling) && Respell(spelling, rules) == w && IsWord(w) && w[|w| - 1] != 'd'
    ensures ParseWith(WithSign(sign, "." + spelling), rules, units) == Invalid
  {
    RespellSign(sign, "." + spelling, rules);
    RespellMark('.', spelling, rules);
    GoDurationOf(sign, "." + spelling, "." + w, rules, units);
    NoDigitsGroup(w, units);
  }

  lemma NoDigitsGroup(w: string, units: Units)
    requires IsWord(w)
    ensures NextGroup(w, units) == BadGroup && NextGroup("." + w, units) == BadGroup
  {
    assert ("." + w)[1..] == w;
  }

  /** A unit without digits before it, with or without a point, is an error. */
  lemma NoDigitsFails(sign: Sign, spelling: string, w: string)
    requires IsWord(spelling) && Respell(spelling, RULES) == w && w in UNITS.ns && IsWord(w)
    ensures ParseDuration(WithSign(sign, spelling)) == Invalid && ParseDuration(WithSign(sign, "." + spelling)) == Invalid
  {
    RulesAreWords();
    RulesKeepDays();
    UnitsWellFormed();
    NoDigitsFailsWith(sign, spelling, w, RULES, UNITS);
    NoDigitsBehindPoint(sign, spelling, w, RULES, UNITS);
  }

  lemma SinglePart(p: Part, units: Units)
    ensures Print([p]) == Number(p) + p.spelling
    ensures p.spelling in units.ns ==> Total([p], units) == Value(p, units)
  {
    assert [p][1..] == [];
    assert Print([p]) == Number(p) + p.spelling + "";
  }

  lemma WrapProduct(a: int, b: int)
    ensures Wrap64(Wrap64(a) * b) == Wrap64(a * b)
  {
    var q := (a + INT64_LIMIT) / (2 * INT64_LIMIT);
    assert Wrap64(a) == a - 2 * INT64_LIMIT * q;
    var x, y, k := Wrap64(a) * b + INT64_LIMIT, a * b + INT64_LIMIT, q * b;
    assert y == x + 2 * INT64_LIMIT * k;
    SameRemainder(x, y, k);
  }

  lemma SameRemainder(x: int, y: int, k: int)
    requires y == x + 2 * INT64_LIMIT * k
    ensures x % (2 * INT64_LIMIT) == y % (2 * INT64_LIMIT)
  {
  }

  /** The product of the day branch is right up to a multiple of 2^64. */
  lemma DaysAre(n: int)
    ensures Days(n) == if IsInt64(n) then Duration(Wrap64(n * 24 * HOUR)) else Invalid
  {
    WrapProduct(n * 24, HOUR);
  }

  lemma DaysRange(n: int)
    ensures Days(n) == Duration(n * 24 * HOUR) <==> -106751 <= n <= 106751
  {
    DaysAre(n);
  }

  lemma WholeNumber(n: nat, spelling: string)
    ensures Number(Whole(n, spelling)) == Digits(n)
  {
  }

  /**
   A single "nd", with or without a minus, is n days exactly up to 106751; past that the
   nanoseconds wrap around, and past int64 the count itself fails.
   */
  lemma DaysAreExactUpTo(n: int)
    ensures var r := ParseDuration(WithSign(SignOf(n), Digits(Abs(n)) + "d"));
            && (r == Duration(n * 24 * HOUR) <==> -106751 <= n <= 106751)
            && (r == Invalid <==> !IsInt64(n))
  {
    var ds := Digits(Abs(n));
    DaySuffixAlone(SignOf(n), ds, "");
    assert ds + "" == ds;
    DigitsValue(Abs(n));
    DaysRange(n);
  }

  lemma RespellSingle(p: Part, rules: seq<Rule>, w: string)
    requires WordRules(rules) && Respell(p.spelling, rules) == w
    ensures RespellAll([p], rules) == [p.(spelling := w)]
  {
  }

  lemma SingleKnown(p: Part, rules: seq<Rule>, units: Units)
    requires WordRules(rules) && Respell(p.spelling, rules) in units.ns
    ensures KnownUnits(RespellAll([p], rules), units)
    ensures Total(RespellAll([p], rules), units) == Value(p.(spelling := Respell(p.spelling, rules)), units)
  {
    RespellSingle(p, rules, Respell(p.spelling, rules));
    SinglePart(p.(spelling := Respell(p.spelling, rules)), units);
  }

  lemma Join(a: string, b: string, c: string, d: string)
    ensures a + b + (c + d) == a + b + c + d
  {
  }

  lemma {:induction false} PrintAppend(parts: seq<Part>, p: Part)
    ensures Print(parts + [p]) == Print(parts) + (Number(p) + p.spelling)
    decreases |parts|
  {
    if parts == [] {
      SinglePart(p, Units(map[], (s, u) => 0));
      assert parts + [p] == [p];
    } else {
      var first, last := parts[0], Number(p) + p.spelling;
      PrintAppend(parts[1..], p);
      assert (parts + [p])[1..] == parts[1..] + [p];
      Join(Number(first), first.spelling, Print(parts[1..]), last);
    }
  }

  /** Behind the first count. */
  function Behind(parts: seq<Part>): string
    requires parts != []
  {
    PointAndDigits(parts[0]) + parts[0].spelling + Print(parts[1..])
  }

  lemma BehindStarts(point: string, w: string, more: string)
    requires StartsOutsideDigits(point) && IsSpelling(w)
    ensures StartsOutsideDigits(point + w + more)
  {
    assert (point + w + more)[0] == if point == "" then w[0] else point[0];
  }

  lemma Regroup(ds: string, point: string, w: string, tail: string)
    ensures ds + point + w + tail == ds + (point + w + tail)
  {
  }

  lemma {:induction false} PrintFirst(parts: seq<Part>)
    requires parts != []
    ensures Print(parts) == Digits(parts[0].count) + Behind(parts)
  {
    Regroup(Digits(parts[0].count), PointAndDigits(parts[0]), parts[0].spelling, Print(parts[1..]));
  }

  lemma MoreDigits(s: string, ds: string, behind: string, last: string)
    requires s == ds + behind && behind != "" && StartsOutsideDigits(behind)
    ensures s + (last + "d") == ds + (behind + last) + "d"
    ensures StartsOutsideDigits(behind + last)
  {
    assert (behind + last)[0] == behind[0];
  }

  lemma {:induction false} BehindFirst(parts: seq<Part>, k: nat)
    requires parts != [] && IsSpelling(parts[0].spelling)
    ensures Print(parts + [Whole(k, "d")]) == Digits(parts[0].count) + (Behind(parts) + Digits(k)) + "d"
    ensures StartsOutsideDigits(Behind(parts) + Digits(k))
  {
    PrintAppend(parts, Whole(k, "d"));
    WholeNumber(k, "d");
    PrintFirst(parts);
    BehindStarts(PointAndDigits(parts[0]), parts[0].spelling, Print(parts[1..]));
    MoreDigits(Print(parts), Digits(parts[0].count), Behind(parts), Digits(k));
  }

  lemma {:induction false} MixedDaysParse(parts: seq<Part>, k: nat, sign: Sign)
    requires parts != [] && IsSpelling(parts[0].spelling)
    ensures ParseDuration(Written(parts + [Whole(k, "d")], sign)) == Days(SignedValue(sign, parts[0].count))
  {
    BehindFirst(parts, k);
    DigitsValue(parts[0].count);
    DaySuffixAlone(sign, Digits(parts[0].count), Behind(parts) + Digits(k));
  }

  /**
   Days behind other parts: the first count is read as days and the rest ignored.  So the
   result is the exact sum if and only if the count fits and the sum is that many days,
   wrapped around as an int64.
   */
  lemma {:induction false} MixedDaysAreExactIff(parts: seq<Part>, k: nat, sign: Sign)
    requires parts != [] && AreSpelled(parts) && KnownUnits(RespellAll(parts, RULES), UNITS)
    ensures var n, sum := SignedValue(sign, parts[0].count),
                          SignedValue(sign, Total(RespellAll(parts, RULES), UNITS) + k * 24 * HOUR);
            ParseDuration(Written(parts + [Whole(k, "d")], sign)) == Duration(sum) <==>
            IsInt64(n) && sum == Wrap64(n * 24 * HOUR)
  {
    MixedDaysParse(parts, k, sign);
    DaysAre(SignedValue(sign, parts[0].count));
  }

  /** "1h3d" reads as one day, although an hour and three days are 73 hours. */
  lemma MixedDaysAreNotTheSum()
    ensures ParseDuration(Print([Whole(1, "h")] + [Whole(3, "d")])) == Duration(24 * HOUR)
  {
    MixedDaysParse([Whole(1, "h")], 3, Bare);
    DaysRange(1);
  }

  /** The word "day" is rewritten to an hour, so n days spelled out parse as n hours, and are n days if and only if n is zero. */
  lemma DayWordIsHours(n: nat)
    ensures ParseDuration(Digits(n) + "day") == Exact(n * HOUR, Bare)
    ensures ParseDuration(Digits(n) + "day") == Duration(n * 24 * HOUR) <==> n == 0
  {
    RespellDay();
    UnitsWellFormed();
    WholeAlone(n, "day", "h", Bare);
  }
}
