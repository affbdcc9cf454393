/**
 The two string normalisers: sanitizeString, which cleans text columns, and
 sanitizeDeviceName, which derives a Kubernetes resource name.  Go strings are
 modelled as sequences of Unicode characters.
 */
module Names {

  // ---------------------------------------------------------------- sanitizeString

  predicate IsControl(c: char) {
    c < ' ' || c == '\U{7F}'
  }

  function SanitizeString(s: string): (r: string)
    ensures |r| <= |s|
  {
    if s == "" then ""
    else if IsControl(s[0]) then SanitizeString(s[1..])
    else [s[0]] + SanitizeString(s[1..])
  }

  ghost predicate IsClean(s: string) {
    forall i :: 0 <= i < |s| ==> '\U{20}' <= s[i] && s[i] != '\U{7F}'
  }

  /** The result is clean, and clean strings are exactly the fixed points. */
  lemma {:induction false} SanitizeStringFixedPoints(s: string)
    ensures IsClean(SanitizeString(s))
    ensures SanitizeString(s) == s <==> IsClean(s)
  {
    if s != "" {
      SanitizeStringFixedPoints(s[1..]);
      if SanitizeString(s) == s && !IsControl(s[0]) {
        assert s == [s[0]] + s[1..];
        assert SanitizeString(s)[1..] == SanitizeString(s[1..]);
        assert IsClean(s[1..]);
      }
      if IsClean(s) {
        assert forall i :: 0 <= i < |s[1..]| ==> s[1..][i] == s[i + 1];
        assert s == [s[0]] + s[1..];
      }
    }
  }

  /** Only control characters are removed: the multiplicity of every other character is kept, in order. */
  lemma {:induction false} SanitizeStringKeepsText(a: string, c: char, b: string)
    ensures SanitizeString(a + [c] + b)
         == SanitizeString(a) + (if c < '\U{20}' || c == '\U{7F}' then "" else [c]) + SanitizeString(b)
  {
    if a == "" {
      assert a + [c] + b == [c] + b;
    } else {
      assert a + [c] + b == [a[0]] + (a[1..] + [c] + b);
      SanitizeStringKeepsText(a[1..], c, b);
    }
  }

  // ------------------------------------------------------------ sanitizeDeviceName

  const PREFIX := "device-"
  const MAX_NAME_LENGTH := 253

  predicate IsNameChar(c: char) {
    'a' <= c <= 'z' || '0' <= c <= '9'
  }

  /**
   Unicode lower-casing as far as it matters here: besides A-Z, only the Kelvin
   sign and the dotted capital I become ASCII letters; every other character
   outside ASCII stays outside it and turns into a hyphen below.
   */
  function Lower(c: char): char {
    if 'A' <= c <= 'Z' then c - 'A' + 'a'
    else if c == '\U{212A}' then 'k'
    else if c == '\U{130}' then 'i'
    else c
  }

  function MapChars(s: string, f: char -> char): (r: string)
    ensures |r| == |s|
    ensures forall i :: 0 <= i < |s| ==> r[i] == f(s[i])
  {
    seq(|s|, i requires 0 <= i < |s| => f(s[i]))
  }

  function Hyphenate(c: char): char {
    if IsNameChar(c) then c else '-'
  }

  function TrimPrefix(s: string, p: string): string {
    if p <= s then s[|p|..] else s
  }

  function TrimLeft(s: string): (r: string)
    ensures r == "" || r[0] != '-'
    ensures |r| <= |s| && r == s[|s| - |r|..]
    ensures forall i :: 0 <= i < |s| - |r| ==> s[i] == '-'
  {
    if s != "" && s[0] == '-' then TrimLeft(s[1..]) else s
  }

  function TrimRight(s: string): (r: string)
    ensures r == "" || r[|r| - 1] != '-'
    ensures r <= s
    ensures forall i :: |r| <= i < |s| ==> s[i] == '-'
  {
    if s != "" && s[|s| - 1] == '-' then TrimRight(s[..|s| - 1]) else s
  }

  function TrimHyphens(s: string): string {
    TrimRight(TrimLeft(s))
  }

  /** The name after lower-casing, dropping "0x", replacing and trimming. */
  function Core(name: string): string {
    TrimHyphens(MapChars(TrimPrefix(MapChars(name, Lower), "0x"), Hyphenate))
  }

  /** The first of the two prefixing branches. */
  function EnsureAlphanumericStart(s: string): string {
    if |s| > 0 && !IsNameChar(s[0]) then PREFIX + s else s
  }

  function WithPrefix(s: string): string {
    if PREFIX <= s then s else PREFIX + s
  }

  function Limited(s: string): string {
    if |s| > MAX_NAME_LENGTH then s[..MAX_NAME_LENGTH] else s
  }

  function SanitizeDeviceName(name: string): string {
    Limited(WithPrefix(EnsureAlphanumericStart(Core(name))))
  }

  predicate IsTextChar(c: char) {
    'a' <= c <= 'z' || '0' <= c <= '9' || c == '-'
  }

  ghost predicate IsNameText(s: string) {
    forall i :: 0 <= i < |s| ==> IsTextChar(s[i])
  }

  ghost predicate IsDeviceName(s: string) {
    |s| <= 253 && "device-" <= s && IsNameText(s)
  }

  lemma NameTextSlice(s: string, lo: nat, hi: nat)
    requires IsNameText(s) && lo <= hi <= |s|
    ensures IsNameText(s[lo..hi])
  {
  }

  lemma NameTextConcat(a: string, b: string)
    requires IsNameText(a) && IsNameText(b)
    ensures IsNameText(a + b)
  {
  }

  lemma TrimLeftShape(m: string)
    requires IsNameText(m)
    ensures var l := TrimLeft(m);
            IsNameText(l) && (l != "" ==> IsNameChar(l[0]))
  {
    var l := TrimLeft(m);
    NameTextSlice(m, |m| - |l|, |m|);
    assert m[|m| - |l|..|m|] == l;
    if l != "" {
      assert IsTextChar(l[0]);
    }
  }

  lemma TrimRightShape(l: string)
    requires IsNameText(l) && (l != "" ==> IsNameChar(l[0]))
    ensures var c := TrimRight(l);
            IsNameText(c) && (c != "" ==> IsNameChar(c[0]) && c[|c| - 1] != '-')
  {
    var c := TrimRight(l);
    NameTextSlice(l, 0, |c|);
    assert l[0..|c|] == c;
    if c != "" {
      assert c[0] == l[0];
    }
  }

  lemma TrimShape(m: string)
    requires IsNameText(m)
    ensures var c := TrimHyphens(m);
            IsNameText(c) && (c != "" ==> IsNameChar(c[0]) && c[|c| - 1] != '-')
  {
    TrimLeftShape(m);
    TrimRightShape(TrimLeft(m));
  }

  lemma CoreShape(name: string)
    ensures var c := Core(name);
            IsNameText(c) && (c != "" ==> IsNameChar(c[0]) && c[|c| - 1] != '-')
  {
    var replaced := MapChars(TrimPrefix(MapChars(name, Lower), "0x"), Hyphenate);
    assert IsNameText(replaced);
    TrimShape(replaced);
  }

  /** The branch that adds the prefix to a name with a bad first character is never taken. */
  lemma AlphanumericStartHolds(name: string)
    ensures EnsureAlphanumericStart(Core(name)) == Core(name)
  {
    CoreShape(name);
  }

  /** Every result is a name of at most 253 characters of a-z, 0-9 and '-', starting with "device-". */
  lemma DeviceNameShape(name: string)
    ensures IsDeviceName(SanitizeDeviceName(name))
  {
    CoreShape(name);
    AlphanumericStartHolds(name);
    PrefixedShape(Core(name));
  }

  lemma PrefixedShape(core: string)
    requires IsNameText(core)
    ensures var s := WithPrefix(core);
            IsNameText(s) && PREFIX <= s && |s| >= |PREFIX|
    ensures |WithPrefix(core)| > MAX_NAME_LENGTH ==>
              IsDeviceName(WithPrefix(core)[..MAX_NAME_LENGTH])
  {
    assert IsNameText(PREFIX);
    NameTextConcat(PREFIX, core);
    var s := WithPrefix(core);
    if |s| > MAX_NAME_LENGTH {
      NameTextSlice(s, 0, MAX_NAME_LENGTH);
      assert s[0..MAX_NAME_LENGTH] == s[..MAX_NAME_LENGTH];
    }
  }

  lemma NameTextUnchanged(s: string)
    requires IsNameText(s)
    ensures MapChars(s, Lower) == s && MapChars(s, Hyphenate) == s
  {
  }

  /** Core leaves name text that needs no trimming alone. */
  lemma CoreOfName(s: string)
    requires IsDeviceName(s)
    ensures Core(s) == TrimRight(s)
  {
    PrefixLetters(s);
    NameTextUnchanged(s);
  }

  lemma PrefixLetters(s: string)
    requires PREFIX <= s
    ensures |s| >= 7 && s[0] == 'd' && s[5] == 'e' && s[6] == '-' && s[..7] == PREFIX
  {
    assert PREFIX[0] == 'd' && PREFIX[5] == 'e' && PREFIX[6] == '-';
  }

  /** Trimming a device name leaves a shorter device name or just "device". */
  lemma TrimmedDeviceName(s: string)
    requires PREFIX <= s
    ensures TrimRight(s) == "device" || PREFIX <= TrimRight(s)
    ensures WithPrefix(TrimRight(s)) == TrimRight(s) || WithPrefix(TrimRight(s)) == "device-device"
  {
    PrefixLetters(s);
    var t := TrimRight(s);
    assert |t| >= 6;
    if |t| == 6 {
      assert t == s[..6] == PREFIX[..6] == "device";
      assert PREFIX + "device" == "device-device";
    } else {
      assert t[..7] == s[..7];
    }
  }

  /** What a further application computes on a device name. */
  lemma SanitizeAgain(s: string)
    requires IsDeviceName(s)
    ensures SanitizeDeviceName(s) == WithPrefix(TrimRight(s))
  {
    CoreOfName(s);
    AlphanumericStartHolds(s);
    TrimmedDeviceName(s);
  }

  lemma RetrimmedShape(s: string)
    requires PREFIX <= s
    ensures var w := WithPrefix(TrimRight(s));
            && PREFIX <= w
            && w[|w| - 1] != '-'
            && (w == s <==> s[|s| - 1] != '-')
  {
    TrimmedDeviceName(s);
    var w := WithPrefix(TrimRight(s));
    if w == TrimRight(s) {
      if s[|s| - 1] != '-' {
        assert TrimRight(s) == s;
      }
    } else {
      PrefixLetters(s);
      assert TrimRight(s) != s;
    }
  }

  /** The fixed points, over all strings: device names that do not end in a hyphen. */
  lemma DeviceNameFixedPoints(s: string)
    ensures SanitizeDeviceName(s) == s <==> IsDeviceName(s) && s[|s| - 1] != '-'
  {
    DeviceNameShape(s);
    if IsDeviceName(s) {
      SanitizeAgain(s);
      RetrimmedShape(s);
    }
  }

  /** A further application drops trailing hyphens for good, and changes nothing else. */
  lemma Retrimmed(once: string, twice: string)
    requires IsDeviceName(once) && twice == SanitizeDeviceName(once)
    ensures IsDeviceName(twice) && twice[|twice| - 1] != '-'
    ensures twice == once <==> once[|once| - 1] != '-'
  {
    DeviceNameShape(once);
    SanitizeAgain(once);
    RetrimmedShape(once);
  }

  /** Two applications reach a fixed point from any input; one does exactly when its result does not end in a hyphen. */
  lemma TwoApplicationsSuffice(name: string, once: string, twice: string)
    requires once == SanitizeDeviceName(name) && twice == SanitizeDeviceName(once)
    ensures SanitizeDeviceName(twice) == twice
    ensures |once| > 0 && (twice == once <==> once[|once| - 1] != '-')
  {
    DeviceNameShape(name);
    Retrimmed(once, twice);
    DeviceNameFixedPoints(twice);
  }

  predicate IsAsciiAlphanumeric(c: char) {
    'a' <= c <= 'z' || 'A' <= c <= 'Z' || '0' <= c <= '9'
  }

  lemma CoreIs(name: string, l: string, m: string)
    requires TrimPrefix(MapChars(name, Lower), "0x") == l
    requires MapChars(l, Hyphenate) == m
    requires m != "" && m[0] != '-' && m[|m| - 1] != '-'
    ensures Core(name) == m
  {
  }

  lemma NameFromCore(name: string, core: string)
    requires Core(name) == core
    ensures SanitizeDeviceName(name) == Limited(WithPrefix(core))
  {
    AlphanumericStartHolds(name);
  }

  /** l is h with ASCII letters in lower case. */
  ghost predicate IsLowerOf(l: string, h: string) {
    && |l| == |h|
    && forall i :: 0 <= i < |h| ==> l[i] == if 'A' <= h[i] <= 'Z' then h[i] - 'A' + 'a' else h[i]
  }

  lemma LowerAddress(h: string, l: string)
    requires (forall i :: 0 <= i < |h| ==> IsAsciiAlphanumeric(h[i])) && IsLowerOf(l, h)
    ensures l == MapChars(h, Lower) && forall i :: 0 <= i < |l| ==> IsNameChar(l[i])
  {
  }

  lemma HyphenateKeeps(l: string)
    requires forall i :: 0 <= i < |l| ==> IsNameChar(l[i])
    ensures MapChars(l, Hyphenate) == l
    ensures !(PREFIX <= l)
  {
    if PREFIX <= l {
      PrefixLetters(l);
      assert false;
    }
  }

  /** An optional 0x or 0X, which is dropped, and the rest of a name. */
  ghost predicate HasZeroX(zeroX: string, rest: string) {
    zeroX == "0x" || zeroX == "0X" || (zeroX == "" && !("0x" <= MapChars(rest, Lower)))
  }

  /** An address as the bridge writes it: perhaps 0x or 0X, then digits and letters. */
  ghost predicate IsAddress(zeroX: string, h: string) {
    && 0 < |h| <= 246
    && (forall i :: 0 <= i < |h| ==> IsAsciiAlphanumeric(h[i]))
    && HasZeroX(zeroX, h)
  }

  lemma DropZeroX(zeroX: string, rest: string)
    requires HasZeroX(zeroX, rest)
    ensures TrimPrefix(MapChars(zeroX + rest, Lower), "0x") == MapChars(rest, Lower)
  {
    var l := MapChars(rest, Lower);
    var full := MapChars(zeroX + rest, Lower);
    if zeroX == "" {
      assert zeroX + rest == rest;
    } else {
      assert full[..2] == "0x";
      assert full[2..] == l;
    }
  }

  lemma CoreOfAddress(zeroX: string, h: string, l: string)
    requires IsAddress(zeroX, h) && IsLowerOf(l, h)
    ensures Core(zeroX + h) == l
  {
    DropZeroX(zeroX, h);
    LowerAddress(h, l);
    HyphenateKeeps(l);
    CoreIs(zeroX + h, l, l);
  }

  /** What the name is for: an address becomes "device-" and its digits and letters in lower case. */
  lemma AddressName(zeroX: string, h: string, l: string)
    requires IsAddress(zeroX, h) && IsLowerOf(l, h)
    ensures SanitizeDeviceName(zeroX + h) == "device-" + l
  {
    CoreOfAddress(zeroX, h, l);
    LowerAddress(h, l);
    HyphenateKeeps(l);
    NameFromCore(zeroX + h, l);
  }

  lemma PrefixSplit(a: string, b: string)
    requires forall i :: 0 <= i < |a| ==> IsNameChar(a[i])
    requires PREFIX <= a + "-" + b
    ensures a == "device"
  {
    var s := a + "-" + b;
    PrefixLetters(s);
    assert s[|a|] == '-';
    assert |a| >= 6 by {
      assert forall i :: 0 <= i < 6 ==> s[i] == PREFIX[i] && PREFIX[i] != '-';
    }
    assert |a| <= 6 by {
      assert |a| > 6 ==> IsNameChar(s[6]);
    }
    assert a == s[..6] == PREFIX[..6];
    assert PREFIX[..6] == "device";
  }

  /** Only "device" before the separator makes the whole look prefixed already. */
  lemma PrefixIff(a: string, b: string, s: string)
    requires forall i :: 0 <= i < |a| ==> IsNameChar(a[i])
    requires s == a + "-" + b
    ensures WithPrefix(s) == if a == "device" then s else PREFIX + s
  {
    if PREFIX <= s {
      PrefixSplit(a, b);
    }
    if a == "device" {
      assert s == PREFIX + b;
    }
  }

  /** ASCII letters and digits, and the two other characters that become an ASCII letter in lower case. */
  predicate IsLetterOrDigit(c: char) {
    IsAsciiAlphanumeric(c) || c == '\U{212A}' || c == '\U{130}'
  }

  lemma LowerOf(c: char)
    ensures IsNameChar(Lower(c)) <==> IsLetterOrDigit(c)
    ensures Lower('\U{212A}') == 'k' && Lower('\U{130}') == 'i'
    ensures IsAsciiAlphanumeric(c) ==> Lower(c) == if 'A' <= c <= 'Z' then c - 'A' + 'a' else c
  {
  }

  ghost predicate LowersToName(s: string) {
    forall i :: 0 <= i < |s| ==> IsLetterOrDigit(s[i])
  }

  lemma NameChars(s: string)
    requires LowersToName(s)
    ensures forall i :: 0 <= i < |s| ==> IsNameChar(MapChars(s, Lower)[i])
  {
  }

  lemma SeparatorLower(a: string, c: char, b: string)
    ensures MapChars(a + [c] + b, Lower) == MapChars(a, Lower) + [Lower(c)] + MapChars(b, Lower)
  {
  }

  lemma SeparatorHyphen(a: string, c: char, b: string)
    requires forall i :: 0 <= i < |a| ==> IsNameChar(a[i])
    requires forall i :: 0 <= i < |b| ==> IsNameChar(b[i])
    requires !IsNameChar(c)
    ensures MapChars(a + [c] + b, Hyphenate) == a + "-" + b
  {
  }

  /** The rest of the name does not begin with 0x either, when its first part does not. */
  lemma NoZeroX(a: string, c: char, b: string)
    requires a != "" && !IsNameChar(Lower(c)) && "0x" <= MapChars(a + [c] + b, Lower)
    ensures "0x" <= MapChars(a, Lower)
  {
    var full := MapChars(a + [c] + b, Lower);
    assert full[..2] == "0x";
    assert full[1] == "0x"[1] == 'x';
    assert |a| >= 2;
    assert MapChars(a, Lower)[..2] == full[..2];
  }

  lemma CoreOfSeparated(zeroX: string, a: string, c: char, b: string)
    requires a != "" && b != "" && LowersToName(a) && LowersToName(b) && !IsLetterOrDigit(c) && HasZeroX(zeroX, a)
    ensures Core(zeroX + (a + [c] + b)) == MapChars(a, Lower) + "-" + MapChars(b, Lower)
  {
    var la, lb := MapChars(a, Lower), MapChars(b, Lower);
    if zeroX == "" && "0x" <= MapChars(a + [c] + b, Lower) {
      NoZeroX(a, c, b);
    }
    DropZeroX(zeroX, a + [c] + b);
    SeparatorLower(a, c, b);
    NameChars(a);
    NameChars(b);
    SeparatorHyphen(la, Lower(c), lb);
    CoreIs(zeroX + (a + [c] + b), la + [Lower(c)] + lb, la + "-" + lb);
  }

  /**
   Any other character inside a name becomes one hyphen, letters become lower case, and
   the whole gets the prefix, unless it already begins with "device" and a separator.
   */
  lemma SeparatorName(zeroX: string, a: string, c: char, b: string)
    requires a != "" && b != "" && LowersToName(a) && LowersToName(b) && !IsLetterOrDigit(c) && HasZeroX(zeroX, a)
    ensures var core := MapChars(a, Lower) + "-" + MapChars(b, Lower);
            var full := if MapChars(a, Lower) == "device" then core else "device-" + core;
            SanitizeDeviceName(zeroX + (a + [c] + b)) == if |full| > 253 then full[..253] else full
  {
    var la, lb := MapChars(a, Lower), MapChars(b, Lower);
    CoreOfSeparated(zeroX, a, c, b);
    NameChars(a);
    PrefixIff(la, lb, la + "-" + lb);
    NameFromCore(zeroX + (a + [c] + b), la + "-" + lb);
  }
}
