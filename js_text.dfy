/** The JavaScript string and number built-ins the movie gateway relies on, as
    ECMAScript defines them: `startsWith`, `replace` with a string pattern,
    `split` with a string separator, `replace(/,/g, '')`, `match(/\d+/)`,
    `parseInt` without a radix, and the decimal text of an integer. */
module JsText {
  import opened Wrappers

  // ---------------------------------------------------------------------------
  // Digits and numerals

  /** The result of `parseInt`: an integer, or NaN when no digit was found. */
  datatype JsInt = Int(n: int) | NaN {

    /** `x || 0`: NaN becomes zero (and zero stays zero). */
    function OrZero(): (v: int)
      ensures Int? ==> v == n
      ensures NaN? ==> v == 0
    {
      if Int? then n else 0
    }

    /** The value with its sign flipped; NaN stays NaN. */
    function Negate(): (r: JsInt)
      ensures r.NaN? <==> NaN?
      ensures Int? ==> r.n == -n
    {
      if Int? then Int(-n) else NaN
    }
  }

  /** The two radixes `parseInt` uses when it is given none. */
  datatype Radix = Decimal | Hexadecimal {
    function Base(): nat {
      if Decimal? then 10 else 16
    }
  }

  /** `\d` in a JavaScript regular expression without the `u` flag. */
  predicate IsDigit(c: char) {
    '0' <= c <= '9'
  }

  predicate IsRadixDigit(c: char, radix: Radix) {
    IsDigit(c) || (radix == Hexadecimal && ('a' <= c <= 'f' || 'A' <= c <= 'F'))
  }

  predicate AllRadixDigits(s: string, radix: Radix) {
    forall i :: 0 <= i < |s| ==> IsRadixDigit(s[i], radix)
  }

  predicate AllDigits(s: string) {
    AllRadixDigits(s, Decimal)
  }

  predicate HasDigit(s: string) {
    exists i :: 0 <= i < |s| && IsDigit(s[i])
  }

  function DigitValue(c: char, radix: Radix): (v: nat)
    requires IsRadixDigit(c, radix)
    ensures v < radix.Base()
  {
    if IsDigit(c) then c as int - '0' as int
    else if 'a' <= c <= 'f' then c as int - 'a' as int + 10
    else c as int - 'A' as int + 10
  }

  /** The number a string of digits denotes in `radix`, most significant first. */
  function NumeralValue(s: string, radix: Radix): nat
    requires AllRadixDigits(s, radix)
  {
    if s == [] then 0
    else NumeralValue(s[..|s| - 1], radix) * radix.Base() + DigitValue(s[|s| - 1], radix)
  }

  /** Leading zeros do not change the value: "0111161" denotes 111161. */
  lemma {:induction false} LeadingZero(s: string)
    requires AllDigits(s)
    ensures AllDigits("0" + s) && NumeralValue("0" + s, Decimal) == NumeralValue(s, Decimal)
  {
    if s != [] {
      var t := "0" + s;
      assert t[..|t| - 1] == "0" + s[..|s| - 1];
      LeadingZero(s[..|s| - 1]);
    }
  }

  /** The character for a decimal digit value. */
  function DigitChar(d: nat): (c: char)
    requires d < 10
    ensures IsDigit(c) && DigitValue(c, Decimal) == d
  {
    ('0' as int + d) as char
  }

  /** The decimal text of a natural number, as `${n}` writes it. */
  function NatText(n: nat): (s: string)
    ensures |s| >= 1 && AllDigits(s)
    ensures NumeralValue(s, Decimal) == n
    ensures s[0] != '0' || s == "0"
  {
    if n < 10 then [DigitChar(n)]
    else
      var prefix := NatText(n / 10);
      var s := prefix + [DigitChar(n % 10)];
      assert s[..|s| - 1] == prefix;
      s
  }

  /** The decimal text of an integer, as `${n}` writes it. */
  function IntText(n: int): (s: string)
    ensures |s| >= 1
    ensures n < 0 <==> s[0] == '-'
  {
    if n < 0 then "-" + NatText(-n) else NatText(n)
  }

  /** 10 to the power `k`. */
  function Pow10(k: nat): (p: nat)
    ensures p >= 1 && (k >= 1 ==> p >= 10)
  {
    if k == 0 then 1 else 10 * Pow10(k - 1)
  }

  /** A numeral without a leading zero has at least its length's worth of value. */
  lemma {:induction false} NumeralLowerBound(s: string)
    requires |s| > 0 && AllDigits(s) && s[0] != '0'
    ensures NumeralValue(s, Decimal) >= Pow10(|s| - 1)
  {
    if |s| > 1 {
      var init := s[..|s| - 1];
      assert init[0] == s[0];
      NumeralLowerBound(init);
      var w := NumeralValue(init, Decimal);
      assert NumeralValue(s, Decimal) == w * 10 + DigitValue(s[|s| - 1], Decimal);
      assert Pow10(|s| - 1) == 10 * Pow10(|s| - 2);
    }
  }

  /** A numeral without superfluous leading zeros is the decimal text of its value. */
  lemma {:induction false} CanonicalNatText(s: string)
    requires |s| > 0 && AllDigits(s) && (s[0] != '0' || s == "0")
    ensures NatText(NumeralValue(s, Decimal)) == s
  {
    var v := NumeralValue(s, Decimal);
    var last := s[|s| - 1];
    if |s| == 1 {
      assert s == [last];
    } else {
      var init := s[..|s| - 1];
      assert init[0] == s[0] != '0';
      NumeralLowerBound(s);
      CanonicalNatText(init);
      var w := NumeralValue(init, Decimal);
      assert v == w * 10 + DigitValue(last, Decimal);
      assert v / 10 == w && v % 10 == DigitValue(last, Decimal);
      assert s == init + [last];
    }
  }

  /** `k` zeros. */
  function Zeros(k: nat): (r: string)
    ensures |r| == k && forall i :: 0 <= i < k ==> r[i] == '0'
  {
    seq(k, _ => '0')
  }

  /** `s.padStart(n, '0')`. */
  function PadZeros(s: string, n: nat): (r: string)
    ensures |r| == if |s| < n then n else |s|
    ensures r[|r| - |s|..] == s
    ensures forall i :: 0 <= i < |r| - |s| ==> r[i] == '0'
  {
    if |s| < n then Zeros(n - |s|) + s else s
  }

  /** Zeros in front do not change a numeral's value. */
  lemma {:induction false} ZerosValue(k: nat, s: string)
    requires AllDigits(s)
    ensures AllDigits(Zeros(k) + s) && NumeralValue(Zeros(k) + s, Decimal) == NumeralValue(s, Decimal)
  {
    if k > 0 {
      ZerosValue(k - 1, s);
      assert Zeros(k) + s == "0" + (Zeros(k - 1) + s);
      LeadingZero(Zeros(k - 1) + s);
    } else {
      assert Zeros(k) + s == s;
    }
  }

  /** Padding the decimal text of a numeral's value back to the numeral's
      length restores the numeral, leading zeros included. */
  lemma {:induction false} PadNatText(d: string)
    requires |d| > 0 && AllDigits(d)
    ensures PadZeros(NatText(NumeralValue(d, Decimal)), |d|) == d
  {
    if d[0] != '0' || d == "0" {
      CanonicalNatText(d);
    } else {
      var rest := d[1..];
      assert d == "0" + rest;
      LeadingZero(rest);
      PadNatText(rest);
      var x := NatText(NumeralValue(rest, Decimal));
      assert |x| <= |rest|;
      assert Zeros(|d| - |x|) == "0" + Zeros(|rest| - |x|);
    }
  }

  // ---------------------------------------------------------------------------
  // parseInt

  /** The code points `String.prototype.trim` and `parseInt` skip: WhiteSpace
      and LineTerminator of ECMAScript (section 12.2 and 12.3 of ECMA-262). */
  predicate IsJsWhiteSpace(c: char) {
    || c == '\t' || c == '\n' || c == '\U{B}' || c == '\U{C}' || c == '\r' || c == ' '
    || c == '\U{A0}' || c == '\U{1680}' || ('\U{2000}' <= c <= '\U{200A}')
    || c == '\U{2028}' || c == '\U{2029}' || c == '\U{202F}' || c == '\U{205F}'
    || c == '\U{3000}' || c == '\U{FEFF}'
  }

  /** `s` without its leading white space. */
  function TrimStart(s: string): (r: string)
    ensures |r| <= |s| && r == s[|s| - |r|..]
    ensures forall i :: 0 <= i < |s| - |r| ==> IsJsWhiteSpace(s[i])
    ensures r == [] || !IsJsWhiteSpace(r[0])
  {
    if s != [] && IsJsWhiteSpace(s[0]) then TrimStart(s[1..]) else s
  }

  /** The length of the longest prefix of `s` made of `radix` digits. */
  function DigitPrefixLength(s: string, radix: Radix): (k: nat)
    ensures k <= |s| && AllRadixDigits(s[..k], radix)
    ensures k == |s| || !IsRadixDigit(s[k], radix)
  {
    if s != [] && IsRadixDigit(s[0], radix) then
      var k := 1 + DigitPrefixLength(s[1..], radix);
      assert s[..k] == [s[0]] + s[1..][..k - 1];
      k
    else 0
  }

  /** `parseInt(s)` with no radix (section 21.1.2.13 of ECMA-262): skip leading
      white space, take an optional sign, then read the magnitude. */
  function ParseInt(s: string): (r: JsInt)
    ensures TrimStart(s) == [] ==> r.NaN?
    ensures var t := TrimStart(s);
            |t| > 0 && !IsDigit(t[0]) && t[0] != '-' && t[0] != '+' ==> r.NaN?
    ensures r.Int? && r.n < 0 ==> TrimStart(s)[0] == '-'
  {
    var t := TrimStart(s);
    if |t| > 0 && t[0] == '-' then ParseMagnitude(t[1..]).Negate()
    else if |t| > 0 && t[0] == '+' then ParseMagnitude(t[1..])
    else ParseMagnitude(t)
  }

  /** The unsigned part of `parseInt`: hexadecimal after "0x" or "0X", decimal otherwise. */
  function ParseMagnitude(u: string): (r: JsInt)
    ensures u == [] || !IsDigit(u[0]) ==> r.NaN?
    ensures r.Int? ==> r.n >= 0
    ensures HexPrefixed(u) ==> (r.NaN? <==> |u| == 2 || !IsRadixDigit(u[2], Hexadecimal))
    ensures !HexPrefixed(u) && |u| > 0 && IsDigit(u[0]) ==> r.Int?
  {
    if HexPrefixed(u) then LeadingNumeral(u[2..], Hexadecimal)
    else LeadingNumeral(u, Decimal)
  }

  /** `u` starts with "0x" or "0X". */
  predicate HexPrefixed(u: string) {
    |u| >= 2 && u[0] == '0' && (u[1] == 'x' || u[1] == 'X')
  }

  /** The value of the longest prefix of `body` made of `radix` digits; NaN when that prefix is empty. */
  function LeadingNumeral(body: string, radix: Radix): (r: JsInt)
    ensures r.NaN? <==> body == [] || !IsRadixDigit(body[0], radix)
    ensures r.Int? ==> r.n >= 0
  {
    var z := body[..DigitPrefixLength(body, radix)];
    if z == [] then NaN else Int(NumeralValue(z, radix))
  }

  /** A run of decimal digits followed by anything that neither continues the
      number nor turns it hexadecimal is read as that run's decimal value. */
  lemma ParseIntOfDigits(d: string, rest: string)
    requires |d| > 0 && AllDigits(d)
    requires rest == [] || (!IsDigit(rest[0]) && rest[0] != 'x' && rest[0] != 'X')
    ensures ParseInt(d + rest) == Int(NumeralValue(d, Decimal))
  {
    var s := d + rest;
    assert s[0] == d[0] && IsDigit(s[0]);
    assert !IsJsWhiteSpace(s[0]);
    assert TrimStart(s) == s;
    assert ParseInt(s) == ParseMagnitude(s);
    ParseMagnitudeOfDigits(d, rest);
  }

  /** The magnitude read from a digit run `d` followed by `rest` is the value of `d`. */
  lemma ParseMagnitudeOfDigits(d: string, rest: string)
    requires |d| > 0 && AllDigits(d)
    requires rest == [] || (!IsDigit(rest[0]) && rest[0] != 'x' && rest[0] != 'X')
    ensures ParseMagnitude(d + rest) == Int(NumeralValue(d, Decimal))
  {
    var s := d + rest;
    assert !(|s| >= 2 && s[0] == '0' && (s[1] == 'x' || s[1] == 'X')) by {
      if |d| >= 2 {
        assert s[1] == d[1] && IsDigit(d[1]);
      } else if |s| >= 2 {
        assert s[1] == rest[0];
      }
    }
    DigitRunLength(d, rest);
    assert s[..|d|] == d;
  }

  /** The longest digit prefix of `d + rest` is `d` when `rest` does not start with a digit. */
  lemma {:induction false} DigitRunLength(d: string, rest: string)
    requires AllDigits(d)
    requires rest == [] || !IsDigit(rest[0])
    ensures DigitPrefixLength(d + rest, Decimal) == |d|
  {
    if d != [] {
      assert (d + rest)[1..] == d[1..] + rest;
      DigitRunLength(d[1..], rest);
    }
  }

  /** Reading back the decimal text of an integer gives the integer. */
  lemma ParseIntText(n: int)
    ensures ParseInt(IntText(n)) == Int(n)
  {
    if n < 0 {
      ParseNegativeText(-n);
    } else {
      ParseNatText(n);
    }
  }

  lemma ParseNatText(m: nat)
    ensures ParseInt(NatText(m)) == Int(m)
  {
    var digits := NatText(m);
    assert digits + [] == digits;
    ParseIntOfDigits(digits, []);
  }

  lemma ParseNegativeText(m: nat)
    requires m > 0
    ensures ParseInt("-" + NatText(m)) == Int(-(m as int))
  {
    var digits := NatText(m);
    var s := "-" + digits;
    assert digits + [] == digits;
    ParseMagnitudeOfDigits(digits, []);
    assert TrimStart(s) == s;
    assert s[1..] == digits;
  }

  // ---------------------------------------------------------------------------
  // Searching, replacing and splitting

  /** `pat` occurs in `s` at index `k`. */
  predicate OccursAt(s: string, pat: string, k: int) {
    0 <= k && k + |pat| <= |s| && s[k..k + |pat|] == pat
  }

  /** `s.startsWith(p)`. */
  predicate StartsWith(s: string, p: string) {
    |p| <= |s| && s[..|p|] == p
  }

  /** `s.indexOf(pat)`: the index of the leftmost occurrence of `pat`, if any. */
  function IndexOf(s: string, pat: string): (r: Option<nat>)
    requires |pat| > 0
    ensures r.Some? ==> OccursAt(s, pat, r.value)
    ensures r.Some? ==> forall j :: 0 <= j < r.value ==> !OccursAt(s, pat, j)
    ensures r.None? ==> forall j :: !OccursAt(s, pat, j)
  {
    if |s| < |pat| then None
    else if s[..|pat|] == pat then Some(0)
    else
      var r := IndexOf(s[1..], pat);
      assert forall j :: 1 <= j ==> (OccursAt(s, pat, j) <==> OccursAt(s[1..], pat, j - 1)) by {
        forall j | 1 <= j ensures OccursAt(s, pat, j) <==> OccursAt(s[1..], pat, j - 1) {
          if j + |pat| <= |s| { TailSlice(s, j, j + |pat|); }
        }
      }
      assert !OccursAt(s, pat, 0);
      match r
      case None => None
      case Some(k) => Some(k + 1)
  }

  /** A slice of the tail is the slice of the whole shifted by one. */
  lemma TailSlice(s: string, a: nat, b: nat)
    requires 1 <= a <= b <= |s|
    ensures s[1..][a - 1..b - 1] == s[a..b]
  {
    forall i | 0 <= i < b - a ensures s[1..][a - 1..b - 1][i] == s[a..b][i] {
      assert s[1..][a - 1..b - 1][i] == s[1..][a - 1 + i] == s[a + i];
    }
  }

  /** An occurrence with no earlier character equal to the pattern's first is the leftmost one. */
  lemma IndexOfIs(s: string, pat: string, k: nat)
    requires |pat| > 0 && OccursAt(s, pat, k) && pat[0] !in s[..k]
    ensures IndexOf(s, pat) == Some(k)
  {
    forall j | 0 <= j < k ensures !OccursAt(s, pat, j) {
      if j + |pat| <= |s| {
        assert s[j..j + |pat|][0] == s[..k][j];
      }
    }
  }

  /** A string without the pattern's first character has no occurrence of it. */
  lemma IndexOfNone(s: string, pat: string)
    requires |pat| > 0 && pat[0] !in s
    ensures IndexOf(s, pat) == None
  {
    forall j | 0 <= j ensures !OccursAt(s, pat, j) {
      if j + |pat| <= |s| {
        assert s[j..j + |pat|][0] == s[j];
      }
    }
  }

  /** `s.replace(pat, '')`: the leftmost occurrence of `pat` removed, if there is one. */
  function RemoveFirst(s: string, pat: string): (r: string)
    requires |pat| > 0
    ensures r == s <==> forall j :: !OccursAt(s, pat, j)
    ensures r != s ==> |r| == |s| - |pat|
  {
    match IndexOf(s, pat)
    case None => s
    case Some(k) => s[..k] + s[k + |pat|..]
  }

  /** What `replace` removed can be put back: when the text changed, it is
      the result with `pat` inserted at the leftmost occurrence. */
  lemma RemoveFirstPutsBack(s: string, pat: string)
    requires |pat| > 0
    ensures var r := RemoveFirst(s, pat);
            r != s ==> exists k :: 0 <= k <= |r| && OccursAt(s, pat, k) && s == r[..k] + pat + r[k..]
                                   && forall j :: 0 <= j < k ==> !OccursAt(s, pat, j)
  {
    var r := RemoveFirst(s, pat);
    if IndexOf(s, pat).Some? {
      var k := IndexOf(s, pat).value;
      assert r[..k] == s[..k] && r[k..] == s[k + |pat|..];
      assert s == s[..k] + s[k..k + |pat|] + s[k + |pat|..];
    }
  }

  /** A string that starts with `pat` loses exactly that prefix. */
  lemma RemoveFirstOfPrefixed(pat: string, t: string)
    requires |pat| > 0
    ensures RemoveFirst(pat + t, pat) == t
  {
    assert OccursAt(pat + t, pat, 0);
  }

  /** A string in which `pat` does not occur is left alone. */
  lemma RemoveFirstAbsent(s: string, pat: string)
    requires |pat| > 0
    requires forall j :: !OccursAt(s, pat, j)
    ensures RemoveFirst(s, pat) == s
  {
  }

  /** Removing an occurrence takes out exactly `|pat|` characters. */
  lemma RemoveFirstLength(s: string, pat: string, k: nat)
    requires |pat| > 0 && OccursAt(s, pat, k)
    ensures |RemoveFirst(s, pat)| == |s| - |pat|
  {
  }

  /** No character of a digit string is a 't', so "tt" does not occur in it. */
  lemma DigitsHaveNoTt(d: string)
    requires AllDigits(d)
    ensures forall j :: !OccursAt(d, "tt", j)
  {
    forall j | 0 <= j ensures !OccursAt(d, "tt", j) {
      if j + 2 <= |d| {
        assert d[j..j + 2][0] == d[j] && IsDigit(d[j]);
      }
    }
  }

  /** `s.split(sep)` for a non-empty separator (section 22.1.3.23 of ECMA-262):
      the pieces between successive leftmost non-overlapping occurrences. */
  function Split(s: string, sep: string): (parts: seq<string>)
    requires |sep| > 0
    ensures |parts| >= 1
    decreases |s|
  {
    match IndexOf(s, sep)
    case None => [s]
    case Some(k) => [s[..k]] + Split(s[k + |sep|..], sep)
  }

  /** One step of a split at a known leftmost separator. */
  lemma SplitAt(s: string, sep: string, k: nat)
    requires |sep| > 0 && OccursAt(s, sep, k) && sep[0] !in s[..k]
    ensures Split(s, sep) == [s[..k]] + Split(s[k + |sep|..], sep)
  {
    IndexOfIs(s, sep, k);
  }

  /** `parts.join(sep)`. */
  function Join(parts: seq<string>, sep: string): string {
    if parts == [] then ""
    else if |parts| == 1 then parts[0]
    else parts[0] + sep + Join(parts[1..], sep)
  }

  /** Joining the pieces of a split with the separator gives the original string back. */
  lemma {:induction false} JoinSplit(s: string, sep: string)
    requires |sep| > 0
    ensures Join(Split(s, sep), sep) == s
    decreases |s|
  {
    var r := IndexOf(s, sep);
    if r.Some? {
      var k := r.value;
      var rest := s[k + |sep|..];
      JoinSplit(rest, sep);
      JoinCons(s[..k], Split(rest, sep), sep);
      Rejoin(s, sep, k);
    }
  }

  /** Joining a first piece in front of at least one more. */
  lemma JoinCons(head: string, tail: seq<string>, sep: string)
    requires |tail| >= 1
    ensures Join([head] + tail, sep) == head + sep + Join(tail, sep)
  {
    assert ([head] + tail)[1..] == tail;
  }

  /** A string is the text before an occurrence, the pattern, and the text after it. */
  lemma Rejoin(s: string, pat: string, k: nat)
    requires OccursAt(s, pat, k)
    ensures s == s[..k] + pat + s[k + |pat|..]
  {
    assert s == s[..k] + s[k..k + |pat|] + s[k + |pat|..];
  }

  /** Splitting pieces joined by a separator gives the pieces back, when no
      piece contains the separator's first character. */
  lemma {:induction false} SplitJoin(parts: seq<string>, sep: string)
    requires |parts| >= 1 && |sep| > 0
    requires forall i :: 0 <= i < |parts| ==> sep[0] !in parts[i]
    ensures Split(Join(parts, sep), sep) == parts
  {
    var s := Join(parts, sep);
    if |parts| == 1 {
      IndexOfNone(s, sep);
    } else {
      var k := |parts[0]|;
      var rest := Join(parts[1..], sep);
      assert s == parts[0] + sep + rest;
      assert s[..k] == parts[0];
      assert s[k..k + |sep|] == sep;
      assert s[k + |sep|..] == rest;
      SplitAt(s, sep, k);
      SplitJoin(parts[1..], sep);
    }
  }

  /** No piece of a split contains the separator. */
  lemma {:induction false} SplitPiecesAvoidSeparator(s: string, sep: string, i: nat)
    requires |sep| > 0
    requires i < |Split(s, sep)|
    ensures forall j :: !OccursAt(Split(s, sep)[i], sep, j)
    decreases |s|
  {
    match IndexOf(s, sep)
    case None =>
    case Some(k) =>
      if i == 0 {
        forall j | OccursAt(s[..k], sep, j) ensures false {
          assert s[..k][j..j + |sep|] == s[j..j + |sep|];
          assert OccursAt(s, sep, j);
        }
      } else {
        SplitPiecesAvoidSeparator(s[k + |sep|..], sep, i - 1);
      }
  }

  /** A string without the separator is a single piece. */
  lemma SplitWithout(s: string, sep: string)
    requires |sep| > 0
    requires forall j :: !OccursAt(s, sep, j)
    ensures Split(s, sep) == [s]
  {
  }

  /** `s.replace(/c/g, '')`: every `c` removed. */
  function RemoveAll(s: string, c: char): (r: string)
    ensures c !in r
    ensures |r| <= |s|
    ensures c !in s ==> r == s
  {
    if s == [] then []
    else (if s[0] == c then [] else [s[0]]) + RemoveAll(s[1..], c)
  }

  /** The characters other than `c` are kept, as often as they occur. With
      `RemoveAllAppend` this says the result is `s` with exactly its `c`s taken out. */
  lemma {:induction false} RemoveAllKeeps(s: string, c: char)
    ensures forall x :: x != c ==> multiset(RemoveAll(s, c))[x] == multiset(s)[x]
  {
    if s != [] {
      RemoveAllKeeps(s[1..], c);
      assert s == [s[0]] + s[1..];
    }
  }

  /** Removing distributes over concatenation, so the kept characters stay in order. */
  lemma {:induction false} RemoveAllAppend(a: string, b: string, c: char)
    ensures RemoveAll(a + b, c) == RemoveAll(a, c) + RemoveAll(b, c)
  {
    if a != [] {
      assert (a + b)[1..] == a[1..] + b;
      RemoveAllAppend(a[1..], b, c);
    } else {
      assert a + b == b;
    }
  }

  /** A single character is removed when it is `c` and kept otherwise. */
  lemma RemoveAllOne(x: char, c: char)
    ensures RemoveAll([x], c) == if x == c then [] else [x]
  {
    assert [x][1..] == [];
  }

  // ---------------------------------------------------------------------------
  // match(/\d+/)

  /** `s.match(/\d+/)`: the bounds `(i, j)` of the leftmost maximal run of
      decimal digits, or `None` when `s` has no digit. */
  function FirstDigitRun(s: string): (r: Option<(nat, nat)>)
    ensures r.None? <==> !HasDigit(s)
    ensures r.Some? ==> r.value.0 < r.value.1 <= |s|
    ensures r.Some? ==> AllDigits(s[r.value.0..r.value.1])
    ensures r.Some? ==> !HasDigit(s[..r.value.0])
    ensures r.Some? ==> r.value.1 == |s| || !IsDigit(s[r.value.1])
  {
    if s == [] then None
    else if IsDigit(s[0]) then
      assert HasDigit(s) by { assert IsDigit(s[0]); }
      var k := DigitPrefixLength(s, Decimal);
      assert k > 0 by { assert IsRadixDigit(s[0], Decimal); }
      assert s[..0] == [];
      Some((0, k))
    else
      var r := FirstDigitRun(s[1..]);
      HasDigitPastFirst(s);
      match r
      case None => None
      case Some((i, j)) =>
        DigitRunShifted(s, i, j);
        NoDigitBeforeShifted(s, i);
        Some((i + 1, j + 1))
  }

  /** Past a first character that is not a digit, a string has a digit exactly when its tail does. */
  lemma HasDigitPastFirst(s: string)
    requires |s| > 0 && !IsDigit(s[0])
    ensures HasDigit(s) <==> HasDigit(s[1..])
  {
    if HasDigit(s) {
      var i :| 0 <= i < |s| && IsDigit(s[i]);
      assert i > 0 && IsDigit(s[1..][i - 1]);
    }
    if HasDigit(s[1..]) {
      var i :| 0 <= i < |s[1..]| && IsDigit(s[1..][i]);
      assert IsDigit(s[i + 1]);
    }
  }

  /** A maximal digit run of the tail is a maximal digit run of the whole, one further on. */
  lemma DigitRunShifted(s: string, i: nat, j: nat)
    requires |s| > 0 && i < j <= |s| - 1
    requires AllDigits(s[1..][i..j]) && (j == |s| - 1 || !IsDigit(s[1..][j]))
    ensures AllDigits(s[i + 1..j + 1]) && (j + 1 == |s| || !IsDigit(s[j + 1]))
  {
    TailSlice(s, i + 1, j + 1);
    assert j + 1 == |s| || s[j + 1] == s[1..][j];
  }

  /** No digit before `i` in the tail, and none first, means none before `i + 1`. */
  lemma NoDigitBeforeShifted(s: string, i: nat)
    requires i < |s| && !IsDigit(s[0]) && !HasDigit(s[1..][..i])
    ensures !HasDigit(s[..i + 1])
  {
    var before := s[..i + 1];
    forall x | 0 <= x < |before| ensures !IsDigit(before[x]) {
      if x > 0 {
        assert before[x] == s[1..][..i][x - 1];
      }
    }
  }
}
