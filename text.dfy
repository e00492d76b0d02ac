/**
  The .NET string operations the provider relies on, written out on `seq<char>`:
  joining and splitting on a separator, `String.Trim()`, `ToLower()`, the
  decimal rendering of an integer and `Convert.ToInt32(string)`.
 */
module Text {
  import opened Wrappers

  // ---------------------------------------------------------------------------
  // Joining and splitting on a one-character separator
  // ---------------------------------------------------------------------------

  /** The items separated by `sep`, with no separator before the first or after the last. */
  function Join(items: seq<string>, sep: char): string
    requires |items| > 0
  {
    if |items| == 1 then items[0] else items[0] + [sep] + Join(items[1..], sep)
  }

  /** Position of the first `sep` in `s`, or `|s|` when there is none. */
  function IndexOf(s: string, sep: char): (i: nat)
    ensures i <= |s|
    ensures sep !in s[..i]
    ensures i < |s| ==> s[i] == sep
  {
    if |s| == 0 then 0
    else if s[0] == sep then 0
    else
      assert s[1..][..IndexOf(s[1..], sep)] == s[1..1 + IndexOf(s[1..], sep)];
      1 + IndexOf(s[1..], sep)
  }

  /** `s.Split(sep, StringSplitOptions.None)`: every piece, empty ones included. */
  function Split(s: string, sep: char): (pieces: seq<string>)
    ensures |pieces| >= 1
    ensures forall k :: 0 <= k < |pieces| ==> sep !in pieces[k]
    ensures Join(pieces, sep) == s
    decreases |s|
  {
    var i := IndexOf(s, sep);
    if i == |s| then
      assert s[..i] == s;
      [s]
    else
      var rest := Split(s[i + 1..], sep);
      assert ([s[..i]] + rest)[1..] == rest;
      assert s == s[..i] + [sep] + s[i + 1..];
      [s[..i]] + rest
  }

  /** `s.Split(sep)[0]`: the text before the first `sep`, or all of `s`. */
  function FirstPiece(s: string, sep: char): (r: string)
    ensures sep !in r
    ensures r <= s
    ensures r == s <==> sep !in s
    ensures |r| < |s| ==> s[|r|] == sep
  {
    var i := IndexOf(s, sep);
    assert s[..|s|] == s;
    Split(s, sep)[0]
  }

  function SumOfLengths(items: seq<string>): nat
  {
    if items == [] then 0 else |items[0]| + SumOfLengths(items[1..])
  }

  /** The joined text holds every character of every item and one separator between neighbours. */
  lemma {:induction false} JoinLength(items: seq<string>, sep: char)
    requires |items| > 0
    ensures |Join(items, sep)| == SumOfLengths(items) + |items| - 1
  {
    if |items| > 1 {
      JoinLength(items[1..], sep);
    }
  }

  /** Splitting a joined list on the same separator gives the list back,
      provided no item contains the separator; hence `Join` is injective on such lists. */
  lemma {:induction false} SplitJoin(items: seq<string>, sep: char)
    requires |items| > 0
    requires forall k :: 0 <= k < |items| ==> sep !in items[k]
    ensures Split(Join(items, sep), sep) == items
  {
    if |items| == 1 {
      NoSepIndex(items[0], sep);
    } else {
      var j := Join(items, sep);
      var rest := Join(items[1..], sep);
      assert j == items[0] + [sep] + rest;
      IndexAfterPrefix(items[0], sep, rest);
      assert j[..|items[0]|] == items[0];
      assert j[|items[0]| + 1..] == rest;
      SplitJoin(items[1..], sep);
    }
  }

  /** Appending one more item appends one separator and the item. */
  lemma {:induction false} JoinSnoc(items: seq<string>, x: string, sep: char)
    requires |items| > 0
    ensures Join(items + [x], sep) == Join(items, sep) + [sep] + x
  {
    if |items| > 1 {
      assert (items + [x])[1..] == items[1..] + [x];
      JoinSnoc(items[1..], x, sep);
    }
  }

  lemma {:induction false} NoSepIndex(s: string, sep: char)
    requires sep !in s
    ensures IndexOf(s, sep) == |s|
  {
    if |s| > 0 {
      assert s[0] in s;
      assert forall c :: c in s[1..] ==> c in s;
      NoSepIndex(s[1..], sep);
    }
  }

  lemma {:induction false} IndexAfterPrefix(a: string, sep: char, b: string)
    requires sep !in a
    ensures IndexOf(a + [sep] + b, sep) == |a|
  {
    if |a| > 0 {
      assert a[0] in a;
      assert forall c :: c in a[1..] ==> c in a;
      assert (a + [sep] + b)[1..] == a[1..] + [sep] + b;
      IndexAfterPrefix(a[1..], sep, b);
    }
  }

  /** Regrouping a four-part concatenation; stated once so that callers need not
      reason about sequence extensionality. */
  lemma Regroup(a: string, b: string, c: string, d: string)
    ensures a + b + c + d == a + (b + (c + d))
  {
  }

  lemma Unwrapped(s: string)
    ensures "" + s + "" == s
  {
  }

  lemma MiddleGroup(a: string, b: string, c: string, d: string)
    ensures a + b + c + d == a + (b + c) + d
  {
  }

  // ---------------------------------------------------------------------------
  // String.Trim() and ToLower()
  // ---------------------------------------------------------------------------

  /** `Char.IsWhiteSpace`: U+0009..U+000D, U+0085 and the Unicode space separators. */
  predicate IsWhiteSpace(c: char): (b: bool)
    ensures IsNumberWhite(c) ==> b
    ensures b ==> !IsDigit(c) && c != '+' && c != '-'
  {
    || '\U{0009}' <= c <= '\U{000D}'
    || c == ' ' || c == '\U{0085}' || c == '\U{00A0}' || c == '\U{1680}'
    || '\U{2000}' <= c <= '\U{200A}'
    || c == '\U{2028}' || c == '\U{2029}' || c == '\U{202F}' || c == '\U{205F}' || c == '\U{3000}'
  }

  /** `s` without its leading characters that satisfy `white`. */
  function TrimStart(s: string, white: char -> bool): (r: string)
    ensures |r| <= |s| && r == s[|s| - |r|..]
    ensures r == [] || !white(r[0])
    ensures forall k :: 0 <= k < |s| - |r| ==> white(s[k])
  {
    if |s| > 0 && white(s[0]) then
      var r := TrimStart(s[1..], white);
      assert forall k :: 1 <= k < |s| - |r| ==> s[k] == s[1..][k - 1];
      r
    else s
  }

  /** `s` without its trailing characters that satisfy `white`. */
  function TrimEnd(s: string, white: char -> bool): (r: string)
    ensures r <= s
    ensures r == [] || !white(r[|r| - 1])
    ensures forall k :: |r| <= k < |s| ==> white(s[k])
  {
    if |s| > 0 && white(s[|s| - 1]) then TrimEnd(s[..|s| - 1], white) else s
  }

  /** How many characters trimming the start of `s` removes. */
  function LeadingRun(s: string, white: char -> bool): nat
  {
    |s| - |TrimStart(s, white)|
  }

  /** `r` is the slice of `s` starting at `i`, and every character of `s` outside it satisfies `white`. */
  predicate CutFrom(s: string, i: int, r: string, white: char -> bool)
  {
    && 0 <= i <= |s| - |r| && r <= s[i..]
    && (forall k :: 0 <= k < i ==> white(s[k]))
    && (forall k :: i + |r| <= k < |s| ==> white(s[k]))
  }

  /** Trimming both ends: a slice of `s` that neither starts nor ends with a `white` character,
      all of whose surroundings are `white`. */
  function TrimBoth(s: string, white: char -> bool): (r: string)
    ensures CutFrom(s, LeadingRun(s, white), r, white)
    ensures r == [] || (!white(r[0]) && !white(r[|r| - 1]))
    ensures |s| > 0 && !white(s[0]) && !white(s[|s| - 1]) ==> r == s
  {
    TrimsCut(s, white);
    TrimEnd(TrimStart(s, white), white)
  }

  /** Trimming the start and then the end cuts a slice out of `s` with only `white` around it. */
  lemma TrimsCut(s: string, white: char -> bool)
    ensures CutFrom(s, LeadingRun(s, white), TrimEnd(TrimStart(s, white), white), white)
  {
    var t := TrimStart(s, white);
    var r := TrimEnd(t, white);
    var i := |s| - |t|;
    forall k | i + |r| <= k < |s|
      ensures white(s[k])
    {
      assert s[k] == t[k - i];
    }
  }

  /** `s.Trim()`: `s` without its leading and trailing white space, and nothing else removed. */
  function Trim(s: string): (r: string)
    ensures CutFrom(s, LeadingRun(s, IsWhiteSpace), r, IsWhiteSpace)
    ensures r == [] || (!IsWhiteSpace(r[0]) && !IsWhiteSpace(r[|r| - 1]))
    ensures |s| > 0 && !IsWhiteSpace(s[0]) && !IsWhiteSpace(s[|s| - 1]) ==> r == s
  {
    TrimBoth(s, IsWhiteSpace)
  }

  /** Trimming twice is trimming once. */
  lemma TrimIdempotent(s: string)
    ensures Trim(Trim(s)) == Trim(s)
  {
    var t := Trim(s);
    if t != [] {
      assert !IsWhiteSpace(t[0]) && !IsWhiteSpace(t[|t| - 1]);
    }
  }

  /** Characters satisfying `white` in front of a text that does not start with one are all
      that trimming the start removes. */
  lemma {:induction false} TrimStartPadded(w: string, x: string, white: char -> bool)
    requires forall k :: 0 <= k < |w| ==> white(w[k])
    requires x == [] || !white(x[0])
    ensures TrimStart(w + x, white) == x
  {
    if |w| > 0 {
      assert (w + x)[1..] == w[1..] + x;
      TrimStartPadded(w[1..], x, white);
    }
  }

  lemma {:induction false} TrimEndPadded(x: string, w: string, white: char -> bool)
    requires forall k :: 0 <= k < |w| ==> white(w[k])
    requires x == [] || !white(x[|x| - 1])
    ensures TrimEnd(x + w, white) == x
  {
    if |w| > 0 {
      assert (x + w)[..|x + w| - 1] == x + w[..|w| - 1];
      TrimEndPadded(x, w[..|w| - 1], white);
    }
  }

  /** Trimming a text padded on both sides by `white` characters gives the text back,
      provided it neither starts nor ends with one. */
  lemma TrimBothPadded(w1: string, x: string, w2: string, white: char -> bool)
    requires forall k :: 0 <= k < |w1| ==> white(w1[k])
    requires forall k :: 0 <= k < |w2| ==> white(w2[k])
    requires |x| > 0 && !white(x[0]) && !white(x[|x| - 1])
    ensures TrimBoth(w1 + x + w2, white) == x
  {
    assert w1 + x + w2 == w1 + (x + w2);
    assert (x + w2)[0] == x[0];
    TrimStartPadded(w1, x + w2, white);
    TrimEndPadded(x, w2, white);
  }

  function LowerChar(c: char): char
  {
    if 'A' <= c <= 'Z' then (c as int + 32) as char else c
  }

  /** `s.ToLower()` on the ASCII letters; every other character is kept. */
  function Lower(s: string): (r: string)
    ensures |r| == |s|
    ensures forall k :: 0 <= k < |s| ==> r[k] == LowerChar(s[k])
  {
    seq(|s|, k requires 0 <= k < |s| => LowerChar(s[k]))
  }

  // ---------------------------------------------------------------------------
  // Decimal integers: ToString() and Convert.ToInt32(string)
  // ---------------------------------------------------------------------------

  const MinInt32: int := -0x8000_0000
  const MaxInt32: int := 0x7FFF_FFFF

  predicate IsDigit(c: char) { '0' <= c <= '9' }

  predicate AllDigits(s: string) { forall k :: 0 <= k < |s| ==> IsDigit(s[k]) }

  /** The value of a string of decimal digits, most significant first. */
  function DigitsValue(s: string): nat
    requires AllDigits(s)
  {
    if s == [] then 0 else DigitsValue(s[..|s| - 1]) * 10 + (s[|s| - 1] as int - '0' as int)
  }

  /** The decimal digits of `n`, with no leading zero. */
  function NatToString(n: nat): (s: string)
    ensures |s| > 0 && AllDigits(s)
    ensures s[0] == '0' ==> n == 0
  {
    if n < 10 then [('0' as int + n) as char]
    else NatToString(n / 10) + [('0' as int + n % 10) as char]
  }

  /** `n.ToString()` for an integer: an optional minus sign and the decimal digits. */
  function IntToString(n: int): (s: string)
    ensures n >= 0 ==> AllDigits(s) && |s| > 0
    ensures n < 0 ==> |s| > 1 && s[0] == '-' && AllDigits(s[1..])
  {
    if n < 0 then "-" + NatToString(-n) else NatToString(n)
  }

  /** The white space `NumberStyles.Integer` allows around a number: U+0009..U+000D and U+0020. */
  predicate IsNumberWhite(c: char)
  {
    c == ' ' || '\U{0009}' <= c <= '\U{000D}'
  }

  /** The number with the white space around it removed. */
  function StripNumberWhite(s: string): (r: string)
    ensures CutFrom(s, LeadingRun(s, IsNumberWhite), r, IsNumberWhite)
    ensures r == [] || (!IsNumberWhite(r[0]) && !IsNumberWhite(r[|r| - 1]))
    ensures |s| > 0 && !IsNumberWhite(s[0]) && !IsNumberWhite(s[|s| - 1]) ==> r == s
  {
    TrimBoth(s, IsNumberWhite)
  }

  /** `Convert.ToInt32(s)`: optional white space, an optional `+` or `-`, at least one
      decimal digit, optional white space, and a value inside the 32-bit range.
      `None` stands for the FormatException or OverflowException the call throws. */
  function ParseInt32(s: string): (r: Option<int>)
    ensures r.Some? ==> MinInt32 <= r.value <= MaxInt32 && |s| > 0
  {
    ParseSigned(StripNumberWhite(s))
  }

  /** The number once the white space around it is gone: an optional sign and the digits. */
  function ParseSigned(t: string): (r: Option<int>)
    ensures r.Some? ==> MinInt32 <= r.value <= MaxInt32 && |t| > 0
  {
    var negative := |t| > 0 && t[0] == '-';
    var digits := if |t| > 0 && (t[0] == '-' || t[0] == '+') then t[1..] else t;
    if |digits| == 0 || !AllDigits(digits) then None
    else
      var magnitude: int := DigitsValue(digits);
      var v := if negative then -magnitude else magnitude;
      if MinInt32 <= v <= MaxInt32 then Some(v) else None
  }

  lemma {:induction false} DigitsOfNat(n: nat)
    ensures DigitsValue(NatToString(n)) == n
  {
    var s := NatToString(n);
    if n >= 10 {
      DigitsOfNat(n / 10);
      assert s[..|s| - 1] == NatToString(n / 10);
    }
  }

  /** Parsing the decimal rendering of a 32-bit integer gives the integer back. */
  lemma ParseIntToString(n: int)
    requires MinInt32 <= n <= MaxInt32
    ensures ParseInt32(IntToString(n)) == Some(n)
  {
    Unwrapped(IntToString(n));
    ParsePaddedIntToString("", n, "");
  }

  /** The characters `Convert.ToInt32` can accept at all: digits, signs and number white space. */
  predicate NumberChar(c: char)
  {
    IsDigit(c) || c == '+' || c == '-' || IsNumberWhite(c)
  }

  /** A line holding any other character, a letter or a punctuation mark say, does not parse. */
  lemma ParseRejectsStray(s: string, k: int)
    requires 0 <= k < |s| && !NumberChar(s[k])
    ensures ParseInt32(s) == None
  {
    CutRejectsStray(s, LeadingRun(s, IsNumberWhite), StripNumberWhite(s), k);
  }

  /** The same for any slice cut out of the line with number white space around it. */
  lemma CutRejectsStray(s: string, i: int, t: string, k: int)
    requires CutFrom(s, i, t, IsNumberWhite)
    requires 0 <= k < |s| && !NumberChar(s[k])
    ensures ParseSigned(t) == None
  {
    CutHolds(s, i, t, IsNumberWhite, k);
    SignedRejectsStray(t, k - i);
  }

  /** A character that is not `white` lies inside the cut slice. */
  lemma CutHolds(s: string, i: int, r: string, white: char -> bool, k: int)
    requires CutFrom(s, i, r, white)
    requires 0 <= k < |s| && !white(s[k])
    ensures i <= k < i + |r| && r[k - i] == s[k]
  {
    assert r == s[i..][..|r|];
  }

  /** A stripped number fails as soon as it holds a character that is not a digit, save for a
      sign in first place: a letter, white space between digits or a second sign. */
  lemma SignedRejectsStray(t: string, j: int)
    requires 0 <= j < |t| && !IsDigit(t[j]) && (j == 0 ==> t[j] != '+' && t[j] != '-')
    ensures ParseSigned(t) == None
  {
    var digits := if |t| > 0 && (t[0] == '-' || t[0] == '+') then t[1..] else t;
    if digits == t {
      assert !IsDigit(digits[j]);
    } else {
      assert j > 0 && digits[j - 1] == t[j];
    }
  }

  /** A line of white space only, the empty line included, does not parse. */
  lemma ParseRejectsBlank(s: string)
    requires forall k :: 0 <= k < |s| ==> IsNumberWhite(s[k])
    ensures ParseInt32(s) == None
  {
    var t := StripNumberWhite(s);
    var i := LeadingRun(s, IsNumberWhite);
  }

  /** What `Convert.ToInt32` reads from white space, an optional sign, digits (leading zeros
      allowed) and white space: the signed value when it fits in 32 bits, an exception otherwise. */
  lemma ParseSignedDigits(w1: string, sign: string, digits: string, w2: string)
    requires forall k :: 0 <= k < |w1| ==> IsNumberWhite(w1[k])
    requires forall k :: 0 <= k < |w2| ==> IsNumberWhite(w2[k])
    requires sign == "" || sign == "+" || sign == "-"
    requires |digits| > 0 && AllDigits(digits)
    ensures var v := if sign == "-" then -(DigitsValue(digits) as int) else DigitsValue(digits);
      ParseInt32(w1 + sign + digits + w2) == if MinInt32 <= v <= MaxInt32 then Some(v) else None
  {
    var core := sign + digits;
    MiddleGroup(w1, sign, digits, w2);
    assert core[|core| - 1] == digits[|digits| - 1];
    assert core[0] == if sign == "" then digits[0] else sign[0];
    TrimBothPadded(w1, core, w2, IsNumberWhite);
    assert StripNumberWhite(w1 + sign + digits + w2) == core;
    SignedDigits(sign, digits);
  }

  lemma SignedDigits(sign: string, digits: string)
    requires sign == "" || sign == "+" || sign == "-"
    requires |digits| > 0 && AllDigits(digits)
    ensures var v := if sign == "-" then -(DigitsValue(digits) as int) else DigitsValue(digits);
      ParseSigned(sign + digits) == if MinInt32 <= v <= MaxInt32 then Some(v) else None
  {
    var core := sign + digits;
    if sign == "" {
      assert core == digits && IsDigit(core[0]);
    } else {
      assert core[0] == sign[0] && core[1..] == digits;
    }
  }

  /** The sign and the digits a successful parse of a stripped number read. */
  lemma SignedShape(t: string) returns (sign: string, digits: string)
    requires ParseSigned(t).Some?
    ensures sign == "" || sign == "+" || sign == "-"
    ensures |digits| > 0 && AllDigits(digits)
    ensures t == sign + digits
    ensures ParseSigned(t) == Some(if sign == "-" then -(DigitsValue(digits) as int) else DigitsValue(digits))
  {
    if t[0] == '-' || t[0] == '+' {
      sign, digits := t[..1], t[1..];
      assert t == sign + digits;
    } else {
      sign, digits := "", t;
      assert t == sign + digits;
    }
  }

  /** A cut slice splits its text into the part before it, the slice and the part after it,
      and both parts are made of `white` characters. */
  lemma CutPieces(s: string, i: int, r: string, white: char -> bool) returns (before: string, after: string)
    requires CutFrom(s, i, r, white)
    ensures s == before + r + after
    ensures forall k :: 0 <= k < |before| ==> white(before[k])
    ensures forall k :: 0 <= k < |after| ==> white(after[k])
  {
    before, after := s[..i], s[i + |r|..];
    assert s[i..][..|r|] == r;
    assert s == before + s[i..][..|r|] + after;
    assert forall k :: 0 <= k < |after| ==> after[k] == s[i + |r| + k];
  }

  /** The converse of `ParseSignedDigits`: text `Convert.ToInt32` accepts is number white space,
      an optional sign, a non-empty run of digits and number white space, and the value read is
      the signed value of those digits. So `"+"`, `"-"`, `"1 2"`, `"--5"` or `"5-"` do not parse. */
  lemma ParsedShape(s: string) returns (w1: string, sign: string, digits: string, w2: string)
    requires ParseInt32(s).Some?
    ensures s == w1 + sign + digits + w2
    ensures forall k :: 0 <= k < |w1| ==> IsNumberWhite(w1[k])
    ensures forall k :: 0 <= k < |w2| ==> IsNumberWhite(w2[k])
    ensures sign == "" || sign == "+" || sign == "-"
    ensures |digits| > 0 && AllDigits(digits)
    ensures ParseInt32(s) == Some(if sign == "-" then -(DigitsValue(digits) as int) else DigitsValue(digits))
  {
    var t := StripNumberWhite(s);
    w1, w2 := CutPieces(s, LeadingRun(s, IsNumberWhite), t, IsNumberWhite);
    sign, digits := SignedShape(t);
    MiddleGroup(w1, sign, digits, w2);
  }

  /** Lines made only of digits, signs and number white space can still fail: a sign alone,
      two numbers, a doubled sign or a trailing sign. */
  lemma MalformedNumbers()
    ensures ParseInt32("+") == None && ParseInt32("-") == None
    ensures ParseInt32("1 2") == None && ParseInt32("--5") == None && ParseInt32("5-") == None
  {
    Unpadded("+");
    Unpadded("-");
    Unpadded("1 2");
    SignedRejectsStray("1 2", 1);
    Unpadded("--5");
    SignedRejectsStray("--5", 1);
    Unpadded("5-");
    SignedRejectsStray("5-", 1);
  }

  /** Text that neither starts nor ends with number white space is parsed as it stands. */
  lemma Unpadded(s: string)
    requires |s| > 0 && !IsNumberWhite(s[0]) && !IsNumberWhite(s[|s| - 1])
    ensures ParseInt32(s) == ParseSigned(s)
  {
  }

  /** The decimal rendering of a 32-bit integer, with number white space around it (the `\r`
      of a CRLF line, say), parses to that integer. */
  lemma ParsePaddedIntToString(w1: string, n: int, w2: string)
    requires forall k :: 0 <= k < |w1| ==> IsNumberWhite(w1[k])
    requires forall k :: 0 <= k < |w2| ==> IsNumberWhite(w2[k])
    requires MinInt32 <= n <= MaxInt32
    ensures ParseInt32(w1 + IntToString(n) + w2) == Some(n)
  {
    var m: nat := if n < 0 then -n else n;
    var sign := if n < 0 then "-" else "";
    var d := NatToString(m);
    assert w1 + IntToString(n) + w2 == w1 + sign + d + w2 by {
      assert IntToString(n) == sign + d by {
        if n >= 0 {
          assert sign + d == d;
        }
      }
      assert w1 + (sign + d) == w1 + sign + d;
    }
    assert ParseInt32(w1 + sign + d + w2) == Some(n) by {
      DigitsOfNat(m);
      assert (if sign == "-" then -(DigitsValue(d) as int) else DigitsValue(d)) == n;
      ParseSignedDigits(w1, sign, d, w2);
    }
  }

  lemma IntToStringHasNoSeparator(n: int, sep: char)
    requires !IsDigit(sep) && sep != '-'
    ensures sep !in IntToString(n)
  {
    var s := IntToString(n);
    var d := NatToString(if n < 0 then -n else n);
    assert forall k :: 0 <= k < |d| ==> d[k] != sep;
    assert forall k :: 0 <= k < |s| ==> s[k] != sep;
  }
}
