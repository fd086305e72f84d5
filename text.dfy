/** String operations the capture pipeline uses on device lines, with Python's semantics:
    `str.split(sep)` on one separator character, `in` on substrings, `str.startswith`,
    `str.isdigit()`, `str.strip()`, `int(...)` and `float(...)` on text, and `str(n)` of an
    integer. Whitespace is every character `str.isspace()` accepts; only ASCII digits are
    modelled. */
module Text {
  import opened Wrappers

  // ---------------------------------------------------------------------------
  // Splitting and joining on one separator character
  // ---------------------------------------------------------------------------

  /** `s.split(sep)`: every occurrence of `sep` separates two fields; empty fields are kept,
      so the result always has at least one element. */
  function Split(s: string, sep: char): (r: seq<string>)
    ensures |r| >= 1
    decreases |s|
  {
    if |s| == 0 then [""]
    else
      var rest := Split(s[1..], sep);
      if s[0] == sep then [""] + rest
      else [[s[0]] + rest[0]] + rest[1..]
  }

  /** `sep.join(parts)`. */
  function Join(parts: seq<string>, sep: char): string
    decreases |parts|
  {
    if |parts| == 0 then ""
    else if |parts| == 1 then parts[0]
    else parts[0] + [sep] + Join(parts[1..], sep)
  }

  /** The number of occurrences of `c` in `s`. */
  function Occurrences(s: string, c: char): nat
    decreases |s|
  {
    if |s| == 0 then 0 else (if s[0] == c then 1 else 0) + Occurrences(s[1..], c)
  }

  /** Joining the fields of a split gives the line back. */
  lemma {:induction false} JoinOfSplit(s: string, sep: char)
    ensures Join(Split(s, sep), sep) == s
    decreases |s|
  {
    if |s| > 0 {
      var rest := Split(s[1..], sep);
      JoinOfSplit(s[1..], sep);
      if s[0] == sep {
        assert Split(s, sep) == [""] + rest;
        assert ([""] + rest)[1..] == rest;
      } else {
        var r := Split(s, sep);
        assert r == [[s[0]] + rest[0]] + rest[1..];
        if |rest| == 1 {
          assert r == [[s[0]] + rest[0]];
        } else {
          assert r[1..] == rest[1..];
          assert Join(rest, sep) == rest[0] + [sep] + Join(rest[1..], sep);
          assert Join(r, sep) == [s[0]] + rest[0] + [sep] + Join(rest[1..], sep);
        }
        assert s == [s[0]] + s[1..];
      }
    }
  }

  /** No field of a split contains the separator. */
  lemma {:induction false} SplitFieldsAreFree(s: string, sep: char)
    ensures forall k :: 0 <= k < |Split(s, sep)| ==> sep !in Split(s, sep)[k]
    decreases |s|
  {
    if |s| > 0 {
      SplitFieldsAreFree(s[1..], sep);
      var rest := Split(s[1..], sep);
      if s[0] != sep {
        var r := Split(s, sep);
        forall k | 0 <= k < |r| ensures sep !in r[k] {
          if k == 0 {
            assert r[0] == [s[0]] + rest[0];
            assert sep !in rest[0];
          } else {
            assert r[k] == rest[k];
          }
        }
      }
    }
  }

  /** A line with `n` separators splits into `n + 1` fields. */
  lemma {:induction false} SplitCount(s: string, sep: char)
    ensures |Split(s, sep)| == Occurrences(s, sep) + 1
    decreases |s|
  {
    if |s| > 0 {
      SplitCount(s[1..], sep);
    }
  }

  /** Splitting prepended text that holds no separator extends the first field only. */
  lemma {:induction false} SplitPrefix(a: string, s: string, sep: char)
    requires sep !in a
    ensures Split(a + s, sep) == [a + Split(s, sep)[0]] + Split(s, sep)[1..]
    decreases |a|
  {
    if |a| > 0 {
      var r, t := Split(s, sep), a[1..] + s;
      assert a + s == [a[0]] + t;
      SplitPrefix(a[1..], s, sep);
      var u := Split(t, sep);
      assert u[0] == a[1..] + r[0] && u[1..] == r[1..];
      SplitCons(a[0], t, sep);
      assert [a[0]] + (a[1..] + r[0]) == a + r[0];
    } else {
      assert a + s == s;
      var r := Split(s, sep);
      assert a + r[0] == r[0];
      assert r == [r[0]] + r[1..];
    }
  }

  /** A leading character other than the separator joins the first field. */
  lemma SplitCons(c: char, t: string, sep: char)
    requires c != sep
    ensures Split([c] + t, sep) == [[c] + Split(t, sep)[0]] + Split(t, sep)[1..]
  {
    assert ([c] + t)[1..] == t;
  }

  /** Fields that hold no separator are recovered exactly by splitting their join. */
  lemma {:induction false} SplitOfJoin(parts: seq<string>, sep: char)
    requires |parts| >= 1
    requires forall k :: 0 <= k < |parts| ==> sep !in parts[k]
    ensures Split(Join(parts, sep), sep) == parts
    decreases |parts|
  {
    if |parts| == 1 {
      SplitPrefix(parts[0], "", sep);
      assert parts[0] + "" == parts[0];
    } else {
      var tail := Join(parts[1..], sep);
      SplitOfJoin(parts[1..], sep);
      assert Join(parts, sep) == parts[0] + ([sep] + tail);
      SplitPrefix(parts[0], [sep] + tail, sep);
      assert ([sep] + tail)[1..] == tail;
      assert Split([sep] + tail, sep) == [""] + parts[1..];
      assert parts[0] + "" == parts[0];
    }
  }

  // ---------------------------------------------------------------------------
  // Substrings and prefixes
  // ---------------------------------------------------------------------------

  /** `prefix` is an initial segment of `s` (`s.startswith(prefix)`). */
  predicate StartsWith(s: string, prefix: string)
  {
    |prefix| <= |s| && s[..|prefix|] == prefix
  }

  /** `sub in s` for strings. */
  predicate Contains(s: string, sub: string)
    decreases |s|
  {
    StartsWith(s, sub) || (|s| > 0 && Contains(s[1..], sub))
  }

  /** `Contains` means that `sub` occurs at some position of `s`. */
  lemma {:induction false} ContainsAt(s: string, sub: string, i: nat)
    requires i + |sub| <= |s| && s[i..i + |sub|] == sub
    ensures Contains(s, sub)
    decreases i
  {
    if i > 0 {
      assert s[1..][i - 1..i - 1 + |sub|] == s[i..i + |sub|];
      ContainsAt(s[1..], sub, i - 1);
    }
  }

  /** Text in which the character `c` does not occur contains no string that has `c`. */
  lemma {:induction false} NotContainsAbsent(s: string, sub: string, c: char)
    requires forall j :: 0 <= j < |s| ==> s[j] != c
    requires c in sub
    ensures !Contains(s, sub)
    decreases |s|
  {
    var i :| 0 <= i < |sub| && sub[i] == c;
    if |sub| <= |s| {
      assert s[..|sub|][i] == s[i];
    }
    if |s| > 0 {
      NotContainsAbsent(s[1..], sub, c);
    }
  }

  /** A prefix is a substring. */
  lemma PrefixIsContained(s: string, prefix: string)
    requires StartsWith(s, prefix)
    ensures Contains(s, prefix)
  {
  }

  // ---------------------------------------------------------------------------
  // Decimal digits
  // ---------------------------------------------------------------------------

  predicate IsDigit(c: char)
  {
    '0' <= c <= '9'
  }

  /** `s.isdigit()` for ASCII text: non-empty and made of digits only. */
  predicate IsDigits(s: string)
  {
    |s| > 0 && forall k :: 0 <= k < |s| ==> IsDigit(s[k])
  }

  function DigitValue(c: char): (d: nat)
    requires IsDigit(c)
    ensures d < 10
  {
    (c as int - '0' as int) as nat
  }

  function DigitChar(d: nat): (c: char)
    requires d < 10
    ensures IsDigit(c) && DigitValue(c) == d
  {
    ('0' as int + d) as char
  }

  /** The number written by a string of digits, most significant first. */
  function DigitsValue(s: string): nat
    requires forall k :: 0 <= k < |s| ==> IsDigit(s[k])
    decreases |s|
  {
    if |s| == 0 then 0 else DigitsValue(s[..|s| - 1]) * 10 + DigitValue(s[|s| - 1])
  }

  /** `str(n)` for a natural number: shortest decimal spelling. */
  function NatToString(n: nat): (s: string)
    ensures IsDigits(s)
    decreases n
  {
    if n < 10 then [DigitChar(n)] else NatToString(n / 10) + [DigitChar(n % 10)]
  }

  /** `str(n)` for any integer. */
  function IntToString(n: int): string
  {
    if n < 0 then "-" + NatToString(-n) else NatToString(n)
  }

  /** Reading back the decimal spelling of `n` gives `n`. */
  lemma {:induction false} DigitsValueOfNatToString(n: nat)
    ensures DigitsValue(NatToString(n)) == n
    decreases n
  {
    if n >= 10 {
      DigitsValueOfNatToString(n / 10);
      var s := NatToString(n);
      assert s[..|s| - 1] == NatToString(n / 10);
    }
  }

  // ---------------------------------------------------------------------------
  // Python's strip(), int() and float() on text
  // ---------------------------------------------------------------------------

  /** The characters `str.isspace()` accepts, which `str.strip()`, `int()` and `float()`
      remove: the ASCII controls \t, \n, \v, \f, \r and U+001C to U+001F, the space,
      U+0085, U+00A0, U+1680, U+2000 to U+200A, U+2028, U+2029, U+202F, U+205F and U+3000. */
  predicate IsSpace(c: char)
  {
    || ('\U{0009}' <= c <= '\U{000D}')
    || ('\U{001C}' <= c <= '\U{0020}')
    || c == '\U{0085}' || c == '\U{00A0}' || c == '\U{1680}'
    || ('\U{2000}' <= c <= '\U{200A}')
    || c == '\U{2028}' || c == '\U{2029}' || c == '\U{202F}' || c == '\U{205F}' || c == '\U{3000}'
  }

  /** `s.lstrip()`. */
  function StripLeft(s: string): (r: string)
    ensures |r| == 0 || !IsSpace(r[0])
    decreases |s|
  {
    if |s| > 0 && IsSpace(s[0]) then StripLeft(s[1..]) else s
  }

  /** `s.rstrip()`. */
  function StripRight(s: string): (r: string)
    ensures |r| == 0 || !IsSpace(r[|r| - 1])
    decreases |s|
  {
    if |s| > 0 && IsSpace(s[|s| - 1]) then StripRight(s[..|s| - 1]) else s
  }

  /** `s.strip()`. */
  function Strip(s: string): string
  {
    StripRight(StripLeft(s))
  }

  /** `lstrip()` removes exactly a run of leading whitespace: what is left is a suffix, and
      everything before it is whitespace. */
  lemma {:induction false} StripLeftRemovesSpace(s: string)
    ensures |StripLeft(s)| <= |s| && StripLeft(s) == s[|s| - |StripLeft(s)|..]
    ensures forall i :: 0 <= i < |s| - |StripLeft(s)| ==> IsSpace(s[i])
    decreases |s|
  {
    if |s| > 0 && IsSpace(s[0]) {
      StripLeftRemovesSpace(s[1..]);
    }
  }

  /** `rstrip()` removes exactly a run of trailing whitespace: what is left is a prefix, and
      everything after it is whitespace. */
  lemma {:induction false} StripRightRemovesSpace(s: string)
    ensures |StripRight(s)| <= |s| && StripRight(s) == s[..|StripRight(s)|]
    ensures forall i :: |StripRight(s)| <= i < |s| ==> IsSpace(s[i])
    decreases |s|
  {
    if |s| > 0 && IsSpace(s[|s| - 1]) {
      StripRightRemovesSpace(s[..|s| - 1]);
    }
  }

  /** `int(s)` for text: surrounding whitespace, an optional sign and at least one digit;
      `None` where Python raises ValueError. */
  function ParseInt(s: string): (r: Option<int>)
  {
    var t := Strip(s);
    if |t| > 0 && (t[0] == '-' || t[0] == '+') then
      if IsDigits(t[1..]) then
        var v: int := DigitsValue(t[1..]);
        Some(if t[0] == '-' then -v else v)
      else None
    else if IsDigits(t) then Some(DigitsValue(t))
    else None
  }

  /** A string of digits (what `str.isdigit()` accepts) is read by `int` as its value. */
  lemma ParseIntOfDigits(s: string)
    requires IsDigits(s)
    ensures ParseInt(s) == Some(DigitsValue(s))
  {
    assert StripLeft(s) == s;
    assert StripRight(s) == s;
  }

  /** `int(str(n)) == n`. */
  lemma ParseIntOfIntToString(n: int)
    ensures ParseInt(IntToString(n)) == Some(n)
  {
    if n < 0 {
      var s, d := IntToString(n), NatToString(-n);
      DigitsValueOfNatToString(-n);
      assert s[0] == '-' && s[1..] == d;
      assert s[|s| - 1] == d[|d| - 1] && IsDigit(d[|d| - 1]);
      StripUnpadded(s);
    } else {
      DigitsValueOfNatToString(n);
      ParseIntOfDigits(NatToString(n));
    }
  }

  function Pow10(n: nat): (p: nat)
    ensures p >= 1
  {
    if n == 0 then 1 else 10 * Pow10(n - 1)
  }

  /** The index of the first `c` in `s`, or `|s|` when there is none. */
  function IndexOf(s: string, c: char): (i: nat)
    ensures i <= |s|
    ensures forall k :: 0 <= k < i ==> s[k] != c
    ensures i < |s| ==> s[i] == c
    decreases |s|
  {
    if |s| == 0 then 0 else if s[0] == c then 0 else 1 + IndexOf(s[1..], c)
  }

  predicate AllDigits(s: string)
  {
    forall k :: 0 <= k < |s| ==> IsDigit(s[k])
  }

  /** The unsigned decimal part of a float literal: `ddd`, `ddd.`, `.ddd` or `ddd.ddd`. */
  function ParseUnsignedDecimal(m: string): Option<real>
  {
    var dot := IndexOf(m, '.');
    if dot == |m| then
      if IsDigits(m) then Some(DigitsValue(m) as real) else None
    else
      var whole, frac := m[..dot], m[dot + 1..];
      if AllDigits(whole) && AllDigits(frac) && |whole| + |frac| > 0 then
        Some(DigitsValue(whole) as real + DigitsValue(frac) as real / Pow10(|frac|) as real)
      else None
  }

  /** An optionally signed decimal exponent. */
  function ParseExponent(e: string): Option<int>
  {
    if |e| > 0 && (e[0] == '-' || e[0] == '+') then
      if IsDigits(e[1..]) then
        var v: int := DigitsValue(e[1..]);
        Some(if e[0] == '-' then -v else v)
      else None
    else if IsDigits(e) then Some(DigitsValue(e))
    else None
  }

  function Scale(x: real, e: int): real
  {
    if e >= 0 then x * Pow10(e) as real else x / Pow10(-e) as real
  }

  /** `float(s)` for decimal text: optional sign, digits with an optional fraction part,
      an optional `e`/`E` exponent; `None` where Python raises ValueError. */
  function ParseFloat(s: string): Option<real>
  {
    var t := Strip(s);
    var negative := |t| > 0 && t[0] == '-';
    var body := if |t| > 0 && (t[0] == '-' || t[0] == '+') then t[1..] else t;
    var ePos := if IndexOf(body, 'e') < IndexOf(body, 'E') then IndexOf(body, 'e') else IndexOf(body, 'E');
    var mantissa := ParseUnsignedDecimal(body[..ePos]);
    var exponent := if ePos == |body| then Some(0) else ParseExponent(body[ePos + 1..]);
    if mantissa.Some? && exponent.Some? then
      var v := Scale(mantissa.value, exponent.value);
      Some(if negative then -v else v)
    else None
  }

  /** A non-digit character does not occur in a string of digits. */
  lemma IndexOfInDigits(d: string, c: char)
    requires IsDigits(d) && !IsDigit(c)
    ensures IndexOf(d, c) == |d|
  {
  }

  /** An unsigned digit string is read by `float` as its value (helper of the lemma below). */
  lemma ParseFloatOfDigits(d: string)
    requires IsDigits(d)
    ensures ParseUnsignedDecimal(d) == Some(DigitsValue(d) as real)
  {
    IndexOfInDigits(d, '.');
  }

  /** Text without surrounding whitespace is left alone by `strip()`. */
  lemma StripUnpadded(s: string)
    requires |s| > 0 && !IsSpace(s[0]) && !IsSpace(s[|s| - 1])
    ensures Strip(s) == s
  {
    assert StripLeft(s) == s;
  }

  /** The information separators U+001C to U+001F are whitespace too: a unit separator
      around a marker or a number is stripped. */
  lemma StripSeparators()
    ensures Strip("\U{001F}CSV_END") == "CSV_END"
    ensures ParseInt("12\U{001F}") == Some(12)
  {
    assert StripLeft("\U{001F}CSV_END") == "CSV_END";
    assert StripRight("CSV_END") == "CSV_END";
    assert StripLeft("12\U{001F}") == "12\U{001F}";
    assert StripRight("12\U{001F}") == "12";
    assert IsDigits("12") && DigitsValue("12") == 12;
  }

  /** `float` of a string of digits, with an optional sign in front. */
  lemma ParseFloatOfSignedDigits(s: string, d: string)
    requires IsDigits(d) && (s == d || s == "-" + d)
    ensures ParseFloat(s) == Some(if s == d then DigitsValue(d) as real else -(DigitsValue(d) as real))
  {
    if s == d {
      assert IsDigit(s[0]) && IsDigit(s[|s| - 1]);
      StripUnpadded(s);
      ParseFloatOfBody(s, s);
    } else {
      assert s[0] == '-' && s[1..] == d;
      assert s[|s| - 1] == d[|d| - 1] && IsDigit(d[|d| - 1]);
      StripUnpadded(s);
      ParseFloatOfBody(s, d);
    }
  }

  /** `float` of stripped text whose part after an optional sign is a string of digits. */
  lemma ParseFloatOfBody(s: string, body: string)
    requires Strip(s) == s
    requires body == (if |s| > 0 && (s[0] == '-' || s[0] == '+') then s[1..] else s)
    requires IsDigits(body)
    ensures ParseFloat(s) == Some(if |s| > 0 && s[0] == '-' then -(DigitsValue(body) as real) else DigitsValue(body) as real)
  {
    IndexOfInDigits(body, 'e');
    IndexOfInDigits(body, 'E');
    ParseFloatOfDigits(body);
    assert body[..|body|] == body;
    assert Scale(DigitsValue(body) as real, 0) == DigitsValue(body) as real;
  }

  /** Text that `int` reads as `n` is read by `float` as the same number. */
  lemma ParseFloatOfIntToString(n: int)
    ensures ParseFloat(IntToString(n)) == Some(n as real)
  {
    var m: nat := if n < 0 then -n else n;
    DigitsValueOfNatToString(m);
    ParseFloatOfSignedDigits(IntToString(n), NatToString(m));
  }
}
