// Python string operations that the dashboard relies on, written out so that
// their edge cases (empty fields, missing separators, whitespace) are explicit.

module Wrappers {
  datatype Option<+T> = None | Some(value: T)

  /** A Python call that either returns a value or raises. The kind of
      exception is never inspected by the code being modelled. */
  datatype Result<+T> = Ok(value: T) | Err
}

module Strings {
  import opened Wrappers

  /** `s.startswith(p)` */
  predicate StartsWith(s: string, p: string)
  {
    |p| <= |s| && s[..|p|] == p
  }

  /** `s.endswith(p)` */
  predicate EndsWith(s: string, p: string)
  {
    |p| <= |s| && s[|s| - |p|..] == p
  }

  /** `t in s` for strings: substring containment. */
  predicate Contains(s: string, t: string)
    decreases |s|
  {
    StartsWith(s, t) || (|s| > 0 && Contains(s[1..], t))
  }

  lemma {:induction false} ContainsAt(s: string, t: string, i: nat)
    requires i + |t| <= |s| && s[i..i + |t|] == t
    ensures Contains(s, t)
    decreases i
  {
    if i > 0 {
      assert s[1..][i - 1..i - 1 + |t|] == s[i..i + |t|];
      ContainsAt(s[1..], t, i - 1);
    }
  }

  lemma {:induction false} ContainsWitness(s: string, t: string) returns (i: nat)
    requires Contains(s, t)
    ensures i + |t| <= |s| && s[i..i + |t|] == t
    decreases |s|
  {
    if StartsWith(s, t) {
      i := 0;
    } else {
      var j := ContainsWitness(s[1..], t);
      assert s[1..][j..j + |t|] == s[j + 1..j + 1 + |t|];
      i := j + 1;
    }
  }

  /** The first index of `c` in `s`, if any. */
  function IndexOf(s: string, c: char): (r: Option<nat>)
    ensures r.Some? ==> r.value < |s| && s[r.value] == c && c !in s[..r.value]
    ensures r.None? ==> c !in s
    decreases |s|
  {
    if |s| == 0 then None
    else if s[0] == c then Some(0)
    else match IndexOf(s[1..], c)
      case None => None
      case Some(i) => Some(i + 1)
  }

  /** `s.split(sep)` for a one-character separator: never empty, and no
      field contains the separator. */
  function Split(s: string, sep: char): (r: seq<string>)
    ensures |r| >= 1
    ensures forall i :: 0 <= i < |r| ==> sep !in r[i]
    decreases |s|
  {
    if |s| == 0 then [""]
    else
      var rest := Split(s[1..], sep);
      if s[0] == sep then [""] + rest
      else [[s[0]] + rest[0]] + rest[1..]
  }

  /** `sep.join(parts)` */
  function Join(parts: seq<string>, sep: string): string
  {
    if |parts| == 0 then ""
    else if |parts| == 1 then parts[0]
    else parts[0] + sep + Join(parts[1..], sep)
  }

  /** Joining the fields of a split with the same separator gives back the
      original string. */
  lemma {:induction false} JoinSplit(s: string, sep: char)
    ensures Join(Split(s, sep), [sep]) == s
    decreases |s|
  {
    if |s| > 0 {
      var rest := Split(s[1..], sep);
      JoinSplit(s[1..], sep);
      if s[0] == sep {
        assert Split(s, sep) == [""] + rest;
        assert Join([""] + rest, [sep]) == "" + [sep] + Join(rest, [sep]);
      } else {
        var r := Split(s, sep);
        assert r == [[s[0]] + rest[0]] + rest[1..];
        if |rest| == 1 {
          assert r == [[s[0]] + rest[0]];
        } else {
          assert r[1..] == rest[1..];
          assert Join(rest, [sep]) == rest[0] + [sep] + Join(rest[1..], [sep]);
        }
      }
    }
  }

  /** The string has no occurrence of `sep`, so splitting it gives it back whole. */
  lemma {:induction false} SplitWithoutSeparator(s: string, sep: char)
    requires sep !in s
    ensures Split(s, sep) == [s]
    decreases |s|
  {
    if |s| > 0 {
      assert sep !in s[1..];
      SplitWithoutSeparator(s[1..], sep);
      assert [s[0]] + s[1..] == s;
    }
  }

  /** A field followed by the separator is split off as the first field. */
  lemma {:induction false} SplitField(a: string, sep: char, rest: string)
    requires sep !in a
    ensures Split(a + [sep] + rest, sep) == [a] + Split(rest, sep)
    decreases |a|
  {
    if |a| > 0 {
      var s := a + [sep] + rest;
      assert s[1..] == a[1..] + [sep] + rest;
      SplitField(a[1..], sep, rest);
      assert [a[0]] + a[1..] == a;
    } else {
      assert a + [sep] + rest == [sep] + rest;
    }
  }

  /** The first field of a split is the text before the first separator. */
  lemma {:induction false} SplitHead(s: string, sep: char)
    ensures IndexOf(s, sep).Some? ==> Split(s, sep)[0] == s[..IndexOf(s, sep).value]
    ensures IndexOf(s, sep).None? ==> Split(s, sep)[0] == s
    decreases |s|
  {
    if |s| > 0 && s[0] != sep {
      SplitHead(s[1..], sep);
    }
  }

  /** The last field of a split is the text after the last separator. */
  lemma {:induction false} SplitLast(a: string, sep: char, w: string)
    requires sep !in w
    ensures var r := Split(a + [sep] + w, sep); |r| >= 2 && r[|r| - 1] == w
    decreases |a|
  {
    var s := a + [sep] + w;
    if |a| == 0 {
      assert s == [sep] + w && s[1..] == w;
      SplitWithoutSeparator(w, sep);
    } else {
      assert s[1..] == a[1..] + [sep] + w;
      SplitLast(a[1..], sep, w);
    }
  }

  /** The last two fields of a split are the texts after the last two
      separators. */
  lemma {:induction false} SplitLastTwo(a: string, sep: char, w: string, v: string)
    requires sep !in w && sep !in v
    ensures var r := Split(a + [sep] + w + [sep] + v, sep); |r| >= 3 && r[|r| - 2] == w && r[|r| - 1] == v
    decreases |a|
  {
    var s := a + [sep] + w + [sep] + v;
    if |a| == 0 {
      assert s == [sep] + w + [sep] + v && s[1..] == w + [sep] + v;
      SplitField(w, sep, v);
      SplitWithoutSeparator(v, sep);
    } else {
      assert s[1..] == a[1..] + [sep] + w + [sep] + v;
      SplitLastTwo(a[1..], sep, w, v);
    }
  }

  lemma SplitWithoutSeparatorCount(s: string, sep: char)
    requires |Split(s, sep)| < 2
    ensures sep !in s
  {
    if sep in s {
      SplitCountHasSeparator(s, sep);
      assert false;
    }
  }

  /** A string holds the separator exactly when it splits into several fields. */
  lemma {:induction false} SplitCountHasSeparator(s: string, sep: char)
    ensures (sep in s) <==> |Split(s, sep)| >= 2
    decreases |s|
  {
    if |s| > 0 {
      SplitCountHasSeparator(s[1..], sep);
      assert sep in s <==> s[0] == sep || sep in s[1..];
    }
  }

  /** `s.split(sep, 1)`: at most two fields, split at the first separator. */
  function SplitOnce(s: string, sep: char): (r: seq<string>)
    ensures |r| == 1 || |r| == 2
    ensures |r| == 1 <==> sep !in s
    ensures |r| == 2 ==> sep !in r[0] && s == r[0] + [sep] + r[1]
  {
    match IndexOf(s, sep)
    case None => [s]
    case Some(i) =>
      assert s == s[..i] + [sep] + s[i + 1..];
      [s[..i], s[i + 1..]]
  }

  /** Python's `str.isspace()` for one character. */
  predicate IsSpace(c: char)
  {
    var n := c as int;
    (9 <= n <= 13) || (0x1C <= n <= 0x20) || n == 0x85 || n == 0xA0 || n == 0x1680 ||
    (0x2000 <= n <= 0x200A) || n == 0x2028 || n == 0x2029 || n == 0x202F || n == 0x205F || n == 0x3000
  }

  /** `s.strip()`: whitespace is cut from the front, then from the back,
      until neither end is whitespace. */
  function Strip(s: string): (r: string)
    ensures |r| <= |s|
    ensures |r| > 0 ==> !IsSpace(r[0]) && !IsSpace(r[|r| - 1])
    decreases |s|
  {
    if |s| > 0 && IsSpace(s[0]) then Strip(s[1..])
    else if |s| > 0 && IsSpace(s[|s| - 1]) then Strip(s[..|s| - 1])
    else s
  }

  /** `Strip(s)` sits at `lo` in `s` with only whitespace around it. */
  predicate StrippedAt(s: string, lo: nat)
  {
    var r := Strip(s);
    lo + |r| <= |s| && s[lo..lo + |r|] == r &&
    (forall i :: 0 <= i < lo ==> IsSpace(s[i])) &&
    (forall i :: lo + |r| <= i < |s| ==> IsSpace(s[i]))
  }

  lemma StrippedAtFront(s: string, l: nat)
    requires |s| > 0 && IsSpace(s[0]) && StrippedAt(s[1..], l)
    ensures StrippedAt(s, l + 1)
  {
    var r := Strip(s);
    assert r == Strip(s[1..]);
    assert l + |r| <= |s[1..]|;
    var a, b := s[l + 1..l + 1 + |r|], s[1..][l..l + |r|];
    forall k | 0 <= k < |r| ensures a[k] == b[k] {
      assert a[k] == s[l + 1 + k] == s[1..][l + k];
    }
    assert a == b;
    forall i | 0 <= i < l + 1 ensures IsSpace(s[i]) {
      if i > 0 {
        assert s[i] == s[1..][i - 1];
      }
    }
    forall i | l + 1 + |r| <= i < |s| ensures IsSpace(s[i]) {
      assert s[i] == s[1..][i - 1];
    }
  }

  lemma StrippedAtBack(s: string, l: nat)
    requires |s| > 0 && !IsSpace(s[0]) && IsSpace(s[|s| - 1]) && StrippedAt(s[..|s| - 1], l)
    ensures StrippedAt(s, l)
  {
    var r := Strip(s);
    assert r == Strip(s[..|s| - 1]);
    assert s[l..l + |r|] == s[..|s| - 1][l..l + |r|];
    forall i | l + |r| <= i < |s| ensures IsSpace(s[i]) {
      if i < |s| - 1 {
        assert s[i] == s[..|s| - 1][i];
      }
    }
  }

  /** The stripped text is a slice of the original, and everything cut off
      on either side is whitespace. */
  lemma {:induction false} StripSlice(s: string) returns (lo: nat)
    ensures StrippedAt(s, lo)
    decreases |s|
  {
    if |s| > 0 && IsSpace(s[0]) {
      var l := StripSlice(s[1..]);
      StrippedAtFront(s, l);
      lo := l + 1;
    } else if |s| > 0 && IsSpace(s[|s| - 1]) {
      lo := StripSlice(s[..|s| - 1]);
      StrippedAtBack(s, lo);
    } else {
      lo := 0;
    }
  }

  /** A string with no whitespace at either end is its own strip. */
  lemma StripUnchanged(s: string)
    requires |s| > 0 ==> !IsSpace(s[0]) && !IsSpace(s[|s| - 1])
    ensures Strip(s) == s
  {
  }

  lemma StripIdempotent(s: string)
    ensures Strip(Strip(s)) == Strip(s)
  {
    StripUnchanged(Strip(s));
  }

  /** `s.replace(pat, rep)` for a non-empty `pat`: every non-overlapping
      occurrence of `pat`, scanning left to right, becomes `rep`. */
  function ReplaceAll(s: string, pat: string, rep: string): (r: string)
    requires |pat| > 0
    ensures !Contains(s, pat) ==> r == s
    decreases |s|
  {
    if |s| == 0 then
      s
    else if StartsWith(s, pat) then
      rep + ReplaceAll(s[|pat|..], pat, rep)
    else
      [s[0]] + ReplaceAll(s[1..], pat, rep)
  }

  lemma ReplaceAllAtStart(pat: string, rest: string, rep: string)
    requires |pat| > 0
    ensures ReplaceAll(pat + rest, pat, rep) == rep + ReplaceAll(rest, pat, rep)
  {
    var s := pat + rest;
    assert s[..|pat|] == pat;
    assert s[|pat|..] == rest;
  }

  predicate IsDigit(c: char)
  {
    '0' <= c <= '9'
  }

  predicate AllDigits(s: string)
  {
    |s| > 0 && forall i :: 0 <= i < |s| ==> IsDigit(s[i])
  }

  function DigitChar(d: nat): (c: char)
    requires d < 10
    ensures IsDigit(c) && (c as int) - ('0' as int) == d
  {
    (('0' as int) + d) as char
  }

  /** Decimal notation of a natural number, most significant digit first. */
  function NatToString(n: nat): (r: string)
    ensures AllDigits(r)
    decreases n
  {
    if n < 10 then [DigitChar(n)] else NatToString(n / 10) + [DigitChar(n % 10)]
  }

  /** `str(n)` for a Python int. */
  function IntToString(n: int): (r: string)
    ensures |r| > 0
  {
    if n < 0 then "-" + NatToString(-n) else NatToString(n)
  }

  /** `str(n).strip() == str(n)`: a number has no surrounding space. */
  lemma IntToStringStripped(n: int)
    ensures Strip(IntToString(n)) == IntToString(n)
  {
    var r := IntToString(n);
    var m := if n < 0 then -n else n;
    var digits := NatToString(m);
    assert IsDigit(digits[|digits| - 1]);
    assert r[|r| - 1] == digits[|digits| - 1];
    assert r[0] == '-' || r[0] == digits[0];
    StripUnchanged(r);
  }

  /** The value of a non-empty run of decimal digits. */
  function DigitsValue(s: string): nat
    requires AllDigits(s)
    decreases |s|
  {
    var d := (s[|s| - 1] as int) - ('0' as int);
    if |s| == 1 then d
    else
      assert AllDigits(s[..|s| - 1]) by {
        assert forall i :: 0 <= i < |s| - 1 ==> s[..|s| - 1][i] == s[i];
      }
      DigitsValue(s[..|s| - 1]) * 10 + d
  }

  lemma {:induction false} DigitsOfNat(n: nat)
    ensures DigitsValue(NatToString(n)) == n
    decreases n
  {
    if n >= 10 {
      DigitsOfNat(n / 10);
      var s := NatToString(n);
      assert s[..|s| - 1] == NatToString(n / 10);
    }
  }

  /** `int(s)` for ASCII text: surrounding whitespace, an optional sign and
      at least one decimal digit. */
  function ParseInt(s: string): Option<int>
  {
    var t := Strip(s);
    if |t| > 0 && (t[0] == '-' || t[0] == '+') then
      if AllDigits(t[1..]) then
        var v: int := DigitsValue(t[1..]);
        Some(if t[0] == '-' then -v else v)
      else None
    else if AllDigits(t) then Some(DigitsValue(t))
    else None
  }

  lemma ParseNatToString(n: nat)
    ensures ParseInt(NatToString(n)) == Some(n)
  {
    DigitsOfNat(n);
    var s := NatToString(n);
    assert !IsSpace(s[0]) && !IsSpace(s[|s| - 1]);
    StripUnchanged(s);
    assert s[0] != '-' && s[0] != '+';
  }

  lemma ParseNegativeToString(n: nat)
    requires n > 0
    ensures ParseInt("-" + NatToString(n)) == Some(0 - n as int)
  {
    DigitsOfNat(n);
    var d := NatToString(n);
    var s := "-" + d;
    assert !IsSpace(s[0]) && s[|s| - 1] == d[|d| - 1] && !IsSpace(s[|s| - 1]);
    StripUnchanged(s);
    assert s[1..] == d;
  }

  /** `int` strips its argument itself. */
  lemma ParseIntStrip(s: string)
    ensures ParseInt(Strip(s)) == ParseInt(s)
  {
    StripIdempotent(s);
  }

  /** `int(str(n)) == n`: printing an integer and parsing it back is the
      identity, so printing is one-to-one. */
  lemma ParseIntToString(n: int)
    ensures ParseInt(IntToString(n)) == Some(n)
  {
    if n < 0 {
      ParseNegativeToString(-n);
    } else {
      ParseNatToString(n);
    }
  }

  lemma IntToStringInjective(a: int, b: int)
    requires IntToString(a) == IntToString(b)
    ensures a == b
  {
    ParseIntToString(a);
    ParseIntToString(b);
  }

  /** ASCII letters to lower case; str.lower() also folds non-ASCII letters. */
  function LowerAscii(s: string): (r: string)
    ensures |r| == |s|
    ensures forall i :: 0 <= i < |s| ==> (if 'A' <= s[i] <= 'Z' then r[i] as int == s[i] as int + 32 else r[i] == s[i])
  {
    seq(|s|, i requires 0 <= i < |s| => if 'A' <= s[i] <= 'Z' then (s[i] as int + 32) as char else s[i])
  }

  predicate NoCapitals(s: string)
  {
    forall i :: 0 <= i < |s| ==> !('A' <= s[i] <= 'Z')
  }

  /** Text without ASCII capitals is its own lower case, and lowering
      leaves none: lowering twice is lowering once. */
  lemma LowerAsciiFixes(s: string)
    ensures NoCapitals(LowerAscii(s))
    ensures NoCapitals(s) ==> LowerAscii(s) == s
    ensures LowerAscii(LowerAscii(s)) == LowerAscii(s)
  {
    var t := LowerAscii(s);
    assert NoCapitals(t) by {
      forall i | 0 <= i < |t| ensures !('A' <= t[i] <= 'Z') {
        if 'A' <= s[i] <= 'Z' {
          assert t[i] as int == s[i] as int + 32;
        }
      }
    }
    assert LowerAscii(t) == t;
  }

  /** Mantissa of a decimal float: digits with at most one point and at
      least one digit. */
  predicate IsMantissa(m: string)
  {
    var parts := Split(m, '.');
    (|parts| == 1 && AllDigits(parts[0])) ||
    (|parts| == 2 && ((AllDigits(parts[0]) && (parts[1] == "" || AllDigits(parts[1]))) ||
                      (parts[0] == "" && AllDigits(parts[1]))))
  }

  predicate IsSignedDigits(e: string)
  {
    if |e| > 0 && (e[0] == '+' || e[0] == '-') then AllDigits(e[1..]) else AllDigits(e)
  }

  /** The text `float(s)` accepts: whitespace, an optional sign, then
      `inf`, `infinity` or `nan` in any case, or a decimal mantissa with an
      optional exponent. */
  predicate IsFloatText(s: string)
  {
    var t := LowerAscii(Strip(s));
    var body := if |t| > 0 && (t[0] == '+' || t[0] == '-') then t[1..] else t;
    body == "inf" || body == "infinity" || body == "nan" ||
    (var parts := Split(body, 'e');
     (|parts| == 1 && IsMantissa(parts[0])) ||
     (|parts| == 2 && IsMantissa(parts[0]) && IsSignedDigits(parts[1])))
  }
}
