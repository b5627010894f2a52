/**
 * The few pieces of Python's string handling that the filename parsers rely on:
 * `str.split(sep)` with an explicit one-character separator, `int(str)` and
 * `str(int)`.
 */
module PyStrings {
  import opened Wrappers

  /** Number of occurrences of `c` in `s`. */
  function Count(s: string, c: char): (k: nat)
    ensures k <= |s|
    ensures k == 0 <==> c !in s
  {
    if |s| == 0 then 0 else (if s[0] == c then 1 else 0) + Count(s[1..], c)
  }

  /** `sep.join(fields)`: the inverse of `Split`. */
  function Join(fields: seq<string>, sep: char): string
  {
    if |fields| == 0 then ""
    else if |fields| == 1 then fields[0]
    else fields[0] + [sep] + Join(fields[1..], sep)
  }

  /**
   * `s.split(sep)`: the maximal runs of `s` that do not contain `sep`, in order.
   * There is always one more field than there are separators, so the empty
   * string splits into one empty field.
   */
  function Split(s: string, sep: char): (fields: seq<string>)
    ensures |fields| == Count(s, sep) + 1
    ensures forall i :: 0 <= i < |fields| ==> sep !in fields[i]
  {
    if |s| == 0 then [""]
    else
      var rest := Split(s[1..], sep);
      if s[0] == sep then [""] + rest
      else [[s[0]] + rest[0]] + rest[1..]
  }

  /** Joining the fields of a split with the separator gives the string back. */
  lemma {:induction false} JoinSplit(s: string, sep: char)
    ensures Join(Split(s, sep), sep) == s
  {
    if |s| > 0 {
      var rest := Split(s[1..], sep);
      JoinSplit(s[1..], sep);
      if s[0] == sep {
        assert Split(s, sep)[1..] == rest;
        assert [sep] + s[1..] == s;
      } else if |rest| == 1 {
        assert [s[0]] + s[1..] == s;
      } else {
        assert Split(s, sep)[1..] == rest[1..];
        assert Join(rest, sep) == rest[0] + [sep] + Join(rest[1..], sep);
        assert [s[0]] + s[1..] == s;
      }
    }
  }

  /** Splitting a string that holds no separator gives it back whole. */
  lemma {:induction false} SplitNoSeparator(s: string, sep: char)
    requires sep !in s
    ensures Split(s, sep) == [s]
  {
    if |s| > 0 {
      SplitNoSeparator(s[1..], sep);
      assert [s[0]] + s[1..] == s;
    }
  }

  /** A separator-free prefix followed by a separator becomes the first field. */
  lemma {:induction false} SplitAfterField(a: string, sep: char, b: string)
    requires sep !in a
    ensures Split(a + [sep] + b, sep) == [a] + Split(b, sep)
  {
    if |a| == 0 {
      assert a + [sep] + b == [sep] + b;
      assert ([sep] + b)[1..] == b;
    } else {
      assert (a + [sep] + b)[1..] == a[1..] + [sep] + b;
      SplitAfterField(a[1..], sep, b);
      assert [a[0]] + a[1..] == a;
    }
  }

  /** Splitting the join of separator-free fields gives the fields back. */
  lemma {:induction false} SplitJoin(fields: seq<string>, sep: char)
    requires |fields| >= 1
    requires forall i :: 0 <= i < |fields| ==> sep !in fields[i]
    ensures Split(Join(fields, sep), sep) == fields
  {
    if |fields| == 1 {
      SplitNoSeparator(fields[0], sep);
    } else {
      SplitJoin(fields[1..], sep);
      SplitAfterField(fields[0], sep, Join(fields[1..], sep));
      assert [fields[0]] + fields[1..] == fields;
    }
  }

  /** `last` ends `s` and is either all of `s` or preceded in it by `sep`. */
  predicate IsLastRun(s: string, last: string, sep: char)
  {
    |last| <= |s| && s[|s| - |last|..] == last &&
    (|last| == |s| || s[|s| - |last| - 1] == sep)
  }

  /** A run ending `s[1..]` is one ending `s` unless it spans `s[1..]` after a non-separator. */
  lemma SuffixOfTail(s: string, sep: char, last: string)
    requires |s| > 0 && IsLastRun(s[1..], last, sep)
    requires |last| == |s| - 1 ==> s[0] == sep
    ensures IsLastRun(s, last, sep)
  {
    assert s[|s| - |last|..] == s[1..][|s| - 1 - |last|..];
  }

  /**
   * The last field of a split is the longest suffix of `s` free of `sep`:
   * it is either all of `s` or is preceded by a separator.
   */
  lemma {:induction false} LastFieldIsSuffix(s: string, sep: char)
    ensures var fields := Split(s, sep); IsLastRun(s, fields[|fields| - 1], sep)
  {
    if |s| > 0 {
      var t := s[1..];
      LastFieldIsSuffix(t, sep);
      var rest := Split(t, sep);
      var last := rest[|rest| - 1];
      var fields := Split(s, sep);
      if s[0] != sep && |rest| == 1 {
        JoinSplit(t, sep);
        assert Join(rest, sep) == rest[0] == t;
        assert fields == [[s[0]] + t];
        assert [s[0]] + t == s == s[0..];
      } else {
        assert fields[|fields| - 1] == last;
        if |last| == |t| {
          assert t[0..] == t == last;
          assert Count(t, sep) == 0;
        }
        SuffixOfTail(s, sep, last);
      }
    } else {
      assert Split(s, sep) == [""];
    }
  }

  /** Whatever precedes the last separator, the last field is what follows it. */
  lemma {:induction false} LastFieldAfterSeparator(x: string, sep: char, y: string)
    requires sep !in y
    ensures var fields := Split(x + [sep] + y, sep); fields[|fields| - 1] == y
  {
    var s := x + [sep] + y;
    if |x| == 0 {
      assert s[1..] == y;
      SplitNoSeparator(y, sep);
    } else {
      assert s[1..] == x[1..] + [sep] + y;
      LastFieldAfterSeparator(x[1..], sep, y);
      assert s[|x|] == sep;
      assert Count(s[1..], sep) > 0;
    }
  }

  /**
   * The whitespace `int` skips around an ASCII literal: tab, line feed,
   * vertical tab, form feed, carriage return and space.
   */
  predicate IsSpace(c: char)
  {
    (9 <= c as int <= 13) || c == ' '
  }

  predicate IsDigit(c: char)
  {
    '0' <= c <= '9'
  }

  /** A character `int` never accepts anywhere in its argument. */
  predicate IsBadIntChar(c: char)
  {
    !IsDigit(c) && !IsSpace(c) && c != '+' && c != '-'
  }

  /** Drop leading whitespace. */
  function TrimStart(s: string): (t: string)
    ensures |t| <= |s| && t == s[|s| - |t|..]
    ensures |t| > 0 ==> !IsSpace(t[0])
    ensures forall i :: 0 <= i < |s| - |t| ==> IsSpace(s[i])
  {
    if |s| > 0 && IsSpace(s[0]) then TrimStart(s[1..]) else s
  }

  /** Drop trailing whitespace. */
  function TrimEnd(s: string): (t: string)
    ensures |t| <= |s| && t == s[..|t|]
    ensures |t| > 0 ==> !IsSpace(t[|t| - 1])
    ensures forall i :: |t| <= i < |s| ==> IsSpace(s[i])
  {
    if |s| > 0 && IsSpace(s[|s| - 1]) then TrimEnd(s[..|s| - 1]) else s
  }

  /** `s.strip()`. */
  function Strip(s: string): string
  {
    TrimEnd(TrimStart(s))
  }

  /**
   * `strip` removes whitespace only: `Strip(s)` is the run of `s` starting
   * after its leading whitespace, and every other character of `s` lies in it.
   */
  lemma StripKeeps(s: string)
    ensures var a := |s| - |TrimStart(s)|;
            a + |Strip(s)| <= |s| &&
            (forall i :: 0 <= i < |Strip(s)| ==> Strip(s)[i] == s[a + i]) &&
            (forall k :: 0 <= k < |s| && !IsSpace(s[k]) ==> a <= k < a + |Strip(s)|)
  {
    var u := TrimStart(s);
    var a := |s| - |u|;
    var t := TrimEnd(u);
    assert u == s[a..] && t == u[..|t|];
    forall i | 0 <= i < |t| ensures t[i] == s[a + i] {
      assert t[i] == u[i] == s[a..][i];
    }
    forall k | 0 <= k < |s| && !IsSpace(s[k]) ensures a <= k < a + |t| {
      assert !(0 <= k < |s| - |u|);
      assert u[k - a] == s[a..][k - a] == s[k];
      assert !(|t| <= k - a < |u|);
    }
  }

  /** A non-empty run of decimal digits. */
  predicate IsDigits(d: string)
  {
    |d| > 0 && forall i :: 0 <= i < |d| ==> IsDigit(d[i])
  }

  /** The value of a run of decimal digits, read most significant first. */
  function DigitsValue(d: string): int
  {
    if |d| == 0 then 0
    else DigitsValue(d[..|d| - 1]) * 10 + (d[|d| - 1] as int - '0' as int)
  }

  /**
   * `int(s)`: surrounding whitespace is ignored, then an optional sign and at
   * least one decimal digit (leading zeros allowed). Anything else is the
   * `ValueError` that `int` raises, here `None`.
   */
  function ParseInt(s: string): (r: Option<int>)
    ensures IsDigits(s) ==> r == Some(DigitsValue(s))
  {
    DigitsUnpadded(s);
    var t := Strip(s);
    if |t| > 0 && (t[0] == '+' || t[0] == '-') then
      if IsDigits(t[1..]) then
        Some(if t[0] == '-' then -DigitsValue(t[1..]) else DigitsValue(t[1..]))
      else None
    else if IsDigits(t) then Some(DigitsValue(t))
    else None
  }

  function DigitChar(k: nat): (c: char)
    requires k < 10
    ensures IsDigit(c) && c as int - '0' as int == k
  {
    ('0' as int + k) as char
  }

  /** The decimal digits of `n`, without leading zeros. */
  function NatToDigits(n: nat): (d: string)
    ensures IsDigits(d)
  {
    if n < 10 then [DigitChar(n)] else NatToDigits(n / 10) + [DigitChar(n % 10)]
  }

  /** `str(i)` (and `"{}".format(i)`) for an int: a minus sign, then the digits. */
  function IntToString(i: int): (s: string)
    ensures |s| > 0 && (IsDigit(s[0]) || s[0] == '-') && IsDigit(s[|s| - 1])
    ensures forall k :: 0 <= k < |s| ==> IsDigit(s[k]) || (k == 0 && s[k] == '-')
  {
    if i < 0 then "-" + NatToDigits(-i) else NatToDigits(i)
  }

  /** Reading back the digits of `n` gives `n`. */
  lemma {:induction false} DigitsRoundTrip(n: nat)
    ensures DigitsValue(NatToDigits(n)) == n
  {
    if n >= 10 {
      DigitsRoundTrip(n / 10);
      var d := NatToDigits(n / 10) + [DigitChar(n % 10)];
      assert d[..|d| - 1] == NatToDigits(n / 10);
    }
  }

  /** A string with no whitespace at either end is unchanged by `strip`. */
  lemma StripUnpadded(s: string)
    requires |s| > 0 && !IsSpace(s[0]) && !IsSpace(s[|s| - 1])
    ensures Strip(s) == s
  {
  }

  /** A run of digits has no whitespace to strip. */
  lemma DigitsUnpadded(d: string)
    ensures IsDigits(d) ==> Strip(d) == d
  {
    if IsDigits(d) {
      StripUnpadded(d);
    }
  }

  /** `int` raises on any character that is not a digit, a sign or whitespace, wherever it is. */
  lemma ParseIntRejectsBadChar(s: string, k: int)
    requires 0 <= k < |s| && IsBadIntChar(s[k])
    ensures ParseInt(s).None?
  {
    StripKeeps(s);
    var a, t := |s| - |TrimStart(s)|, Strip(s);
    var j := k - a;
    assert t[j] == s[k];
    if |t| > 0 && (t[0] == '+' || t[0] == '-') {
      assert t[1..][j - 1] == t[j];
    }
  }

  /** `int` accepts nothing without at least one digit. */
  lemma ParseIntNeedsDigit(s: string)
    ensures ParseInt(s).Some? ==> exists k :: 0 <= k < |s| && IsDigit(s[k])
  {
    StripKeeps(s);
    var a, t := |s| - |TrimStart(s)|, Strip(s);
    if ParseInt(s).Some? {
      if |t| > 0 && (t[0] == '+' || t[0] == '-') {
        assert t[1..][0] == t[1] == s[a + 1];
      } else {
        assert t[0] == s[a];
      }
    }
  }

  /** `int(str(i)) == i` for every int. */
  lemma IntRoundTrip(i: int)
    ensures ParseInt(IntToString(i)) == Some(i)
  {
    var s := IntToString(i);
    StripUnpadded(s);
    if i < 0 {
      DigitsRoundTrip(-i);
      assert s[1..] == NatToDigits(-i);
    } else {
      DigitsRoundTrip(i);
    }
  }
}
