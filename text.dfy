/**
 * The string operations the scraper relies on: Python's `str.strip()`,
 * BeautifulSoup's `get_text(strip=True)`, `str(int)`, `str.replace(pat, "")`
 * and slicing to a prefix, and the single-space join that the text
 * assembly is proved against.
 */
module Text {

  /** Python's `str.isspace()` for one character: exactly the characters
      that `str.strip()` without arguments removes. */
  predicate IsSpace(c: char) {
    var n := c as int;
    (9 <= n <= 13) || (28 <= n <= 32) || n == 0x85 || n == 0xA0 || n == 0x1680
    || (0x2000 <= n <= 0x200A) || n == 0x2028 || n == 0x2029 || n == 0x202F
    || n == 0x205F || n == 0x3000
  }

  predicate AllSpace(s: string) {
    forall k :: 0 <= k < |s| ==> IsSpace(s[k])
  }

  /** Neither end of `s` is whitespace (true of the empty string). */
  predicate NoOuterSpace(s: string) {
    s == [] || (!IsSpace(s[0]) && !IsSpace(s[|s| - 1]))
  }

  /** `s.lstrip()`: the longest suffix of `s` that does not start with whitespace. */
  function TrimStart(s: string): (r: string)
    ensures |r| <= |s| && r == s[|s| - |r|..]
    ensures AllSpace(s[..|s| - |r|])
    ensures r == [] || !IsSpace(r[0])
  {
    if s == [] || !IsSpace(s[0]) then s
    else
      var r := TrimStart(s[1..]);
      assert s[..|s| - |r|] == [s[0]] + s[1..][..|s| - 1 - |r|];
      r
  }

  /** `s.rstrip()`: the longest prefix of `s` that does not end with whitespace. */
  function TrimEnd(s: string): (r: string)
    ensures |r| <= |s| && r == s[..|r|]
    ensures AllSpace(s[|r|..])
    ensures r == [] || !IsSpace(r[|r| - 1])
  {
    if s == [] || !IsSpace(s[|s| - 1]) then s
    else
      var r := TrimEnd(s[..|s| - 1]);
      assert s[|r|..] == s[..|s| - 1][|r|..] + [s[|s| - 1]];
      r
  }

  /** `s.strip()`: `s` without its leading and trailing whitespace. */
  function Strip(s: string): (r: string)
    ensures NoOuterSpace(r)
    ensures NoOuterSpace(s) ==> r == s
    ensures AllSpace(s) <==> r == []
  {
    var t := TrimStart(s);
    var r := TrimEnd(t);
    assert AllSpace(s) ==> t == [];
    assert r == [] ==> AllSpace(s) by {
      if r == [] {
        assert s == s[..|s| - |t|] + t;
        assert AllSpace(t[|r|..]);
      }
    }
    r
  }

  /** `Strip` keeps a contiguous piece of `s`: it starts where the
      left-trimmed string starts, and what it removes on either side is
      whitespace. */
  lemma StripIsInfix(s: string)
    ensures |Strip(s)| <= |TrimStart(s)| == |s[|s| - |TrimStart(s)|..]|
    ensures Strip(s) == s[|s| - |TrimStart(s)|..][..|Strip(s)|]
    ensures AllSpace(s[..|s| - |TrimStart(s)|])
    ensures AllSpace(s[|s| - |TrimStart(s)|..][|Strip(s)|..])
  {
  }

  /** Appending `c` to a string with some non-whitespace character appends
      it to the left-trimmed string too. */
  lemma {:induction false} TrimStartAppend(s: string, c: char)
    ensures TrimStart(s + [c]) == if AllSpace(s) then TrimStart([c]) else TrimStart(s) + [c]
  {
    if s == [] {
      assert s + [c] == [c];
    } else if !IsSpace(s[0]) {
      assert (s + [c])[0] == s[0];
    } else {
      assert (s + [c])[0] == s[0] && (s + [c])[1..] == s[1..] + [c];
      assert TrimStart(s + [c]) == TrimStart(s[1..] + [c]);
      TrimStartAppend(s[1..], c);
      AllSpaceTail(s);
    }
  }

  /** A string that starts with whitespace is all whitespace exactly when
      the rest of it is. */
  lemma AllSpaceTail(s: string)
    requires s != [] && IsSpace(s[0])
    ensures AllSpace(s) <==> AllSpace(s[1..])
  {
    if AllSpace(s[1..]) {
      forall k | 0 <= k < |s| ensures IsSpace(s[k]) {
        if k > 0 { assert s[k] == s[1..][k - 1]; }
      }
    }
  }

  /** A trailing whitespace character makes no difference to `strip()`. */
  lemma StripDropsTrailingSpace(s: string, c: char)
    requires IsSpace(c)
    ensures Strip(s + [c]) == Strip(s)
  {
    TrimStartAppend(s, c);
    var t := TrimStart(s);
    if AllSpace(s) {
      assert TrimStart([c]) == TrimStart([c][1..]);
      assert [c][1..] == [];
      assert Strip(s) == [];
    } else {
      var u := t + [c];
      assert u[..|u| - 1] == t;
    }
  }

  /** BeautifulSoup's `get_text(strip=True)` on an element: every descendant
      string is stripped and the non-empty ones are concatenated with no
      separator (an empty one contributes nothing either way). */
  function StrippedText(strings: seq<string>): (r: string)
    ensures NoOuterSpace(r)
  {
    if strings == [] then ""
    else
      var front := StrippedText(strings[..|strings| - 1]);
      var last := Strip(strings[|strings| - 1]);
      ConcatNoOuterSpace(front, last);
      front + last
  }

  lemma ConcatNoOuterSpace(a: string, b: string)
    requires NoOuterSpace(a) && NoOuterSpace(b)
    ensures NoOuterSpace(a + b)
  {
    if a == [] {
      assert a + b == b;
    } else if b == [] {
      assert a + b == a;
    } else {
      assert (a + b)[0] == a[0];
      assert (a + b)[|a + b| - 1] == b[|b| - 1];
    }
  }

  /** The parts joined by single spaces, as `" ".join(parts)` would give:
      the reference definition the assembly loop of scraper.py:147-156,
      which appends a space after every piece and strips once, is proved
      against. */
  function JoinWithSpaces(parts: seq<string>): string {
    if parts == [] then ""
    else if |parts| == 1 then parts[0]
    else JoinWithSpaces(parts[..|parts| - 1]) + " " + parts[|parts| - 1]
  }

  /** Joining non-empty pieces that have no outer whitespace gives a string
      with no outer whitespace, non-empty when there is a piece. */
  lemma {:induction false} JoinWithSpacesNoOuterSpace(parts: seq<string>)
    requires forall k :: 0 <= k < |parts| ==> parts[k] != [] && NoOuterSpace(parts[k])
    ensures NoOuterSpace(JoinWithSpaces(parts))
    ensures parts != [] ==> JoinWithSpaces(parts) != []
  {
    if |parts| > 1 {
      var front := parts[..|parts| - 1];
      JoinWithSpacesNoOuterSpace(front);
      var j := JoinWithSpaces(front);
      var last := parts[|parts| - 1];
      var r := j + " " + last;
      assert r[0] == j[0];
      assert r[|r| - 1] == last[|last| - 1];
    }
  }

  predicate IsDigit(c: char) {
    '0' <= c <= '9'
  }

  /** The decimal digit for `d`. */
  function Digit(d: nat): (c: char)
    requires d < 10
    ensures IsDigit(c) && c as int - '0' as int == d
  {
    (d + '0' as int) as char
  }

  /** `str(n)` for a non-negative integer: its decimal digits, most
      significant first, with no leading zero. */
  function NatToDecimal(n: nat): (r: string)
    ensures |r| >= 1
    ensures forall k :: 0 <= k < |r| ==> IsDigit(r[k])
    ensures |r| > 1 ==> r[0] != '0'
  {
    if n < 10 then [Digit(n)] else NatToDecimal(n / 10) + [Digit(n % 10)]
  }

  /** `str(n)` for any integer: a minus sign before the magnitude when
      negative, and decimal digits after it. */
  function IntToDecimal(n: int): (r: string)
    ensures r != [] && (r[0] == '-' <==> n < 0)
    ensures forall k :: (if n < 0 then 1 else 0) <= k < |r| ==> IsDigit(r[k])
    ensures |r| > (if n < 0 then 1 else 0)
  {
    if n < 0 then "-" + NatToDecimal(-n) else NatToDecimal(n)
  }

  /** Different numbers have different decimal forms. */
  lemma {:induction false} NatToDecimalInjective(a: nat, b: nat)
    requires NatToDecimal(a) == NatToDecimal(b)
    ensures a == b
  {
    var ra, rb := NatToDecimal(a), NatToDecimal(b);
    if a < 10 && b < 10 {
      assert ra[0] == Digit(a) && rb[0] == Digit(b);
    } else if a >= 10 && b >= 10 {
      assert ra[|ra| - 1] == Digit(a % 10) && rb[|rb| - 1] == Digit(b % 10);
      assert ra[..|ra| - 1] == NatToDecimal(a / 10);
      assert rb[..|rb| - 1] == NatToDecimal(b / 10);
      NatToDecimalInjective(a / 10, b / 10);
    }
  }

  /** Four-digit numbers have four-character decimal forms. */
  lemma FourDigits(n: nat)
    requires 1000 <= n < 10000
    ensures |NatToDecimal(n)| == 4
  {
    assert NatToDecimal(n) == NatToDecimal(n / 10) + [Digit(n % 10)];
    assert NatToDecimal(n / 10) == NatToDecimal(n / 100) + [Digit(n / 10 % 10)];
    assert NatToDecimal(n / 100) == NatToDecimal(n / 1000) + [Digit(n / 100 % 10)];
  }

  /** `s.replace(pat, "")`: every occurrence of `pat`, scanning left to right
      without overlaps, removed. */
  function RemoveAll(s: string, pat: string): (r: string)
    requires pat != []
    ensures |r| <= |s|
    decreases |s|
  {
    if |s| < |pat| then s
    else if s[..|pat|] == pat then RemoveAll(s[|pat|..], pat)
    else [s[0]] + RemoveAll(s[1..], pat)
  }

  /** When the first character of `pat` does not occur in `s`, the only
      occurrence of `pat` in `s + pat` is the final one. */
  lemma {:induction false} RemoveAllSuffix(s: string, pat: string)
    requires pat != [] && pat[0] !in s
    ensures RemoveAll(s + pat, pat) == s
    decreases |s|
  {
    var t := s + pat;
    if s == [] {
      assert t == pat && t[|pat|..] == [];
    } else {
      assert t[0] == s[0] && t[0] != pat[0];
      assert t[..|pat|] != pat;
      assert t[1..] == s[1..] + pat;
      RemoveAllSuffix(s[1..], pat);
      assert [s[0]] + s[1..] == s;
    }
  }

  /** `s[:n]`. */
  function Prefix(s: string, n: nat): (r: string)
    ensures |r| <= n && |r| <= |s| && r == s[..|r|]
    ensures |s| <= n ==> r == s
  {
    if |s| <= n then s else s[..n]
  }
}
