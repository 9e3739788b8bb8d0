/**
 * The JavaScript string and number primitives the control relies on, written out:
 * decimal formatting of integers, `Number.parseInt(s, 10)`, `lastIndexOf`, `split`/`join`
 * on one separator character, `>>> 0`, `slice(start)`, ASCII `toLowerCase` and `indexOf(sub) > -1`.
 */
module JsText {
  import opened Wrappers

  predicate IsDigit(c: char)
  {
    '0' <= c <= '9'
  }

  function DigitChar(d: nat): char
    requires d < 10
  {
    ['0', '1', '2', '3', '4', '5', '6', '7', '8', '9'][d]
  }

  function DigitValue(c: char): nat
    requires IsDigit(c)
  {
    (c as int - '0' as int) as nat
  }

  /** The decimal text of a non-negative integer, as a template literal prints it. */
  function NatToString(n: nat): (s: string)
    ensures |s| > 0 && forall k :: 0 <= k < |s| ==> IsDigit(s[k])
  {
    if n < 10 then [DigitChar(n)] else NatToString(n / 10) + [DigitChar(n % 10)]
  }

  /** The value of a non-empty string of decimal digits, read left to right. */
  function DigitsValue(ds: string): nat
    requires forall k :: 0 <= k < |ds| ==> IsDigit(ds[k])
  {
    if |ds| == 0 then 0 else DigitsValue(ds[..|ds| - 1]) * 10 + DigitValue(ds[|ds| - 1])
  }

  /** The longest prefix of decimal digits. */
  function DigitPrefix(s: string): (ds: string)
    ensures |ds| <= |s| && ds == s[..|ds|]
    ensures forall k :: 0 <= k < |ds| ==> IsDigit(ds[k])
    ensures |ds| < |s| ==> !IsDigit(s[|ds|])
  {
    if |s| > 0 && IsDigit(s[0]) then [s[0]] + DigitPrefix(s[1..]) else ""
  }

  /** ECMAScript StrWhiteSpaceChar: the white space and line terminator code points. */
  predicate IsJsWhitespace(c: char)
  {
    c == '\t' || c == '\n' || c == '\U{000B}' || c == '\U{000C}' || c == '\r' || c == ' '
    || c == '\U{00A0}' || c == '\U{1680}' || ('\U{2000}' <= c <= '\U{200A}')
    || c == '\U{2028}' || c == '\U{2029}' || c == '\U{202F}' || c == '\U{205F}'
    || c == '\U{3000}' || c == '\U{FEFF}'
  }

  function TrimStart(s: string): (t: string)
    ensures |t| <= |s| && t == s[|s| - |t|..]
    ensures forall k :: 0 <= k < |s| - |t| ==> IsJsWhitespace(s[k])
    ensures |t| > 0 ==> !IsJsWhitespace(t[0])
  {
    if |s| > 0 && IsJsWhitespace(s[0]) then TrimStart(s[1..]) else s
  }

  /**
   * `Number.parseInt(s, 10)`: skip leading white space, take one optional sign, then the
   * longest run of decimal digits; None stands for NaN (no digit at all).
   */
  function ParseInt(s: string): (r: Option<int>)
    ensures r.Some? ==> exists k :: 0 <= k < |s| && IsDigit(s[k])
    ensures r.Some? && r.value < 0 ==> '-' in s
  {
    var t := TrimStart(s);
    assert forall k :: 0 <= k < |t| ==> t[k] == s[|s| - |t| + k];
    ParseTrimmed(t)
  }

  /** parseInt on text that starts after the white space: one optional sign, then digits. */
  function ParseTrimmed(t: string): (r: Option<int>)
    ensures r.Some? ==> exists k :: 0 <= k < |t| && IsDigit(t[k])
    ensures r.Some? && r.value < 0 ==> |t| > 0 && t[0] == '-'
  {
    var negative := |t| > 0 && t[0] == '-';
    var u := if |t| > 0 && (t[0] == '-' || t[0] == '+') then t[1..] else t;
    var ds := DigitPrefix(u);
    if |ds| == 0 then None
    else if negative then Some(-(DigitsValue(ds) as int))
    else Some(DigitsValue(ds))
  }

  /** Leading white space does not change what `TrimStart` leaves. */
  lemma {:induction false} TrimStartSkipsWhitespace(w: string, s: string)
    requires forall k :: 0 <= k < |w| ==> IsJsWhitespace(w[k])
    ensures TrimStart(w + s) == TrimStart(s)
  {
    if |w| > 0 {
      assert (w + s)[0] == w[0];
      assert (w + s)[1..] == w[1..] + s;
      TrimStartSkipsWhitespace(w[1..], s);
    } else {
      assert w + s == s;
    }
  }

  /** parseInt skips leading white space. */
  lemma ParseIntSkipsWhitespace(w: string, s: string)
    requires forall k :: 0 <= k < |w| ==> IsJsWhitespace(w[k])
    ensures ParseInt(w + s) == ParseInt(s)
  {
    TrimStartSkipsWhitespace(w, s);
  }

  /**
   * parseInt after leading white space and a sign reads the decimal that follows,
   * negated after a minus ("  -12px" is -12, "+7" is 7).
   */
  lemma ParseIntSigned(w: string, c: char, n: nat, suffix: string)
    requires forall k :: 0 <= k < |w| ==> IsJsWhitespace(w[k])
    requires c == '-' || c == '+'
    requires |suffix| == 0 || !IsDigit(suffix[0])
    ensures ParseInt(w + [c] + NatToString(n) + suffix) == Some(Signed(c, n))
  {
    SignedDigitsAfterWhitespace(w, c, NatToString(n), suffix);
    DigitsValueOfNatToString(n);
  }

  /** A value read after a sign: negated after a minus. */
  function Signed(c: char, v: nat): int
  {
    if c == '-' then -(v as int) else v
  }

  /** White space, a sign, a run of digits and then a non-digit: the signed value of the digits. */
  lemma SignedDigitsAfterWhitespace(w: string, c: char, ds: string, suffix: string)
    requires forall k :: 0 <= k < |w| ==> IsJsWhitespace(w[k])
    requires c == '-' || c == '+'
    requires |ds| > 0 && forall k :: 0 <= k < |ds| ==> IsDigit(ds[k])
    requires |suffix| == 0 || !IsDigit(suffix[0])
    ensures ParseInt(w + [c] + ds + suffix) == Some(Signed(c, DigitsValue(ds)))
  {
    Regrouped(w + [c], ds, suffix);
    Regrouped(w, [c], ds + suffix);
    ParseIntSkipsWhitespace(w, [c] + (ds + suffix));
    SignedParse(c, ds, suffix);
  }

  /** A sign followed by a run of digits and then a non-digit reads as the signed digits. */
  lemma SignedParse(c: char, ds: string, suffix: string)
    requires c == '-' || c == '+'
    requires |ds| > 0 && forall k :: 0 <= k < |ds| ==> IsDigit(ds[k])
    requires |suffix| == 0 || !IsDigit(suffix[0])
    ensures ParseInt([c] + (ds + suffix)) == Some(Signed(c, DigitsValue(ds)))
  {
    DigitPrefixOfDigits(ds, suffix);
    SignedTrimmed(c, ds + suffix);
  }

  /** Concatenation regrouped to the right. */
  lemma Regrouped(a: string, b: string, c: string)
    ensures a + b + c == a + (b + c)
  {
  }

  /** A sign and then a digit: trimming keeps the sign, and the leading digits after it are read. */
  lemma SignedTrimmed(c: char, t: string)
    requires c == '-' || c == '+'
    requires |DigitPrefix(t)| > 0
    ensures ParseInt([c] + t) == Some(Signed(c, DigitsValue(DigitPrefix(t))))
  {
    assert ([c] + t)[0] == c && ([c] + t)[1..] == t;
    assert !IsJsWhitespace(c);
  }

  /**
   * parseInt is NaN exactly when, after the white space and one sign, the text does not
   * start with a digit.
   */
  lemma ParseIntNaN(s: string)
    ensures var t := TrimStart(s);
            var u := if |t| > 0 && (t[0] == '-' || t[0] == '+') then t[1..] else t;
            ParseInt(s).None? <==> |u| == 0 || !IsDigit(u[0])
  {
  }

  lemma {:induction false} DigitsValueOfNatToString(n: nat)
    ensures DigitsValue(NatToString(n)) == n
  {
    var s := NatToString(n);
    if n >= 10 {
      DigitsValueOfNatToString(n / 10);
      assert s[..|s| - 1] == NatToString(n / 10);
    }
  }

  lemma {:induction false} DigitPrefixOfDigits(a: string, rest: string)
    requires forall k :: 0 <= k < |a| ==> IsDigit(a[k])
    requires |rest| == 0 || !IsDigit(rest[0])
    ensures DigitPrefix(a + rest) == a
  {
    if |a| > 0 {
      assert (a + rest)[1..] == a[1..] + rest;
      DigitPrefixOfDigits(a[1..], rest);
    } else {
      assert a + rest == rest;
    }
  }

  /**
   * parseInt reads back the decimal text of a number, whatever non-digit text follows it
   * ("12px" is 12).
   */
  lemma ParseIntOfDecimal(n: nat, suffix: string)
    requires |suffix| == 0 || !IsDigit(suffix[0])
    ensures ParseInt(NatToString(n) + suffix) == Some(n)
  {
    ParseIntOfDigits(NatToString(n), suffix);
    DigitsValueOfNatToString(n);
  }

  /** parseInt reads a run of digits followed by a non-digit as the value of the digits. */
  lemma ParseIntOfDigits(ds: string, suffix: string)
    requires |ds| > 0 && forall k :: 0 <= k < |ds| ==> IsDigit(ds[k])
    requires |suffix| == 0 || !IsDigit(suffix[0])
    ensures ParseInt(ds + suffix) == Some(DigitsValue(ds))
  {
    var s := ds + suffix;
    assert s[0] == ds[0];
    TrimStartAtDigit(s);
    DigitPrefixOfDigits(ds, suffix);
    UnsignedParse(s);
  }

  /** Without leading white space or sign, parseInt reads the leading digits. */
  lemma UnsignedParse(s: string)
    requires TrimStart(s) == s && |s| > 0 && s[0] != '-' && s[0] != '+'
    requires |DigitPrefix(s)| > 0
    ensures ParseInt(s) == Some(DigitsValue(DigitPrefix(s)))
  {
  }

  /** White-space trimming stops at a digit. */
  lemma TrimStartAtDigit(s: string)
    requires |s| > 0 && IsDigit(s[0])
    ensures TrimStart(s) == s && s[0] != '-' && s[0] != '+'
  {
    assert !IsJsWhitespace(s[0]);
  }

  /** `s.lastIndexOf(c)`: the index of the last occurrence of `c`, or -1. */
  function LastIndexOf(s: string, c: char): (r: int)
    ensures -1 <= r < |s|
    ensures r >= 0 ==> s[r] == c
    ensures forall k :: r < k < |s| ==> s[k] != c
  {
    if |s| == 0 then -1
    else
      var r := LastIndexOf(s[1..], c);
      if r >= 0 then r + 1 else if s[0] == c then 0 else -1
  }

  /** An occurrence of `c` with none after it is the last one. */
  lemma LastIndexOfAt(s: string, c: char, i: nat)
    requires i < |s| && s[i] == c
    requires forall k :: i < k < |s| ==> s[k] != c
    ensures LastIndexOf(s, c) == i
  {
  }

  /** `x >>> 0`: the integer reduced modulo 2^32 to an unsigned 32-bit value. */
  function ToUint32(x: int): (r: nat)
    ensures r < 0x1_0000_0000
  {
    x % 0x1_0000_0000
  }

  /** A value within one period of zero is kept when non-negative and shifted up by 2^32 when negative. */
  lemma ToUint32OneWrap(x: int)
    requires -0x1_0000_0000 <= x < 0x1_0000_0000
    ensures ToUint32(x) == if x >= 0 then x else x + 0x1_0000_0000
  {
    if x < 0 {
      assert (x + 0x1_0000_0000) % 0x1_0000_0000 == x + 0x1_0000_0000;
    }
  }

  /** `s.slice(start)` for a non-negative start: empty once start reaches the end. */
  function Slice(s: string, start: nat): (r: string)
    ensures |r| == if start >= |s| then 0 else |s| - start
    ensures r == s[|s| - |r|..]
  {
    if start >= |s| then "" else s[start..]
  }

  /** `s.split(sep)`: the pieces between occurrences of `sep`; always at least one piece. */
  function Split(s: string, sep: char): (r: seq<string>)
    ensures |r| >= 1
  {
    if |s| == 0 then [""]
    else
      var rest := Split(s[1..], sep);
      if s[0] == sep then [""] + rest else [[s[0]] + rest[0]] + rest[1..]
  }

  /** `parts.join(sep)`. */
  function Join(parts: seq<string>, sep: char): (r: string)
    ensures |parts| > 0 ==> |parts[0]| <= |r| && r[..|parts[0]|] == parts[0]
    ensures |parts| > 1 ==> |parts[0]| < |r| && r[|parts[0]|] == sep
    ensures |parts| <= 1 ==> r == if |parts| == 0 then "" else parts[0]
  {
    if |parts| == 0 then ""
    else if |parts| == 1 then parts[0]
    else parts[0] + [sep] + Join(parts[1..], sep)
  }

  lemma JoinConsHead(c: char, x: string, z: seq<string>, sep: char)
    ensures Join([[c] + x] + z, sep) == [c] + Join([x] + z, sep)
  {
    if |z| > 0 {
      assert ([[c] + x] + z)[1..] == z;
      assert ([x] + z)[1..] == z;
    }
  }

  /** Splitting and joining again on the same separator gives back the string. */
  lemma {:induction false} JoinSplit(s: string, sep: char)
    ensures Join(Split(s, sep), sep) == s
  {
    if |s| > 0 {
      var rest := Split(s[1..], sep);
      JoinSplit(s[1..], sep);
      if s[0] == sep {
        assert ([""] + rest)[1..] == rest;
        assert s == [sep] + s[1..];
      } else {
        JoinConsHead(s[0], rest[0], rest[1..], sep);
        assert [rest[0]] + rest[1..] == rest;
        assert s == [s[0]] + s[1..];
      }
    }
  }

  /** There is one more piece than there are separators: more than one exactly when `sep` occurs. */
  lemma {:induction false} SplitCount(s: string, sep: char)
    ensures |Split(s, sep)| > 1 <==> LastIndexOf(s, sep) >= 0
  {
    if |s| > 0 {
      SplitCount(s[1..], sep);
    }
  }

  /** `parts.slice(0, -1)`. */
  function DropLast(parts: seq<string>): (r: seq<string>)
    ensures |r| == if |parts| == 0 then 0 else |parts| - 1
    ensures r == parts[..|r|]
  {
    if |parts| == 0 then [] else parts[..|parts| - 1]
  }

  /** The text before the last separator, and the empty string when there is none. */
  function BeforeLast(s: string, sep: char): (r: string)
    ensures |r| <= |s| && r == s[..|r|]
    ensures sep !in s ==> r == ""
    ensures sep in s ==> |r| < |s| && s[|r|] == sep && sep !in s[|r| + 1..]
  {
    var i := LastIndexOf(s, sep);
    if i >= 0 then s[..i] else ""
  }

  /**
   * `s.split(sep).slice(0, -1).join(sep)` is the text before the last separator, and the
   * empty string when there is none.
   */
  lemma {:induction false} TextBeforeLast(s: string, sep: char)
    ensures Join(DropLast(Split(s, sep)), sep) == BeforeLast(s, sep)
  {
    if |s| > 0 {
      TextBeforeLast(s[1..], sep);
      SplitCount(s[1..], sep);
      if s[0] == sep {
        BeforeLastAfterSep(s, sep);
      } else {
        BeforeLastAfterChar(s, sep);
      }
    }
  }

  /** The step of `TextBeforeLast` for a text that starts with the separator. */
  lemma BeforeLastAfterSep(s: string, sep: char)
    requires |s| > 0 && s[0] == sep
    requires Join(DropLast(Split(s[1..], sep)), sep) == BeforeLast(s[1..], sep)
    requires |Split(s[1..], sep)| > 1 <==> LastIndexOf(s[1..], sep) >= 0
    ensures Join(DropLast(Split(s, sep)), sep) == BeforeLast(s, sep)
  {
    var t := s[1..];
    var rest := Split(t, sep);
    var i := LastIndexOf(t, sep);
    assert Split(s, sep) == [""] + rest;
    if i >= 0 {
      assert LastIndexOf(s, sep) == i + 1;
      JoinDropLastConsEmpty(rest, sep);
      assert s[..i + 1] == [sep] + t[..i];
    } else {
      assert LastIndexOf(s, sep) == 0;
      assert DropLast([""] + rest) == [""];
    }
  }

  /** An empty first piece before several pieces adds one separator in front of the join of all but the last. */
  lemma JoinDropLastConsEmpty(parts: seq<string>, sep: char)
    requires |parts| > 1
    ensures Join(DropLast([""] + parts), sep) == [sep] + Join(DropLast(parts), sep)
  {
    var z := DropLast(parts);
    assert DropLast([""] + parts) == [""] + z;
    assert ([""] + z)[1..] == z;
  }

  /** The step of `TextBeforeLast` for a text that starts with another character. */
  lemma BeforeLastAfterChar(s: string, sep: char)
    requires |s| > 0 && s[0] != sep
    requires Join(DropLast(Split(s[1..], sep)), sep) == BeforeLast(s[1..], sep)
    requires |Split(s[1..], sep)| > 1 <==> LastIndexOf(s[1..], sep) >= 0
    ensures Join(DropLast(Split(s, sep)), sep) == BeforeLast(s, sep)
  {
    var t := s[1..];
    var rest := Split(t, sep);
    var i := LastIndexOf(t, sep);
    assert Split(s, sep) == [[s[0]] + rest[0]] + rest[1..];
    if i >= 0 {
      assert LastIndexOf(s, sep) == i + 1;
      JoinDropLastConsHead(s[0], rest, sep);
      assert s[..i + 1] == [s[0]] + t[..i];
    } else {
      assert LastIndexOf(s, sep) == -1;
    }
  }

  /** Gluing a character to the first of several pieces glues it to the join of all but the last. */
  lemma JoinDropLastConsHead(c: char, parts: seq<string>, sep: char)
    requires |parts| > 1
    ensures Join(DropLast([[c] + parts[0]] + parts[1..]), sep) == [c] + Join(DropLast(parts), sep)
  {
    var z := DropLast(parts)[1..];
    assert DropLast([[c] + parts[0]] + parts[1..]) == [[c] + parts[0]] + z;
    assert DropLast(parts) == [parts[0]] + z;
    JoinConsHead(c, parts[0], z, sep);
  }

  function ToLowerChar(c: char): char
  {
    if 'A' <= c <= 'Z' then (c as int + 32) as char else c
  }

  /** `s.toLowerCase()` on the ASCII letters. */
  function ToLower(s: string): (r: string)
    ensures |r| == |s|
    ensures forall k :: 0 <= k < |s| ==> r[k] == if 'A' <= s[k] <= 'Z' then (s[k] as int + 32) as char else s[k]
    ensures forall k :: 0 <= k < |r| ==> !('A' <= r[k] <= 'Z')
  {
    if |s| == 0 then "" else [ToLowerChar(s[0])] + ToLower(s[1..])
  }

  /** `s.indexOf(sub) > -1`. */
  predicate Contains(s: string, sub: string)
    ensures Contains(s, sub) ==> |sub| <= |s|
    ensures sub <= s ==> Contains(s, sub)
  {
    sub <= s || (|s| > 0 && Contains(s[1..], sub))
  }

  /** `sub` occurs in `s` starting at index `i`. */
  predicate OccursAt(s: string, sub: string, i: int)
  {
    0 <= i <= |s| - |sub| && s[i..i + |sub|] == sub
  }

  /** An occurrence in the tail is an occurrence one place further in the whole text. */
  lemma OccursInTail(s: string, sub: string, i: int)
    requires |s| > 0 && 0 <= i
    ensures OccursAt(s[1..], sub, i) <==> OccursAt(s, sub, i + 1)
  {
    if i <= |s| - 1 - |sub| {
      assert s[1..][i..i + |sub|] == s[i + 1..i + 1 + |sub|];
    }
  }

  /** `indexOf(sub) > -1`: the text holds an occurrence of `sub` somewhere. */
  lemma {:induction false} ContainsSpec(s: string, sub: string)
    ensures Contains(s, sub) <==> exists i :: OccursAt(s, sub, i)
  {
    if sub <= s {
      assert OccursAt(s, sub, 0);
    } else if |s| > 0 {
      ContainsSpec(s[1..], sub);
      if Contains(s[1..], sub) {
        var i :| OccursAt(s[1..], sub, i);
        OccursInTail(s, sub, i);
      }
      if exists i :: OccursAt(s, sub, i) {
        var i :| OccursAt(s, sub, i);
        assert i != 0;
        OccursInTail(s, sub, i - 1);
      }
    }
  }
}
