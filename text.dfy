/** The JavaScript string built-ins the task manager relies on:
    `String.prototype.trim`, `toLowerCase`, `includes`, `padStart(2, '0')` and
    the conversion of a non-negative integer to its decimal text. */
module Text {

  /** The characters `trim` removes: ECMAScript WhiteSpace (tab, vertical tab,
      form feed, space, no-break space, byte order mark and the Zs category)
      and LineTerminator (line feed, carriage return, U+2028, U+2029). */
  predicate IsSpace(c: char) {
    || c == '\t' || c == '\n' || c == '\U{B}' || c == '\U{C}' || c == '\r' || c == ' '
    || c == '\U{A0}' || c == '\U{1680}' || ('\U{2000}' <= c <= '\U{200A}')
    || c == '\U{2028}' || c == '\U{2029}' || c == '\U{202F}' || c == '\U{205F}'
    || c == '\U{3000}' || c == '\U{FEFF}'
  }

  /** `s` with its leading white space removed. */
  function TrimStart(s: string): (r: string)
    ensures |r| <= |s|
    decreases |s|
  {
    if s != [] && IsSpace(s[0]) then TrimStart(s[1..]) else s
  }

  /** What `TrimStart` removes is white space, and what it keeps is a suffix
      that does not start with white space. */
  lemma {:induction false} TrimStartSpec(s: string)
    ensures TrimStart(s) == s[|s| - |TrimStart(s)|..]
    ensures TrimStart(s) == [] || !IsSpace(TrimStart(s)[0])
    ensures forall k :: 0 <= k < |s| - |TrimStart(s)| ==> IsSpace(s[k])
    decreases |s|
  {
    if s != [] && IsSpace(s[0]) {
      TrimStartSpec(s[1..]);
      forall k | 1 <= k < |s| - |TrimStart(s)|
        ensures IsSpace(s[k])
      {
        assert s[k] == s[1..][k - 1];
      }
    }
  }

  /** `s` with its trailing white space removed. */
  function TrimEnd(s: string): (r: string)
    ensures |r| <= |s|
    decreases |s|
  {
    if s != [] && IsSpace(s[|s| - 1]) then TrimEnd(s[..|s| - 1]) else s
  }

  /** What `TrimEnd` removes is white space, and what it keeps is a prefix
      that does not end with white space. */
  lemma {:induction false} TrimEndSpec(s: string)
    ensures TrimEnd(s) == s[..|TrimEnd(s)|]
    ensures TrimEnd(s) == [] || !IsSpace(TrimEnd(s)[|TrimEnd(s)| - 1])
    ensures forall k :: |TrimEnd(s)| <= k < |s| ==> IsSpace(s[k])
    decreases |s|
  {
    if s != [] && IsSpace(s[|s| - 1]) {
      TrimEndSpec(s[..|s| - 1]);
    }
  }

  /** `s.trim()`. */
  function Trim(s: string): (r: string)
    ensures |r| <= |s|
  {
    TrimEnd(TrimStart(s))
  }

  /** `s.trim()` is a contiguous piece of `s` that neither starts nor ends
      with white space; it is empty exactly when `s` is all white space. */
  lemma TrimSpec(s: string)
    ensures Contains(s, Trim(s))
    ensures Trim(s) == [] || (!IsSpace(Trim(s)[0]) && !IsSpace(Trim(s)[|Trim(s)| - 1]))
    ensures Trim(s) == [] <==> forall k :: 0 <= k < |s| ==> IsSpace(s[k])
  {
    var t := TrimStart(s);
    var r := TrimEnd(t);
    var a := |s| - |t|;
    TrimStartSpec(s);
    TrimEndSpec(t);
    forall k | 0 <= k < |r|
      ensures r[k] == s[a + k]
    {
      assert r[k] == t[k];
    }
    assert s[a..a + |r|] == r;
    assert SliceAt(s, r, a);
    if r == [] {
      assert t == [];
    } else {
      assert r[0] == s[a];
    }
  }

  /** Trimming strips the Unicode spaces too, not only the ASCII ones: a
      lone no-break space trims to nothing, and an ideographic space and a
      line separator around a letter are removed. */
  lemma TrimUnicodeSpaces()
    ensures Trim("\U{A0}") == ""
    ensures Trim("\U{FEFF}\U{3000}a\U{2028}\U{202F}") == "a"
  {
    TrimSpec("\U{A0}");
    var s := "\U{FEFF}\U{3000}a\U{2028}\U{202F}";
    assert TrimStart(s) == TrimStart(s[1..]) == TrimStart(s[2..]) == s[2..];
    var t := s[2..];
    assert TrimEnd(t) == TrimEnd(t[..2]) == TrimEnd(t[..1]) == "a";
  }

  /** Trimming twice removes nothing more. */
  lemma TrimIdempotent(s: string)
    ensures Trim(Trim(s)) == Trim(s)
  {
    var r := Trim(s);
    TrimSpec(s);
    assert TrimStart(r) == r;
    assert TrimEnd(r) == r;
  }

  /** The case mapping of `toLowerCase` on the ASCII letters. */
  function LowerChar(c: char): char {
    if 'A' <= c <= 'Z' then (c as int + 32) as char else c
  }

  predicate IsLowered(s: string) {
    forall k :: 0 <= k < |s| ==> !('A' <= s[k] <= 'Z')
  }

  /** `s.toLowerCase()`: the same length, each character case-mapped, and no
      upper-case letter left. */
  function Lower(s: string): (r: string)
    ensures |r| == |s|
    ensures forall k :: 0 <= k < |s| ==> r[k] == LowerChar(s[k])
    ensures IsLowered(r)
    decreases |s|
  {
    if s == [] then [] else [LowerChar(s[0])] + Lower(s[1..])
  }

  /** Lower-casing text that has no upper-case letter changes nothing; in
      particular lower-casing is idempotent. */
  lemma LowerOfLowered(s: string)
    requires IsLowered(s)
    ensures Lower(s) == s
  {
  }

  /** Lower-casing neither creates nor removes white space, so it commutes
      with trimming: `x.toLowerCase().trim() == x.trim().toLowerCase()`. */
  lemma {:induction false} LowerTrimCommute(s: string)
    ensures Trim(Lower(s)) == Lower(Trim(s))
  {
    LowerStartCommute(s);
    var t := TrimStart(s);
    LowerEndCommute(t);
  }

  lemma {:induction false} LowerStartCommute(s: string)
    ensures TrimStart(Lower(s)) == Lower(TrimStart(s))
    decreases |s|
  {
    if s != [] {
      var l := Lower(s);
      assert l[1..] == Lower(s[1..]);
      LowerCharSpace(s[0]);
      if IsSpace(s[0]) {
        LowerStartCommute(s[1..]);
      }
    }
  }

  lemma {:induction false} LowerEndCommute(s: string)
    ensures TrimEnd(Lower(s)) == Lower(TrimEnd(s))
    decreases |s|
  {
    if s != [] {
      var l := Lower(s);
      assert l[..|l| - 1] == Lower(s[..|s| - 1]);
      LowerCharSpace(s[|s| - 1]);
      if IsSpace(s[|s| - 1]) {
        LowerEndCommute(s[..|s| - 1]);
        assert TrimEnd(l) == TrimEnd(l[..|l| - 1]);
      } else {
        assert TrimEnd(l) == l;
      }
    }
  }

  /** Case mapping leaves white space alone and makes none. */
  lemma LowerCharSpace(c: char)
    ensures IsSpace(LowerChar(c)) == IsSpace(c)
  {
  }

  /** `s.includes(sub)`. */
  predicate Contains(s: string, sub: string) {
    exists i | 0 <= i <= |s| - |sub| :: SliceAt(s, sub, i)
  }

  /** `sub` occurs in `s` starting at index `i`. */
  predicate SliceAt(s: string, sub: string, i: int) {
    0 <= i <= |s| - |sub| && s[i..i + |sub|] == sub
  }

  predicate IsDigit(c: char) {
    '0' <= c <= '9'
  }

  function DigitChar(d: nat): (c: char)
    requires d < 10
    ensures IsDigit(c)
  {
    ('0' as int + d) as char
  }

  function DigitValue(c: char): nat
    requires IsDigit(c)
  {
    c as int - '0' as int
  }

  predicate AllDigits(s: string) {
    forall k :: 0 <= k < |s| ==> IsDigit(s[k])
  }

  /** `String(n)` for a non-negative integer: decimal digits, no leading zero. */
  function NatToString(n: nat): (r: string)
    ensures |r| >= 1 && AllDigits(r)
    ensures r[0] == '0' <==> n == 0
    decreases n
  {
    if n < 10 then [DigitChar(n)] else NatToString(n / 10) + [DigitChar(n % 10)]
  }

  /** The value of a string of decimal digits. */
  function ParseNat(s: string): nat
    requires AllDigits(s)
    decreases |s|
  {
    if s == [] then 0 else ParseNat(s[..|s| - 1]) * 10 + DigitValue(s[|s| - 1])
  }

  /** Reading the decimal text of `n` back gives `n`. */
  lemma {:induction false} ParseNatToString(n: nat)
    ensures ParseNat(NatToString(n)) == n
    decreases n
  {
    if n >= 10 {
      var r := NatToString(n);
      assert r[..|r| - 1] == NatToString(n / 10);
      ParseNatToString(n / 10);
    }
  }

  /** Leading zeros do not change the value of a digit string. */
  lemma {:induction false} ParseNatLeadingZero(s: string)
    requires AllDigits(s)
    ensures ParseNat("0" + s) == ParseNat(s)
    decreases |s|
  {
    if s != [] {
      var z := "0" + s;
      assert z[..|z| - 1] == "0" + s[..|s| - 1];
      ParseNatLeadingZero(s[..|s| - 1]);
    }
  }

  /** `String(n).padStart(2, '0')`: at least two digits, whose value is `n`. */
  function Pad2(n: nat): (r: string)
    ensures |r| >= 2 && AllDigits(r)
    ensures ParseNat(r) == n
  {
    var t := NatToString(n);
    ParseNatToString(n);
    if |t| < 2 then ParseNatLeadingZero(t); "0" + t else t
  }
}
