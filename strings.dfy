/**
 * The JavaScript string operations the engine relies on, over `seq<char>`:
 * decimal numerals (`String(n)`, `Number(s)`, `parseInt`), `split` and its
 * inverse, `includes`, `trim` and an ASCII `toLowerCase`.
 */
module Strings {
  import opened Wrappers

  // ---------------------------------------------------------------------
  // Decimal numerals
  // ---------------------------------------------------------------------

  predicate IsDigit(c: char) { '0' <= c <= '9' }

  function DigitValue(c: char): (v: nat)
    requires IsDigit(c)
    ensures v < 10
  {
    c as int - '0' as int
  }

  function DigitChar(v: nat): (c: char)
    requires v < 10
    ensures IsDigit(c) && DigitValue(c) == v
  {
    (v + '0' as int) as char
  }

  predicate IsDigits(s: string) { forall i :: 0 <= i < |s| ==> IsDigit(s[i]) }

  /** The value of a string of decimal digits, most significant first. */
  function DecimalValue(s: string): (v: nat)
    requires IsDigits(s)
  {
    if s == [] then 0 else DecimalValue(s[..|s| - 1]) * 10 + DigitValue(s[|s| - 1])
  }

  /**
   * `String(n)` for a non-negative integer: the canonical numeral, which
   * reads back as `n` and has no leading zero.
   */
  function NatToDecimal(n: nat): (s: string)
    ensures 1 <= |s| && IsDigits(s)
    ensures DecimalValue(s) == n
    ensures s[0] == '0' ==> n == 0
    ensures n < 10 <==> |s| == 1
  {
    if n < 10 then [DigitChar(n)]
    else
      var prefix := NatToDecimal(n / 10);
      var s := prefix + [DigitChar(n % 10)];
      assert s[..|s| - 1] == prefix;
      s
  }

  /** `String(n)` (or a template literal `${n}`) for any integer. */
  function IntToDecimal(n: int): (s: string)
    ensures 1 <= |s|
    ensures n >= 0 ==> s == NatToDecimal(n)
    ensures n < 0 ==> s == "-" + NatToDecimal(-n)
  {
    if n < 0 then "-" + NatToDecimal(-n) else NatToDecimal(n)
  }

  /** Canonical numerals of different numbers differ. */
  lemma NatToDecimalInjective(a: nat, b: nat)
    requires NatToDecimal(a) == NatToDecimal(b)
    ensures a == b
  {
  }

  /**
   * `Number(s)` on integer numerals: surrounding white space is ignored, a
   * blank string reads as 0 and a sign may lead the digits; anything else
   * is `NaN`, here `None`.
   */
  function NumberOf(s: string): (r: Option<int>)
    ensures Trim(s) == [] ==> r == Some(0)
    ensures r.Some? && Trim(s) != [] ==> IsDigit(Trim(s)[|Trim(s)| - 1])
    ensures IsDigits(Trim(s)) ==> r.Some?
    ensures r.Some? <==> var t := Trim(s);
      t == [] || IsDigits(t) || (|t| >= 2 && (t[0] == '-' || t[0] == '+') && IsDigits(t[1..]))
    ensures Trim(s) != [] && IsDigits(Trim(s)) ==> r == Some(DecimalValue(Trim(s)))
  {
    var t := Trim(s);
    if t == [] then Some(0)
    else if IsDigits(t) then Some(DecimalValue(t))
    else if |t| >= 2 && (t[0] == '-' || t[0] == '+') && IsDigits(t[1..]) then
      var v: int := DecimalValue(t[1..]);
      Some(if t[0] == '-' then -v else v)
    else None
  }

  /** A string with no white space at either end is its own trim. */
  lemma TrimNonBlank(s: string)
    requires s != [] && !IsWhiteSpace(s[0]) && !IsWhiteSpace(s[|s| - 1])
    ensures Trim(s) == s
  {
    assert TrimStart(s) == s;
  }

  /** `Number(String(n)) === n`: a numeral reads back as its number. */
  lemma NumberOfDecimal(n: int)
    ensures NumberOf(IntToDecimal(n)) == Some(n)
  {
    if n >= 0 {
      NumberOfNatural(n);
    } else {
      NumberOfNegativeInt(n);
    }
  }

  lemma NumberOfNatural(n: int)
    requires n >= 0
    ensures NumberOf(IntToDecimal(n)) == Some(n)
  {
    NumberOfDigits(NatToDecimal(n));
  }

  lemma NumberOfNegativeInt(n: int)
    requires n < 0
    ensures NumberOf(IntToDecimal(n)) == Some(n)
  {
    NumberOfNegative(NatToDecimal(-n));
  }

  /** `Number` reads a non-empty string of digits as its value. */
  lemma NumberOfDigits(u: string)
    requires u != [] && IsDigits(u)
    ensures NumberOf(u) == Some(DecimalValue(u))
  {
    TrimNonBlank(u);
  }

  /** `Number` reads a minus sign followed by digits as the negated value. */
  lemma NumberOfNegative(u: string)
    requires u != [] && IsDigits(u)
    ensures NumberOf("-" + u) == Some(-(DecimalValue(u) as int))
  {
    var t := "-" + u;
    assert t[|t| - 1] == u[|u| - 1];
    TrimNonBlank(t);
    assert t[1..] == u;
  }

  // ---------------------------------------------------------------------
  // parseInt(s, 10)
  // ---------------------------------------------------------------------

  /** Length of the longest prefix of `s` made of decimal digits. */
  function DigitPrefixLength(s: string): (k: nat)
    ensures k <= |s| && IsDigits(s[..k])
    ensures k < |s| ==> !IsDigit(s[k])
  {
    if s == [] || !IsDigit(s[0]) then 0
    else
      var k := 1 + DigitPrefixLength(s[1..]);
      assert s[..k] == [s[0]] + s[1..][..k - 1];
      k
  }

  /**
   * `parseInt(s, 10)`: skips leading white space, reads an optional sign and
   * then the longest run of digits; `None` (NaN) when that run is empty.
   */
  function ParseInt(s: string): (r: Option<int>)
    ensures r.Some? <==> (var t := TrimStart(s);
                          var u := if t != [] && (t[0] == '+' || t[0] == '-') then t[1..] else t;
                          u != [] && IsDigit(u[0]))
  {
    var t := TrimStart(s);
    var negative := t != [] && t[0] == '-';
    var u := if t != [] && (t[0] == '+' || t[0] == '-') then t[1..] else t;
    var k := DigitPrefixLength(u);
    if k == 0 then None
    else
      var v: int := DecimalValue(u[..k]);
      Some(if negative then -v else v)
  }

  /** `parseInt` reads back every canonical numeral. */
  lemma ParseIntOfDecimal(n: nat)
    ensures ParseInt(NatToDecimal(n)) == Some(n)
  {
    ParseIntOfDigits(NatToDecimal(n));
  }

  /** `parseInt` reads a string of digits as its value. */
  lemma ParseIntOfDigits(s: string)
    requires s != [] && IsDigits(s)
    ensures ParseInt(s) == Some(DecimalValue(s))
  {
    var c := s[0];
    assert IsDigit(c);
    assert !IsWhiteSpace(c) && c != '+' && c != '-';
    assert TrimStart(s) == s;
    DigitPrefixOfDigits(s);
    assert s[..|s|] == s;
  }

  lemma {:induction false} DigitPrefixOfDigits(s: string)
    requires IsDigits(s)
    ensures DigitPrefixLength(s) == |s|
  {
    if s != [] {
      DigitPrefixOfDigits(s[1..]);
    }
  }

  // ---------------------------------------------------------------------
  // White space, trim and lower case
  // ---------------------------------------------------------------------

  /** The characters `String.prototype.trim` removes: WhiteSpace and LineTerminator. */
  predicate IsWhiteSpace(c: char)
  {
    c == ' ' || c == '\t' || c == '\n' || c == '\r' || c == '\U{000B}' || c == '\U{000C}'
    || c == '\U{00A0}' || c == '\U{1680}' || ('\U{2000}' <= c <= '\U{200A}')
    || c == '\U{2028}' || c == '\U{2029}' || c == '\U{202F}' || c == '\U{205F}'
    || c == '\U{3000}' || c == '\U{FEFF}'
  }

  function TrimStart(s: string): (r: string)
    ensures |r| <= |s| && r == s[|s| - |r|..]
    ensures r != [] ==> !IsWhiteSpace(r[0])
    ensures forall i :: 0 <= i < |s| - |r| ==> IsWhiteSpace(s[i])
  {
    if s != [] && IsWhiteSpace(s[0]) then TrimStart(s[1..]) else s
  }

  function TrimEnd(s: string): (r: string)
    ensures |r| <= |s| && r == s[..|r|]
    ensures r != [] ==> !IsWhiteSpace(r[|r| - 1])
    ensures forall i :: |r| <= i < |s| ==> IsWhiteSpace(s[i])
  {
    if s != [] && IsWhiteSpace(s[|s| - 1]) then TrimEnd(s[..|s| - 1]) else s
  }

  /** `s.trim()`: no white space at either end, and nothing else removed. */
  function Trim(s: string): (r: string)
    ensures r != [] ==> !IsWhiteSpace(r[0]) && !IsWhiteSpace(r[|r| - 1])
    ensures exists i :: OccursAt(s, r, i) && SpaceAround(s, i, i + |r|)
  {
    var t := TrimStart(s);
    var r := TrimEnd(t);
    TrimmedOccurs(s, t, r);
    r
  }

  /** Everything in `s` before `i` and from `j` on is white space. */
  predicate SpaceAround(s: string, i: int, j: int)
  {
    (forall k :: 0 <= k < i && k < |s| ==> IsWhiteSpace(s[k]))
    && (forall k :: j <= k < |s| && 0 <= k ==> IsWhiteSpace(s[k]))
  }

  /**
   * A prefix `r` of a suffix `t` of `s` occurs in `s` where `t` starts, and
   * when only white space was cut at each step, only white space surrounds it.
   */
  lemma TrimmedOccurs(s: string, t: string, r: string)
    requires |t| <= |s| && t == s[|s| - |t|..] && |r| <= |t| && r == t[..|r|]
    requires forall k :: 0 <= k < |s| - |t| ==> IsWhiteSpace(s[k])
    requires forall k :: |r| <= k < |t| ==> IsWhiteSpace(t[k])
    ensures exists i :: OccursAt(s, r, i) && SpaceAround(s, i, i + |r|)
  {
    var i := |s| - |t|;
    assert s[i..][..|r|] == s[i..i + |r|];
    forall k | i + |r| <= k < |s|
      ensures IsWhiteSpace(s[k])
    {
      assert s[k] == t[k - i];
    }
    assert OccursAt(s, r, i) && SpaceAround(s, i, i + |r|);
  }

  /** `toLowerCase` on ASCII letters; every other character is kept. */
  function LowerChar(c: char): (d: char)
    ensures 'A' <= c <= 'Z' ==> d as int == c as int + 32
    ensures !('A' <= c <= 'Z') ==> d == c
  {
    if 'A' <= c <= 'Z' then (c as int + 32) as char else c
  }

  function Lower(s: string): (r: string)
    ensures |r| == |s|
    ensures forall i :: 0 <= i < |s| ==> r[i] == LowerChar(s[i])
  {
    if s == [] then [] else [LowerChar(s[0])] + Lower(s[1..])
  }

  // ---------------------------------------------------------------------
  // includes
  // ---------------------------------------------------------------------

  predicate OccursAt(s: string, sub: string, i: int)
  {
    0 <= i && i + |sub| <= |s| && s[i..i + |sub|] == sub
  }

  /** `s.includes(sub)`: `sub` occurs somewhere in `s`. */
  function Includes(s: string, sub: string): (b: bool)
    ensures b <==> exists i :: OccursAt(s, sub, i)
  {
    if |sub| > |s| then false
    else if s[..|sub|] == sub then
      assert OccursAt(s, sub, 0);
      true
    else
      var rest := s[1..];
      var b := Includes(rest, sub);
      if b then
        var i :| OccursAt(rest, sub, i);
        assert OccursAt(s, sub, i + 1) by {
          assert s[i + 1..i + 1 + |sub|] == rest[i..i + |sub|];
        }
        b
      else
        assert forall i :: OccursAt(s, sub, i) ==> OccursAt(rest, sub, i - 1) by {
          forall i | OccursAt(s, sub, i) ensures OccursAt(rest, sub, i - 1) {
            assert s[0..0 + |sub|] == s[..|sub|];
            assert rest[i - 1..i - 1 + |sub|] == s[i..i + |sub|];
          }
        }
        b
  }

  // ---------------------------------------------------------------------
  // split('-') and its inverse
  // ---------------------------------------------------------------------

  /** The parts joined back with the separator between them. */
  function Join(parts: seq<string>, sep: char): string
    requires |parts| >= 1
  {
    if |parts| == 1 then parts[0] else parts[0] + [sep] + Join(parts[1..], sep)
  }

  /**
   * `s.split(sep)` for a one-character separator: the pieces between the
   * separators, which contain no separator and join back to `s`.
   */
  function Split(s: string, sep: char): (parts: seq<string>)
    ensures |parts| >= 1
    ensures forall i :: 0 <= i < |parts| ==> sep !in parts[i]
    ensures Join(parts, sep) == s
  {
    if s == [] then [""]
    else
      var rest := Split(s[1..], sep);
      if s[0] == sep then
        var parts := [""] + rest;
        assert parts[1..] == rest;
        parts
      else
        var parts := [[s[0]] + rest[0]] + rest[1..];
        assert |rest| > 1 ==> rest[1..] == parts[1..];
        assert |rest| > 1 ==> Join(rest, sep) == rest[0] + [sep] + Join(rest[1..], sep);
        parts
  }

  /** Splitting a join of separator-free parts gives the parts back. */
  lemma {:induction false} SplitJoin(parts: seq<string>, sep: char)
    requires |parts| >= 1
    requires forall i :: 0 <= i < |parts| ==> sep !in parts[i]
    ensures Split(Join(parts, sep), sep) == parts
    decreases |parts|, |parts[0]|
  {
    var s := Join(parts, sep);
    if parts[0] == [] {
      if |parts| == 1 {
      } else {
        assert s == [sep] + Join(parts[1..], sep);
        assert s[1..] == Join(parts[1..], sep);
        SplitJoin(parts[1..], sep);
        assert [""] + parts[1..] == parts;
      }
    } else {
      var c := parts[0][0];
      var tail := [parts[0][1..]] + parts[1..];
      assert tail[1..] == parts[1..];
      assert forall i :: 0 <= i < |tail| ==> sep !in tail[i] by {
        forall i | 0 <= i < |tail| ensures sep !in tail[i] {
          if i == 0 {
            assert forall x :: x in parts[0][1..] ==> x in parts[0];
          } else {
            assert tail[i] == parts[i];
          }
        }
      }
      assert Join(tail, sep) == s[1..] by {
        if |parts| == 1 {
        } else {
          assert s == parts[0] + [sep] + Join(parts[1..], sep);
          assert Join(tail, sep) == parts[0][1..] + [sep] + Join(parts[1..], sep);
        }
      }
      SplitJoin(tail, sep);
      assert c != sep;
      assert [c] + parts[0][1..] == parts[0];
      assert [[c] + tail[0]] + tail[1..] == parts;
    }
  }

  /** Three parts joined: the separator appears exactly between them. */
  lemma JoinThree(parts: seq<string>, sep: char)
    requires |parts| == 3
    ensures Join(parts, sep) == parts[0] + [sep] + parts[1] + [sep] + parts[2]
  {
    assert parts[1..][1..] == [parts[2]];
    assert Join(parts[1..][1..], sep) == parts[2];
    assert Join(parts[1..], sep) == parts[1] + [sep] + parts[2];
  }
}
