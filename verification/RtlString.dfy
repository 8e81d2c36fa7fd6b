/** The C string routines of EasyHook's Rtl/string.c. A string here is the characters in
    front of the terminating zero. */
module RtlString {
  import opened Bytes

  const LLONG_MAX: int := 0x7FFF_FFFF_FFFF_FFFF

  method RtlAnsiIndexOf(s: string, c: char) returns (r: int)
    ensures r == IndexOf(s, c)
  {
    var i := 0;
    while i < |s|
      invariant 0 <= i <= |s| && c !in s[..i]
    {
      if s[i] == c {
        IndexIs(s, c, i);
        return i;
      }
      i := i + 1;
    }
    IndexNone(s, c);
    return -1;
  }

  /** First position of c, or -1. */
  function IndexOf(s: string, c: char): (r: int)
    ensures r == -1 <==> c !in s
    ensures r != -1 ==> 0 <= r < |s| && s[r] == c && c !in s[..r]
  {
    if s == [] then -1
    else if s[0] == c then 0
    else
      var t := IndexOf(s[1..], c);
      assert t != -1 ==> s[..t + 1] == [s[0]] + s[1..][..t];
      if t == -1 then -1 else t + 1
  }

  lemma {:induction false} IndexIs(s: string, c: char, i: nat)
    requires i < |s| && s[i] == c && c !in s[..i]
    ensures IndexOf(s, c) == i
  {
    if i > 0 {
      assert s[..i][0] == s[0] && s[..i] == [s[0]] + s[1..][..i - 1];
      IndexIs(s[1..], c, i - 1);
    }
  }

  lemma IndexNone(s: string, c: char)
    requires c !in s[..|s|]
    ensures IndexOf(s, c) == -1
  {
    assert s[..|s|] == s;
  }

  /** Copies up to `count` characters from `offset`; -1 when the string ends too early or
      the target is too small. The end is computed in 32 bits. */
  method RtlAnsiSubString(s: string, offset: nat, count: int, maxLen: nat) returns (r: int, target: string)
    requires |s| < TWO32
    ensures var end := (offset + count) % TWO32;
      if end >= |s| || end - offset > maxLen then r == -1
      else r == |target| && target == if end <= offset then [] else s[offset..end]
  {
    var end := (offset + count) % TWO32;
    var index := 0;
    target := [];
    while index < |s|
      invariant 0 <= index <= |s| && index <= end
      invariant target == if index <= offset then [] else s[offset..index]
      invariant |target| <= maxLen
    {
      if index >= end {
        return |target|, target;
      }
      if index >= offset {
        if maxLen < |target| + 1 {
          return -1, target;
        }
        target := target + [s[index]];
      }
      index := index + 1;
    }
    return -1, target;
  }

  // ---- hexadecimal numbers -------------------------------------------------

  function HexDigit(c: char): (d: int)
    ensures -1 <= d < 16
  {
    if 'a' <= c <= 'f' then (c as int) - ('a' as int) + 10
    else if 'A' <= c <= 'F' then (c as int) - ('A' as int) + 10
    else if '0' <= c <= '9' then (c as int) - ('0' as int)
    else -1
  }

  function PrefixLength(s: string): (n: nat)
    ensures n <= |s|
  {
    if |s| >= 2 && s[0] == '0' && (s[1] == 'x' || s[1] == 'X') then 2 else 0
  }

  /** The digits after an optional 0x, within the first `len` characters. */
  function HexPart(s: string, len: int): (r: string) {
    var end := if |s| <= len then |s| else len;
    if end <= PrefixLength(s) then [] else s[PrefixLength(s)..end]
  }

  /** Either prefix is skipped and counts for the length. */
  lemma PrefixSkipped(t: string, len: nat)
    ensures 2 + |t| <= len ==> HexPart("0x" + t, len) == HexPart("0X" + t, len) == t
    ensures 2 <= len < 2 + |t| ==> HexPart("0x" + t, len) == HexPart("0X" + t, len) == t[..len - 2]
  {
    PrefixOf('x', t, len);
    PrefixOf('X', t, len);
    assert "0x" + t == ['0', 'x'] + t && "0X" + t == ['0', 'X'] + t;
  }

  lemma PrefixOf(c: char, t: string, len: nat)
    requires c == 'x' || c == 'X'
    ensures 2 + |t| <= len ==> HexPart(['0', c] + t, len) == t
    ensures 2 <= len < 2 + |t| ==> HexPart(['0', c] + t, len) == t[..len - 2]
  {
    var s := ['0', c] + t;
    assert PrefixLength(s) == 2 && s[2..|s|] == t;
    if 2 < len < |s| {
      assert s[2..len] == t[..len - 2];
    }
  }

  /** Value after reading s with rc already read: 0 for a bad digit, LLONG_MAX once a
      digit would not fit. */
  function HexFold(rc: int, s: string): (r: int)
    decreases |s|
  {
    if s == [] then rc
    else if HexDigit(s[0]) < 0 then 0
    else if rc > LLONG_MAX / 16 then LLONG_MAX
    else HexFold(rc * 16 + HexDigit(s[0]), s[1..])
  }

  method RtlAnsiHexToLongLong(s: string, len: int) returns (r: int)
    ensures r == HexFold(0, HexPart(s, len))
  {
    var i := PrefixLength(s);
    ghost var end := if |s| <= len then |s| else len;
    ghost var t, digits := s[..if end <= i then i else end], HexPart(s, len);
    assert t[i..] == digits;
    var rc := 0;
    while i < len && i < |s|
      invariant 0 <= i <= |t|
      invariant HexFold(0, digits) == HexFold(rc, t[i..])
    {
      var c := HexDigit(s[i]);
      assert t[i..][0] == s[i] && t[i..][1..] == t[i + 1..];
      if c < 0 {
        return 0;
      }
      if rc > LLONG_MAX / 16 {
        return LLONG_MAX;
      }
      rc := rc * 16 + c;
      i := i + 1;
    }
    assert t[i..] == [];
    return rc;
  }

  function LowerDigit(d: int): (c: char)
    requires 0 <= d < 16
    ensures HexDigit(c) == d
  {
    if d < 10 then (('0' as int) + d) as char else (('a' as int) + d - 10) as char
  }

  /** The text %x prints. */
  function HexText(v: nat): (s: string)
    ensures |s| > 0
  {
    if v < 16 then [LowerDigit(v)] else HexText(v / 16) + [LowerDigit(v % 16)]
  }

  lemma {:induction false} HexFoldText(v: nat, t: string)
    requires v <= LLONG_MAX
    ensures HexFold(0, HexText(v) + t) == HexFold(v, t)
  {
    if v < 16 {
      assert (HexText(v) + t)[1..] == t;
    } else {
      var d := [LowerDigit(v % 16)];
      assert HexText(v) + t == HexText(v / 16) + (d + t);
      HexFoldText(v / 16, d + t);
      assert (d + t)[1..] == t;
    }
  }

  /** Reading back what %x printed gives the number. */
  lemma HexRoundTrip(v: nat, len: nat)
    requires v <= LLONG_MAX && |HexText(v)| + 2 <= len
    ensures HexFold(0, HexPart("0x" + HexText(v), len)) == v
  {
    var s := "0x" + HexText(v);
    assert s[2..|s|] == HexText(v) + [];
    HexFoldText(v, []);
  }

  lemma {:induction false} HexLength(v: nat)
    requires v < 0x1_0000_0000_0000_0000
    ensures |HexText(v)| <= 16
  {
    assert Pow16(4) == 0x1_0000 && Pow16(8) == 0x1_0000_0000;
    assert Pow16(12) == 0x1_0000_0000_0000 && Pow16(15) == 0x1000_0000_0000_0000;
    HexLengthAt(v, 15);
  }

  function Pow16(n: nat): (p: nat)
    ensures p >= 1
  {
    if n == 0 then 1 else 16 * Pow16(n - 1)
  }

  lemma {:induction false} HexLengthAt(v: nat, n: nat)
    requires v < 16 * Pow16(n)
    ensures |HexText(v)| <= n + 1
    decreases n
  {
    if v >= 16 {
      HexLengthAt(v / 16, n - 1);
    }
  }

  // ---- fixed width ---------------------------------------------------------

  function UpperDigit(d: int): (c: char)
    requires 0 <= d < 16
    ensures HexDigit(c) == d
  {
    if d < 10 then (('0' as int) + d) as char else (('A' as int) + d - 10) as char
  }

  /** The n lowest hexadecimal digits of v. */
  function UpperHex(v: nat, n: nat): (s: string)
    ensures |s| == n
    decreases n
  {
    if n == 0 then [] else UpperHex(v / 16, n - 1) + [UpperDigit(v % 16)]
  }

  /** v >> 4 * i. */
  function Shift(v: nat, i: nat): (r: nat)
    decreases i
  {
    if i == 0 then v else Shift(v / 16, i - 1)
  }

  lemma {:induction false} NextDigit(v: nat, i: nat)
    ensures UpperHex(v, i + 1) == [UpperDigit(Shift(v, i) % 16)] + UpperHex(v, i)
    decreases i
  {
    if i > 0 {
      NextDigit(v / 16, i - 1);
    }
  }

  /** Sixteen digits, filled in from the right, and the terminating zero. The value is
      taken as unsigned. */
  method RtlLongLongToUnicodeHex(v: nat, buffer: array<char>)
    requires buffer.Length >= 17
    modifies buffer
    ensures buffer[..16] == UpperHex(v, 16) && buffer[16] == '\0'
    ensures buffer[17..] == old(buffer[17..])
  {
    var i := 0;
    while i < 16
      invariant 0 <= i <= 16
      invariant buffer[16 - i..16] == UpperHex(v, i)
      invariant buffer[17..] == old(buffer[17..])
    {
      NextDigit(v, i);
      ghost var was := buffer[16 - i..16];
      buffer[15 - i] := UpperDigit(Shift(v, i) % 16);
      assert buffer[15 - i..16] == [buffer[15 - i]] + was;
      i := i + 1;
    }
    buffer[16] := '\0';
  }

  predicate AllHex(s: string) { forall i :: 0 <= i < |s| ==> HexDigit(s[i]) >= 0 }

  function HexValue(s: string): (v: int)
    requires AllHex(s)
    ensures v >= 0
    decreases |s|
  {
    if s == [] then 0 else 16 * HexValue(s[..|s| - 1]) + HexDigit(s[|s| - 1])
  }

  /** Reads at most sixteen digits, the first into the top four bits: a shorter text is
      the number its digits and zeros behind them make. The value is unsigned. */
  method RtlAnsiDbgHexToLongLong(s: string, minLen: nat) returns (ok: bool, value: int)
    ensures ok <==> AllHex(s) && minLen <= |s| <= 16
    ensures ok ==> value == HexValue(s) * Pow16(16 - |s|)
  {
    hide Pow16, HexValue, HexDigit;
    var i := 0;
    value := 0;
    assert HexValue(s[..0]) * Pow16(16) == 0 by { NoDigits(s[..0], Pow16(16)); }
    while i < |s|
      invariant 0 <= i <= |s| && i <= 16 && AllHex(s[..i])
      invariant value == HexValue(s[..i]) * Pow16(16 - i)
    {
      var d := HexDigit(s[i]);
      if d < 0 {
        return false, 0;
      }
      if i >= 16 {
        return false, 0;
      }
      ReadDigit(s, i);
      value := value + d * Pow16(15 - i);
      i := i + 1;
    }
    assert s[..|s|] == s;
    if |s| < minLen {
      return false, 0;
    }
    return true, value;
  }

  lemma NoDigits(s: string, p: int)
    requires s == []
    ensures HexValue(s) * p == 0
  {
  }

  lemma ReadDigit(s: string, i: nat)
    requires i < |s| && i < 16 && AllHex(s[..i]) && HexDigit(s[i]) >= 0
    ensures AllHex(s[..i + 1])
    ensures HexValue(s[..i]) * Pow16(16 - i) + HexDigit(s[i]) * Pow16(15 - i) == HexValue(s[..i + 1]) * Pow16(15 - i)
  {
    hide HexDigit;
    var t := s[..i + 1];
    assert t[..|t| - 1] == s[..i];
    Regroup(HexValue(s[..i]), HexDigit(s[i]), Pow16(15 - i));
  }

  lemma Regroup(v: int, d: int, p: int)
    ensures v * (16 * p) + d * p == (16 * v + d) * p
  {
    assert v * (16 * p) == (16 * v) * p;
  }

  lemma {:induction false} UpperHexIsHex(v: nat, n: nat)
    ensures AllHex(UpperHex(v, n))
    decreases n
  {
    if n > 0 { UpperHexIsHex(v / 16, n - 1); }
  }

  /** Every 64-bit value survives being printed and read back. */
  lemma {:induction false} UpperHexRoundTrip(v: nat, n: nat)
    requires v < Pow16(n)
    ensures AllHex(UpperHex(v, n)) && HexValue(UpperHex(v, n)) == v
    decreases n
  {
    UpperHexIsHex(v, n);
    if n > 0 {
      UpperHexIsHex(v / 16, n - 1);
      UpperHexRoundTrip(v / 16, n - 1);
      var s := UpperHex(v, n);
      assert s[..n - 1] == UpperHex(v / 16, n - 1);
    }
  }

  // ---- what the reader of numbers makes of any text ------------------------

  /** The digits, in both cases. */
  lemma DigitsAre(d: nat)
    requires d < 16
    ensures LowerDigit(d) == "0123456789abcdef"[d] && UpperDigit(d) == "0123456789ABCDEF"[d]
    ensures HexDigit("0123456789abcdef"[d]) == d && HexDigit("0123456789ABCDEF"[d]) == d
  {
  }

  lemma {:induction false} ValueGrows(p: string, s: string)
    requires AllHex(p + s)
    ensures AllHex(p) && HexValue(p) <= HexValue(p + s)
    decreases |s|
  {
    hide HexDigit;
    forall i | 0 <= i < |p|
      ensures HexDigit(p[i]) >= 0
    {
      assert (p + s)[i] == p[i];
    }
    if s == [] {
      assert p + s == p;
    } else {
      var t := s[..|s| - 1];
      assert (p + s)[..|p + s| - 1] == p + t;
      ValueGrows(p, t);
    }
  }

  lemma NextValue(p: string, c: char)
    requires AllHex(p) && HexDigit(c) >= 0
    ensures AllHex(p + [c]) && HexValue(p + [c]) == 16 * HexValue(p) + HexDigit(c)
  {
    assert (p + [c])[..|p|] == p;
  }

  /** How many digits a text starts with. */
  function Digits(s: string): (n: nat)
    ensures n <= |s| && (forall i :: 0 <= i < n ==> HexDigit(s[i]) >= 0) && (n < |s| ==> HexDigit(s[n]) < 0)
  {
    if s == [] || HexDigit(s[0]) < 0 then 0 else 1 + Digits(s[1..])
  }

  lemma TakeBehind(p: string, s: string, k: nat)
    requires k < |s|
    ensures p + s[..k + 1] == (p + [s[0]]) + s[1..][..k]
  {
    assert s[..k + 1] == [s[0]] + s[1..][..k];
  }

  lemma FoldStep(rc: int, s: string)
    requires s != []
    ensures HexDigit(s[0]) < 0 ==> HexFold(rc, s) == 0 && Digits(s) == 0
    ensures HexDigit(s[0]) >= 0 ==>
      && Digits(s) == 1 + Digits(s[1..])
      && HexFold(rc, s) == if rc > LLONG_MAX / 16 then LLONG_MAX else HexFold(rc * 16 + HexDigit(s[0]), s[1..])
  {
    hide HexDigit;
  }

  /** Reading on behind the digits of p. */
  lemma {:induction false} FoldValue(p: string, s: string)
    requires AllHex(p) && HexValue(p) <= LLONG_MAX
    ensures AllHex(p + s[..Digits(s)])
    ensures var n := Digits(s); var v := HexValue(p + s[..n]);
      HexFold(HexValue(p), s) == if v > LLONG_MAX then LLONG_MAX else if n < |s| then 0 else v
    decreases |s|
  {
    hide HexDigit, HexValue, HexFold, Digits;
    if s == [] {
      assert p + s[..0] == p;
      assert HexFold(HexValue(p), []) == HexValue(p) by { FoldNothing(HexValue(p)); }
    } else {
      FoldStep(HexValue(p), s);
      if HexDigit(s[0]) < 0 {
        assert p + s[..0] == p;
      } else {
        var q, t := p + [s[0]], s[1..];
        NextValue(p, s[0]);
        TakeBehind(p, s, Digits(t));
        if HexValue(p) <= LLONG_MAX / 16 {
          FoldValue(q, t);
        } else {
          ValueGrows(q, t[..Digits(t)]);
        }
      }
    }
  }

  lemma FoldNothing(rc: int)
    ensures HexFold(rc, []) == rc
  {
  }

  /** What RtlAnsiHexToLongLong makes of any text: the value of the digits it starts with, or the
      largest 64-bit number when they do not fit; 0 when they fit and another character follows. */
  lemma HexFoldIs(s: string)
    ensures AllHex(s[..Digits(s)])
    ensures var n := Digits(s); var v := HexValue(s[..n]);
      HexFold(0, s) == if v > 0x7FFF_FFFF_FFFF_FFFF then 0x7FFF_FFFF_FFFF_FFFF else if n < |s| then 0 else v
  {
    hide HexDigit, Digits, HexFold;
    FoldValue([], s);
    assert [] + s[..Digits(s)] == s[..Digits(s)];
  }
}
