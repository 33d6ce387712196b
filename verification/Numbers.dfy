/** Printing numbers in a radix, and reading them back the way Rust's
    `from_str_radix` and `parse::<u16>` / `parse::<u32>` do. */
module Numbers {
  import opened Bytes

  const U16_LIMIT: nat := 0x1_0000
  const U32_LIMIT: nat := 0x1_0000_0000

  function DigitByte(d: nat): byte
    requires d < 16
  {
    if d < 10 then 0x30 + d else 0x57 + d
  }

  /** `char::to_digit`: either letter case is read. */
  function DigitValue(b: byte): nat {
    if 0x30 <= b <= 0x39 then b - 0x30
    else if 0x61 <= b <= 0x66 then b - 0x57
    else if 0x41 <= b <= 0x46 then b - 0x37
    else 16
  }

  /** The digits, in order, and the letters in either case. */
  lemma DigitsSpelled(d: nat)
    requires d < 16
    ensures DigitByte(d) as char == "0123456789abcdef"[d] && DigitValue(DigitByte(d)) == d
    ensures DigitValue("0123456789ABCDEF"[d] as int) == d
  {
  }

  predicate IsNumeral(s: seq<byte>, radix: nat) {
    forall i :: 0 <= i < |s| ==> DigitValue(s[i]) < radix
  }

  /** The numeral of `n`, most significant digit first, with no leading zero. */
  function Print(n: nat, radix: nat): (s: seq<byte>)
    requires 2 <= radix <= 16
    ensures |s| > 0 && IsNumeral(s, radix)
    ensures |s| > 1 ==> s[0] != 0x30
    ensures forall i :: 0 <= i < |s| ==> 0x30 <= s[i] <= 0x39 || (radix > 10 && 0x61 <= s[i] <= 0x66)
    decreases n
  {
    if n < radix then [DigitByte(n)]
    else
      PrintSmaller(n, radix);
      Print(n / radix, radix) + [DigitByte(n % radix)]
  }

  lemma PrintSmaller(n: nat, radix: nat)
    requires 2 <= radix <= n
    ensures 0 < n / radix < n
  {
  }

  function PrintDecimal(n: nat): seq<byte> { Print(n, 10) }

  /** The positional value of a numeral. */
  function Value(s: seq<byte>, radix: nat): nat
    requires IsNumeral(s, radix)
  {
    if s == [] then 0 else Value(s[..|s| - 1], radix) * radix + DigitValue(s[|s| - 1])
  }

  /** The digit loop: it stops at the first bad digit and at the first overflow. */
  function ReadDigits(s: seq<byte>, radix: nat, limit: nat, acc: nat): Option<nat> {
    if s == [] then Some(acc)
    else if DigitValue(s[0]) >= radix || acc * radix + DigitValue(s[0]) >= limit then None
    else ReadDigits(s[1..], radix, limit, acc * radix + DigitValue(s[0]))
  }

  /** `uN::from_str_radix(s, radix)` with `limit` = 2^N: one leading `+` is allowed. */
  function Parse(s: seq<byte>, radix: nat, limit: nat): Option<nat> {
    if s == [] then None
    else if s[0] == PLUS then (if |s| == 1 then None else ReadDigits(s[1..], radix, limit, 0))
    else ReadDigits(s, radix, limit, 0)
  }

  function ParseU16(s: seq<byte>): Option<nat> { Parse(s, 10, U16_LIMIT) }

  function ParseU32(s: seq<byte>): Option<nat> { Parse(s, 10, U32_LIMIT) }

  /** Reading a non-empty string of digits gives its positional value, or nothing when
      that value does not fit. */
  lemma {:induction false} ReadDigitsMeaning(pre: seq<byte>, s: seq<byte>, radix: nat, limit: nat)
    requires 2 <= radix <= 16 && IsNumeral(pre + s, radix) && IsNumeral(pre, radix)
    requires Value(pre, radix) < limit
    ensures ReadDigits(s, radix, limit, Value(pre, radix))
         == if Value(pre + s, radix) < limit then Some(Value(pre + s, radix)) else None
    decreases |s|
  {
    if s == [] {
      assert pre + s == pre;
    } else {
      var next := pre + [s[0]];
      assert next + s[1..] == pre + s;
      NextDigit(pre, s, radix);
      hide Value;
      if Value(next, radix) < limit {
        ReadDigitsMeaning(next, s[1..], radix, limit);
      } else {
        ValueGrows(next, s[1..], radix);
      }
    }
  }

  lemma NextDigit(pre: seq<byte>, s: seq<byte>, radix: nat)
    requires s != [] && IsNumeral(pre + s, radix) && IsNumeral(pre, radix)
    ensures IsNumeral(pre + [s[0]], radix)
    ensures Value(pre + [s[0]], radix) == Value(pre, radix) * radix + DigitValue(s[0])
  {
    var next := pre + [s[0]];
    assert next[..|pre|] == pre;
    assert forall i :: 0 <= i < |next| ==> next[i] == (pre + s)[i];
  }

  lemma {:induction false} BadDigit(s: seq<byte>, radix: nat, limit: nat, acc: nat)
    requires !IsNumeral(s, radix)
    ensures ReadDigits(s, radix, limit, acc).None?
    decreases |s|
  {
    if DigitValue(s[0]) < radix {
      assert !IsNumeral(s[1..], radix) by {
        assert forall i :: 1 <= i < |s| ==> s[i] == s[1..][i - 1];
      }
      BadDigit(s[1..], radix, limit, acc * radix + DigitValue(s[0]));
    }
  }

  /** The value of a numeral, when it is one and fits. */
  function Numeral(s: seq<byte>, radix: nat, limit: nat): Option<nat> {
    if s != [] && IsNumeral(s, radix) && Value(s, radix) < limit then Some(Value(s, radix)) else None
  }

  const PLUS: byte := 0x2B

  /** `from_str_radix` on any text at all: what follows one optional `+`, as a numeral. */
  lemma ParseMeaning(s: seq<byte>, radix: nat, limit: nat)
    requires 2 <= radix <= 16 && limit > 0
    ensures Parse(s, radix, limit) == Numeral(if s != [] && s[0] == PLUS then s[1..] else s, radix, limit)
  {
    var digits := if s != [] && s[0] == PLUS then s[1..] else s;
    assert [] + digits == digits;
    if IsNumeral(digits, radix) {
      ReadDigitsMeaning([], digits, radix, limit);
    } else {
      BadDigit(digits, radix, limit, 0);
    }
  }

  lemma {:induction false} ValueGrows(pre: seq<byte>, s: seq<byte>, radix: nat)
    requires 2 <= radix && IsNumeral(pre + s, radix) && IsNumeral(pre, radix)
    ensures Value(pre, radix) <= Value(pre + s, radix)
    decreases |s|
  {
    if s == [] {
      assert pre + s == pre;
    } else {
      var t := s[..|s| - 1];
      assert (pre + s)[..|pre + s| - 1] == pre + t;
      assert forall i :: 0 <= i < |pre + t| ==> (pre + t)[i] == (pre + s)[i];
      ValueGrows(pre, t, radix);
      Scaled(Value(pre + t, radix), radix);
    }
  }

  lemma Scaled(v: nat, radix: nat)
    requires radix >= 1
    ensures v * radix >= v
  {
  }

  lemma Rejoin(n: nat, radix: nat)
    requires radix >= 1
    ensures n / radix * radix + n % radix == n
  {
  }

  lemma AppendDigit(s: seq<byte>, d: nat, radix: nat)
    requires 2 <= radix <= 16 && d < radix && IsNumeral(s, radix)
    ensures IsNumeral(s + [DigitByte(d)], radix)
    ensures Value(s + [DigitByte(d)], radix) == Value(s, radix) * radix + d
  {
    var t := s + [DigitByte(d)];
    assert t[..|t| - 1] == s;
  }

  lemma {:induction false} PrintValue(n: nat, radix: nat)
    requires 2 <= radix <= 16
    ensures Value(Print(n, radix), radix) == n
    decreases n
  {
    if n < radix {
      assert Print(n, radix)[..0] == [];
    } else {
      PrintSmaller(n, radix);
      PrintValue(n / radix, radix);
      Rejoin(n, radix);
      AppendDigit(Print(n / radix, radix), n % radix, radix);
    }
  }

  /** Printing a number and reading it back is the identity on every value that fits. */
  lemma PrintParse(n: nat, radix: nat, limit: nat)
    requires 2 <= radix <= 16
    ensures Parse(Print(n, radix), radix, limit) == if n < limit then Some(n) else None
  {
    var s := Print(n, radix);
    PrintValue(n, radix);
    assert [] + s == s;
    if limit > 0 {
      ReadDigitsMeaning([], s, radix, limit);
    }
  }

  /** A decimal numeral without a leading zero is the one that is printed. */
  lemma {:induction false} PrintOfValue(s: seq<byte>)
    requires s != [] && IsNumeral(s, 10) && (|s| > 1 ==> s[0] != 0x30)
    ensures PrintDecimal(Value(s, 10)) == s
    ensures |s| > 1 ==> Value(s, 10) >= 10
    ensures s[0] != 0x30 ==> Value(s, 10) > 0
    decreases |s|
  {
    hide Print, Value;
    var n := |s| - 1;
    if n == 0 {
      OneDigit(s);
    } else {
      PrintOfValue(s[..n]);
      assert s[..n][0] == s[0];
      LastDigit(s);
    }
  }

  lemma OneDigit(s: seq<byte>)
    requires |s| == 1 && IsNumeral(s, 10)
    ensures PrintDecimal(Value(s, 10)) == s && (s[0] != 0x30 ==> Value(s, 10) > 0)
  {
    assert s[..0] == [] && s == [s[0]];
  }

  lemma LastDigit(s: seq<byte>)
    requires |s| > 1 && IsNumeral(s, 10)
    requires Value(s[..|s| - 1], 10) > 0 && PrintDecimal(Value(s[..|s| - 1], 10)) == s[..|s| - 1]
    ensures PrintDecimal(Value(s, 10)) == s && Value(s, 10) >= 10
  {
    hide Print, Value;
    var n := |s| - 1;
    var d := DigitValue(s[n]);
    SplitValue(s);
    PrintLonger(Value(s[..n], 10), d);
    assert DigitByte(d) == s[n] && s == s[..n] + [s[n]];
  }

  lemma SplitValue(s: seq<byte>)
    requires s != [] && IsNumeral(s, 10)
    ensures Value(s, 10) == Value(s[..|s| - 1], 10) * 10 + DigitValue(s[|s| - 1])
  {
  }

  lemma PrintLonger(high: nat, d: nat)
    requires high > 0 && d < 10
    ensures PrintDecimal(high * 10 + d) == PrintDecimal(high) + [DigitByte(d)]
  {
    var n := high * 10 + d;
    assert n / 10 == high && n % 10 == d;
  }
}
