/** The `%output` payload codec: `\NNN` octal escapes (src/tmux/escape.rs). */
module Escape {
  import opened Bytes

  predicate IsOctal(b: byte) { 0x30 <= b <= 0x37 }

  /** An escape needs all four bytes to be present. */
  predicate AtEscape(s: seq<byte>) {
    |s| >= 4 && s[0] == BACKSLASH && IsOctal(s[1]) && IsOctal(s[2]) && IsOctal(s[3])
  }

  /** The u16 value cast to u8: `\400`..`\777` wrap. */
  function EscapeValue(s: seq<byte>): byte
    requires AtEscape(s)
  {
    var n: int := (s[1] as int - 0x30) * 64 + (s[2] as int - 0x30) * 8 + (s[3] as int - 0x30);
    n % 256
  }

  /** Length of the token at the head: a whole escape, or one plain byte. */
  function TokenLen(s: seq<byte>): (n: nat)
    requires s != []
    ensures 1 <= n <= |s|
  {
    if AtEscape(s) then 4 else 1
  }

  function TokenByte(s: seq<byte>): byte
    requires s != []
  {
    if AtEscape(s) then EscapeValue(s) else s[0]
  }

  function Decoded(s: seq<byte>): seq<byte>
    decreases |s|
  {
    if s == [] then [] else [TokenByte(s)] + Decoded(s[TokenLen(s)..])
  }

  /** One pass of the loop: the token at `i` moves from the rest to the output. */
  lemma DecodedNext(out: seq<byte>, input: seq<byte>, i: nat)
    requires i < |input|
    ensures var rest := input[i..];
      out + Decoded(rest) == out + [TokenByte(rest)] + Decoded(input[i + TokenLen(rest)..])
  {
    var rest := input[i..];
    assert rest[TokenLen(rest)..] == input[i + TokenLen(rest)..];
  }

  method Decode(input: seq<byte>) returns (out: seq<byte>)
    ensures out == Decoded(input)
  {
    hide Decoded;
    out := [];
    var i := 0;
    assert input[0..] == input;
    while i < |input|
      invariant 0 <= i <= |input|
      invariant Decoded(input) == out + Decoded(input[i..])
    {
      var b := input[i];
      DecodedNext(out, input, i);
      if b == BACKSLASH && i + 3 < |input| {
        var d1 := input[i + 1];
        var d2 := input[i + 2];
        var d3 := input[i + 3];
        if IsOctal(d1) && IsOctal(d2) && IsOctal(d3) {
          var n: int := (d1 as int - 0x30) * 64 + (d2 as int - 0x30) * 8 + (d3 as int - 0x30);
          out := out + [n % 256];
          i := i + 4;
          continue;
        }
      }
      out := out + [b];
      i := i + 1;
    }
    DecodedEnd(input);
  }

  lemma DecodedEnd(input: seq<byte>)
    ensures Decoded(input[|input|..]) == []
  {
  }

  // ---- Encoders ----

  function Octal(b: byte): seq<byte> {
    [BACKSLASH, 0x30 + b / 64, 0x30 + b / 8 % 8, 0x30 + b % 8]
  }

  /** An encoder policy is the set of bytes it writes as octal escapes. */
  function Encoded(escaped: set<byte>, data: seq<byte>): seq<byte> {
    if data == [] then []
    else (if data[0] in escaped then Octal(data[0]) else [data[0]]) + Encoded(escaped, data[1..])
  }

  /** Decoding undoes every policy that escapes at least the backslash. */
  lemma {:induction false} DecodeInvertsEncode(escaped: set<byte>, data: seq<byte>)
    requires BACKSLASH in escaped
    ensures Decoded(Encoded(escaped, data)) == data
  {
    if data != [] {
      var rest := Encoded(escaped, data[1..]);
      var s := Encoded(escaped, data);
      DecodeInvertsEncode(escaped, data[1..]);
      if data[0] in escaped {
        OctalValue(data[0], rest);
      } else {
        assert s == [data[0]] + rest && s[1..] == rest && !AtEscape(s);
      }
    }
  }

  lemma OctalValue(b: byte, rest: seq<byte>)
    ensures AtEscape(Octal(b) + rest) && EscapeValue(Octal(b) + rest) == b
    ensures (Octal(b) + rest)[4..] == rest
  {
    var s := Octal(b) + rest;
    assert s[0] == BACKSLASH && s[1] == 0x30 + b / 64 && s[2] == 0x30 + b / 8 % 8 && s[3] == 0x30 + b % 8;
    assert b / 64 * 64 + b / 8 % 8 * 8 + b % 8 == b;
  }

  /** So does a policy that leaves the backslash alone but escapes all eight octal digits: a
      plain backslash is then never followed by a digit. */
  lemma {:induction false} DigitsEscapedInverts(escaped: set<byte>, data: seq<byte>)
    requires BACKSLASH !in escaped && forall d: byte | 0x30 <= d <= 0x37 :: d in escaped
    ensures Decoded(Encoded(escaped, data)) == data
    ensures Encoded(escaped, data) != [] ==> !IsOctal(Encoded(escaped, data)[0])
  {
    if data != [] {
      var rest := Encoded(escaped, data[1..]);
      var s := Encoded(escaped, data);
      DigitsEscapedInverts(escaped, data[1..]);
      if data[0] in escaped {
        OctalValue(data[0], rest);
      } else {
        assert s == [data[0]] + rest && s[1..] == rest;
        assert rest != [] ==> s[1] == rest[0];
        assert !AtEscape(s);
      }
    }
  }

  /** With the backslash and some octal digit `d` both left alone, the four data bytes `\ddd`
      come back as one. */
  lemma PlainEscapeIsLost(escaped: set<byte>, d: byte)
    requires BACKSLASH !in escaped && IsOctal(d) && d !in escaped
    ensures |Decoded(Encoded(escaped, [BACKSLASH, d, d, d]))| == 1
  {
    var s: seq<byte> := [BACKSLASH, d, d, d];
    assert s[1..] == [d, d, d] && s[1..][1..] == [d, d] && s[1..][1..][1..] == [d];
    assert Encoded(escaped, s[1..][1..][1..]) == [d];
    assert Encoded(escaped, s[1..][1..]) == [d, d];
    assert Encoded(escaped, s[1..]) == [d, d, d];
    assert Encoded(escaped, s) == s;
    assert AtEscape(s) && s[4..] == [];
  }

  /** Exactly which encoders the decoder undoes. */
  lemma DecodeInvertsIff(escaped: set<byte>)
    ensures (forall data :: Decoded(Encoded(escaped, data)) == data)
      <==> (BACKSLASH in escaped || forall d: byte | 0x30 <= d <= 0x37 :: d in escaped)
  {
    if BACKSLASH in escaped {
      forall data ensures Decoded(Encoded(escaped, data)) == data {
        DecodeInvertsEncode(escaped, data);
      }
    } else if forall d: byte | 0x30 <= d <= 0x37 :: d in escaped {
      forall data ensures Decoded(Encoded(escaped, data)) == data {
        DigitsEscapedInverts(escaped, data);
      }
    } else {
      var d: byte :| 0x30 <= d <= 0x37 && d !in escaped;
      PlainEscapeIsLost(escaped, d);
      var data: seq<byte> := [BACKSLASH, d, d, d];
      assert |Decoded(Encoded(escaped, data))| != |data|;
    }
  }

  // ---- Escapes that name no byte ----

  /** The number an escape spells, up to 511. */
  function OctalNumber(s: seq<byte>): nat
    requires AtEscape(s)
  {
    (s[1] as int - 0x30) * 64 + (s[2] as int - 0x30) * 8 + (s[3] as int - 0x30)
  }

  /** An escape decodes to the number it spells exactly up to `\377`; from `\400` on it decodes
      to what the escape 256 below it does. */
  lemma EscapeWraps(s: seq<byte>)
    requires AtEscape(s)
    ensures Decoded(s[..4]) == [OctalNumber(s)] <==> s[1] <= 0x33
    ensures s[1] > 0x33 ==> Decoded(s[..4]) == Decoded([BACKSLASH, s[1] - 4, s[2], s[3]])
  {
    var t := s[..4];
    assert AtEscape(t) && t[4..] == [];
    assert Decoded(t) == [EscapeValue(s)];
    if s[1] > 0x33 {
      var u: seq<byte> := [BACKSLASH, s[1] - 4, s[2], s[3]];
      assert AtEscape(u) && u[4..] == [] && EscapeValue(u) == EscapeValue(s);
      assert Decoded(u) == [EscapeValue(u)];
    }
  }

  // ---- Token boundaries ----

  /** `i` is where one of the tokens that the decoder sees in `s` starts or ends. */
  predicate Boundary(s: seq<byte>, i: nat)
    decreases |s|
  {
    i == 0 || (s != [] && TokenLen(s) <= i && Boundary(s[TokenLen(s)..], i - TokenLen(s)))
  }

  /** Number of escapes the decoder replaces. */
  function Escapes(s: seq<byte>): nat
    decreases |s|
  {
    if s == [] then 0 else (if AtEscape(s) then 1 else 0) + Escapes(s[TokenLen(s)..])
  }

  lemma {:induction false} DecodedLength(s: seq<byte>)
    ensures |s| == |Decoded(s)| + 3 * Escapes(s)
    decreases |s|
  {
    if s != [] {
      DecodedLength(s[TokenLen(s)..]);
    }
  }

  /** Cutting the input and decoding the halves separately gives the same bytes exactly
      when the cut falls on a token boundary. */
  lemma {:induction false} DecodeSplits(s: seq<byte>, i: nat)
    requires i <= |s|
    ensures Decoded(s) == Decoded(s[..i]) + Decoded(s[i..]) <==> Boundary(s, i)
    decreases |s|
  {
    if i == 0 {
      assert s[..0] == [] && s[0..] == s;
    } else if TokenLen(s) <= i {
      var t := TokenLen(s);
      DecodeSplits(s[t..], i - t);
      var a, b := s[t..][..i - t], s[i..];
      TokenOfPrefix(s, i);
      assert s[..i][t..] == a && s[t..][i - t..] == b;
      SameHead(TokenByte(s), Decoded(s[t..]), Decoded(a), Decoded(b));
    } else {
      InsideEscape(s, i);
      DecodedLength(s[..i]);
      DecodedLength(s[i..]);
      DecodedLength(s);
    }
  }

  lemma TokenOfPrefix(s: seq<byte>, i: nat)
    requires s != [] && TokenLen(s) <= i <= |s|
    ensures s[..i] != [] && TokenLen(s[..i]) == TokenLen(s) && TokenByte(s[..i]) == TokenByte(s)
  {
  }

  lemma SameHead(head: byte, whole: seq<byte>, first: seq<byte>, second: seq<byte>)
    ensures [head] + whole == ([head] + first) + second <==> whole == first + second
  {
    assert ([head] + whole)[1..] == whole;
    assert (([head] + first) + second)[1..] == first + second;
    assert ([head] + first) + second == [head] + (first + second);
  }

  /** Cutting inside an escape loses that escape and no other. */
  lemma InsideEscape(s: seq<byte>, i: nat)
    requires AtEscape(s) && 0 < i < 4
    ensures Escapes(s[..i]) == 0
    ensures Escapes(s[i..]) == Escapes(s) - 1
  {
    NoEscapeInside(s[..i]);
    SkipDigits(s, i);
  }

  lemma {:induction false} NoEscapeInside(s: seq<byte>)
    requires |s| < 4
    ensures Escapes(s) == 0
    decreases |s|
  {
    if s != [] {
      NoEscapeInside(s[1..]);
    }
  }

  lemma {:induction false} SkipDigits(s: seq<byte>, i: nat)
    requires AtEscape(s) && 0 < i <= 4
    ensures Escapes(s[i..]) == Escapes(s[4..])
    decreases 4 - i
  {
    if i < 4 {
      assert !AtEscape(s[i..]) && s[i..][1..] == s[i + 1..];
      SkipDigits(s, i + 1);
    }
  }
}
