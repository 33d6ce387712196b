/** UTF-8 (RFC 3629 section 4) and the `str` methods that the parser uses. */
module Text {
  import opened Bytes

  predicate IsTail(b: byte) { 0x80 <= b <= 0xBF }

  predicate IsLead2(a: byte) { 0xC2 <= a <= 0xDF }

  /** The first two bytes of a three-byte sequence. */
  predicate IsLead3(a: byte, b: byte) {
    || (a == 0xE0 && 0xA0 <= b <= 0xBF)
    || (0xE1 <= a <= 0xEC && IsTail(b))
    || (a == 0xED && 0x80 <= b <= 0x9F)
    || (0xEE <= a <= 0xEF && IsTail(b))
  }

  /** The first two bytes of a four-byte sequence. */
  predicate IsLead4(a: byte, b: byte) {
    || (a == 0xF0 && 0x90 <= b <= 0xBF)
    || (0xF1 <= a <= 0xF3 && IsTail(b))
    || (a == 0xF4 && 0x80 <= b <= 0x8F)
  }

  /** Length of the well-formed character at the head of `s`; 0 when there is none. */
  function CharLen(s: seq<byte>): (n: nat)
    ensures n <= |s|
  {
    if s == [] then 0
    else if s[0] < 0x80 then 1
    else if |s| >= 2 && IsLead2(s[0]) && IsTail(s[1]) then 2
    else if |s| >= 3 && IsLead3(s[0], s[1]) && IsTail(s[2]) then 3
    else if |s| >= 4 && IsLead4(s[0], s[1]) && IsTail(s[2]) && IsTail(s[3]) then 4
    else 0
  }

  /** `std::str::from_utf8(s).is_ok()` */
  predicate ValidUtf8(s: seq<byte>) {
    s == [] || (CharLen(s) > 0 && ValidUtf8(s[CharLen(s)..]))
  }

  /** Length of the longest prefix of `s` that a well-formed character could start with,
      at least 1: the bytes that one replacement character stands for. */
  function BadLen(s: seq<byte>): (n: nat)
    requires s != []
    ensures 1 <= n <= |s|
  {
    if |s| >= 3 && IsLead4(s[0], s[1]) && IsTail(s[2]) then 3
    else if |s| >= 2 && (IsLead3(s[0], s[1]) || IsLead4(s[0], s[1])) then 2
    else 1
  }

  /** U+FFFD */
  const REPLACEMENT: seq<byte> := [0xEF, 0xBF, 0xBD]

  /** `String::from_utf8_lossy`: every ill-formed piece becomes U+FFFD. */
  function Lossy(s: seq<byte>): (r: seq<byte>)
    ensures ValidUtf8(r)
    decreases |s|
  {
    if s == [] then []
    else if CharLen(s) > 0 then
      var n := CharLen(s);
      CharLenExtend(s[..n], Lossy(s[n..]));
      s[..n] + Lossy(s[n..])
    else
      CharLenExtend(REPLACEMENT, Lossy(s[BadLen(s)..]));
      REPLACEMENT + Lossy(s[BadLen(s)..])
  }

  lemma CharLenExtend(c: seq<byte>, rest: seq<byte>)
    requires CharLen(c) == |c| > 0
    ensures CharLen(c + rest) == |c|
    ensures (c + rest)[|c|..] == rest
    ensures ValidUtf8(c + rest) == ValidUtf8(rest)
  {
    assert forall i :: 0 <= i < |c| ==> (c + rest)[i] == c[i];
    assert (c + rest)[|c|..] == rest;
  }

  predicate IsAscii(s: seq<byte>) { forall i :: 0 <= i < |s| ==> s[i] < 0x80 }

  lemma {:induction false} AsciiIsValid(s: seq<byte>)
    requires IsAscii(s)
    ensures ValidUtf8(s)
    decreases |s|
  {
    if s != [] {
      AsciiIsValid(s[1..]);
    }
  }

  lemma {:induction false} ValidConcat(a: seq<byte>, b: seq<byte>)
    requires ValidUtf8(a)
    ensures ValidUtf8(a + b) == ValidUtf8(b)
    decreases |a|
  {
    if a == [] {
      assert a + b == b;
    } else {
      var n := CharLen(a);
      CharLenPrefix(a);
      CharLenExtend(a[..n], a[n..] + b);
      assert a[..n] + (a[n..] + b) == a + b;
      ValidConcat(a[n..], b);
    }
  }

  lemma CharLenPrefix(s: seq<byte>)
    requires CharLen(s) > 0
    ensures CharLen(s[..CharLen(s)]) == CharLen(s)
  {
    var c := s[..CharLen(s)];
    assert forall i :: 0 <= i < |c| ==> c[i] == s[i];
  }

  // ---- Unicode White_Space, as `split_whitespace` and `trim` use it ----

  /** Length of the white-space character at the head of `s`; 0 when there is none. */
  function SpaceLen(s: seq<byte>): (n: nat)
    ensures n <= |s|
  {
    if s == [] then 0
    else if 0x09 <= s[0] <= 0x0D || s[0] == SPACE then 1
    else if |s| >= 2 && s[0] == 0xC2 && (s[1] == 0x85 || s[1] == 0xA0) then 2
    else if |s| >= 3 && IsWideSpace(s[0], s[1], s[2]) then 3
    else 0
  }

  /** U+1680, U+2000..U+200A, U+2028, U+2029, U+202F, U+205F, U+3000 */
  predicate IsWideSpace(a: byte, b: byte, c: byte) {
    || (a == 0xE1 && b == 0x9A && c == 0x80)
    || (a == 0xE2 && b == 0x80 && (0x80 <= c <= 0x8A || c == 0xA8 || c == 0xA9 || c == 0xAF))
    || (a == 0xE2 && b == 0x81 && c == 0x9F)
    || (a == 0xE3 && b == 0x80 && c == 0x80)
  }

  /** Bytes up to the next white space. No lead byte of a white-space character is a
      continuation byte, so stepping bytewise through valid text sees the same breaks. */
  function TokenLen(s: seq<byte>): (n: nat)
    ensures n <= |s|
  {
    if s == [] || SpaceLen(s) > 0 then 0 else 1 + TokenLen(s[1..])
  }

  /** `str::split_whitespace` */
  function Fields(s: seq<byte>): seq<seq<byte>>
    decreases |s|
  {
    if s == [] then []
    else if SpaceLen(s) > 0 then Fields(s[SpaceLen(s)..])
    else [s[..TokenLen(s)]] + Fields(s[TokenLen(s)..])
  }

  function TrimStart(s: seq<byte>): seq<byte>
    decreases |s|
  {
    if SpaceLen(s) > 0 then TrimStart(s[SpaceLen(s)..]) else s
  }

  /** Length of the white-space character that `s` ends with; 0 when there is none. */
  function EndSpaceLen(s: seq<byte>): (n: nat)
    ensures n <= |s|
  {
    var l := |s|;
    if l >= 1 && SpaceLen(s[l - 1..]) == 1 then 1
    else if l >= 2 && SpaceLen(s[l - 2..]) == 2 then 2
    else if l >= 3 && SpaceLen(s[l - 3..]) == 3 then 3
    else 0
  }

  function TrimEnd(s: seq<byte>): seq<byte>
    decreases |s|
  {
    if EndSpaceLen(s) > 0 then TrimEnd(s[..|s| - EndSpaceLen(s)]) else s
  }

  /** `str::trim` */
  function Trim(s: seq<byte>): seq<byte> { TrimEnd(TrimStart(s)) }

  predicate IsGraphic(s: seq<byte>) { forall i :: 0 <= i < |s| ==> 0x21 <= s[i] < 0x7F }

  lemma {:induction false} TokenLenGraphic(tok: seq<byte>, rest: seq<byte>)
    requires IsGraphic(tok) && (rest == [] || SpaceLen(rest) > 0)
    ensures TokenLen(tok + rest) == |tok|
    decreases |tok|
  {
    if tok == [] {
      assert tok + rest == rest;
    } else {
      assert (tok + rest)[1..] == tok[1..] + rest;
      TokenLenGraphic(tok[1..], rest);
    }
  }

  /** A word of printable ASCII, then a blank, is read as one field. */
  lemma FieldsStep(tok: seq<byte>, rest: seq<byte>)
    requires IsGraphic(tok) && tok != []
    ensures Fields(tok + [SPACE] + rest) == [tok] + Fields(rest)
  {
    var s := tok + [SPACE] + rest;
    var tail := [SPACE] + rest;
    assert s == tok + tail;
    TokenLenGraphic(tok, tail);
    assert s[..|tok|] == tok && s[|tok|..] == tail && tail[1..] == rest;
    assert SpaceLen(s) == 0;
  }

  lemma FieldsLast(tok: seq<byte>)
    requires IsGraphic(tok) && tok != []
    ensures Fields(tok) == [tok]
  {
    TokenLenGraphic(tok, []);
    assert tok + [] == tok && tok[|tok|..] == [] && tok[..|tok|] == tok;
    assert SpaceLen(tok) == 0;
  }

  // ---- The same in code points ----

  /** A Unicode scalar value. */
  predicate IsScalar(c: nat) { c < 0xD800 || 0xE000 <= c < 0x11_0000 }

  /** Its encoding, by the bit patterns of RFC 3629. */
  function Utf8(c: nat): (s: seq<byte>)
    requires IsScalar(c)
    ensures 1 <= |s| <= 4
  {
    if c < 0x80 then [c]
    else if c < 0x800 then [0xC0 + c / 0x40, 0x80 + c % 0x40]
    else if c < 0x1_0000 then [0xE0 + c / 0x1000, 0x80 + c / 0x40 % 0x40, 0x80 + c % 0x40]
    else [0xF0 + c / 0x4_0000, 0x80 + c / 0x1000 % 0x40, 0x80 + c / 0x40 % 0x40, 0x80 + c % 0x40]
  }

  predicate AllScalar(cs: seq<nat>) { forall i :: 0 <= i < |cs| ==> IsScalar(cs[i]) }

  function Encode(cs: seq<nat>): seq<byte>
    requires AllScalar(cs)
  {
    if cs == [] then [] else Utf8(cs[0]) + Encode(cs[1..])
  }

  /** Six more bits from a continuation byte. */
  function More(bits: nat, b: byte): nat
    requires IsTail(b)
  {
    bits * 0x40 + (b - 0x80) as nat
  }

  /** The scalar value at the head of well-formed text. */
  function Scalar(s: seq<byte>): nat
    requires CharLen(s) > 0
  {
    var n := CharLen(s);
    if n == 1 then s[0] as nat
    else if n == 2 then More((s[0] - 0xC0) as nat, s[1])
    else if n == 3 then More(More((s[0] - 0xE0) as nat, s[1]), s[2])
    else More(More(More((s[0] - 0xF0) as nat, s[1]), s[2]), s[3])
  }

  lemma MoreBits(bits: nat, b: byte)
    requires IsTail(b)
    ensures More(bits, b) / 0x40 == bits && More(bits, b) % 0x40 == (b - 0x80) as nat
    ensures More(bits, b) / 0x1000 == bits / 0x40 && More(bits, b) / 0x4_0000 == bits / 0x1000
  {
  }

  lemma EncodedChar(c: nat, rest: seq<byte>)
    requires IsScalar(c)
    ensures CharLen(Utf8(c) + rest) == |Utf8(c)| && (Utf8(c) + rest)[|Utf8(c)|..] == rest
  {
    var s := Utf8(c) + rest;
    assert forall i :: 0 <= i < |Utf8(c)| ==> s[i] == Utf8(c)[i];
  }

  lemma CharIsEncoded(s: seq<byte>)
    requires CharLen(s) > 0
    ensures IsScalar(Scalar(s)) && Utf8(Scalar(s)) == s[..CharLen(s)]
  {
    var n := CharLen(s);
    if n == 2 {
      MoreBits((s[0] - 0xC0) as nat, s[1]);
    } else if n == 3 {
      ThreeBytes(s[0], s[1], s[2]);
    } else if n == 4 {
      FourBytes(s[0], s[1], s[2], s[3]);
    }
    hide More;
  }

  lemma ThreeBytes(a: byte, b: byte, c: byte)
    requires IsLead3(a, b) && IsTail(c)
    ensures var n := More(More((a - 0xE0) as nat, b), c);
      IsScalar(n) && 0x800 <= n < 0x1_0000 && Utf8(n) == [a, b, c]
  {
    var high := More((a - 0xE0) as nat, b);
    MoreBits((a - 0xE0) as nat, b);
    MoreBits(high, c);
  }

  lemma FourBytes(a: byte, b: byte, c: byte, d: byte)
    requires IsLead4(a, b) && IsTail(c) && IsTail(d)
    ensures var n := More(More(More((a - 0xF0) as nat, b), c), d);
      IsScalar(n) && n >= 0x1_0000 && Utf8(n) == [a, b, c, d]
  {
    var high := More((a - 0xF0) as nat, b);
    var middle := More(high, c);
    MoreBits((a - 0xF0) as nat, b);
    MoreBits(high, c);
    MoreBits(middle, d);
  }

  lemma {:induction false} EncodeIsValid(cs: seq<nat>)
    requires AllScalar(cs)
    ensures ValidUtf8(Encode(cs))
    decreases |cs|
  {
    if cs != [] {
      EncodedChar(cs[0], Encode(cs[1..]));
      EncodeIsValid(cs[1..]);
    }
  }

  lemma {:induction false} ValidIsEncoded(s: seq<byte>) returns (cs: seq<nat>)
    requires ValidUtf8(s)
    ensures AllScalar(cs) && Encode(cs) == s
    decreases |s|
  {
    hide CharLen, Scalar, Utf8, IsScalar;
    if s == [] {
      cs := [];
    } else {
      var n := CharLen(s);
      var rest := ValidIsEncoded(s[n..]);
      CharIsEncoded(s);
      cs := [Scalar(s)] + rest;
      assert cs[1..] == rest && s[..n] + s[n..] == s;
    }
  }

  /** The byte tables say exactly what UTF-8 is: the valid texts are the encodings of the
      sequences of scalar values. */
  lemma ValidMeaning(s: seq<byte>)
    ensures ValidUtf8(s) <==> exists cs: seq<nat> :: AllScalar(cs) && Encode(cs) == s
  {
    hide ValidUtf8, Encode, AllScalar;
    if ValidUtf8(s) {
      var cs := ValidIsEncoded(s);
    }
    forall cs: seq<nat> | AllScalar(cs) && Encode(cs) == s ensures ValidUtf8(s) {
      EncodeIsValid(cs);
    }
  }

  lemma {:induction false} EncodeConcat(a: seq<nat>, b: seq<nat>)
    requires AllScalar(a) && AllScalar(b)
    ensures AllScalar(a + b) && Encode(a + b) == Encode(a) + Encode(b)
    decreases |a|
  {
    hide Utf8;
    if a == [] {
      assert a + b == b;
    } else {
      assert (a + b)[1..] == a[1..] + b;
      EncodeConcat(a[1..], b);
      Regroup(Utf8(a[0]), Encode(a[1..]), Encode(b));
    }
  }

  lemma EncodeOne(c: nat)
    requires IsScalar(c)
    ensures Encode([c]) == Utf8(c)
  {
    hide Utf8;
    assert [c][1..] == [] && Utf8(c) + [] == Utf8(c);
  }

  lemma {:induction false} AsciiEncoded(s: seq<byte>, cs: seq<nat>)
    requires |s| == |cs| && IsAscii(s) && forall i :: 0 <= i < |s| ==> s[i] as nat == cs[i]
    ensures AllScalar(cs) && Encode(cs) == s
    decreases |s|
  {
    if s != [] {
      AsciiEncoded(s[1..], cs[1..]);
      assert s == [s[0]] + s[1..];
    }
  }

  /** The Unicode property White_Space. */
  predicate IsWhite(c: nat) {
    || 0x09 <= c <= 0x0D || c == 0x20 || c == 0x85 || c == 0xA0 || c == 0x1680 || 0x2000 <= c <= 0x200A
    || c == 0x2028 || c == 0x2029 || c == 0x202F || c == 0x205F || c == 0x3000
  }

  predicate AllWhite(cs: seq<nat>) { forall i :: 0 <= i < |cs| ==> IsWhite(cs[i]) }

  lemma SpaceMeaning(c: nat, rest: seq<byte>)
    requires IsScalar(c)
    ensures SpaceLen(Utf8(c) + rest) == if IsWhite(c) then |Utf8(c)| else 0
  {
    var s := Utf8(c) + rest;
    assert forall i :: 0 <= i < |Utf8(c)| ==> s[i] == Utf8(c)[i];
  }

  /** `EndSpaceLen` by the last three bytes. */
  lemma EndSpaceBytes(s: seq<byte>)
    requires s != []
    ensures EndSpaceLen(s) == EndSpaceOf(s[|s| - 1], if |s| >= 2 then Some(s[|s| - 2]) else None,
                                         if |s| >= 3 then Some(s[|s| - 3]) else None)
  {
    hide SpaceLen;
    LastBytes(s);
  }

  lemma LastBytes(s: seq<byte>)
    requires s != []
    ensures s[|s| - 1..] == [s[|s| - 1]]
    ensures |s| >= 2 ==> s[|s| - 2..] == [s[|s| - 2], s[|s| - 1]]
    ensures |s| >= 3 ==> s[|s| - 3..] == [s[|s| - 3], s[|s| - 2], s[|s| - 1]]
  {
  }

  function EndSpaceOf(last: byte, second: Option<byte>, third: Option<byte>): nat {
    if SpaceLen([last]) == 1 then 1
    else if second.Some? && SpaceLen([second.value, last]) == 2 then 2
    else if second.Some? && third.Some? && SpaceLen([third.value, second.value, last]) == 3 then 3
    else 0
  }

  /** Which bytes a character ends with decides, whatever stands before it. */
  lemma EndSpaceMeaning(before: seq<byte>, c: nat)
    requires IsScalar(c)
    ensures EndSpaceLen(before + Utf8(c)) == if IsWhite(c) then |Utf8(c)| else 0
  {
    hide EndSpaceLen;
    var u, s := Utf8(c), before + Utf8(c);
    var l := |s|;
    EndSpaceBytes(s);
    assert s[l - 1] == u[|u| - 1];
    assert |u| >= 2 ==> s[l - 2] == u[|u| - 2];
    assert |u| >= 3 ==> s[l - 3] == u[|u| - 3];
  }

  lemma {:induction false} TrimStartMeaning(white: seq<nat>, rest: seq<byte>)
    requires AllScalar(white) && AllWhite(white)
    ensures TrimStart(Encode(white) + rest) == TrimStart(rest)
    decreases |white|
  {
    hide Utf8, IsScalar, IsWhite, SpaceLen;
    if white == [] {
      assert Encode(white) + rest == rest;
    } else {
      var c, more := white[0], Encode(white[1..]) + rest;
      assert Encode(white) + rest == Utf8(c) + more;
      SpaceMeaning(c, more);
      assert (Utf8(c) + more)[|Utf8(c)|..] == more;
      TrimStartMeaning(white[1..], rest);
    }
  }

  lemma {:induction false} TrimEndMeaning(before: seq<byte>, white: seq<nat>)
    requires AllScalar(white) && AllWhite(white)
    ensures TrimEnd(before + Encode(white)) == TrimEnd(before)
    decreases |white|
  {
    hide Utf8, IsScalar, IsWhite, EndSpaceLen;
    if white == [] {
      assert before + Encode(white) == before;
    } else {
      var n := |white| - 1;
      var c, most := white[n], before + Encode(white[..n]);
      assert white == white[..n] + [c];
      EncodeConcat(white[..n], [c]);
      EncodeOne(c);
      assert before + Encode(white) == most + Utf8(c);
      EndSpaceMeaning(most, c);
      assert (most + Utf8(c))[..|most|] == most;
      TrimEndMeaning(before, white[..n]);
    }
  }

  /** Neither end of the text is white space. */
  predicate IsTrimmed(text: seq<nat>) { text == [] || (!IsWhite(text[0]) && !IsWhite(text[|text| - 1])) }

  /** `trim` takes off the white space at both ends, all of it and nothing else. */
  lemma TrimMeaning(before: seq<nat>, text: seq<nat>, after: seq<nat>)
    requires AllScalar(before) && AllScalar(text) && AllScalar(after)
    requires AllWhite(before) && AllWhite(after) && IsTrimmed(text)
    ensures Trim(Encode(before) + Encode(text) + Encode(after)) == Encode(text)
  {
    hide TrimStart, TrimEnd, Encode, AllScalar;
    Regroup(Encode(before), Encode(text), Encode(after));
    TrimStartMeaning(before, Encode(text) + Encode(after));
    if text == [] {
      EncodeNothing();
      assert [] + Encode(after) == Encode(after) && Encode(after) + [] == Encode(after);
      TrimStartMeaning(after, []);
      TrimNothing();
    } else {
      KeptStart(text, Encode(after));
      TrimEndMeaning(Encode(text), after);
      KeptEnd(text);
    }
  }

  lemma EncodeNothing()
    ensures Encode([]) == []
  {
  }

  lemma TrimNothing()
    ensures TrimStart([]) == [] && TrimEnd([]) == []
  {
  }

  lemma KeptStart(text: seq<nat>, rest: seq<byte>)
    requires AllScalar(text) && text != [] && !IsWhite(text[0])
    ensures TrimStart(Encode(text) + rest) == Encode(text) + rest
  {
    hide Utf8, IsWhite, SpaceLen;
    var more := Encode(text[1..]) + rest;
    assert Encode(text) + rest == Utf8(text[0]) + more;
    SpaceMeaning(text[0], more);
  }

  lemma KeptEnd(text: seq<nat>)
    requires AllScalar(text) && text != [] && !IsWhite(text[|text| - 1])
    ensures TrimEnd(Encode(text)) == Encode(text)
  {
    hide Utf8, IsWhite, EndSpaceLen;
    var n := |text| - 1;
    assert text == text[..n] + [text[n]];
    EncodeConcat(text[..n], [text[n]]);
    EncodeOne(text[n]);
    EndSpaceMeaning(Encode(text[..n]), text[n]);
  }

  lemma LossyChar(c: nat, rest: seq<byte>)
    requires IsScalar(c)
    ensures Lossy(Utf8(c) + rest) == Utf8(c) + Lossy(rest)
  {
    hide Utf8, CharLen;
    EncodedChar(c, rest);
    assert (Utf8(c) + rest)[..|Utf8(c)|] == Utf8(c);
  }

  lemma BadByte(rest: seq<byte>)
    ensures rest != [] && (0x80 <= rest[0] < 0xC2 || rest[0] > 0xF4) ==> Lossy(rest) == REPLACEMENT + Lossy(rest[1..])
  {
    if rest != [] && (0x80 <= rest[0] < 0xC2 || rest[0] > 0xF4) {
      NoLead(rest);
      hide CharLen, BadLen, ValidUtf8;
      assert Lossy(rest) == REPLACEMENT + Lossy(rest[BadLen(rest)..]);
    }
  }

  lemma NoLead(rest: seq<byte>)
    requires rest != [] && (0x80 <= rest[0] < 0xC2 || rest[0] > 0xF4)
    ensures CharLen(rest) == 0 && BadLen(rest) == 1
  {
  }

  /** Well-formed text is left alone, and a byte that no character starts with becomes one
      U+FFFD. */
  lemma {:induction false} LossyMeaning(cs: seq<nat>, rest: seq<byte>)
    requires AllScalar(cs)
    ensures Lossy(Encode(cs) + rest) == Encode(cs) + Lossy(rest)
    ensures rest != [] && (0x80 <= rest[0] < 0xC2 || rest[0] > 0xF4) ==>
      Lossy(rest) == [0xEF, 0xBF, 0xBD] + Lossy(rest[1..])
    decreases |cs|
  {
    hide Utf8, IsScalar, Lossy;
    if cs == [] {
      assert Encode(cs) + rest == rest && [] + Lossy(rest) == Lossy(rest);
      BadByte(rest);
    } else {
      var u, more := Utf8(cs[0]), Encode(cs[1..]);
      LossyMeaning(cs[1..], rest);
      LossyChar(cs[0], more + rest);
      Regroup(u, more, rest);
      Regroup(u, more, Lossy(rest));
    }
  }

  lemma LossyNothing()
    ensures Lossy([]) == []
  {
  }
}
