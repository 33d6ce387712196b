/** The Host header check and the legacy IPv4 number forms (src/auth.rs). */
module Hosts {
  import opened Bytes
  import Numbers

  const DOT: byte := 0x2E
  const COLON: byte := 0x3A
  const OPEN: byte := 0x5B
  const CLOSE: byte := 0x5D
  const ZERO: byte := 0x30
  const DEFAULT_PORT: nat := 80

  datatype IpAddr = V4(bits: nat) | V6(bits: nat)

  /** The IPv6 parser is a parameter; an IPv6 literal always holds a colon. */
  type V6Parser = seq<byte> -> Option<nat>

  ghost predicate NeedsColon(v6: V6Parser) {
    forall s: seq<byte> :: COLON !in s ==> v6(s).None?
  }

  // ---- Splitting ----

  /** `split(sep)`: always at least one piece. */
  function Split(s: seq<byte>, sep: byte): (parts: seq<seq<byte>>)
    ensures parts != []
    decreases |s|
  {
    var i := IndexOf(s, sep);
    if i == |s| then [s] else [s[..i]] + Split(s[i + 1..], sep)
  }

  function Join(parts: seq<seq<byte>>, sep: byte): seq<byte> {
    if parts == [] then []
    else if |parts| == 1 then parts[0]
    else parts[0] + [sep] + Join(parts[1..], sep)
  }

  lemma {:induction false} SplitJoin(parts: seq<seq<byte>>, sep: byte)
    requires parts != [] && forall i :: 0 <= i < |parts| ==> sep !in parts[i]
    ensures Split(Join(parts, sep), sep) == parts
    decreases |parts|
  {
    if |parts| == 1 {
      assert IndexOf(parts[0], sep) == |parts[0]|;
    } else {
      var rest := Join(parts[1..], sep);
      SplitJoin(parts[1..], sep);
      IndexOfPrefix(parts[0], sep, rest);
      var s := Join(parts, sep);
      assert s[..|parts[0]|] == parts[0] && s[|parts[0]| + 1..] == rest;
    }
  }

  /** And splitting loses nothing: no piece holds the separator, and joined they are the text. */
  lemma {:induction false} SplitPieces(s: seq<byte>, sep: byte)
    ensures Join(Split(s, sep), sep) == s
    ensures forall i :: 0 <= i < |Split(s, sep)| ==> sep !in Split(s, sep)[i]
    decreases |s|
  {
    var i := IndexOf(s, sep);
    if i < |s| {
      SplitPieces(s[i + 1..], sep);
      assert s == s[..i] + [sep] + s[i + 1..];
      assert Split(s, sep)[1..] == Split(s[i + 1..], sep);
    }
  }

  lemma {:induction false} JoinHasNo(parts: seq<seq<byte>>, sep: byte, b: byte)
    requires b != sep && forall i :: 0 <= i < |parts| ==> b !in parts[i]
    ensures b !in Join(parts, sep)
    decreases |parts|
  {
    if |parts| > 1 {
      JoinHasNo(parts[1..], sep, b);
    }
  }

  // ---- Numbers ----

  predicate AllDigits(s: seq<byte>) { forall i :: 0 <= i < |s| ==> 0x30 <= s[i] <= 0x39 }

  /** `parse_legacy_u32` */
  function ParseLegacy(s: seq<byte>): Option<nat> {
    if Ascii("0x") <= s || Ascii("0X") <= s then Numbers.Parse(s[2..], 16, Numbers.U32_LIMIT)
    else if |s| > 1 && s[0] == ZERO && AllDigits(s[1..]) then Numbers.Parse(s[1..], 8, Numbers.U32_LIMIT)
    else Numbers.ParseU32(s)
  }

  /** One component of a canonical dotted quad: no leading zero. */
  function Octet(s: seq<byte>): Option<nat> {
    if 1 <= |s| <= 3 && AllDigits(s) && (|s| > 1 ==> s[0] != ZERO) then Numbers.Parse(s, 10, 256) else None
  }

  function ParseAll(parse: seq<byte> -> Option<nat>, parts: seq<seq<byte>>): Option<seq<nat>> {
    if parts == [] then Some([])
    else match (parse(parts[0]), ParseAll(parse, parts[1..]))
         case (Some(n), Some(rest)) => Some([n] + rest)
         case _ => None
  }

  // ---- Bits ----

  function Pow2(k: nat): nat { if k == 0 then 1 else 2 * Pow2(k - 1) }

  /** `x << k` on a u32. */
  function Shl(x: nat, k: nat): nat { x * Pow2(k) % Numbers.U32_LIMIT }

  /** `x | y` */
  function Or(x: nat, y: nat): nat
    decreases x + y
  {
    if x == 0 && y == 0 then 0
    else 2 * Or(x / 2, y / 2) + if x % 2 == 1 || y % 2 == 1 then 1 else 0
  }

  /** The number arm of `parse_ip_with_legacy_forms`. */
  function Combine(nums: seq<nat>): Option<nat> {
    if |nums| == 1 then Some(nums[0])
    else if |nums| == 2 then
      if nums[0] > 0xFF || nums[1] > 0xFF_FFFF then None else Some(Or(Shl(nums[0], 24), nums[1]))
    else if |nums| == 3 then
      if nums[0] > 0xFF || nums[1] > 0xFF || nums[2] > 0xFFFF then None
      else Some(Or(Or(Shl(nums[0], 24), Shl(nums[1], 16)), nums[2]))
    else None
  }

  // ---- Addresses ----

  function Quad(s: seq<byte>): Option<nat> {
    match ParseAll(Octet, Split(s, DOT))
    case Some(n) => if |n| == 4 then Some(n[0] * 0x100_0000 + n[1] * 0x1_0000 + n[2] * 0x100 + n[3]) else None
    case None => None
  }

  /** `parse_ip_with_legacy_forms` */
  function ParseIp(v6: V6Parser, s: seq<byte>): Option<IpAddr> {
    if Quad(s).Some? then Some(V4(Quad(s).value))
    else if v6(s).Some? then Some(V6(v6(s).value))
    else
      var parts := Split(s, DOT);
      if exists i | 0 <= i < |parts| :: parts[i] == [] then None
      else match ParseAll(ParseLegacy, parts)
           case None => None
           case Some(nums) =>
             match Combine(nums)
             case Some(bits) => Some(V4(bits))
             case None => None
  }

  /** `IpAddr::is_loopback`: an IPv4-mapped IPv6 address is not. */
  predicate IsLoopback(a: IpAddr) {
    match a
    case V4(bits) => bits / 0x100_0000 == 127
    case V6(bits) => bits == 1
  }

  /** Index of the last `b`, or `|s|`. */
  function LastIndexOf(s: seq<byte>, b: byte): (i: nat)
    ensures i <= |s|
    ensures i < |s| ==> s[i] == b && b !in s[i + 1..]
    ensures i == |s| <==> b !in s
  {
    if s == [] then 0
    else
      var n := |s| - 1;
      if s[n] == b then n
      else
        var i := LastIndexOf(s[..n], b);
        assert s == s[..n] + [s[n]];
        if i == n then |s| else i
  }

  /** `split_host_port`: the host part and the port, or nothing when malformed. */
  function SplitHostPort(host: seq<byte>): Option<(seq<byte>, nat)> {
    if host != [] && host[0] == OPEN then
      var inner := host[1..];
      var close := IndexOf(inner, CLOSE);
      if close == |inner| then None
      else
        var after := inner[close + 1..];
        if after == [] || after[0] != COLON then Some((inner[..close], DEFAULT_PORT))
        else match Numbers.ParseU16(after[1..])
             case Some(port) => Some((inner[..close], port))
             case None => None
    else
      var i := LastIndexOf(host, COLON);
      if i < |host| && Numbers.ParseU16(host[i + 1..]).Some? then
        Some((host[..i], Numbers.ParseU16(host[i + 1..]).value))
      else Some((host, DEFAULT_PORT))
  }

  function TrimDots(s: seq<byte>): seq<byte> {
    if s != [] && s[|s| - 1] == DOT then TrimDots(s[..|s| - 1]) else s
  }

  const LOCALHOST: seq<byte> := Ascii("localhost")

  /** `check_host` on the header's value. */
  predicate CheckHost(v6: V6Parser, header: Option<seq<byte>>) {
    && header.Some?
    && SplitHostPort(header.value).Some?
    && var host := Lower(TrimDots(SplitHostPort(header.value).value.0));
       host == LOCALHOST || (ParseIp(v6, host).Some? && IsLoopback(ParseIp(v6, host).value))
  }

  // ---- Shifts and ors are positional sums ----

  lemma {:induction false} OrZero(x: nat)
    ensures Or(x, 0) == x
    decreases x
  {
    if x > 0 {
      OrZero(x / 2);
    }
  }

  lemma {:induction false} OrDisjoint(a: nat, k: nat, b: nat)
    requires b < Pow2(k)
    ensures Or(a * Pow2(k), b) == a * Pow2(k) + b
    decreases k
  {
    if k == 0 {
      OrZero(a);
    } else {
      var half := a * Pow2(k - 1);
      assert a * Pow2(k) == 2 * half;
      OrDisjoint(a, k - 1, b / 2);
      assert (2 * half) / 2 == half && (2 * half) % 2 == 0;
    }
  }

  lemma PowersOfTwo()
    ensures Pow2(8) == 0x100 && Pow2(16) == 0x1_0000 && Pow2(24) == 0x100_0000
  {
    assert Pow2(4) == 16;
    assert Pow2(8) == 256;
    assert Pow2(12) == 4096;
    assert Pow2(16) == 65536;
    assert Pow2(20) == 1048576;
  }

  /** Address arithmetic by place value. */
  function Positional(nums: seq<nat>): nat {
    if |nums| == 1 then nums[0]
    else if |nums| == 2 then nums[0] * 0x100_0000 + nums[1]
    else if |nums| == 3 then nums[0] * 0x100_0000 + nums[1] * 0x1_0000 + nums[2]
    else 0
  }

  /** Every part but the last is one byte; the last fills what is left of 32 bits. */
  predicate InRange(nums: seq<nat>) {
    && 1 <= |nums| <= 3
    && (forall i :: 0 <= i < |nums| - 1 ==> nums[i] <= 0xFF)
    && nums[|nums| - 1] < Pow2(8 * (5 - |nums|))
  }

  lemma Ranges()
    ensures Pow2(8 * 4) == Numbers.U32_LIMIT
  {
    PowersOfTwo();
    assert Pow2(28) == 268435456;
    assert Pow2(32) == Numbers.U32_LIMIT;
  }

  lemma ShlFits(x: nat, k: nat)
    requires x <= 0xFF && (k == 16 || k == 24)
    ensures Shl(x, k) == x * Pow2(k)
    ensures Pow2(16) == 0x1_0000 && Pow2(24) == 0x100_0000
  {
    hide Pow2;
    PowersOfTwo();
  }

  lemma CombineTwo(a: nat, b: nat)
    requires a <= 0xFF && b <= 0xFF_FFFF
    ensures Or(Shl(a, 24), b) == a * 0x100_0000 + b
  {
    hide Or, Pow2, Shl;
    ShlFits(a, 24);
    OrDisjoint(a, 24, b);
  }

  lemma CombineThree(a: nat, b: nat, c: nat)
    requires a <= 0xFF && b <= 0xFF && c <= 0xFFFF
    ensures Or(Or(Shl(a, 24), Shl(b, 16)), c) == a * 0x100_0000 + b * 0x1_0000 + c
  {
    hide Or, Pow2, Shl;
    ShlFits(a, 24);
    ShlFits(b, 16);
    OrDisjoint(a, 24, b * 0x1_0000);
    assert a * 0x100_0000 + b * 0x1_0000 == (a * 0x100 + b) * 0x1_0000;
    OrDisjoint(a * 0x100 + b, 16, c);
  }

  lemma CombineIsPositional(nums: seq<nat>)
    requires forall i :: 0 <= i < |nums| ==> nums[i] < Numbers.U32_LIMIT
    ensures Combine(nums) == if InRange(nums) then Some(Positional(nums)) else None
  {
    hide Pow2, Or, Shl;
    PowersOfTwo();
    Ranges();
    if |nums| == 2 && nums[0] <= 0xFF && nums[1] <= 0xFF_FFFF {
      CombineTwo(nums[0], nums[1]);
    } else if |nums| == 3 && nums[0] <= 0xFF && nums[1] <= 0xFF && nums[2] <= 0xFFFF {
      CombineThree(nums[0], nums[1], nums[2]);
    }
  }

  // ---- What one part means ----

  /** `inet_aton`'s reading of one part: a C numeral, hexadecimal after `0x`, octal after `0`,
      decimal otherwise. */
  function InetAton(s: seq<byte>): Option<nat> {
    if HasHexMark(s) then Numbers.Numeral(s[2..], 16, Numbers.U32_LIMIT)
    else if |s| > 1 && s[0] == ZERO then Numbers.Numeral(s[1..], 8, Numbers.U32_LIMIT)
    else Numbers.Numeral(s, 10, Numbers.U32_LIMIT)
  }

  predicate HasHexMark(s: seq<byte>) { |s| >= 2 && s[0] == ZERO && (s[1] == 0x78 || s[1] == 0x58) }

  /** A sign where the code's number parser accepts one and `inet_aton` does not. */
  predicate Signed(s: seq<byte>) {
    (s != [] && s[0] == Numbers.PLUS) || (HasHexMark(s) && |s| > 2 && s[2] == Numbers.PLUS)
  }

  /** What the code makes of a part: as `inet_aton`, but a sign is skipped, and after a
      leading sign the rest is decimal. */
  function PartValue(s: seq<byte>): Option<nat> {
    if !Signed(s) then InetAton(s)
    else if s[0] == Numbers.PLUS then Numbers.Numeral(s[1..], 10, Numbers.U32_LIMIT)
    else Numbers.Numeral(s[3..], 16, Numbers.U32_LIMIT)
  }

  lemma HexMark(s: seq<byte>)
    ensures HasHexMark(s) <==> Ascii("0x") <= s || Ascii("0X") <= s
  {
    assert Ascii("0x") == [ZERO, 0x78] && Ascii("0X") == [ZERO, 0x58];
  }

  /** Of every text whatever. */
  lemma PartMeaning(s: seq<byte>)
    ensures ParseLegacy(s) == PartValue(s)
    ensures Signed(s) ==> InetAton(s).None?
  {
    hide Numbers.Value, Numbers.Parse, Ascii;
    HexMark(s);
    Numbers.ParseMeaning(s, 10, Numbers.U32_LIMIT);
    if HasHexMark(s) {
      Numbers.ParseMeaning(s[2..], 16, Numbers.U32_LIMIT);
      assert |s| > 2 ==> s[2..][0] == s[2] && s[2..][1..] == s[3..];
    } else if |s| > 1 && s[0] == ZERO {
      Numbers.ParseMeaning(s[1..], 8, Numbers.U32_LIMIT);
      NotAllDigits(s);
    }
  }

  lemma NotAllDigits(s: seq<byte>)
    requires |s| > 1 && s[0] == ZERO
    ensures AllDigits(s[1..]) ==> s[1..][0] != Numbers.PLUS
    ensures !AllDigits(s[1..]) ==> !Numbers.IsNumeral(s, 10) && !Numbers.IsNumeral(s[1..], 8)
  {
    assert forall i :: 1 <= i < |s| ==> s[i] == s[1..][i - 1];
    if !AllDigits(s[1..]) {
      var i :| 0 <= i < |s[1..]| && !(0x30 <= s[1..][i] <= 0x39);
      assert Numbers.DigitValue(s[i + 1]) >= 10 && Numbers.DigitValue(s[1..][i]) >= 10;
    }
  }

  /** The decimal, hexadecimal and octal spellings of a number agree, whatever leading zeros,
      letter case and `x` they are written with. */
  lemma SpellingsAgree(decimal: seq<byte>, hex: seq<byte>, mark: byte, octal: seq<byte>)
    requires decimal != [] && Numbers.IsNumeral(decimal, 10) && (|decimal| > 1 ==> decimal[0] != ZERO)
    requires hex != [] && Numbers.IsNumeral(hex, 16) && (mark == 0x78 || mark == 0x58)
    requires octal != [] && Numbers.IsNumeral(octal, 8)
    ensures ParseLegacy(decimal) == Below(Numbers.Value(decimal, 10))
    ensures ParseLegacy([ZERO, mark] + hex) == Below(Numbers.Value(hex, 16))
    ensures ParseLegacy([ZERO] + octal) == Below(Numbers.Value(octal, 8))
  {
    hide ParseLegacy, Numbers.Value;
    PartMeaning(decimal);
    PartMeaning([ZERO, mark] + hex);
    PartMeaning([ZERO] + octal);
    assert ([ZERO, mark] + hex)[2..] == hex && ([ZERO, mark] + hex)[2] == hex[0];
    assert ([ZERO] + octal)[1..] == octal && ([ZERO] + octal)[1] == octal[0];
    assert Numbers.DigitValue(octal[0]) < 8 && Numbers.DigitValue(hex[0]) < 16 && Numbers.DigitValue(decimal[0]) < 10;
    assert decimal[0] != Numbers.PLUS && !HasHexMark(decimal);
  }

  function Below(n: nat): Option<nat> { if n < Numbers.U32_LIMIT then Some(n) else None }

  // ---- Whole addresses ----

  function Values(value: seq<byte> -> Option<nat>, parts: seq<seq<byte>>): seq<nat>
    requires forall i :: 0 <= i < |parts| ==> value(parts[i]).Some?
  {
    seq(|parts|, i requires 0 <= i < |parts| => value(parts[i]).value)
  }

  /** The address of one to three parts by place value, when each has a value and all are in
      range. */
  function AddressOf(value: seq<byte> -> Option<nat>, parts: seq<seq<byte>>): Option<nat> {
    if (forall i :: 0 <= i < |parts| ==> value(parts[i]).Some?) && InRange(Values(value, parts))
    then Some(Positional(Values(value, parts)))
    else None
  }

  function AsV4(bits: Option<nat>): Option<IpAddr> {
    match bits
    case Some(n) => Some(V4(n))
    case None => None
  }

  lemma {:induction false} ParseAllMeaning(parse: seq<byte> -> Option<nat>, parts: seq<seq<byte>>)
    ensures ParseAll(parse, parts)
         == if forall i :: 0 <= i < |parts| ==> parse(parts[i]).Some? then Some(Values(parse, parts)) else None
    decreases |parts|
  {
    if parts != [] {
      var rest := parts[1..];
      ParseAllMeaning(parse, rest);
      assert forall i :: 0 <= i < |rest| ==> rest[i] == parts[i + 1];
      assert forall i :: 1 <= i < |parts| ==> parts[i] == rest[i - 1];
      assert (forall i :: 0 <= i < |parts| ==> parse(parts[i]).Some?)
        <==> parse(parts[0]).Some? && forall i :: 0 <= i < |rest| ==> parse(rest[i]).Some?;
      if forall i :: 0 <= i < |parts| ==> parse(parts[i]).Some? {
        assert Values(parse, parts) == [parse(parts[0]).value] + Values(parse, rest);
      }
    } else {
      assert Values(parse, parts) == [];
    }
  }

  lemma PartsMeaning(parts: seq<seq<byte>>)
    ensures forall i :: 0 <= i < |parts| ==> ParseLegacy(parts[i]) == PartValue(parts[i])
    ensures forall i :: 0 <= i < |parts| && ParseLegacy(parts[i]).Some? ==>
      parts[i] != [] && ParseLegacy(parts[i]).value < Numbers.U32_LIMIT
    ensures forall i :: 0 <= i < |parts| && Signed(parts[i]) ==> InetAton(parts[i]).None?
  {
    hide ParseLegacy, Numbers.Value;
    forall i | 0 <= i < |parts|
      ensures ParseLegacy(parts[i]) == PartValue(parts[i])
      ensures Signed(parts[i]) ==> InetAton(parts[i]).None?
    {
      PartMeaning(parts[i]);
    }
  }

  lemma FewParts(parts: seq<seq<byte>>)
    requires 1 <= |parts| <= 3
    ensures AddressOf(ParseLegacy, parts)
         == if ParseAll(ParseLegacy, parts).Some? then Combine(ParseAll(ParseLegacy, parts).value) else None
  {
    hide ParseAll, Combine, InRange, Positional, ParseLegacy;
    PartsMeaning(parts);
    ParseAllMeaning(ParseLegacy, parts);
    if forall i :: 0 <= i < |parts| ==> ParseLegacy(parts[i]).Some? {
      CombineIsPositional(Values(ParseLegacy, parts));
    }
  }

  lemma SameValues(f: seq<byte> -> Option<nat>, g: seq<byte> -> Option<nat>,
                   parts: seq<seq<byte>>, others: seq<seq<byte>>)
    requires |parts| == |others| && forall i :: 0 <= i < |parts| ==> f(parts[i]) == g(others[i])
    ensures AddressOf(f, parts) == AddressOf(g, others)
  {
    hide InRange, Positional;
    if forall i :: 0 <= i < |parts| ==> f(parts[i]).Some? {
      assert forall i :: 0 <= i < |parts| ==> g(others[i]).Some?;
      assert Values(f, parts) == Values(g, others);
    } else {
      var i :| 0 <= i < |parts| && f(parts[i]).None?;
      assert g(others[i]).None?;
    }
  }

  /** Any text of at most three parts without a colon is the address of its parts by place
      value, exactly when each part has a value and they are in range. */
  lemma LegacyValue(v6: V6Parser, s: seq<byte>)
    requires NeedsColon(v6) && COLON !in s && |Split(s, DOT)| <= 3
    ensures ParseIp(v6, s) == AsV4(AddressOf(PartValue, Split(s, DOT)))
  {
    hide Split, ParseAll, Combine, AddressOf, ParseLegacy, PartValue, Octet;
    var parts := Split(s, DOT);
    PartsMeaning(parts);
    ParseAllMeaning(Octet, parts);
    ParseAllMeaning(ParseLegacy, parts);
    FewParts(parts);
    SameValues(ParseLegacy, PartValue, parts, parts);
  }

  /** It is the address `inet_aton` reads unless a sign made the code accept what `inet_aton`
      refuses. */
  lemma LegacyIsInetAton(v6: V6Parser, s: seq<byte>)
    requires NeedsColon(v6) && COLON !in s && |Split(s, DOT)| <= 3
    ensures var parts := Split(s, DOT);
      (ParseIp(v6, s) == AsV4(AddressOf(InetAton, parts)))
        <==> ((forall i :: 0 <= i < |parts| ==> !Signed(parts[i])) || AddressOf(PartValue, parts).None?)
  {
    hide Split, ParseIp, InRange, Positional, ParseLegacy, InetAton, Signed;
    var parts := Split(s, DOT);
    LegacyValue(v6, s);
    PartsMeaning(parts);
    if forall i :: 0 <= i < |parts| ==> !Signed(parts[i]) {
      SameValues(PartValue, InetAton, parts, parts);
    }
  }

  /** `+127.1` is read as 127.0.0.1, and `inet_aton` refuses it. */
  lemma SignIsAccepted(v6: V6Parser)
    requires NeedsColon(v6)
    ensures ParseIp(v6, Ascii("+127.1")) == Some(V4(0x7F00_0001))
    ensures AddressOf(InetAton, Split(Ascii("+127.1"), DOT)).None?
  {
    hide Split, ParseIp, PartValue, InetAton, AddressOf, NeedsColon;
    var s, parts := Ascii("+127.1"), [Ascii("+127"), Ascii("1")];
    SplitSigned();
    LegacyValue(v6, s);
    SignedParts(parts);
    TwoParts(parts);
  }

  lemma SplitSigned()
    ensures Split(Ascii("+127.1"), DOT) == [Ascii("+127"), Ascii("1")] && COLON !in Ascii("+127.1")
  {
    hide Split;
    var parts := [Ascii("+127"), Ascii("1")];
    assert Ascii("+127.1") == parts[0] + [DOT] + parts[1];
    assert Join(parts[1..], DOT) == parts[1];
    SplitJoin(parts, DOT);
  }

  lemma TwoParts(parts: seq<seq<byte>>)
    requires |parts| == 2 && PartValue(parts[0]) == Some(127) && PartValue(parts[1]) == Some(1)
    ensures AddressOf(PartValue, parts) == Some(0x7F00_0001)
    ensures InetAton(parts[0]).None? ==> AddressOf(InetAton, parts).None?
  {
    hide Pow2, PartValue, InetAton;
    if forall i :: 0 <= i < |parts| ==> PartValue(parts[i]).Some? {
      assert Values(PartValue, parts) == [127, 1];
      PowersOfTwo();
    }
  }

  lemma SignedParts(parts: seq<seq<byte>>)
    requires parts == [Ascii("+127"), Ascii("1")]
    ensures PartValue(parts[0]) == Some(127) && PartValue(parts[1]) == Some(1) && InetAton(parts[0]).None?
  {
    var digits: seq<byte> := [0x31, 0x32, 0x37];
    assert parts[0][1..] == digits && parts[1] == [0x31];
    assert digits[..2] == [0x31, 0x32] && digits[..2][..1] == [0x31] && parts[1][..0] == [];
    assert Numbers.Value([0x31], 10) == 1;
    assert Numbers.Value(digits[..2], 10) == 12;
    assert Numbers.Value(digits, 10) == 127;
  }

  // ---- Four parts ----

  /** An octet is the decimal numeral, as it is printed, of a number below 256. */
  lemma OctetMeaning(s: seq<byte>)
    ensures Octet(s).Some? <==> exists n: nat :: n < 256 && s == Numbers.PrintDecimal(n)
    ensures forall n: nat :: n < 256 ==> Octet(Numbers.PrintDecimal(n)) == Some(n)
  {
    forall n: nat | n < 256 ensures Octet(Numbers.PrintDecimal(n)) == Some(n) {
      PrintedOctet(n);
    }
    if Octet(s).Some? {
      Numbers.ParseMeaning(s, 10, 256);
      assert Numbers.DigitValue(Numbers.PLUS) == 16;
      Numbers.PrintOfValue(s);
    }
  }

  lemma PrintedOctet(n: nat)
    requires n < 256
    ensures Octet(Numbers.PrintDecimal(n)) == Some(n)
  {
    Numbers.PrintParse(n, 10, 256);
    assert |Numbers.Print(n, 10)| <= 3 by {
      if n >= 10 {
        assert |Numbers.Print(n / 10, 10)| <= 2;
      }
    }
    hide Numbers.Parse;
  }

  /** Four octets by place value. */
  function QuadValue(parts: seq<seq<byte>>): Option<nat>
    requires |parts| == 4
  {
    match (Octet(parts[0]), Octet(parts[1]), Octet(parts[2]), Octet(parts[3]))
    case (Some(a), Some(b), Some(c), Some(d)) => Some(((a * 0x100 + b) * 0x100 + c) * 0x100 + d)
    case _ => None
  }

  /** Four parts are an address only as a canonical dotted quad: decimal bytes without
      leading zeros, and then the address by place value. */
  lemma FourParts(v6: V6Parser, s: seq<byte>)
    requires NeedsColon(v6) && COLON !in s && |Split(s, DOT)| == 4
    ensures ParseIp(v6, s) == AsV4(QuadValue(Split(s, DOT)))
    ensures QuadValue(Split(s, DOT)).Some? <==> forall i :: 0 <= i < 4 ==> Octet(Split(s, DOT)[i]).Some?
  {
    hide Split, ParseAll, Octet, ParseLegacy, Quad, QuadValue;
    var parts := Split(s, DOT);
    QuadOfFour(s);
    ParseAllMeaning(ParseLegacy, parts);
  }

  lemma QuadOfFour(s: seq<byte>)
    requires |Split(s, DOT)| == 4
    ensures Quad(s) == QuadValue(Split(s, DOT))
    ensures QuadValue(Split(s, DOT)).Some? <==> forall i :: 0 <= i < 4 ==> Octet(Split(s, DOT)[i]).Some?
  {
    hide Split, ParseAll, Octet;
    ParseAllMeaning(Octet, Split(s, DOT));
  }

  lemma ManyParts(v6: V6Parser, s: seq<byte>)
    requires NeedsColon(v6) && COLON !in s && |Split(s, DOT)| > 4
    ensures ParseIp(v6, s).None?
  {
    hide Split, ParseAll, Octet, ParseLegacy;
    ParseAllMeaning(Octet, Split(s, DOT));
    ParseAllMeaning(ParseLegacy, Split(s, DOT));
  }

  /** So the octal quad `0177.0.0.1`, which `inet_aton` reads as 127.0.0.1, is refused. */
  lemma OctalQuadRefused(v6: V6Parser)
    requires NeedsColon(v6)
    ensures ParseIp(v6, Join([Ascii("0177"), Ascii("0"), Ascii("0"), Ascii("1")], DOT)).None?
  {
    var parts := [Ascii("0177"), Ascii("0"), Ascii("0"), Ascii("1")];
    SplitJoin(parts, DOT);
    JoinHasNo(parts, DOT, COLON);
    FourParts(v6, Join(parts, DOT));
    assert Octet(parts[0]).None?;
  }

  // ---- The Host check ----

  function LowerAll(parts: seq<seq<byte>>): (lower: seq<seq<byte>>)
    ensures |lower| == |parts|
  {
    seq(|parts|, i requires 0 <= i < |parts| => Lower(parts[i]))
  }

  lemma LowerSlices(s: seq<byte>, i: nat)
    requires i < |s|
    ensures Lower(s)[..i] == Lower(s[..i]) && Lower(s)[i + 1..] == Lower(s[i + 1..])
  {
  }

  lemma LowerAllCons(head: seq<byte>, rest: seq<seq<byte>>)
    ensures LowerAll([head] + rest) == [Lower(head)] + LowerAll(rest)
  {
  }

  lemma {:induction false} SplitLower(s: seq<byte>)
    ensures Split(Lower(s), DOT) == LowerAll(Split(s, DOT))
    decreases |s|
  {
    hide LowerAll, Lower, LowerByte, IndexOf;
    var i := IndexOf(s, DOT);
    IndexOfLower(s, DOT);
    if i < |s| {
      SplitLower(s[i + 1..]);
      LowerSlices(s, i);
      LowerAllCons(s[..i], Split(s[i + 1..], DOT));
    } else {
      LowerAllCons(s, []);
      NothingLowered();
      assert [s] + [] == [s] && [Lower(s)] + [] == [Lower(s)];
    }
  }

  lemma NothingLowered()
    ensures LowerAll([]) == []
  {
  }

  lemma {:induction false} IndexOfLower(s: seq<byte>, b: byte)
    requires b < 0x41
    ensures IndexOf(Lower(s), b) == IndexOf(s, b)
  {
    if s != [] && s[0] != b {
      assert Lower(s)[1..] == Lower(s[1..]);
      IndexOfLower(s[1..], b);
    }
  }

  lemma {:induction false} ValueLower(s: seq<byte>, radix: nat)
    ensures Numbers.IsNumeral(Lower(s), radix) <==> Numbers.IsNumeral(s, radix)
    ensures Numbers.IsNumeral(s, radix) ==> Numbers.Value(Lower(s), radix) == Numbers.Value(s, radix)
    decreases |s|
  {
    assert forall i :: 0 <= i < |s| ==> Numbers.DigitValue(Lower(s)[i]) == Numbers.DigitValue(s[i]);
    if s != [] && Numbers.IsNumeral(s, radix) {
      assert Lower(s)[..|s| - 1] == Lower(s[..|s| - 1]);
      ValueLower(s[..|s| - 1], radix);
    }
  }

  /** Letter case changes no part's value. */
  lemma PartLower(s: seq<byte>)
    ensures PartValue(Lower(s)) == PartValue(s) && Octet(Lower(s)) == Octet(s)
  {
    hide Numbers.Numeral, Numbers.Parse;
    NumeralLower(s, 0, 10);
    NumeralLower(s, 1, 8);
    NumeralLower(s, 1, 10);
    NumeralLower(s, 2, 16);
    NumeralLower(s, 3, 16);
    assert Lower(s)[0..] == Lower(s) && s[0..] == s;
    DigitsLower(s);
  }

  lemma NumeralLower(s: seq<byte>, k: nat, radix: nat)
    ensures k <= |s| ==>
      Numbers.Numeral(Lower(s)[k..], radix, Numbers.U32_LIMIT) == Numbers.Numeral(s[k..], radix, Numbers.U32_LIMIT)
  {
    hide Numbers.Value;
    if k <= |s| {
      assert Lower(s)[k..] == Lower(s[k..]);
      ValueLower(s[k..], radix);
    }
  }

  lemma DigitsLower(s: seq<byte>)
    ensures AllDigits(s) ==> Lower(s) == s
    ensures AllDigits(Lower(s)) ==> AllDigits(s)
  {
    if !AllDigits(s) {
      var i :| 0 <= i < |s| && !(0x30 <= s[i] <= 0x39);
      assert !(0x30 <= Lower(s)[i] <= 0x39);
    }
  }

  /** The address a colon-free host names, if any. */
  function HostAddress(host: seq<byte>): Option<nat> {
    var parts := Split(host, DOT);
    if |parts| <= 3 then AddressOf(PartValue, parts) else if |parts| == 4 then QuadValue(parts) else None
  }

  lemma AddressMeaning(v6: V6Parser, s: seq<byte>)
    requires NeedsColon(v6) && COLON !in s
    ensures ParseIp(v6, s) == AsV4(HostAddress(s))
  {
    hide ParseIp, Split, AddressOf, QuadValue, PartValue;
    if |Split(s, DOT)| <= 3 {
      LegacyValue(v6, s);
    } else if |Split(s, DOT)| == 4 {
      FourParts(v6, s);
    } else {
      ManyParts(v6, s);
    }
  }

  lemma AddressLower(host: seq<byte>)
    ensures HostAddress(Lower(host)) == HostAddress(host)
  {
    hide Split, AddressOf, PartValue, Octet;
    var parts, lower := Split(host, DOT), Split(Lower(host), DOT);
    SplitLower(host);
    forall i | 0 <= i < |parts|
      ensures PartValue(lower[i]) == PartValue(parts[i]) && Octet(lower[i]) == Octet(parts[i])
    {
      PartLower(parts[i]);
    }
    SameValues(PartValue, PartValue, lower, parts);
    if |parts| == 4 {
      hide Lower;
      assert QuadValue(lower) == QuadValue(parts);
    }
  }

  /** The ways to write a Host header around its host part. */
  datatype Form = Bare | WithPort(port: seq<byte>) | Bracketed(junk: seq<byte>) | BracketedPort(port: seq<byte>)

  function HeaderOf(part: seq<byte>, form: Form): seq<byte> {
    match form
    case Bare => part
    case WithPort(port) => part + [COLON] + port
    case Bracketed(junk) => [OPEN] + part + [CLOSE] + junk
    case BracketedPort(port) => [OPEN] + part + [CLOSE] + [COLON] + port
  }

  predicate IsPort(s: seq<byte>) { Numbers.ParseU16(s).Some? }

  /** A bare host may hold a colon as long as no port stands after the last one. */
  predicate Fits(part: seq<byte>, form: Form) {
    match form
    case Bare => !([OPEN] <= part) && (COLON in part ==> !IsPort(part[LastIndexOf(part, COLON) + 1..]))
    case WithPort(port) => !([OPEN] <= part) && IsPort(port)
    case Bracketed(junk) => CLOSE !in part && !([COLON] <= junk)
    case BracketedPort(port) => CLOSE !in part && IsPort(port)
  }

  function PortOf(form: Form): nat
    requires form.WithPort? || form.BracketedPort? ==> IsPort(form.port)
  {
    if form.WithPort? || form.BracketedPort? then Numbers.ParseU16(form.port).value else 80
  }

  /** A port is a number below 65536 and holds no colon. */
  lemma PortMeaning(s: seq<byte>)
    ensures IsPort(s) ==> COLON !in s
    ensures Numbers.ParseU16(s)
         == Numbers.Numeral(if s != [] && s[0] == Numbers.PLUS then s[1..] else s, 10, 65536)
  {
    Numbers.ParseMeaning(s, 10, 65536);
    if IsPort(s) {
      var digits := if s[0] == Numbers.PLUS then s[1..] else s;
      assert Numbers.DigitValue(COLON) == 16;
      assert forall i :: 0 <= i < |digits| ==> digits[i] != COLON;
      assert s == s[..|s| - |digits|] + digits;
    }
  }

  lemma LastColon(before: seq<byte>, after: seq<byte>)
    requires COLON !in after
    ensures var s := before + [COLON] + after;
      LastIndexOf(s, COLON) == |before| && s[..|before|] == before && s[|before| + 1..] == after
  {
    var s := before + [COLON] + after;
    assert s[|before|] == COLON && s[..|before|] == before && s[|before| + 1..] == after;
    LastIs(s, COLON, |before|);
  }

  lemma {:induction false} LastIs(s: seq<byte>, b: byte, n: nat)
    requires n < |s| && s[n] == b && b !in s[n + 1..]
    ensures LastIndexOf(s, b) == n
    decreases |s|
  {
    var last := |s| - 1;
    if n < last {
      assert s[n + 1..][last - n - 1] == s[last];
      assert s[n + 1..] == s[..last][n + 1..] + [s[last]];
      LastIs(s[..last], b, n);
    }
  }

  /** However a header is written, the host part and the port are what they were written as. */
  lemma HeaderSplits(part: seq<byte>, form: Form)
    requires Fits(part, form)
    ensures SplitHostPort(HeaderOf(part, form)) == Some((part, PortOf(form)))
  {
    hide Numbers.ParseU16, LastIndexOf;
    match form
    case Bare =>
    case WithPort(port) => PortOff(part, port);
    case Bracketed(junk) => BracketsOff(part, junk);
    case BracketedPort(port) => BracketedPortOff(part, port);
  }

  lemma PortOff(part: seq<byte>, port: seq<byte>)
    requires !([OPEN] <= part) && IsPort(port)
    ensures SplitHostPort(part + [COLON] + port) == Some((part, Numbers.ParseU16(port).value))
  {
    hide Numbers.ParseU16, LastIndexOf;
    var header := part + [COLON] + port;
    PortMeaning(port);
    LastColon(part, port);
    assert header[0] == if part == [] then COLON else part[0];
  }

  lemma BracketedPortOff(part: seq<byte>, port: seq<byte>)
    requires CLOSE !in part && IsPort(port)
    ensures SplitHostPort([OPEN] + part + [CLOSE] + [COLON] + port) == Some((part, Numbers.ParseU16(port).value))
  {
    hide Numbers.ParseU16, LastIndexOf;
    BracketsOff(part, [COLON] + port);
    assert [OPEN] + part + [CLOSE] + [COLON] + port == [OPEN] + part + [CLOSE] + ([COLON] + port);
    assert ([COLON] + port)[1..] == port;
  }

  lemma BracketsOff(inner: seq<byte>, tail: seq<byte>)
    requires CLOSE !in inner
    ensures var rest := ([OPEN] + inner + [CLOSE] + tail)[1..];
      && rest == inner + [CLOSE] + tail && IndexOf(rest, CLOSE) == |inner|
      && rest[..|inner|] == inner && rest[|inner| + 1..] == tail
  {
    IndexOfPrefix(inner, CLOSE, tail);
    assert ([OPEN] + inner + [CLOSE] + tail)[1..] == inner + [CLOSE] + tail;
  }

  /** These are all the headers that have a host part. */
  lemma EveryHeader(header: seq<byte>) returns (part: seq<byte>, form: Form)
    requires SplitHostPort(header).Some?
    ensures Fits(part, form) && HeaderOf(part, form) == header
  {
    hide Numbers.ParseU16;
    part := SplitHostPort(header).value.0;
    if [OPEN] <= header {
      var inner := header[1..];
      var n := IndexOf(inner, CLOSE);
      var after := inner[n + 1..];
      assert header == [OPEN] + part + [CLOSE] + after;
      if [COLON] <= after {
        form := BracketedPort(after[1..]);
        assert after == [COLON] + after[1..];
      } else {
        form := Bracketed(after);
      }
    } else {
      var i := LastIndexOf(header, COLON);
      if i < |header| && IsPort(header[i + 1..]) {
        form := WithPort(header[i + 1..]);
        assert header == header[..i] + [COLON] + header[i + 1..];
      } else {
        form := Bare;
      }
    }
  }

  /** The others are refused: a bracket that is not closed, or one followed by a colon and no
      port. */
  lemma MalformedRefused(v6: V6Parser, rest: seq<byte>, port: seq<byte>)
    requires CLOSE !in rest && !IsPort(port)
    ensures !CheckHost(v6, None) && !CheckHost(v6, Some([OPEN] + rest))
    ensures !CheckHost(v6, Some([OPEN] + rest + [CLOSE] + [COLON] + port))
  {
    hide Numbers.ParseU16, ParseIp, Lower, TrimDots;
    assert ([OPEN] + rest)[1..] == rest;
    BracketsOff(rest, [COLON] + port);
    assert [OPEN] + rest + [CLOSE] + [COLON] + port == [OPEN] + rest + [CLOSE] + ([COLON] + port);
    assert ([COLON] + port)[1..] == port;
  }

  predicate AllDots(s: seq<byte>) { forall i :: 0 <= i < |s| ==> s[i] == DOT }

  /** Trailing dots are taken off, all of them and nothing else. */
  lemma {:induction false} TrimDotsMeaning(host: seq<byte>, dots: seq<byte>)
    requires AllDots(dots) && (host != [] ==> host[|host| - 1] != DOT)
    ensures TrimDots(host + dots) == host
    decreases |dots|
  {
    if dots == [] {
      assert host + dots == host;
    } else {
      var n := |dots| - 1;
      assert (host + dots)[..|host| + n] == host + dots[..n];
      TrimDotsMeaning(host, dots[..n]);
    }
  }

  /** A header is accepted for a host part without a colon, however it is written and with any
      trailing dots, exactly when the host is `localhost` in any letter case or names an
      address whose top octet is 127. */
  lemma LegacyHostAccepted(v6: V6Parser, host: seq<byte>, dots: seq<byte>, form: Form)
    requires NeedsColon(v6) && COLON !in host && Fits(host + dots, form)
    requires AllDots(dots) && (host != [] ==> host[|host| - 1] != DOT)
    ensures CheckHost(v6, Some(HeaderOf(host + dots, form))) <==>
      (Lower(host) == Ascii("localhost")
       || (HostAddress(host).Some? && HostAddress(host).value / 0x100_0000 == 127))
  {
    hide SplitHostPort, ParseIp, HostAddress, TrimDots, HeaderOf, Fits;
    HeaderSplits(host + dots, form);
    TrimDotsMeaning(host, dots);
    LowerHasNoColon(host);
    AddressLower(host);
    AddressMeaning(v6, Lower(host));
  }

  lemma LowerHasNoColon(s: seq<byte>)
    ensures COLON in s <==> COLON in Lower(s)
  {
    if COLON in s {
      var i :| 0 <= i < |s| && s[i] == COLON;
      assert Lower(s)[i] == COLON;
    }
  }

  /** And for one with a colon exactly when it is the IPv6 address ::1, so an IPv4-mapped
      loopback is refused. */
  lemma V6Accepted(v6: V6Parser, host: seq<byte>, dots: seq<byte>, form: Form)
    requires NeedsColon(v6) && COLON in host && Fits(host + dots, form)
    requires AllDots(dots) && (host != [] ==> host[|host| - 1] != DOT)
    ensures CheckHost(v6, Some(HeaderOf(host + dots, form))) <==> v6(Lower(host)) == Some(1)
  {
    hide Quad, SplitHostPort, Lower, TrimDots, HeaderOf, Fits;
    HeaderSplits(host + dots, form);
    TrimDotsMeaning(host, dots);
    LowerHasNoColon(host);
    assert COLON !in LOCALHOST;
    ColonIsNoQuad(Lower(host));
    ColonNoLegacy(v6, Lower(host));
  }

  lemma ColonNoLegacy(v6: V6Parser, s: seq<byte>)
    requires COLON in s
    ensures v6(s).None? ==> ParseIp(v6, s).None?
  {
    hide Split, Join, ParseAll, Octet, ParseLegacy, Combine;
    ColonIsNoQuad(s);
    var parts := Split(s, DOT);
    SplitPieces(s, DOT);
    ParseAllMeaning(ParseLegacy, parts);
    if forall i :: 0 <= i < |parts| ==> ParseLegacy(parts[i]).Some? {
      forall i | 0 <= i < |parts| ensures COLON !in parts[i] {
        NumbersHaveNoColon(parts[i]);
      }
      JoinHasNo(parts, DOT, COLON);
    }
  }

  lemma NumbersHaveNoColon(s: seq<byte>)
    requires ParseLegacy(s).Some?
    ensures COLON !in s
  {
    PartMeaning(s);
    hide ParseLegacy, Numbers.Value;
    assert Numbers.DigitValue(COLON) == 16;
    var k := if Signed(s) then (if s[0] == Numbers.PLUS then 1 else 3)
             else if HasHexMark(s) then 2 else if |s| > 1 && s[0] == ZERO then 1 else 0;
    var digits := s[k..];
    assert s[0..] == s;
    assert forall i :: 0 <= i < |digits| ==> digits[i] != COLON;
    assert forall i :: k <= i < |s| ==> s[i] == digits[i - k];
    assert forall i :: 0 <= i < k ==> s[i] != COLON;
  }

  lemma ColonIsNoQuad(s: seq<byte>)
    ensures COLON in s ==> Quad(s).None?
  {
    hide Split, Join;
    var parts := Split(s, DOT);
    SplitPieces(s, DOT);
    ParseAllMeaning(Octet, parts);
    if COLON in s && forall i :: 0 <= i < |parts| ==> Octet(parts[i]).Some? {
      JoinHasNo(parts, DOT, COLON);
    }
  }
}
