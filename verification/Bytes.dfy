/** Bytes and the few sequence helpers that every other module shares.
    Text is modelled as the bytes of its UTF-8 encoding. */
module Bytes {

  type byte = b: int | 0 <= b < 256

  datatype Option<+T> = None | Some(value: T)

  const LF: byte := 0x0A
  const CR: byte := 0x0D
  const ESC: byte := 0x1B
  const SPACE: byte := 0x20
  const BACKSLASH: byte := 0x5C

  /** The bytes of an ASCII literal. */
  function Ascii(s: string): (b: seq<byte>)
    requires forall i :: 0 <= i < |s| ==> s[i] as int < 128
    ensures |b| == |s|
    ensures forall i :: 0 <= i < |s| ==> b[i] == s[i] as int
  {
    seq(|s|, i requires 0 <= i < |s| => s[i] as int)
  }

  /** `str::strip_prefix`. */
  function StripPrefix(s: seq<byte>, prefix: seq<byte>): Option<seq<byte>> {
    if prefix <= s then Some(s[|prefix|..]) else None
  }

  /** `to_ascii_lowercase` */
  function LowerByte(b: byte): byte { if 0x41 <= b <= 0x5A then b + 0x20 else b }

  function Lower(s: seq<byte>): (lower: seq<byte>)
    ensures |lower| == |s|
  {
    seq(|s|, i requires 0 <= i < |s| => LowerByte(s[i]))
  }

  /** Index of the first `b` in `s`, or `|s|` when there is none. */
  function IndexOf(s: seq<byte>, b: byte): (i: nat)
    ensures i <= |s|
    ensures i < |s| ==> s[i] == b
    ensures forall j :: 0 <= j < i ==> s[j] != b
  {
    if s == [] || s[0] == b then 0 else 1 + IndexOf(s[1..], b)
  }

  lemma IndexOfPrefix(before: seq<byte>, b: byte, after: seq<byte>)
    requires b !in before
    ensures IndexOf(before + [b] + after, b) == |before|
  {
    var s := before + [b] + after;
    var i := IndexOf(s, b);
    assert s[|before|] == b;
    assert forall j :: 0 <= j < |before| ==> s[j] == before[j];
  }

  lemma Regroup<T>(a: seq<T>, b: seq<T>, c: seq<T>)
    ensures a + b + c == a + (b + c)
  {
  }

  /** Everything in `parts`, one after the other. */
  function Concat<T>(parts: seq<seq<T>>): seq<T> {
    if parts == [] then [] else parts[0] + Concat(parts[1..])
  }

  lemma {:induction false} ConcatAppend<T>(a: seq<seq<T>>, b: seq<seq<T>>)
    ensures Concat(a + b) == Concat(a) + Concat(b)
  {
    if a == [] {
      assert a + b == b;
    } else {
      assert (a + b)[1..] == a[1..] + b;
      ConcatAppend(a[1..], b);
    }
  }
}
