/** Bytes, little-endian words and ASCII case folding, as the on-disk structures use them. */
module Bytes {

  type byte = b: int | 0 <= b < 0x100
  type u32 = w: int | 0 <= w < 0x1_0000_0000

  /** A Rust `str`, seen as its UTF-8 bytes. */
  type Str = seq<byte>

  const SLASH: byte := 47
  const DOT: byte := 46
  const SPACE: byte := 32

  /** The 16-bit little-endian word at `at`. */
  function Word16(s: seq<byte>, at: nat): nat
    requires at + 2 <= |s|
  {
    s[at] as int + 0x100 * (s[at + 1] as int)
  }

  /** The 32-bit little-endian word at `at` (`u32::from_le_bytes`). */
  function Word32(s: seq<byte>, at: nat): u32
    requires at + 4 <= |s|
  {
    s[at] as int + 0x100 * (s[at + 1] as int) + 0x1_0000 * (s[at + 2] as int) + 0x100_0000 * (s[at + 3] as int)
  }

  /** `u16::to_le_bytes`. */
  function Bytes16(w: nat): (r: seq<byte>)
    requires w < 0x1_0000
    ensures |r| == 2 && Word16(r, 0) == w
  {
    [w % 0x100, w / 0x100]
  }

  /** `u32::to_le_bytes`. */
  function Bytes32(w: u32): (r: seq<byte>)
    ensures |r| == 4 && Word32(r, 0) == w
  {
    var w1 := w / 0x100;
    var w2 := w1 / 0x100;
    var w3 := w2 / 0x100;
    [w % 0x100, w1 % 0x100, w2 % 0x100, w3]
  }

  /** `s` with the bytes from `at` on replaced by `x`. */
  function Splice<T>(s: seq<T>, at: nat, x: seq<T>): (r: seq<T>)
    requires at + |x| <= |s|
    ensures |r| == |s|
    ensures forall k :: 0 <= k < |s| ==> r[k] == if at <= k < at + |x| then x[k - at] else s[k]
  {
    s[..at] + x + s[at + |x|..]
  }

  /** `s` with the 32-bit word at `at` replaced by `w`. */
  function Put32(s: seq<byte>, at: nat, w: u32): (r: seq<byte>)
    requires at + 4 <= |s|
    ensures |r| == |s| && Word32(r, at) == w
    ensures forall k :: 0 <= k < |s| && !(at <= k < at + 4) ==> r[k] == s[k]
  {
    Splice(s, at, Bytes32(w))
  }

  /** A word is determined by the four bytes it is read from. */
  lemma Word32Local(s: seq<byte>, t: seq<byte>, at: nat)
    requires at + 4 <= |s| && at + 4 <= |t|
    requires forall k :: at <= k < at + 4 ==> s[k] == t[k]
    ensures Word32(s, at) == Word32(t, at)
  {
  }

  /** Little-endian: byte `k` is the digit of weight `256^k`. */
  lemma LittleEndian(s: seq<byte>, at: nat)
    requires at + 4 <= |s|
    ensures Word32(s, at) % 0x100 == s[at] && Word32(s, at) / 0x100 % 0x100 == s[at + 1]
    ensures Word32(s, at) / 0x1_0000 % 0x100 == s[at + 2] && Word32(s, at) / 0x100_0000 == s[at + 3]
  {
    var a, b, c, d := s[at] as int, s[at + 1] as int, s[at + 2] as int, s[at + 3] as int;
    assert Word32(s, at) == a + 0x100 * (b + 0x100 * (c + 0x100 * d));
  }

  /** Writing one word leaves every word apart from it alone. */
  lemma WordsApart(s: seq<byte>, at: nat, w: u32, other: nat)
    requires at + 4 <= |s| && other + 4 <= |s| && (at + 4 <= other || other + 4 <= at)
    ensures Word32(Put32(s, at, w), other) == Word32(s, other)
  {
  }

  function LowerByte(b: byte): byte {
    if 65 <= b <= 90 then b + 32 else b
  }

  function UpperByte(b: byte): byte {
    if 97 <= b <= 122 then b - 32 else b
  }

  /** Case folding moves exactly the 26 letters, by 32, and keeps everything else. */
  lemma CaseMeans(b: byte)
    ensures LowerByte(b) != b <==> 65 <= b <= 90
    ensures UpperByte(b) != b <==> 97 <= b <= 122
    ensures LowerByte(b) != b ==> LowerByte(b) - b == 32
    ensures UpperByte(b) != b ==> b - UpperByte(b) == 32
    ensures !(65 <= LowerByte(b) <= 90) && !(97 <= UpperByte(b) <= 122)
  {
  }

  /** `make_ascii_lowercase`; `a.eq_ignore_ascii_case(b)` is `Lower(a) == Lower(b)`. */
  function Lower(s: Str): (r: Str)
    ensures |r| == |s|
    ensures forall k :: 0 <= k < |s| ==> r[k] == LowerByte(s[k])
  {
    seq(|s|, i requires 0 <= i < |s| => LowerByte(s[i]))
  }

  lemma LowerTwice(s: Str)
    ensures Lower(Lower(s)) == Lower(s)
  {
  }

  /** A sequence of `n` zero bytes (`vec![0u8; n]`). */
  function Zeros(n: nat): (r: seq<byte>)
    ensures |r| == n && forall k :: 0 <= k < n ==> r[k] == 0
  {
    seq(n, _ => 0)
  }
}
