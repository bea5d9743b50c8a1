/** Vocabulary shared by every component: bytes, digests, hash functions as
    parameters and what an explicit collision is, 64-bit wrap-around, and the
    lower-case hexadecimal form in which the artifact format stores digests,
    with its round trip. */
module Basics {

  datatype Option<+T> = None | Some(value: T)

  newtype byte = x: int | 0 <= x < 256

  type Bytes = seq<byte>

  const DIGEST_SIZE: nat := 32

  type Digest = d: Bytes | |d| == DIGEST_SIZE witness seq(DIGEST_SIZE, _ => 0)

  /** SHA-256 is never interpreted: every theorem holds for every function of
      this type, and says so by ending in "or here is a collision". */
  type HashFn = Bytes -> Digest

  /** Some element of `xs` and some different element of `ys` have one digest.
      The sets are always finite and built from presented bytes, so this is an
      explicit collision and not a pigeonhole fact. */
  ghost predicate CollisionBetween(sha: HashFn, xs: set<Bytes>, ys: set<Bytes>) {
    exists x, y :: x in xs && y in ys && x != y && sha(x) == sha(y)
  }

  lemma CollisionMonotone(sha: HashFn, xs: set<Bytes>, ys: set<Bytes>, xs': set<Bytes>, ys': set<Bytes>)
    requires CollisionBetween(sha, xs, ys)
    requires xs <= xs' && ys <= ys'
    ensures CollisionBetween(sha, xs', ys')
  {
    var x, y :| x in xs && y in ys && x != y && sha(x) == sha(y);
    assert x in xs' && y in ys';
  }

  lemma Associate<T>(a: seq<T>, b: seq<T>, c: seq<T>)
    ensures a + (b + c) == (a + b) + c
  {
  }

  ghost predicate Distinct(s: seq<string>) {
    forall i, j :: 0 <= i < j < |s| ==> s[i] != s[j]
  }

  // ----- 64-bit machine integers -----

  const TWO_63: int := 0x8000_0000_0000_0000
  const TWO_64: int := 0x1_0000_0000_0000_0000
  const MAX_INT64: int := TWO_63 - 1

  /** The largest magnitude the canonical number form admits, 2^53 - 1. */
  const MAX_SAFE_INTEGER: int := 0x1F_FFFF_FFFF_FFFF

  /** Two's-complement truncation to 64 bits, as Go's int arithmetic does. */
  function Wrap64(x: int): (r: int)
    ensures -TWO_63 <= r < TWO_63
    ensures -TWO_63 <= x < TWO_63 ==> r == x
  {
    (x + TWO_63) % TWO_64 - TWO_63
  }

  // ----- Hexadecimal -----

  const HEX_DIGITS: string := "0123456789abcdef"

  function HexDigit(n: int): (c: char)
    requires 0 <= n < 16
  {
    HEX_DIGITS[n]
  }

  function HexValue(c: char): (r: Option<int>)
    ensures r.Some? ==> 0 <= r.value < 16 && HexDigit(r.value) == c
    ensures r.None? ==> forall n :: 0 <= n < 16 ==> HexDigit(n) != c
  {
    if '0' <= c <= '9' then Some(c as int - '0' as int)
    else if 'a' <= c <= 'f' then Some(c as int - 'a' as int + 10)
    else None
  }

  function Hex(d: Bytes): (s: string)
    ensures |s| == 2 * |d|
  {
    if d == [] then ""
    else [HexDigit(d[0] as int / 16), HexDigit(d[0] as int % 16)] + Hex(d[1..])
  }

  /** Decoding after lower-casing, so only lower-case digits remain to accept. */
  function Unhex(s: string): (r: Option<Bytes>)
    ensures r.Some? ==> |s| == 2 * |r.value|
    decreases |s|
  {
    if s == "" then Some([])
    else if |s| == 1 then None
    else
      match (HexValue(s[0]), HexValue(s[1]), Unhex(s[2..]))
      case (Some(hi), Some(lo), Some(rest)) => Some([(16 * hi + lo) as byte] + rest)
      case _ => None
  }

  lemma {:induction false} UnhexInvertsHex(d: Bytes)
    ensures Unhex(Hex(d)) == Some(d)
  {
    if d != [] {
      UnhexInvertsHex(d[1..]);
      HexOfCons(d[0], d[1..]);
      assert [d[0]] + d[1..] == d;
    }
  }

  lemma HexOfCons(b: byte, rest: Bytes)
    requires Unhex(Hex(rest)) == Some(rest)
    ensures Unhex(Hex([b] + rest)) == Some([b] + rest)
  {
    var hi, lo := b as int / 16, b as int % 16;
    assert ([b] + rest)[1..] == rest;
    UnhexPair(hi, lo, Hex(rest), rest);
    assert 16 * hi + lo == b as int;
  }

  lemma UnhexPair(hi: int, lo: int, tail: string, rest: Bytes)
    requires 0 <= hi < 16 && 0 <= lo < 16 && Unhex(tail) == Some(rest)
    ensures Unhex([HexDigit(hi), HexDigit(lo)] + tail) == Some([(16 * hi + lo) as byte] + rest)
  {
    HexValueInverts(hi);
    HexValueInverts(lo);
    assert ([HexDigit(hi), HexDigit(lo)] + tail)[2..] == tail;
  }

  lemma HexValueInverts(n: int)
    requires 0 <= n < 16
    ensures HexValue(HexDigit(n)) == Some(n)
  {
  }

  /** Whatever decodes is the hexadecimal form of what it decodes to. */
  lemma {:induction false} HexOfUnhex(s: string)
    requires Unhex(s).Some?
    ensures Hex(Unhex(s).value) == s
    decreases |s|
  {
    if s != "" {
      HexOfUnhex(s[2..]);
      var hi, lo, rest := HexValue(s[0]).value, HexValue(s[1]).value, Unhex(s[2..]).value;
      assert Unhex(s) == Some([(16 * hi + lo) as byte] + rest);
      HexOfByte(hi, lo, rest);
      assert [HexDigit(hi), HexDigit(lo)] + s[2..] == s;
    }
  }

  lemma HexOfByte(hi: int, lo: int, rest: Bytes)
    requires 0 <= hi < 16 && 0 <= lo < 16
    ensures Hex([(16 * hi + lo) as byte] + rest) == [HexDigit(hi), HexDigit(lo)] + Hex(rest)
  {
    var d := [(16 * hi + lo) as byte] + rest;
    assert d[1..] == rest;
    assert (16 * hi + lo) / 16 == hi && (16 * hi + lo) % 16 == lo;
  }

  /** Each byte is two digits, the high half first. */
  lemma {:induction false} HexDigitsAt(d: Bytes, i: nat)
    requires i < |d|
    ensures Hex(d)[2 * i] == "0123456789abcdef"[d[i] as int / 16]
    ensures Hex(d)[2 * i + 1] == "0123456789abcdef"[d[i] as int % 16]
  {
    if i > 0 {
      HexDigitsAt(d[1..], i - 1);
      assert Hex(d)[2..] == Hex(d[1..]);
      assert Hex(d)[2 * i] == Hex(d)[2..][2 * (i - 1)] && Hex(d)[2 * i + 1] == Hex(d)[2..][2 * (i - 1) + 1];
    }
  }

  lemma HexInjective(d: Bytes, e: Bytes)
    requires Hex(d) == Hex(e)
    ensures d == e
  {
    UnhexInvertsHex(d);
    UnhexInvertsHex(e);
  }

  function LowerChar(c: char): char {
    if 'A' <= c <= 'Z' then (c as int + 32) as char else c
  }

  function ToLower(s: string): (r: string)
    ensures |r| == |s|
    ensures forall i :: 0 <= i < |s| ==> r[i] == LowerChar(s[i])
  {
    seq(|s|, i requires 0 <= i < |s| => LowerChar(s[i]))
  }

  /** Lower-casing turns each of the twenty-six capitals into its small letter and
      leaves everything else. */
  lemma LowersLetters(s: string, i: nat, n: nat)
    requires i < |s| && n < 26
    ensures s[i] == "ABCDEFGHIJKLMNOPQRSTUVWXYZ"[n] ==> ToLower(s)[i] == "abcdefghijklmnopqrstuvwxyz"[n]
    ensures s[i] !in "ABCDEFGHIJKLMNOPQRSTUVWXYZ" ==> ToLower(s)[i] == s[i]
  {
    var capitals := "ABCDEFGHIJKLMNOPQRSTUVWXYZ";
    assert capitals[n] as int == 65 + n && "abcdefghijklmnopqrstuvwxyz"[n] as int == 97 + n;
    if 'A' <= s[i] <= 'Z' {
      assert capitals[s[i] as int - 65] == s[i];
    }
  }
}
