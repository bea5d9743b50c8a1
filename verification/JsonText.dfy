/** The scalar tokens of the canonical form: escaped strings and safe integers
    (sections 3.2.2.2 and 3.2.2.3 of RFC 8785). */
module JsonText {
  import opened Basics
  import opened KeyOrder

  // ASCII, as scalar values.
  const QUOTE: Rune := 0x22
  const BACKSLASH: Rune := 0x5C
  const COMMA: Rune := 0x2C
  const COLON: Rune := 0x3A
  const LBRACE: Rune := 0x7B
  const RBRACE: Rune := 0x7D
  const LBRACKET: Rune := 0x5B
  const RBRACKET: Rune := 0x5D
  const MINUS: Rune := 0x2D
  const ZERO: Rune := 0x30
  const REPLACEMENT: Rune := 0xFFFD

  // ----- Strings: the printer -----

  function HexRune(n: int): Rune
    requires 0 <= n < 16
  {
    if n < 10 then 0x30 + n else 0x61 + (n - 10)
  }

  /** How one scalar value is written inside quotes. */
  function EscapeRune(c: Rune): (e: Text)
    ensures e != []
  {
    if c >= 0x20 && c != BACKSLASH && c != QUOTE then [c]
    else if c == BACKSLASH || c == QUOTE then [BACKSLASH, c]
    else if c == 0x08 then [BACKSLASH, 0x62]
    else if c == 0x0C then [BACKSLASH, 0x66]
    else if c == 0x0A then [BACKSLASH, 0x6E]
    else if c == 0x0D then [BACKSLASH, 0x72]
    else if c == 0x09 then [BACKSLASH, 0x74]
    else [BACKSLASH, 0x75, 0x30, 0x30, HexRune(c / 16), HexRune(c % 16)]
  }

  function Escape(s: Text): Text {
    if s == [] then [] else EscapeRune(s[0]) + Escape(s[1..])
  }

  function PrintString(s: Text): Text {
    [QUOTE] + Escape(s) + [QUOTE]
  }

  /** Plain values are written through unchanged. */
  predicate Plain(c: Rune) {
    c >= 0x20 && c != BACKSLASH && c != QUOTE
  }

  /** What a stored string decodes to, piece by piece: scalar values, and bytes
      that are not part of well-formed UTF-8. */
  const MALFORMED: int := -1

  type Piece = p: int | p == MALFORMED || 0 <= p < 0xD800 || 0xE000 <= p <= 0x10FFFF

  /** A malformed byte is written as the escaped replacement character. */
  function EscapePiece(p: Piece): Text {
    if p == MALFORMED then [BACKSLASH, 0x75, 0x66, 0x66, 0x66, 0x64] else EscapeRune(p)
  }

  function EscapePieces(s: seq<Piece>): Text {
    if s == [] then [] else EscapePiece(s[0]) + EscapePieces(s[1..])
  }

  lemma {:induction false} EscapeWellFormed(s: Text)
    ensures EscapePieces(s) == Escape(s)
  {
    if s != [] {
      EscapeWellFormed(s[1..]);
    }
  }

  /** The pieces from `a` to `b` are written through unchanged. */
  ghost predicate PlainRun(s: seq<Piece>, a: int, b: int) {
    0 <= a <= b <= |s| && forall k :: a <= k < b ==> PlainPiece(s[k])
  }

  predicate PlainPiece(p: Piece) {
    p != MALFORMED && Plain(p)
  }

  lemma PlainRunGrows(s: seq<Piece>, a: int, b: int)
    requires PlainRun(s, a, b) && b < |s| && PlainPiece(s[b])
    ensures PlainRun(s, a, b + 1)
  {
  }

  function RunText(s: seq<Piece>, a: int, b: int): (t: Text)
    requires PlainRun(s, a, b)
    ensures t == s[a..b]
  {
    assert forall k :: 0 <= k < b - a ==> PlainPiece(s[a + k]) && s[a..b][k] == s[a + k];
    s[a..b]
  }

  lemma {:induction false} EscapePlain(s: seq<Piece>, a: int, b: int)
    requires PlainRun(s, a, b)
    ensures EscapePieces(s[a..]) == s[a..b] + EscapePieces(s[b..])
    decreases b - a
  {
    if a < b {
      assert PlainPiece(s[a]);
      EscapePlain(s, a + 1, b);
      EscapeFrom(s, a);
      assert s[a..b] == [s[a]] + s[a + 1..b];
      Associate([s[a]], s[a + 1..b], EscapePieces(s[b..]));
    } else {
      assert s[a..b] == [];
    }
  }

  lemma EscapeFrom(s: seq<Piece>, a: int)
    requires 0 <= a < |s|
    ensures EscapePieces(s[a..]) == EscapePiece(s[a]) + EscapePieces(s[a + 1..])
  {
    assert s[a..][1..] == s[a + 1..];
  }

  /** With `r` written, the pieces from `start` on still make up `whole`. */
  ghost predicate Remains(r: Text, s: seq<Piece>, start: int, whole: Text) {
    0 <= start <= |s| && r + EscapePieces(s[start..]) == whole
  }

  /** The writer copies runs of plain values between two cursors and flushes the
      run before each escape. */
  method WriteEscaped(out: Text, s: seq<Piece>) returns (r: Text)
    ensures r == out + EscapePieces(s)
  {
    r := out;
    var start, i := 0, 0;
    ghost var whole := out + EscapePieces(s);
    assert Remains(r, s, 0, whole) by {
      assert s[0..] == s;
    }
    while i < |s|
      invariant 0 <= i <= |s| && PlainRun(s, start, i)
      invariant Remains(r, s, start, whole)
    {
      var c := s[i];
      if c >= 0x20 && c != BACKSLASH && c != QUOTE {
        PlainRunGrows(s, start, i);
        i := i + 1;
      } else {
        FlushStep(r, s, start, i, whole);
        r := r + RunText(s, start, i) + EscapePiece(c);
        i := i + 1;
        start := i;
      }
    }
    FlushEnd(r, s, start, whole);
    r := r + RunText(s, start, i);
  }

  method WriteJsonString(out: Text, s: seq<Piece>) returns (r: Text)
    ensures r == out + [QUOTE] + EscapePieces(s) + [QUOTE]
  {
    r := WriteEscaped(out + [QUOTE], s);
    r := r + [QUOTE];
  }

  /** A well-formed string is written in its printed form. */
  method WriteText(out: Text, s: Text) returns (r: Text)
    ensures r == out + PrintString(s)
  {
    EscapeWellFormed(s);
    r := WriteJsonString(out, s);
  }

  /** Flushing a plain run and one escape moves the cursor past both. */
  lemma FlushStep(r: Text, s: seq<Piece>, start: int, i: int, whole: Text)
    requires PlainRun(s, start, i) && i < |s| && Remains(r, s, start, whole)
    ensures Remains(r + RunText(s, start, i) + EscapePiece(s[i]), s, i + 1, whole)
  {
    EscapePlain(s, start, i);
    EscapeFrom(s, i);
    var run, esc, tail := RunText(s, start, i), EscapePiece(s[i]), EscapePieces(s[i + 1..]);
    Associate(r, run, esc + tail);
    Associate(r + run, esc, tail);
  }

  lemma FlushEnd(r: Text, s: seq<Piece>, start: int, whole: Text)
    requires PlainRun(s, start, |s|) && Remains(r, s, start, whole)
    ensures r + RunText(s, start, |s|) == whole
  {
    EscapePlain(s, start, |s|);
  }

  // ----- Strings: the reader -----

  datatype Parse<+T> = Bad | Good(value: T, rest: Text)

  function HexOf(c: Rune): (r: Option<int>)
    ensures r.Some? ==> 0 <= r.value < 16
  {
    if 0x30 <= c <= 0x39 then Some(c - 0x30)
    else if 0x61 <= c <= 0x66 then Some(c - 0x61 + 10)
    else if 0x41 <= c <= 0x46 then Some(c - 0x41 + 10)
    else None
  }

  /** Four hexadecimal digits at the start of `t`, as a code unit. */
  function Unit4(t: Text): (r: Option<int>)
    ensures r.Some? ==> |t| >= 4 && 0 <= r.value < 0x10000
  {
    if |t| < 4 then None
    else
      match (HexOf(t[0]), HexOf(t[1]), HexOf(t[2]), HexOf(t[3]))
      case (Some(a), Some(b), Some(c), Some(d)) => Some(((a * 16 + b) * 16 + c) * 16 + d)
      case _ => None
  }

  predicate IsSurrogate(u: int) {
    0xD800 <= u < 0xE000
  }

  /** A unicode escape after its first four digits: a surrogate half pairs with a
      following escape, and otherwise becomes the replacement character. */
  function UnicodeEscape(u: int, rest: Text): (r: Parse<Rune>)
    requires 0 <= u < 0x10000
    ensures r.Good? && |r.rest| <= |rest|
  {
    if !IsSurrogate(u) then Good(u, rest)
    else if u < 0xDC00 && |rest| >= 6 && rest[0] == BACKSLASH && rest[1] == 0x75 && Unit4(rest[2..]).Some?
            && 0xDC00 <= Unit4(rest[2..]).value < 0xE000 then
      Good(0x10000 + (u - 0xD800) * 0x400 + (Unit4(rest[2..]).value - 0xDC00), rest[6..])
    else Good(REPLACEMENT, rest)
  }

  /** One written scalar value, escaped or not. */
  function ReadRune(t: Text): (r: Parse<Rune>)
    requires t != [] && t[0] != QUOTE
    ensures r.Good? ==> |r.rest| < |t|
  {
    if t[0] < 0x20 then Bad
    else if t[0] != BACKSLASH then Good(t[0], t[1..])
    else if |t| < 2 then Bad
    else if t[1] == QUOTE || t[1] == BACKSLASH || t[1] == 0x2F then Good(t[1], t[2..])
    else if t[1] == 0x62 then Good(0x08, t[2..])
    else if t[1] == 0x66 then Good(0x0C, t[2..])
    else if t[1] == 0x6E then Good(0x0A, t[2..])
    else if t[1] == 0x72 then Good(0x0D, t[2..])
    else if t[1] == 0x74 then Good(0x09, t[2..])
    else if t[1] == 0x75 && Unit4(t[2..]).Some? then UnicodeEscape(Unit4(t[2..]).value, t[6..])
    else Bad
  }

  /** The rest of a string after its opening quote. */
  function ReadString(t: Text): (r: Parse<Text>)
    ensures r.Good? ==> |r.rest| < |t|
    decreases |t|
  {
    if t == [] then Bad
    else if t[0] == QUOTE then Good([], t[1..])
    else
      match ReadRune(t)
      case Bad => Bad
      case Good(c, u) =>
        match ReadString(u)
        case Bad => Bad
        case Good(s, rest) => Good([c] + s, rest)
  }

  lemma HexRuneReads(n: int)
    requires 0 <= n < 16
    ensures HexOf(HexRune(n)) == Some(n)
  {
  }

  /** Reading inverts escaping, one scalar value at a time. */
  lemma ReadEscapedRune(c: Rune, rest: Text)
    ensures EscapeRune(c)[0] != QUOTE
    ensures ReadRune(EscapeRune(c) + rest) == Good(c, rest)
  {
    var t := EscapeRune(c) + rest;
    if c < 0x20 && |EscapeRune(c)| == 6 {
      HexRuneReads(c / 16);
      HexRuneReads(c % 16);
      assert t[2] == 0x30 && t[3] == 0x30 && t[4] == HexRune(c / 16) && t[5] == HexRune(c % 16);
      assert t[2..][0] == t[2] && t[2..][1] == t[3] && t[2..][2] == t[4] && t[2..][3] == t[5];
      assert Unit4(t[2..]) == Some(c);
      assert t[6..] == rest;
    } else if |EscapeRune(c)| == 2 {
      assert t[2..] == rest;
    } else {
      assert t[1..] == rest;
    }
  }

  lemma {:induction false} ReadPrintedString(s: Text, rest: Text)
    ensures ReadString(Escape(s) + [QUOTE] + rest) == Good(s, rest)
  {
    var t := Escape(s) + [QUOTE] + rest;
    if s == [] {
      assert t[1..] == rest;
    } else {
      var tail := Escape(s[1..]) + [QUOTE] + rest;
      ReadPrintedString(s[1..], rest);
      assert t == EscapeRune(s[0]) + tail;
      ReadStringCons(s[0], tail);
      assert s == [s[0]] + s[1..];
    }
  }

  lemma ReadStringCons(c: Rune, tail: Text)
    ensures ReadString(EscapeRune(c) + tail) ==
              match ReadString(tail) case Bad => Bad case Good(s, rest) => Good([c] + s, rest)
  {
    ReadEscapedRune(c, tail);
    assert (EscapeRune(c) + tail)[0] == EscapeRune(c)[0];
  }

  /** The string with each malformed byte replaced by the replacement character. */
  function Repaired(s: seq<Piece>): Text {
    if s == [] then [] else [if s[0] == MALFORMED then REPLACEMENT else s[0]] + Repaired(s[1..])
  }

  /** Whatever bytes a string holds, what is written for it reads back as the
      repaired string. */
  lemma {:induction false} ReadWrittenPieces(s: seq<Piece>, rest: Text)
    ensures ReadString(EscapePieces(s) + [QUOTE] + rest) == Good(Repaired(s), rest)
  {
    var t := EscapePieces(s) + [QUOTE] + rest;
    if s == [] {
      assert t[1..] == rest;
    } else {
      var tail := EscapePieces(s[1..]) + [QUOTE] + rest;
      ReadWrittenPieces(s[1..], rest);
      assert t == EscapePiece(s[0]) + tail;
      if s[0] == MALFORMED {
        ReadMalformed(tail);
      } else {
        ReadStringCons(s[0], tail);
      }
    }
  }

  lemma ReadMalformed(tail: Text)
    ensures ReadString(EscapePiece(MALFORMED) + tail) ==
              match ReadString(tail) case Bad => Bad case Good(s, rest) => Good([REPLACEMENT] + s, rest)
  {
    var t := EscapePiece(MALFORMED) + tail;
    assert t[2..][0] == 0x66 && t[2..][1] == 0x66 && t[2..][2] == 0x66 && t[2..][3] == 0x64;
    assert Unit4(t[2..]) == Some(REPLACEMENT);
    assert t[6..] == tail;
  }

  // ----- Integers -----

  predicate IsDigit(c: Rune) {
    0x30 <= c <= 0x39
  }

  /** The shortest decimal of a natural number. */
  function PrintNat(n: nat): (t: Text)
    ensures t != []
  {
    if n < 10 then [ZERO + n] else PrintNat(n / 10) + [ZERO + n % 10]
  }

  function PrintInt(n: int): Text {
    if n < 0 then [MINUS] + PrintNat(-n) else PrintNat(n)
  }

  predicate AllDigits(t: Text) {
    forall i :: 0 <= i < |t| ==> IsDigit(t[i])
  }

  function DigitsValue(t: Text): (n: int)
    requires AllDigits(t)
    ensures n >= 0
  {
    if t == [] then 0 else 10 * DigitsValue(t[..|t| - 1]) + (t[|t| - 1] - ZERO)
  }

  /** The integer a number token denotes, or None for every rejected token: empty,
      fractional or exponential, negative zero, leading zero, non-digit, or
      outside the safe range. */
  function ParseCanonicalInteger(s: Text): Option<int> {
    if s == [] then None
    else if exists i :: 0 <= i < |s| && (s[i] == 0x2E || s[i] == 0x65 || s[i] == 0x45 || s[i] == 0x2B) then None
    else if s == [MINUS, ZERO] then None
    else
      var negative := s[0] == MINUS;
      var body := if negative then s[1..] else s;
      if body == [] then None
      else if |body| > 1 && body[0] == ZERO then None
      else if !AllDigits(body) then None
      else
        var n := if negative then -DigitsValue(body) else DigitsValue(body);
        if n < -TWO_63 || n > MAX_INT64 then None
        else if n < -MAX_SAFE_INTEGER || n > MAX_SAFE_INTEGER then None
        else Some(n)
  }

  lemma {:induction false} PrintNatDigits(n: nat)
    ensures AllDigits(PrintNat(n)) && DigitsValue(PrintNat(n)) == n
    ensures PrintNat(n)[0] == ZERO <==> n == 0
    ensures n == 0 ==> PrintNat(n) == [ZERO]
  {
    if n >= 10 {
      PrintNatDigits(n / 10);
      var t := PrintNat(n);
      assert t[..|t| - 1] == PrintNat(n / 10);
      assert t[0] == PrintNat(n / 10)[0];
    }
  }

  /** A digit string without a leading zero is the shortest decimal of its value. */
  lemma {:induction false} DigitsPrintBack(t: Text)
    requires t != [] && AllDigits(t) && (|t| > 1 ==> t[0] != ZERO)
    ensures PrintNat(DigitsValue(t)) == t
    ensures DigitsValue(t) == 0 <==> t == [ZERO]
  {
    var init, last := t[..|t| - 1], t[|t| - 1];
    assert t == init + [last];
    if |t| > 1 {
      DigitsPrintBack(init);
      assert init[0] == t[0];
      assert DigitsValue(t) / 10 == DigitsValue(init) && DigitsValue(t) % 10 == last - ZERO;
    } else {
      assert init == [] && DigitsValue(init) == 0;
    }
  }

  /** An integer token is accepted exactly when it is the shortest decimal of a
      number of magnitude at most 2^53 - 1, and then denotes that number. */
  lemma IntegerTokenExact(s: Text, n: int)
    ensures ParseCanonicalInteger(s) == Some(n) <==> s == PrintInt(n) && -9_007_199_254_740_991 <= n <= 9_007_199_254_740_991
  {
    if s == PrintInt(n) && -MAX_SAFE_INTEGER <= n <= MAX_SAFE_INTEGER {
      PrintedIntegerAccepted(n);
    }
    if ParseCanonicalInteger(s) == Some(n) {
      AcceptedIntegerPrints(s, n);
    }
  }

  lemma PrintedIntegerAccepted(n: int)
    requires -MAX_SAFE_INTEGER <= n <= MAX_SAFE_INTEGER
    ensures ParseCanonicalInteger(PrintInt(n)) == Some(n)
  {
    var m := if n < 0 then -n else n;
    PrintNatDigits(m);
    SignedDigitsAccepted(n < 0, PrintNat(m));
    assert [] + PrintNat(m) == PrintNat(m);
  }

  /** A sign and a digit string without a leading zero, other than minus zero. */
  lemma SignedDigitsAccepted(negative: bool, body: Text)
    requires body != [] && AllDigits(body) && (|body| > 1 ==> body[0] != ZERO) && (negative ==> body[0] != ZERO)
    requires DigitsValue(body) <= MAX_SAFE_INTEGER
    ensures ParseCanonicalInteger((if negative then [MINUS] else []) + body)
         == Some(if negative then -DigitsValue(body) else DigitsValue(body))
  {
    var s := (if negative then [MINUS] else []) + body;
    if negative {
      assert s[1..] == body;
      forall i | 0 <= i < |s|
        ensures IsDigit(s[i]) || s[i] == MINUS
      {
        assert i > 0 ==> s[i] == body[i - 1];
      }
    } else {
      assert s == body;
    }
  }

  lemma AcceptedIntegerPrints(s: Text, n: int)
    requires ParseCanonicalInteger(s) == Some(n)
    ensures s == PrintInt(n) && -MAX_SAFE_INTEGER <= n <= MAX_SAFE_INTEGER
  {
    var body := if s[0] == MINUS then s[1..] else s;
    DigitsPrintBack(body);
    if s[0] == MINUS {
      assert s == [MINUS] + body;
    }
  }
}
