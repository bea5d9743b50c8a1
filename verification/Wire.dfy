/** Payloads on the wire: canonical JSON text in UTF-8, and how the checker's
    decoder fills a payload from the members of an object. What is assumed of the
    decoder is one predicate, and it is shown that it can be met. */
module Wire {
  import opened Basics
  import opened KeyOrder
  import opened Json
  import opened Records
  import JsonTheorems
  import JsonCode

  // ----- Strings and texts -----

  function StringOf(t: Text): (s: string)
    ensures |s| == |t| && forall i :: 0 <= i < |t| ==> s[i] == t[i] as char
  {
    seq(|t|, i requires 0 <= i < |t| => t[i] as char)
  }

  lemma StringRoundTrip(s: string)
    ensures StringOf(TextOf(s)) == s
  {
  }

  // ----- UTF-8 -----

  function Continuation(n: int): byte
    requires 0 <= n < 64
  {
    (0x80 + n) as byte
  }

  function Utf8Rune(r: Rune): (b: Bytes)
    ensures 1 <= |b| <= 4
  {
    if r < 0x80 then [r as byte]
    else if r < 0x800 then [(0xC0 + r / 64) as byte, Continuation(r % 64)]
    else if r < 0x10000 then [(0xE0 + r / 4096) as byte, Continuation(r / 64 % 64), Continuation(r % 64)]
    else [(0xF0 + r / 262144) as byte, Continuation(r / 4096 % 64), Continuation(r / 64 % 64), Continuation(r % 64)]
  }

  function Utf8(t: Text): Bytes {
    if t == [] then [] else Utf8Rune(t[0]) + Utf8(t[1..])
  }

  /** The scalar value that starts a well-formed byte sequence. */
  function FirstUtf8Rune(b: Bytes): int
    requires b != []
  {
    var x := b[0] as int;
    if x < 0xC0 || |b| < 2 then x
    else if x < 0xE0 || |b| < 3 then (x - 0xC0) * 64 + (b[1] as int - 0x80)
    else if x < 0xF0 || |b| < 4 then ((x - 0xE0) * 64 + (b[1] as int - 0x80)) * 64 + (b[2] as int - 0x80)
    else (((x - 0xF0) * 64 + (b[1] as int - 0x80)) * 64 + (b[2] as int - 0x80)) * 64 + (b[3] as int - 0x80)
  }

  lemma Digits64(r: int)
    requires 0 <= r <= 0x10FFFF
    ensures r == r / 64 * 64 + r % 64
    ensures r / 64 == r / 4096 * 64 + r / 64 % 64
    ensures r / 4096 == r / 262144 * 64 + r / 4096 % 64
    ensures r < 0x800 ==> r / 64 < 32
    ensures r < 0x10000 ==> r / 4096 < 16
    ensures r / 262144 < 8
  {
  }

  lemma Utf8RuneDecodes(r: Rune, rest: Bytes)
    ensures FirstUtf8Rune(Utf8Rune(r) + rest) == r
  {
    Digits64(r);
  }

  /** No two texts share their UTF-8 form. */
  lemma {:induction false} Utf8Injective(t: Text, u: Text)
    requires Utf8(t) == Utf8(u)
    ensures t == u
  {
    if t != [] && u != [] {
      Utf8RuneDecodes(t[0], Utf8(t[1..]));
      Utf8RuneDecodes(u[0], Utf8(u[1..]));
      assert t[0] == u[0];
      var n := |Utf8Rune(t[0])|;
      assert Utf8(t)[n..] == Utf8(t[1..]) && Utf8(u)[n..] == Utf8(u[1..]);
      Utf8Injective(t[1..], u[1..]);
      assert t == [t[0]] + t[1..] && u == [u[0]] + u[1..];
    }
  }

  // ----- Encoding -----

  ghost function Encoded(v: Value): Bytes {
    Utf8(Print(v))
  }

  /** Canonical encoding: the canonical writer's text as bytes, unless the value
      holds an unsafe number. */
  method EncodeValue(v: Value) returns (raw: Option<Bytes>)
    ensures raw.Some? <==> InRange(v)
    ensures raw.Some? ==> raw.value == Encoded(v)
  {
    var text, ok := JsonCode.WriteCanonical([], v);
    if !ok {
      return None;
    }
    assert [] + Print(v) == Print(v);
    raw := Some(Utf8(text));
  }

  /** The text is this value and nothing else. */
  ghost predicate Parses(t: Text, v: Value) {
    ReadValue(t).Good? && ReadValue(t).value == v && SkipSpace(ReadValue(t).rest) == []
  }

  // ----- Decoding a payload -----

  type Members = map<Text, Value>

  /** The payload members the checker decodes. */
  datatype Name =
    | NameV | NameType | NameRun | NameRecorder | NameKey | NameSeq | NamePrev | NameTs
    | NameHmax | NameHtol | NameNonce | NameEvent | NameDecision | NameCount | NameHead

  function NameString(n: Name): string {
    match n
    case NameV => "v"
    case NameType => "type"
    case NameRun => "run"
    case NameRecorder => "recorder"
    case NameKey => "key"
    case NameSeq => "seq"
    case NamePrev => "prev"
    case NameTs => "ts"
    case NameHmax => "hmax"
    case NameHtol => "htol"
    case NameNonce => "cp_nonce"
    case NameEvent => "event"
    case NameDecision => "decision"
    case NameCount => "count"
    case NameHead => "head"
  }

  function Spelling(n: Name): Text {
    TextOf(NameString(n))
  }

  /** Length, first and second letter tell the names apart. */
  function Mark(s: string): (int, char, char)
    requires s != ""
  {
    (|s|, s[0], if |s| > 1 then s[1] else ' ')
  }

  lemma NameStringsDiffer(m: Name, n: Name)
    requires NameString(m) == NameString(n)
    ensures m == n
  {
    assert Mark(NameString(m)) == Mark(NameString(n));
  }

  lemma SpellingsDiffer(m: Name, n: Name)
    requires Spelling(m) == Spelling(n)
    ensures m == n
  {
    StringRoundTrip(NameString(m));
    StringRoundTrip(NameString(n));
    NameStringsDiffer(m, n);
  }

  /** How the members are spelled. What follows holds for any spelling that tells
      the names apart; the format's own is `StandardNames`. */
  type Spellings = Name -> Text

  ghost predicate DistinctNames(sp: Spellings) {
    forall m, n :: sp(m) == sp(n) ==> m == n
  }

  function StandardNames(): Spellings {
    n => Spelling(n)
  }

  lemma StandardNamesDiffer()
    ensures DistinctNames(StandardNames())
  {
    forall m, n | StandardNames()(m) == StandardNames()(n)
      ensures m == n
    {
      SpellingsDiffer(m, n);
    }
  }

  /** A member's value; an absent member and a null one decode alike. */
  function At(ms: Members, key: Text): Value {
    if key in ms then ms[key] else Null
  }

  predicate IsInt(v: Value) {
    v.Int? || v.Null?
  }

  predicate IsStr(v: Value) {
    v.Str? || v.Null?
  }

  predicate IsObj(v: Value) {
    v.Obj? || v.Null?
  }

  function IntIn(v: Value): int {
    if v.Int? then v.n else 0
  }

  function StrIn(v: Value): string {
    if v.Str? then StringOf(v.s) else ""
  }

  function Inner(v: Value): Members {
    if v.Obj? then v.members else map[]
  }

  function Sub(v: Value, key: string): Value {
    At(Inner(v), TextOf(key))
  }

  predicate IsEvent(v: Value) {
    IsObj(v) && IsStr(Sub(v, "class")) && IsStr(Sub(v, "id")) && IsStr(Sub(v, "dir"))
  }

  function EventIn(v: Value): Option<Event> {
    if v.Obj? then Some(Event(StrIn(Sub(v, "class")), StrIn(Sub(v, "id")), StrIn(Sub(v, "dir")))) else None
  }

  predicate IsDecision(v: Value) {
    && IsObj(v) && IsStr(Sub(v, "policy")) && IsStr(Sub(v, "request_fp")) && IsStr(Sub(v, "verdict"))
    && IsObj(Sub(v, "inputs"))
  }

  function DecisionIn(v: Value): Option<Decision> {
    if v.Obj? then Some(Decision(StrIn(Sub(v, "policy")))) else None
  }

  /** The value has the type its member is decoded as. */
  predicate TypedAs(n: Name, v: Value) {
    match n
    case NameV => IsInt(v)
    case NameSeq => IsInt(v)
    case NameHmax => IsInt(v)
    case NameHtol => IsInt(v)
    case NameCount => IsInt(v)
    case NameEvent => IsEvent(v)
    case NameDecision => IsDecision(v)
    case _ => IsStr(v)
  }

  ghost predicate WellTyped(sp: Spellings, ms: Members) {
    forall n: Name :: TypedAs(n, At(ms, sp(n)))
  }

  function TypeNamed(s: string): RecordType {
    if s == "open" then Open
    else if s == "activity" then Activity
    else if s == "heartbeat" then Heartbeat
    else if s == "close" then Close
    else Other(s)
  }

  /** What the decoder fills in from well-typed members. */
  function PayloadIn(sp: Spellings, ms: Members): Payload {
    Payload(IntIn(At(ms, sp(NameV))), TypeNamed(StrIn(At(ms, sp(NameType)))), StrIn(At(ms, sp(NameRun))),
            StrIn(At(ms, sp(NameRecorder))), StrIn(At(ms, sp(NameKey))), IntIn(At(ms, sp(NameSeq))),
            StrIn(At(ms, sp(NamePrev))), StrIn(At(ms, sp(NameTs))), IntIn(At(ms, sp(NameHmax))),
            IntIn(At(ms, sp(NameHtol))), StrIn(At(ms, sp(NameNonce))), EventIn(At(ms, sp(NameEvent))),
            DecisionIn(At(ms, sp(NameDecision))), IntIn(At(ms, sp(NameCount))), StrIn(At(ms, sp(NameHead))))
  }

  /** Letters the decoder takes for one another when it matches member names. */
  function FoldRune(r: Rune): Rune {
    if 0x41 <= r <= 0x5A then r + 32 else if r == 0x17F then 0x73 else if r == 0x212A then 0x6B else r
  }

  function Fold(t: Text): (u: Text)
    ensures |u| == |t| && forall i :: 0 <= i < |t| ==> u[i] == FoldRune(t[i])
  {
    seq(|t|, i requires 0 <= i < |t| => FoldRune(t[i]))
  }

  /** No member could be taken for another name than its own. */
  ghost predicate Unambiguous(ms: Members, names: set<Text>) {
    forall k :: k in ms && Fold(k) in names ==> k in names
  }

  ghost function AllSpellings(sp: Spellings): set<Text> {
    set n: Name | true :: sp(n)
  }

  function Subnames(keys: seq<string>): set<Text> {
    set k | k in keys :: TextOf(k)
  }

  ghost predicate UnambiguousEvent(v: Value) {
    Unambiguous(Inner(v), Subnames(["class", "id", "dir"]))
  }

  ghost predicate UnambiguousDecision(v: Value) {
    Unambiguous(Inner(v), Subnames(["policy", "request_fp", "verdict", "inputs"]))
  }

  ghost predicate UnambiguousPayload(sp: Spellings, ms: Members) {
    && Unambiguous(ms, AllSpellings(sp))
    && UnambiguousEvent(At(ms, sp(NameEvent))) && UnambiguousDecision(At(ms, sp(NameDecision)))
  }

  /** How an object of these members decodes: into the payload, or not at all. */
  ghost predicate DecodesAs(sp: Spellings, ms: Members, d: Decoded) {
    UnambiguousPayload(sp, ms) ==> if WellTyped(sp, ms) then d == Decoded(PayloadIn(sp, ms), true) else !d.ok
  }

  // ----- A world that reads JSON -----

  /** The body of a signed tree head as a value. */
  function HeadValue(h: SignedHead): Value {
    Obj(map[TextOf("log") := Str(TextOf(h.log)), TextOf("root") := Str(TextOf(h.root)), TextOf("size") := Int(h.size)])
  }

  /** The canonical test is the canonical form, and decoding reads the members. */
  ghost predicate ReadsJson(w: World) {
    && (forall t: Text :: w.canonical(Utf8(t)) <==> IsCanonical(t))
    && (forall t: Text, ms: Members :: Parses(t, Obj(ms)) ==> DecodesAs(StandardNames(), ms, w.decode(Utf8(t))))
    && (forall t: Text, h: SignedHead :: Parses(t, HeadValue(h)) ==> w.signedHead(Utf8(t)) == Some(h))
  }

  /** What is encoded is canonical, and parses to the value. */
  lemma EncodedIsCanonical(w: World, v: Value)
    requires ReadsJson(w) && InRange(v)
    ensures w.canonical(Encoded(v)) && Parses(Print(v), v)
  {
    JsonTheorems.PrintParses(v);
  }

  /** What is encoded decodes to its members. */
  lemma EncodedDecodes(w: World, ms: Members)
    requires ReadsJson(w) && InRange(Obj(ms))
    ensures w.canonical(Encoded(Obj(ms))) && DecodesAs(StandardNames(), ms, w.decode(Encoded(Obj(ms))))
  {
    EncodedIsCanonical(w, Obj(ms));
  }

  // ----- Such a world exists -----

  lemma HeadValuesDiffer(g: SignedHead, h: SignedHead)
    requires HeadValue(g) == HeadValue(h)
    ensures g == h
  {
    var gs, hs := HeadValue(g).members, HeadValue(h).members;
    var log, root, size := TextOf("log"), TextOf("root"), TextOf("size");
    assert log != root && |log| != |size| && root[0] != size[0];
    assert gs[log] == hs[log] && gs[root] == hs[root] && gs[size] == hs[size];
    assert gs[log] == Str(TextOf(g.log)) && hs[log] == Str(TextOf(h.log));
    assert gs[root] == Str(TextOf(g.root)) && hs[root] == Str(TextOf(h.root));
    StringRoundTrip(g.log);
    StringRoundTrip(h.log);
    StringRoundTrip(g.root);
    StringRoundTrip(h.root);
  }

  /** The one text with these bytes, if there is one. */
  ghost function TextIn(b: Bytes): Option<Text> {
    if exists t: Text :: Utf8(t) == b then
      var t: Text :| Utf8(t) == b;
      Some(t)
    else None
  }

  lemma TextIsFound(t: Text)
    ensures TextIn(Utf8(t)) == Some(t)
  {
    var u := TextIn(Utf8(t)).value;
    Utf8Injective(t, u);
  }

  ghost function ReadMembers(sp: Spellings, ms: Members): (d: Decoded)
    ensures DecodesAs(sp, ms, d)
  {
    if WellTyped(sp, ms) then Decoded(PayloadIn(sp, ms), true) else Decoded(EMPTY_PAYLOAD, false)
  }

  ghost function ReadPayload(b: Bytes): Decoded {
    match TextIn(b)
    case None => Decoded(EMPTY_PAYLOAD, false)
    case Some(t) =>
      match ReadValue(t)
      case Good(Obj(ms), _) => ReadMembers(StandardNames(), ms)
      case _ => Decoded(EMPTY_PAYLOAD, false)
  }

  ghost function ReadHead(b: Bytes): Option<SignedHead> {
    match TextIn(b)
    case None => None
    case Some(t) =>
      if exists h :: Parses(t, HeadValue(h)) then
        var h :| Parses(t, HeadValue(h));
        Some(h)
      else None
  }

  ghost function ReadCanonical(b: Bytes): bool {
    TextIn(b).Some? && IsCanonical(TextIn(b).value)
  }

  /** The hypothesis can be met: any world becomes one that reads JSON by giving it
      these readers. */
  lemma JsonCanBeRead(w: World) returns (w': World)
    ensures ReadsJson(w') && w'.sha == w.sha && w'.verify == w.verify && w'.schema == w.schema && w'.time == w.time && w'.stdBase64 == w.stdBase64
  {
    var decode: Bytes -> Decoded := b => ReadPayload(b);
    var canonical: Bytes -> bool := b => ReadCanonical(b);
    var head: Bytes -> Option<SignedHead> := b => ReadHead(b);
    w' := w.(decode := decode, canonical := canonical, signedHead := head);
    forall t: Text
      ensures TextIn(Utf8(t)) == Some(t)
    {
      TextIsFound(t);
    }
    forall t: Text, h: SignedHead | Parses(t, HeadValue(h))
      ensures ReadHead(Utf8(t)) == Some(h)
    {
      HeadIsRead(t, h);
    }
  }

  lemma HeadIsRead(t: Text, h: SignedHead)
    requires Parses(t, HeadValue(h))
    ensures ReadHead(Utf8(t)) == Some(h)
  {
    TextIsFound(t);
    var g := ReadHead(Utf8(t)).value;
    HeadValuesDiffer(g, h);
  }
}
