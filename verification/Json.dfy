/** The canonical JSON form used for every signed payload (RFC 8785, restricted):
    a reader that rejects duplicate keys and unsafe numbers, and a printer with
    sorted keys. Both are functions on texts; the loops that compute them are in
    module JsonCode. */
module Json {
  import opened Basics
  import opened KeyOrder
  import opened JsonText

  datatype Value =
    | Null
    | Bool(b: bool)
    | Str(s: Text)
    | Int(n: int)
    | Arr(items: seq<Value>)
    | Obj(members: map<Text, Value>)

  /** Every number in the value is within the safe range. */
  predicate InRange(v: Value) {
    match v
    case Int(n) => -MAX_SAFE_INTEGER <= n <= MAX_SAFE_INTEGER
    case Arr(items) => forall i :: 0 <= i < |items| ==> InRange(items[i])
    case Obj(members) => forall k :: k in members ==> InRange(members[k])
    case _ => true
  }

  // ----- The printer -----

  const NULL_TEXT: Text := [0x6E, 0x75, 0x6C, 0x6C]
  const TRUE_TEXT: Text := [0x74, 0x72, 0x75, 0x65]
  const FALSE_TEXT: Text := [0x66, 0x61, 0x6C, 0x73, 0x65]

  ghost function Print(v: Value): (t: Text)
    decreases v, 4
  {
    match v
    case Null => NULL_TEXT
    case Bool(b) => if b then TRUE_TEXT else FALSE_TEXT
    case Str(s) => PrintString(s)
    case Int(n) => PrintInt(n)
    case Arr(items) => [LBRACKET] + PrintItems(items) + [RBRACKET]
    case Obj(members) => [LBRACE] + PrintMembers(v, SortedKeys(members.Keys)) + [RBRACE]
  }

  /** Items separated by commas. */
  ghost function PrintItems(items: seq<Value>): Text
    decreases items, 0
  {
    if items == [] then []
    else Print(items[0]) + PrintMoreItems(items[1..])
  }

  /** Each further item is preceded by a comma. */
  ghost function PrintMoreItems(items: seq<Value>): Text
    decreases items, 0
  {
    if items == [] then []
    else [COMMA] + Print(items[0]) + PrintMoreItems(items[1..])
  }

  ghost function PrintMember(v: Value, k: Text): Text
    requires v.Obj? && k in v.members
    decreases v, 1
  {
    PrintString(k) + [COLON] + Print(v.members[k])
  }

  ghost function PrintMembers(v: Value, keys: seq<Text>): Text
    requires v.Obj? && Keys(keys) <= v.members.Keys
    decreases v, 3
  {
    if keys == [] then []
    else
      assert keys[0] in Keys(keys) && Keys(keys[1..]) <= Keys(keys);
      PrintMember(v, keys[0]) + PrintMoreMembers(v, keys[1..])
  }

  ghost function PrintMoreMembers(v: Value, keys: seq<Text>): Text
    requires v.Obj? && Keys(keys) <= v.members.Keys
    decreases v, 2, |keys|
  {
    if keys == [] then []
    else
      assert keys[0] in Keys(keys) && Keys(keys[1..]) <= Keys(keys);
      [COMMA] + PrintMember(v, keys[0]) + PrintMoreMembers(v, keys[1..])
  }

  // ----- The parser -----

  predicate IsSpace(c: Rune) {
    c == 0x20 || c == 0x09 || c == 0x0A || c == 0x0D
  }

  function SkipSpace(t: Text): (r: Text)
    ensures |r| <= |t|
    ensures r != [] ==> !IsSpace(r[0])
  {
    if t != [] && IsSpace(t[0]) then SkipSpace(t[1..]) else t
  }

  /** Characters that can occur in a number token; anything else ends it. */
  predicate IsNumberRune(c: Rune) {
    IsDigit(c) || c == MINUS || c == 0x2B || c == 0x2E || c == 0x65 || c == 0x45
  }

  /** The longest run of number characters. A run that is not one shortest decimal
      is rejected whichever of its prefixes the tokenizer would have taken. */
  function NumberRun(t: Text): (n: nat)
    ensures n <= |t|
    ensures forall i :: 0 <= i < n ==> IsNumberRune(t[i])
    ensures n < |t| ==> !IsNumberRune(t[n])
  {
    if t == [] || !IsNumberRune(t[0]) then 0 else 1 + NumberRun(t[1..])
  }

  function ReadNumber(t: Text): (r: Parse<Value>)
    requires t != [] && IsNumberRune(t[0])
    ensures r.Good? ==> |r.rest| < |t|
  {
    var n := NumberRun(t);
    match ParseCanonicalInteger(t[..n])
    case Some(i) => Good(Int(i), t[n..])
    case None => Bad
  }

  function ReadLiteral(t: Text): (r: Parse<Value>)
    ensures r.Good? ==> |r.rest| < |t|
  {
    if NULL_TEXT <= t then Good(Null, t[4..])
    else if TRUE_TEXT <= t then Good(Bool(true), t[4..])
    else if FALSE_TEXT <= t then Good(Bool(false), t[5..])
    else Bad
  }

  function ReadValue(t: Text): (r: Parse<Value>)
    ensures r.Good? ==> |r.rest| < |t|
    decreases |t|, 0
  {
    var u := SkipSpace(t);
    if u == [] then Bad
    else if u[0] == LBRACE then ReadObject(u[1..], map[], true)
    else if u[0] == LBRACKET then ReadArray(u[1..], [], true)
    else if u[0] == QUOTE then
      match ReadString(u[1..])
      case Bad => Bad
      case Good(s, rest) => Good(Str(s), rest)
    else if IsNumberRune(u[0]) then ReadNumber(u)
    else ReadLiteral(u)
  }

  /** The rest of an array after its bracket, or after one of its items. */
  function ReadArray(t: Text, items: seq<Value>, first: bool): (r: Parse<Value>)
    ensures r.Good? ==> |r.rest| < |t|
    decreases |t|, 1
  {
    var u := SkipSpace(t);
    if u == [] then Bad
    else if u[0] == RBRACKET then Good(Arr(items), u[1..])
    else if !first && u[0] != COMMA then Bad
    else
      match ReadValue(if first then u else u[1..])
      case Bad => Bad
      case Good(v, rest) => ReadArray(rest, items + [v], false)
  }

  /** The rest of an object after its brace, or after one of its members. A key
      already seen rejects the text. */
  function ReadObject(t: Text, members: map<Text, Value>, first: bool): (r: Parse<Value>)
    ensures r.Good? ==> |r.rest| < |t|
    decreases |t|, 1
  {
    var u := SkipSpace(t);
    if u == [] then Bad
    else if u[0] == RBRACE then Good(Obj(members), u[1..])
    else if !first && u[0] != COMMA then Bad
    else
      match ReadKey(if first then u else u[1..])
      case Bad => Bad
      case Good(k, w) =>
        if k in members then Bad
        else
          match ReadValue(w)
          case Bad => Bad
          case Good(v, rest) => ReadObject(rest, members[k := v], false)
  }

  /** A string followed by a colon. */
  function ReadKey(t: Text): (r: Parse<Text>)
    ensures r.Good? ==> |r.rest| < |t|
  {
    var u := SkipSpace(t);
    if u == [] || u[0] != QUOTE then Bad
    else
      match ReadString(u[1..])
      case Bad => Bad
      case Good(k, w) =>
        var x := SkipSpace(w);
        if x == [] || x[0] != COLON then Bad else Good(k, x[1..])
  }

  /** Parse one value with nothing but space around it, and print it. */
  ghost function Canonicalize(raw: Text): Option<Text> {
    match ReadValue(raw)
    case Good(v, rest) => if SkipSpace(rest) == [] then Some(Print(v)) else None
    case Bad => None
  }

  ghost predicate IsCanonical(raw: Text) {
    Canonicalize(raw) == Some(raw)
  }
}
