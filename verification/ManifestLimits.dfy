/** The resource limits of an artifact manifest: a streaming machine over the
    decoder's tokens, and the recursive definition it agrees with. */
module ManifestLimits {

  const MAX_BYTES: nat := 0x10_0000
  const MAX_ITEMS: nat := 1024
  const MAX_STRING: nat := 16384
  const MAX_MEMBERS: nat := 128
  const MAX_DEPTH: nat := 16

  /** Decoder tokens; commas and colons are consumed by the decoder. A string
      token carries its length in bytes. */
  datatype Token = OpenObject | CloseObject | OpenArray | CloseArray | String(length: nat) | Scalar

  datatype Container = Container(isObject: bool, count: nat, expectKey: bool)

  type Stack = seq<Container>

  // ----- The machine -----

  function Top(s: Stack): Container
    requires s != []
  {
    s[|s| - 1]
  }

  function WithTop(s: Stack, c: Container): Stack
    requires s != []
  {
    s[|s| - 1 := c]
  }

  datatype Outcome = Reject | Continue(stack: Stack)

  /** The parent of a value that starts here: an object goes back to expecting a
      key, an array counts the item. */
  function EnterValue(s: Stack): Outcome {
    if s == [] then Continue(s)
    else if Top(s).isObject then Continue(WithTop(s, Top(s).(expectKey := true)))
    else if Top(s).count + 1 > MAX_ITEMS then Reject
    else Continue(WithTop(s, Top(s).(count := Top(s).count + 1)))
  }

  predicate ExpectsKey(s: Stack) {
    s != [] && Top(s).isObject && Top(s).expectKey
  }

  function TakeKey(s: Stack, t: Token): Outcome
    requires ExpectsKey(s)
  {
    if !t.String? || t.length > MAX_STRING || Top(s).count + 1 > MAX_MEMBERS then Reject
    else Continue(WithTop(s, Top(s).(count := Top(s).count + 1, expectKey := false)))
  }

  function Step(s: Stack, t: Token): Outcome {
    if t.CloseObject? || t.CloseArray? then
      if s == [] || Top(s).isObject != t.CloseObject? then Reject else Continue(s[..|s| - 1])
    else if ExpectsKey(s) then TakeKey(s, t)
    else
      match EnterValue(s)
      case Reject => Reject
      case Continue(entered) =>
        if t.String? && t.length > MAX_STRING then Reject
        else if t.OpenObject? || t.OpenArray? then
          if |entered| >= MAX_DEPTH then Reject
          else Continue(entered + [Container(t.OpenObject?, 0, t.OpenObject?)])
        else Continue(entered)
  }

  function Run(s: Stack, ts: seq<Token>): Outcome
    decreases |ts|
  {
    if ts == [] then Continue(s)
    else
      match Step(s, ts[0])
      case Reject => Reject
      case Continue(next) => Run(next, ts[1..])
  }

  /** The validation loop. The decoder delivers tokens until end of input, or
      until it reports an error. */
  method ValidateLimits(size: nat, tokens: seq<Token>, decoderError: bool) returns (ok: bool)
    ensures ok <==> size <= 1_048_576 && !decoderError && Run([], tokens) == Continue([])
  {
    if size > MAX_BYTES {
      return false;
    }
    var stack: Stack := [];
    for i := 0 to |tokens|
      invariant Run(stack, tokens[i..]) == Run([], tokens)
      invariant |stack| <= MAX_DEPTH
    {
      var tok := tokens[i];
      assert tokens[i..][0] == tok && tokens[i..][1..] == tokens[i + 1..];
      ghost var before := stack;
      if tok.CloseObject? || tok.CloseArray? {
        if |stack| == 0 || (tok.CloseObject? && !Top(stack).isObject) || (tok.CloseArray? && Top(stack).isObject) {
          return false;
        }
        stack := stack[..|stack| - 1];
        continue;
      }
      if |stack| > 0 && Top(stack).isObject && Top(stack).expectKey {
        if !tok.String? || tok.length > MAX_STRING {
          return false;
        }
        stack := WithTop(stack, Top(stack).(count := Top(stack).count + 1));
        if Top(stack).count > MAX_MEMBERS {
          return false;
        }
        stack := WithTop(stack, Top(stack).(expectKey := false));
        assert Step(before, tok) == Continue(stack);
        continue;
      }
      if |stack| > 0 {
        if Top(stack).isObject {
          stack := WithTop(stack, Top(stack).(expectKey := true));
        } else {
          stack := WithTop(stack, Top(stack).(count := Top(stack).count + 1));
          if Top(stack).count > MAX_ITEMS {
            return false;
          }
        }
      }
      if tok.String? && tok.length > MAX_STRING {
        return false;
      }
      if tok.OpenObject? || tok.OpenArray? {
        if |stack| >= MAX_DEPTH {
          return false;
        }
        stack := stack + [Container(tok.OpenObject?, 0, tok.OpenObject?)];
      }
      assert Step(before, tok) == Continue(stack);
    }
    return !decoderError && |stack| == 0;
  }

  /** The stack never grows past the nesting limit, on any token stream. */
  lemma {:induction false} StackBounded(s: Stack, ts: seq<Token>)
    requires |s| <= MAX_DEPTH
    ensures Run(s, ts).Continue? ==> |Run(s, ts).stack| <= MAX_DEPTH
    decreases |ts|
  {
    if ts != [] && Step(s, ts[0]).Continue? {
      StackBounded(Step(s, ts[0]).stack, ts[1..]);
    }
  }

  // ----- The recursive definition -----

  datatype Node =
    | Atom
    | Text(length: nat)
    | Array(items: seq<Node>)
    | Object(members: seq<Member>)

  datatype Member = Member(key: nat, value: Node)

  function Tokens(n: Node): (ts: seq<Token>)
    ensures ts != []
    decreases n, 1
  {
    match n
    case Atom => [Scalar]
    case Text(length) => [String(length)]
    case Array(items) => [OpenArray] + AllTokens(items) + [CloseArray]
    case Object(members) => [OpenObject] + MemberTokens(members) + [CloseObject]
  }

  function AllTokens(ns: seq<Node>): seq<Token>
    decreases ns, 0
  {
    if ns == [] then [] else Tokens(ns[0]) + AllTokens(ns[1..])
  }

  function MemberTokens(ms: seq<Member>): seq<Token>
    decreases ms, 0
  {
    if ms == [] then []
    else OneMemberTokens(ms[0]) + MemberTokens(ms[1..])
  }

  function OneMemberTokens(m: Member): seq<Token>
    decreases m, 0
  {
    [String(m.key)] + Tokens(m.value)
  }

  /** Within the limits when it may nest at most `room` containers deep. */
  predicate Fits(n: Node, room: int)
    decreases n, 1
  {
    match n
    case Atom => true
    case Text(length) => length <= MAX_STRING
    case Array(items) => room >= 1 && |items| <= MAX_ITEMS && AllFit(items, room - 1)
    case Object(members) => room >= 1 && |members| <= MAX_MEMBERS && AllMembersFit(members, room - 1)
  }

  predicate AllFit(ns: seq<Node>, room: int)
    decreases ns, 0
  {
    ns == [] || (Fits(ns[0], room) && AllFit(ns[1..], room))
  }

  predicate AllMembersFit(ms: seq<Member>, room: int)
    decreases ms, 0
  {
    ms == [] || (MemberFits(ms[0], room) && AllMembersFit(ms[1..], room))
  }

  predicate MemberFits(m: Member, room: int)
    decreases m, 0
  {
    m.key <= MAX_STRING && Fits(m.value, room)
  }

  lemma {:induction false} RunAppend(s: Stack, a: seq<Token>, b: seq<Token>)
    ensures Run(s, a + b) == match Run(s, a) case Reject => Reject case Continue(t) => Run(t, b)
    decreases |a|
  {
    if a == [] {
      assert a + b == b;
    } else {
      assert (a + b)[0] == a[0] && (a + b)[1..] == a[1..] + b;
      if Step(s, a[0]).Continue? {
        RunAppend(Step(s, a[0]).stack, a[1..], b);
      }
    }
  }

  lemma RunOne(s: Stack, t: Token, ts: seq<Token>)
    ensures Run(s, [t] + ts) == match Step(s, t) case Reject => Reject case Continue(u) => Run(u, ts)
  {
    assert ([t] + ts)[1..] == ts;
  }

  function Pushed(s: Stack, isObject: bool): Stack {
    s + [Container(isObject, 0, isObject)]
  }

  /** Where running the tokens of a value leads from a stack: the parent is
      entered and the stack is back to its height, or the value does not fit. */
  function ValueOutcome(s: Stack, n: Node): Outcome {
    if EnterValue(s).Continue? && Fits(n, MAX_DEPTH - |s|) then EnterValue(s) else Reject
  }

  lemma {:induction false} RunValue(s: Stack, n: Node)
    requires !ExpectsKey(s) && |s| <= MAX_DEPTH
    ensures Run(s, Tokens(n)) == ValueOutcome(s, n)
    decreases n, 1
  {
    match n {
      case Atom => RunOne(s, Scalar, []);
      case Text(length) => RunOne(s, String(length), []);
      case Array(items) =>
        if EnterValue(s).Continue? && |s| < MAX_DEPTH {
          RunItems(EnterValue(s).stack, items, 0);
        }
        RunContainer(s, OpenArray, AllTokens(items), CloseArray, |items| <= MAX_ITEMS && AllFit(items, MAX_DEPTH - |s| - 1), |items|);
      case Object(members) =>
        if EnterValue(s).Continue? && |s| < MAX_DEPTH {
          RunMembers(EnterValue(s).stack, members, 0);
        }
        RunContainer(s, OpenObject, MemberTokens(members), CloseObject,
                     |members| <= MAX_MEMBERS && AllMembersFit(members, MAX_DEPTH - |s| - 1), |members|);
    }
  }

  /** The common part of both containers: open, a body that fits or not, close. */
  lemma RunContainer(s: Stack, open: Token, body: seq<Token>, close: Token, fits: bool, count: nat)
    requires !ExpectsKey(s) && |s| <= MAX_DEPTH
    requires (open == OpenArray && close == CloseArray) || (open == OpenObject && close == CloseObject)
    requires EnterValue(s).Continue? && |s| < MAX_DEPTH ==>
               Run(Pushed(EnterValue(s).stack, open.OpenObject?), body) ==
                 if fits then Continue(EnterValue(s).stack + [Container(open.OpenObject?, count, open.OpenObject?)]) else Reject
    ensures Run(s, [open] + body + [close]) ==
              if EnterValue(s).Continue? && |s| < MAX_DEPTH && fits then EnterValue(s) else Reject
  {
    assert [open] + body + [close] == [open] + (body + [close]);
    RunOne(s, open, body + [close]);
    if EnterValue(s).Continue? && |s| < MAX_DEPTH {
      var e := EnterValue(s).stack;
      RunAppend(Pushed(e, open.OpenObject?), body, [close]);
      if fits {
        RunClose(e, Container(open.OpenObject?, count, open.OpenObject?), close);
      }
    }
  }

  lemma RunClose(e: Stack, c: Container, close: Token)
    requires close.CloseObject? || close.CloseArray?
    requires c.isObject == close.CloseObject?
    ensures Run(e + [c], [close]) == Continue(e)
  {
    RunOne(e + [c], close, []);
    assert [close] + [] == [close];
    assert (e + [c])[..|e|] == e;
  }

  lemma {:induction false} RunItems(e: Stack, items: seq<Node>, c: nat)
    requires |e| < MAX_DEPTH && c <= MAX_ITEMS
    ensures Run(e + [Container(false, c, false)], AllTokens(items)) ==
              if c + |items| <= MAX_ITEMS && AllFit(items, MAX_DEPTH - |e| - 1)
              then Continue(e + [Container(false, c + |items|, false)]) else Reject
    decreases items, 0
  {
    if items != [] {
      RunItem(e, items[0], c);
      RunAppend(e + [Container(false, c, false)], Tokens(items[0]), AllTokens(items[1..]));
      if c + 1 <= MAX_ITEMS {
        RunItems(e, items[1..], c + 1);
      }
    }
  }

  lemma {:induction false} RunItem(e: Stack, n: Node, c: nat)
    requires |e| < MAX_DEPTH && c <= MAX_ITEMS
    ensures Run(e + [Container(false, c, false)], Tokens(n)) ==
              if c + 1 <= MAX_ITEMS && Fits(n, MAX_DEPTH - |e| - 1)
              then Continue(e + [Container(false, c + 1, false)]) else Reject
    decreases n, 2
  {
    var s := e + [Container(false, c, false)];
    RunValue(s, n);
    assert EnterValue(s) == if c + 1 <= MAX_ITEMS then Continue(e + [Container(false, c + 1, false)]) else Reject;
  }

  lemma {:induction false} RunMember(e: Stack, m: Member, c: nat)
    requires |e| < MAX_DEPTH && c <= MAX_MEMBERS
    ensures Run(e + [Container(true, c, true)], OneMemberTokens(m)) ==
              if c + 1 <= MAX_MEMBERS && MemberFits(m, MAX_DEPTH - |e| - 1)
              then Continue(e + [Container(true, c + 1, true)]) else Reject
    decreases m, 0
  {
    var s, s' := e + [Container(true, c, true)], e + [Container(true, c + 1, false)];
    RunOne(s, String(m.key), Tokens(m.value));
    assert TakeKey(s, String(m.key)) == if c + 1 <= MAX_MEMBERS && m.key <= MAX_STRING then Continue(s') else Reject;
    RunValue(s', m.value);
    assert EnterValue(s') == Continue(e + [Container(true, c + 1, true)]);
  }

  lemma {:induction false} RunMembers(e: Stack, members: seq<Member>, c: nat)
    requires |e| < MAX_DEPTH && c <= MAX_MEMBERS
    ensures Run(e + [Container(true, c, true)], MemberTokens(members)) ==
              if c + |members| <= MAX_MEMBERS && AllMembersFit(members, MAX_DEPTH - |e| - 1)
              then Continue(e + [Container(true, c + |members|, true)]) else Reject
    decreases members, 0
  {
    if members != [] {
      RunMember(e, members[0], c);
      RunAppend(e + [Container(true, c, true)], OneMemberTokens(members[0]), MemberTokens(members[1..]));
      if c + 1 <= MAX_MEMBERS {
        RunMembers(e, members[1..], c + 1);
      }
    }
  }

  /** Over the tokens of any sequence of values the machine accepts exactly when
      every value fits. */
  lemma {:induction false} MachineRefinesFits(values: seq<Node>)
    ensures Run([], AllTokens(values)) == if AllFit(values, MAX_DEPTH) then Continue([]) else Reject
  {
    if values != [] {
      RunValue([], values[0]);
      RunAppend([], Tokens(values[0]), AllTokens(values[1..]));
      MachineRefinesFits(values[1..]);
    }
  }

  // ----- The definition, read as separate limits -----

  function Max(a: nat, b: nat): nat {
    if a < b then b else a
  }

  /** Nesting depth: a scalar has none, a container one more than its contents. */
  function Depth(n: Node): nat
    decreases n, 1
  {
    match n
    case Atom => 0
    case Text(_) => 0
    case Array(items) => 1 + MaxDepth(items)
    case Object(members) => 1 + MaxMemberDepth(members)
  }

  function MaxDepth(ns: seq<Node>): nat
    decreases ns, 0
  {
    if ns == [] then 0 else Max(Depth(ns[0]), MaxDepth(ns[1..]))
  }

  function MaxMemberDepth(ms: seq<Member>): nat
    decreases ms, 0
  {
    if ms == [] then 0
    else Max(MemberDepth(ms[0]), MaxMemberDepth(ms[1..]))
  }

  function MemberDepth(m: Member): nat
    decreases m, 0
  {
    Depth(m.value)
  }

  /** Every array, object, string and key anywhere inside is within its size. */
  predicate SizesOK(n: Node) {
    match n
    case Atom => true
    case Text(length) => length <= MAX_STRING
    case Array(items) => |items| <= MAX_ITEMS && forall i :: 0 <= i < |items| ==> SizesOK(items[i])
    case Object(members) =>
      |members| <= MAX_MEMBERS && forall m :: m in members ==> m.key <= MAX_STRING && SizesOK(m.value)
  }

  lemma {:induction false} FitsIsDepthAndSizes(n: Node, room: nat)
    ensures Fits(n, room) <==> SizesOK(n) && Depth(n) <= room
    decreases n, 1
  {
    match n {
      case Atom =>
      case Text(_) =>
      case Array(items) =>
        if room >= 1 {
          AllFitIsDepthAndSizes(items, room - 1);
        }
      case Object(members) =>
        if room >= 1 {
          MembersFitIsDepthAndSizes(members, room - 1);
        }
    }
  }

  lemma {:induction false} AllFitIsDepthAndSizes(ns: seq<Node>, room: nat)
    ensures AllFit(ns, room) <==> (forall i :: 0 <= i < |ns| ==> SizesOK(ns[i])) && MaxDepth(ns) <= room
    decreases ns, 0
  {
    if ns != [] {
      FitsIsDepthAndSizes(ns[0], room);
      AllFitIsDepthAndSizes(ns[1..], room);
      assert ns == [ns[0]] + ns[1..];
    }
  }

  lemma {:induction false} MembersFitIsDepthAndSizes(ms: seq<Member>, room: nat)
    ensures AllMembersFit(ms, room) <==>
              (forall m :: m in ms ==> m.key <= MAX_STRING && SizesOK(m.value)) && MaxMemberDepth(ms) <= room
    decreases ms, 0
  {
    if ms != [] {
      MemberFitsIsDepthAndSizes(ms[0], room);
      MembersFitIsDepthAndSizes(ms[1..], room);
      assert ms == [ms[0]] + ms[1..];
    }
  }

  lemma {:induction false} MemberFitsIsDepthAndSizes(m: Member, room: nat)
    ensures MemberFits(m, room) <==> m.key <= MAX_STRING && SizesOK(m.value) && MemberDepth(m) <= room
    decreases m, 0
  {
    FitsIsDepthAndSizes(m.value, room);
  }

  /** The manifest limits, exactly: over the tokens of any sequence of values the
      machine accepts iff every value nests at most sixteen deep and every array,
      object, string and key is within its size. */
  lemma MachineRefinesLimits(values: seq<Node>)
    ensures Run([], AllTokens(values)) == Continue([]) <==>
              forall i :: 0 <= i < |values| ==> Depth(values[i]) <= MAX_DEPTH && SizesOK(values[i])
  {
    MachineRefinesFits(values);
    AllFitIsDepthAndSizes(values, MAX_DEPTH);
    MaxDepthIsMaximum(values, MAX_DEPTH);
  }

  lemma {:induction false} MaxDepthIsMaximum(ns: seq<Node>, d: nat)
    ensures MaxDepth(ns) <= d <==> forall i :: 0 <= i < |ns| ==> Depth(ns[i]) <= d
  {
    if ns != [] {
      MaxDepthIsMaximum(ns[1..], d);
      assert ns == [ns[0]] + ns[1..];
    }
  }

  // ----- Input that stops early -----

  function Net(ts: seq<Token>): int {
    if ts == [] then 0
    else (if ts[0].OpenObject? || ts[0].OpenArray? then 1 else if ts[0].CloseObject? || ts[0].CloseArray? then -1 else 0) + Net(ts[1..])
  }

  lemma {:induction false} NetAppend(a: seq<Token>, b: seq<Token>)
    ensures Net(a + b) == Net(a) + Net(b)
  {
    if a == [] {
      assert a + b == b;
    } else {
      assert (a + b)[0] == a[0] && (a + b)[1..] == a[1..] + b;
      NetAppend(a[1..], b);
    }
  }

  /** A delimiter where a key is expected is rejected, so height follows nesting. */
  lemma {:induction false} HeightIsNet(s: Stack, ts: seq<Token>)
    ensures Run(s, ts).Continue? ==> |Run(s, ts).stack| == |s| + Net(ts)
    decreases |ts|
  {
    if ts != [] && Step(s, ts[0]).Continue? {
      HeightIsNet(Step(s, ts[0]).stack, ts[1..]);
    }
  }

  /** As many opens as closes, and never more closes than opens on the way. */
  ghost predicate Balanced(ts: seq<Token>) {
    Net(ts) == 0 && forall k :: 0 <= k <= |ts| ==> Net(ts[..k]) >= 0
  }

  /** Balanced, and nested at least once at every inner point. */
  ghost predicate Enclosed(ts: seq<Token>) {
    Balanced(ts) && forall k :: 0 < k < |ts| ==> Net(ts[..k]) >= 1
  }

  lemma BalancedConcat(a: seq<Token>, b: seq<Token>)
    requires Balanced(a) && Balanced(b)
    ensures Balanced(a + b)
  {
    NetAppend(a, b);
    forall k | 0 <= k <= |a + b|
      ensures Net((a + b)[..k]) >= 0
    {
      if k <= |a| {
        assert (a + b)[..k] == a[..k];
      } else {
        assert (a + b)[..k] == a + b[..k - |a|];
        NetAppend(a, b[..k - |a|]);
      }
    }
  }

  lemma BracketsEnclose(open: Token, body: seq<Token>, close: Token)
    requires Net([open]) == 1 && Net([close]) == -1 && Balanced(body)
    ensures Enclosed([open] + body + [close])
  {
    var ts := [open] + body + [close];
    NetAppend([open] + body, [close]);
    NetAppend([open], body);
    forall k | 0 <= k <= |ts|
      ensures Net(ts[..k]) >= if 0 < k < |ts| then 1 else 0
    {
      if k == |ts| {
        assert ts[..k] == ts;
      } else if k > 0 {
        assert ts[..k] == [open] + body[..k - 1];
        NetAppend([open], body[..k - 1]);
      }
    }
  }

  lemma SingleTokenEnclosed(t: Token)
    requires t.String? || t.Scalar?
    ensures Enclosed([t])
  {
    forall k | 0 <= k <= |[t]|
      ensures Net([t][..k]) == 0
    {
      assert k == 1 ==> [t][..k] == [t];
    }
  }

  lemma {:induction false} ValueIsEnclosed(n: Node)
    ensures Enclosed(Tokens(n))
    decreases n, 1
  {
    match n {
      case Atom => SingleTokenEnclosed(Scalar);
      case Text(length) => SingleTokenEnclosed(String(length));
      case Array(items) =>
        ItemsAreBalanced(items);
        BracketsEnclose(OpenArray, AllTokens(items), CloseArray);
      case Object(members) =>
        MembersAreBalanced(members);
        BracketsEnclose(OpenObject, MemberTokens(members), CloseObject);
    }
  }

  lemma {:induction false} ItemsAreBalanced(ns: seq<Node>)
    ensures Balanced(AllTokens(ns))
    decreases ns, 0
  {
    if ns != [] {
      ValueIsEnclosed(ns[0]);
      ItemsAreBalanced(ns[1..]);
      BalancedConcat(Tokens(ns[0]), AllTokens(ns[1..]));
    }
  }

  lemma {:induction false} MembersAreBalanced(ms: seq<Member>)
    ensures Balanced(MemberTokens(ms))
    decreases ms, 0
  {
    if ms != [] {
      MemberIsBalanced(ms[0]);
      MembersAreBalanced(ms[1..]);
      BalancedConcat(OneMemberTokens(ms[0]), MemberTokens(ms[1..]));
    }
  }

  lemma {:induction false} MemberIsBalanced(m: Member)
    ensures Balanced(OneMemberTokens(m))
    decreases m, 0
  {
    SingleTokenEnclosed(String(m.key));
    ValueIsEnclosed(m.value);
    BalancedConcat([String(m.key)], Tokens(m.value));
  }

  /** A stream that stops inside a container is never accepted, whatever came
      before it: the machine ends with an open container or has rejected. */
  lemma UnterminatedRejected(values: seq<Node>, last: Node, k: nat)
    requires 0 < k < |Tokens(last)|
    ensures Run([], AllTokens(values) + Tokens(last)[..k]) != Continue([])
  {
    var ts := AllTokens(values) + Tokens(last)[..k];
    HeightIsNet([], ts);
    NetAppend(AllTokens(values), Tokens(last)[..k]);
    ItemsAreBalanced(values);
    ValueIsEnclosed(last);
  }

  // ----- The limits in numbers -----

  function Atoms(n: nat): (ns: seq<Node>)
    ensures |ns| == n && forall i :: 0 <= i < n ==> ns[i] == Atom
  {
    seq(n, _ => Atom)
  }

  function Pairs(n: nat, key: nat): (ms: seq<Member>)
    ensures |ms| == n && forall i :: 0 <= i < n ==> ms[i] == Member(key, Atom)
  {
    seq(n, _ => Member(key, Atom))
  }

  function Nested(d: nat): Node {
    if d == 0 then Atom else Array([Nested(d - 1)])
  }

  ghost predicate Accepted(n: Node) {
    Run([], Tokens(n)) == Continue([])
  }

  lemma AcceptedIff(n: Node)
    ensures Accepted(n) <==> Depth(n) <= MAX_DEPTH && SizesOK(n)
  {
    RunValue([], n);
    FitsIsDepthAndSizes(n, MAX_DEPTH);
  }

  lemma {:induction false} FlatDepth(ns: seq<Node>)
    requires forall i :: 0 <= i < |ns| ==> ns[i] == Atom
    ensures MaxDepth(ns) == 0
  {
    if ns != [] {
      FlatDepth(ns[1..]);
    }
  }

  lemma {:induction false} FlatMemberDepth(ms: seq<Member>)
    requires forall i :: 0 <= i < |ms| ==> ms[i].value == Atom
    ensures MaxMemberDepth(ms) == 0
  {
    if ms != [] {
      FlatMemberDepth(ms[1..]);
      assert Depth(ms[0].value) == 0;
      assert MemberDepth(ms[0]) == 0;
    }
  }

  lemma {:induction false} NestedDepth(d: nat)
    ensures Depth(Nested(d)) == d && SizesOK(Nested(d))
  {
    if d > 0 {
      NestedDepth(d - 1);
      var inner := [Nested(d - 1)];
      assert inner[1..] == [];
      assert MaxDepth(inner) == Max(Depth(inner[0]), MaxDepth(inner[1..]));
    }
  }

  /** An array of n scalars is accepted iff n is at most 1024. */
  lemma ArrayLimit(n: nat)
    ensures Accepted(Array(Atoms(n))) <==> n <= 1024
  {
    AcceptedIff(Array(Atoms(n)));
    FlatDepth(Atoms(n));
  }

  /** An object of n members is accepted iff n is at most 128 and, if there is one,
      the key is at most 16384 bytes long. */
  lemma ObjectLimit(n: nat, key: nat)
    ensures Accepted(Object(Pairs(n, key))) <==> n <= 128 && (n > 0 ==> key <= 16384)
  {
    var ms := Pairs(n, key);
    AcceptedIff(Object(ms));
    FlatMemberDepth(ms);
    if n > 0 {
      assert ms[0] in ms;
    }
  }

  /** A string is accepted iff it is at most 16384 bytes long. */
  lemma StringLimit(length: nat)
    ensures Accepted(Text(length)) <==> length <= 16384
  {
    AcceptedIff(Text(length));
  }

  /** Arrays nested d deep are accepted iff d is at most 16. */
  lemma NestingLimit(d: nat)
    ensures Accepted(Nested(d)) <==> d <= 16
  {
    AcceptedIff(Nested(d));
    NestedDepth(d);
  }
}
