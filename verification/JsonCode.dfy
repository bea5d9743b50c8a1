/** The canonicalizer as it runs: a decoder object consumed token by token that
    fills objects and arrays, and a writer that appends to a buffer. Each is
    proved to compute the reader or the printer of module Json, whatever order
    the keys of an object are collected in. */
module JsonCode {
  import opened Basics
  import opened KeyOrder
  import opened JsonText
  import opened Json
  import JsonTheorems

  lemma {:induction false} SkipSpaceTwice(t: Text)
    ensures SkipSpace(SkipSpace(t)) == SkipSpace(t)
  {
    JsonTheorems.NoSpaceToSkip(SkipSpace(t));
  }

  class Decoder {
    var rest: Text

    constructor (raw: Text)
      ensures rest == raw
    {
      rest := raw;
    }

    /** Consume one value; None is a rejected text. */
    method ParseValue() returns (r: Option<Value>)
      modifies this
      ensures r == match ReadValue(old(rest)) case Good(v, _) => Some(v) case Bad => None
      ensures r.Some? ==> rest == ReadValue(old(rest)).rest
      decreases |rest|, 0
    {
      rest := SkipSpace(rest);
      if rest == [] {
        return None;
      }
      var c := rest[0];
      if c == LBRACE {
        rest := rest[1..];
        r := ParseObject();
      } else if c == LBRACKET {
        rest := rest[1..];
        r := ParseArray();
      } else if c == QUOTE {
        var s := ReadString(rest[1..]);
        if s.Bad? {
          return None;
        }
        rest := s.rest;
        return Some(Str(s.value));
      } else {
        var s := if IsNumberRune(c) then ReadNumber(rest) else ReadLiteral(rest);
        if s.Bad? {
          return None;
        }
        rest := s.rest;
        return Some(s.value);
      }
    }

    /** Consume the items of an array up to its closing bracket. */
    method ParseArray() returns (r: Option<Value>)
      modifies this
      ensures r == match ReadArray(old(rest), [], true) case Good(v, _) => Some(v) case Bad => None
      ensures r.Some? ==> rest == ReadArray(old(rest), [], true).rest
      decreases |rest|, 1
    {
      var items: seq<Value> := [];
      var first := true;
      while true
        invariant |rest| <= |old(rest)|
        invariant ReadArray(rest, items, first) == ReadArray(old(rest), [], true)
        decreases |rest|
      {
        SkipSpaceTwice(rest);
        rest := SkipSpace(rest);
        if rest == [] {
          return None;
        }
        if rest[0] == RBRACKET {
          rest := rest[1..];
          return Some(Arr(items));
        }
        if !first {
          if rest[0] != COMMA {
            return None;
          }
          rest := rest[1..];
        }
        var v := ParseValue();
        if v.None? {
          return None;
        }
        items, first := items + [v.value], false;
      }
    }

    /** Consume the members of an object up to its closing brace, rejecting a key
        seen before. */
    method ParseObject() returns (r: Option<Value>)
      modifies this
      ensures r == match ReadObject(old(rest), map[], true) case Good(v, _) => Some(v) case Bad => None
      ensures r.Some? ==> rest == ReadObject(old(rest), map[], true).rest
      decreases |rest|, 1
    {
      var members: map<Text, Value> := map[];
      var seen: set<Text> := {};
      var first := true;
      while true
        invariant |rest| <= |old(rest)| && seen == members.Keys
        invariant ReadObject(rest, members, first) == ReadObject(old(rest), map[], true)
        decreases |rest|
      {
        SkipSpaceTwice(rest);
        rest := SkipSpace(rest);
        if rest == [] {
          return None;
        }
        if rest[0] == RBRACE {
          rest := rest[1..];
          return Some(Obj(members));
        }
        if !first {
          if rest[0] != COMMA {
            return None;
          }
          rest := rest[1..];
        }
        var key := ReadKey(rest);
        if key.Bad? || key.value in seen {
          return None;
        }
        seen := seen + {key.value};
        rest := key.rest;
        var v := ParseValue();
        if v.None? {
          return None;
        }
        members, first := members[key.value := v.value], false;
      }
    }
  }

  /** Append the canonical form; `ok` is false exactly for an unsafe number. */
  method WriteCanonical(out: Text, v: Value) returns (r: Text, ok: bool)
    ensures ok <==> InRange(v)
    ensures ok ==> r == out + Print(v)
    decreases v, 3
  {
    ok := true;
    match v {
      case Null => r := out + NULL_TEXT;
      case Bool(b) => r := out + if b then TRUE_TEXT else FALSE_TEXT;
      case Str(s) => r := WriteText(out, s);
      case Int(n) =>
        if n < -MAX_SAFE_INTEGER || n > MAX_SAFE_INTEGER {
          return out, false;
        }
        r := out + PrintInt(n);
      case Arr(_) => r, ok := WriteArray(out, v);
      case Obj(_) => r, ok := WriteObject(out, v);
    }
  }

  lemma Bracketed(out: Text, open: Rune, body: Text, close: Rune)
    ensures out + [open] + body + [close] == out + ([open] + body + [close])
  {
  }

  /** `r` then a separator and one item, with `more` to come. */
  lemma Appended(r: Text, separator: Text, item: Text, more: Text)
    ensures r + (separator + item + more) == r + separator + item + more
  {
  }

  /** What is still to be written of an array after `i` items. */
  ghost function ItemsFrom(items: seq<Value>, i: nat): Text
    requires i <= |items|
  {
    if i == 0 then PrintItems(items) else PrintMoreItems(items[i..])
  }

  lemma ItemsFromStep(items: seq<Value>, i: nat)
    requires i < |items|
    ensures ItemsFrom(items, i) == Separator(i) + Print(items[i]) + ItemsFrom(items, i + 1)
  {
    assert items[i..][1..] == items[i + 1..];
    assert [] + Print(items[i]) == Print(items[i]);
  }

  function Separator(i: nat): Text {
    if i > 0 then [COMMA] else []
  }

  method WriteArray(out: Text, v: Value) returns (r: Text, ok: bool)
    requires v.Arr?
    ensures ok <==> InRange(v)
    ensures ok ==> r == out + Print(v)
    decreases v, 0
  {
    r := out + [LBRACKET];
    for i := 0 to |v.items|
      invariant forall k :: 0 <= k < i ==> InRange(v.items[k])
      invariant r + ItemsFrom(v.items, i) == out + [LBRACKET] + PrintItems(v.items)
    {
      ItemsFromStep(v.items, i);
      Appended(r, Separator(i), Print(v.items[i]), ItemsFrom(v.items, i + 1));
      if i > 0 {
        r := r + [COMMA];
      }
      r, ok := WriteCanonical(r, v.items[i]);
      if !ok {
        return r, false;
      }
    }
    assert ItemsFrom(v.items, |v.items|) == [];
    assert r == out + [LBRACKET] + PrintItems(v.items);
    Bracketed(out, LBRACKET, PrintItems(v.items), RBRACKET);
    return r + [RBRACKET], true;
  }

  /** What is still to be written of an object after `i` of its sorted keys. */
  ghost function MembersFrom(v: Value, ks: seq<Text>, i: nat): Text
    requires v.Obj? && Keys(ks) <= v.members.Keys && i <= |ks|
  {
    if i == 0 then PrintMembers(v, ks)
    else
      assert Keys(ks[i..]) <= Keys(ks);
      PrintMoreMembers(v, ks[i..])
  }

  lemma MembersFromStep(v: Value, ks: seq<Text>, i: nat)
    requires v.Obj? && Keys(ks) <= v.members.Keys && i < |ks|
    ensures ks[i] in v.members
    ensures MembersFrom(v, ks, i) == Separator(i) + PrintMember(v, ks[i]) + MembersFrom(v, ks, i + 1)
  {
    assert ks[i] in Keys(ks);
    assert Keys(ks[i..]) <= Keys(ks) && Keys(ks[i + 1..]) <= Keys(ks);
    assert ks[i..][0] == ks[i] && ks[i..][1..] == ks[i + 1..];
    assert [] + PrintMember(v, ks[i]) == PrintMember(v, ks[i]);
  }

  method WriteMember(out: Text, v: Value, k: Text) returns (r: Text, ok: bool)
    requires v.Obj? && k in v.members
    ensures ok <==> InRange(v.members[k])
    ensures ok ==> r == out + PrintMember(v, k)
    decreases v, 0
  {
    r := WriteText(out, k);
    r := r + [COLON];
    Appended(out, PrintString(k), [COLON], Print(v.members[k]));
    r, ok := WriteCanonical(r, v.members[k]);
  }

  method WriteMembers(out: Text, v: Value, ks: seq<Text>) returns (r: Text, ok: bool)
    requires v.Obj? && Keys(ks) <= v.members.Keys
    ensures ok <==> forall k :: k in Keys(ks) ==> InRange(v.members[k])
    ensures ok ==> r == out + PrintMembers(v, ks)
    decreases v, 1
  {
    r := out;
    for i := 0 to |ks|
      invariant forall k :: 0 <= k < i ==> ks[k] in Keys(ks) && InRange(v.members[ks[k]])
      invariant r + MembersFrom(v, ks, i) == out + PrintMembers(v, ks)
    {
      assert ks[i] in Keys(ks);
      MembersFromStep(v, ks, i);
      Appended(r, Separator(i), PrintMember(v, ks[i]), MembersFrom(v, ks, i + 1));
      if i > 0 {
        r := r + [COMMA];
      }
      r, ok := WriteMember(r, v, ks[i]);
      if !ok {
        return r, false;
      }
    }
    assert MembersFrom(v, ks, |ks|) == [];
    return r, true;
  }

  /** The keys are collected in an arbitrary order and sorted before writing, so
      the text does not depend on that order. */
  method WriteObject(out: Text, v: Value) returns (r: Text, ok: bool)
    requires v.Obj?
    ensures ok <==> InRange(v)
    ensures ok ==> r == out + Print(v)
    decreases v, 2
  {
    var ks := SortKeys(v.members.Keys);
    r, ok := WriteMembers(out + [LBRACE], v, ks);
    Bracketed(out, LBRACE, PrintMembers(v, ks), RBRACE);
    r := r + [RBRACE];
  }

  method CanonicalizeText(raw: Text) returns (r: Option<Text>)
    ensures r == Canonicalize(raw)
  {
    var dec := new Decoder(raw);
    var v := dec.ParseValue();
    if v.None? || SkipSpace(dec.rest) != [] {
      return None;
    }
    JsonTheorems.ReadInRange(raw);
    var out, ok := WriteCanonical([], v.value);
    assert out == Print(v.value);
    return Some(out);
  }
}
