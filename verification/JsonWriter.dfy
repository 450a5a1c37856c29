/** The C++ serializer, which appends to a string, and value comparison. */
module JsonWriter {
  import opened Bytes
  import opened Json
  import opened JsonText

  class Writer {
    var out: Bytes

    constructor ()
      ensures out == []
    {
      out := [];
    }

    method Append(s: Bytes)
      modifies this
      ensures out == old(out) + s
    {
      out := out + s;
    }

    method SerializeString(s: Bytes)
      modifies this
      ensures out == old(out) + StringText(s)
    {
      hide EscapeText;
      out := out + [QUOTE];
      ghost var start := out;
      for i := 0 to |s|
        invariant start + EscapedText(s) == out + EscapedText(s[i..])
      {
        assert s[i..][1..] == s[i + 1..];
        assert out + (EscapeText(s[i]) + EscapedText(s[i + 1..])) == out + EscapeText(s[i]) + EscapedText(s[i + 1..]);
        out := out + EscapeText(s[i]);
      }
      assert s[|s|..] == [];
      assert out + EscapedText([]) == out;
      out := out + [QUOTE];
      assert old(out) + [QUOTE] + EscapedText(s) + [QUOTE] == old(out) + ([QUOTE] + EscapedText(s) + [QUOTE]);
    }

    method Serialize(v: Value)
      requires Plain(v)
      modifies this
      ensures out == old(out) + Text(v)
      decreases v, 1
    {
      hide StringText, IntText;
      match v {
        case Null => Append(NULL_TEXT);
        case Bool(b) => Append(if b then TRUE_TEXT else FALSE_TEXT);
        case Int(n) => Append(IntText(n));
        case String(s) => SerializeString(s);
        case Array(items) =>
          Append([OPEN_BRACKET]);
          SerializeItems(items);
          Append([CLOSE_BRACKET]);
          Bracketed(old(out), OPEN_BRACKET, ItemsText(items, false), CLOSE_BRACKET);
        case Object(members) =>
          Append([OPEN_BRACE]);
          SerializeMembers(members);
          Append([CLOSE_BRACE]);
          Bracketed(old(out), OPEN_BRACE, MembersText(members, false), CLOSE_BRACE);
      }
    }

    method SerializeItems(items: seq<Value>)
      requires PlainItems(items)
      modifies this
      ensures out == old(out) + ItemsText(items, false)
      decreases items, 0
    {
      hide Text, Plain;
      assert items[0..] == items;
      for i := 0 to |items|
        invariant PlainItems(items[i..])
        invariant old(out) + ItemsText(items, false) == out + ItemsText(items[i..], i > 0)
      {
        ghost var before, tail := out, ItemsText(items[i + 1..], true);
        assert items[i..][1..] == items[i + 1..];
        assert items[i] in items;
        if i > 0 {
          Append([COMMA]);
        }
        Serialize(items[i]);
        NextPart(before, Comma(i > 0), Text(items[i]), tail);
        assert before + [] == before;
      }
      assert items[|items|..] == [];
      assert out + [] == out;
    }

    method SerializeMembers(members: seq<Member>)
      requires PlainMembers(members)
      modifies this
      ensures out == old(out) + MembersText(members, false)
      decreases members, 0
    {
      hide Text, Plain, StringText;
      assert members[0..] == members;
      for i := 0 to |members|
        invariant PlainMembers(members[i..])
        invariant old(out) + MembersText(members, false) == out + MembersText(members[i..], i > 0)
      {
        ghost var before, tail := out, MembersText(members[i + 1..], true);
        assert members[i..][1..] == members[i + 1..];
        assert members[i] in members;
        if i > 0 {
          Append([COMMA]);
        }
        SerializeString(members[i].key);
        Append([COLON]);
        Serialize(members[i].value);
        NextMember(before, i > 0, members[i], out);
        NextPart(before, Comma(i > 0), MemberText(members[i]), tail);
      }
      assert members[|members|..] == [];
      assert out + [] == out;
    }
  }

  lemma Bracketed(start: Bytes, open: Byte, inside: Bytes, close: Byte)
    ensures start + [open] + inside + [close] == start + ([open] + (inside + [close]))
  {
  }

  lemma NextPart(before: Bytes, comma: Bytes, part: Bytes, tail: Bytes)
    ensures before + (comma + (part + tail)) == before + comma + part + tail
  {
  }

  lemma NextMember(before: Bytes, later: bool, m: Member, after: Bytes)
    requires Plain(m.value)
    requires after == (if later then before + [COMMA] else before) + StringText(m.key) + [COLON] + Text(m.value)
    ensures after == before + Comma(later) + MemberText(m)
  {
    hide StringText, Text, Plain;
    assert before + [] == before;
  }

  lemma {:induction false} PlainItemAt(items: seq<Value>, i: nat)
    requires PlainItems(items) && i < |items|
    ensures Plain(items[i])
  {
    if i > 0 {
      PlainItemAt(items[1..], i - 1);
    }
  }

  lemma {:induction false} PlainMemberAt(members: seq<Member>, i: nat)
    requires PlainMembers(members) && i < |members|
    ensures Plain(members[i].value)
  {
    if i > 0 {
      PlainMemberAt(members[1..], i - 1);
    }
  }

  /** Comparison: same kind and same content, objects member by member in key order. */
  method Equal(a: Value, b: Value) returns (same: bool)
    requires Plain(a) && Plain(b)
    ensures same <==> a == b
    decreases a
  {
    match (a, b) {
      case (Null, Null) => same := true;
      case (Bool(x), Bool(y)) => same := x == y;
      case (Int(m), Int(n)) => same := m == n;
      case (String(s), String(t)) => same := s == t;
      case (Array(xs), Array(ys)) =>
        if |xs| != |ys| {
          return false;
        }
        for i := 0 to |xs|
          invariant xs[..i] == ys[..i]
        {
          PlainItemAt(xs, i);
          PlainItemAt(ys, i);
          var sameItem := Equal(xs[i], ys[i]);
          if !sameItem {
            return false;
          }
          assert xs[..i + 1] == xs[..i] + [xs[i]] && ys[..i + 1] == ys[..i] + [ys[i]];
        }
        assert xs[..|xs|] == xs && ys[..|ys|] == ys;
        same := true;
      case (Object(xs), Object(ys)) =>
        if |xs| != |ys| {
          return false;
        }
        for i := 0 to |xs|
          invariant xs[..i] == ys[..i]
        {
          PlainMemberAt(xs, i);
          PlainMemberAt(ys, i);
          if xs[i].key != ys[i].key {
            return false;
          }
          var sameValue := Equal(xs[i].value, ys[i].value);
          if !sameValue {
            return false;
          }
          assert xs[..i + 1] == xs[..i] + [xs[i]] && ys[..i + 1] == ys[..i] + [ys[i]];
        }
        assert xs[..|xs|] == xs && ys[..|ys|] == ys;
        same := true;
      case _ => same := false;
    }
  }
}
