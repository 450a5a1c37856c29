/** JSON values, the ordered member table behind an object, and compact text. */
module Json {
  import opened Bytes

  /** An integer is an int64 in C++ and unbounded in Python. A double is kept as the
      literal it was read from. An object lists its members: in key order without
      repetition in C++ (`Sorted`), in insertion order in Python. */
  datatype Value =
    | Null
    | Bool(b: bool)
    | Int(n: int)
    | Double(literal: Bytes)
    | String(s: Bytes)
    | Array(items: seq<Value>)
    | Object(members: seq<Member>)

  datatype Member = Member(key: Bytes, value: Value)

  const QUOTE: Byte := 34
  const COMMA: Byte := 44
  const MINUS: Byte := 45
  const ZERO: Byte := 48
  const COLON: Byte := 58
  const OPEN_BRACKET: Byte := 91
  const BACKSLASH: Byte := 92
  const CLOSE_BRACKET: Byte := 93
  const LETTER_U: Byte := 117
  const OPEN_BRACE: Byte := 123
  const CLOSE_BRACE: Byte := 125

  const NULL_TEXT: Bytes := [110, 117, 108, 108]
  const TRUE_TEXT: Bytes := [116, 114, 117, 101]
  const FALSE_TEXT: Bytes := [102, 97, 108, 115, 101]

  predicate InInt64(n: int)
  {
    -0x8000_0000_0000_0000 <= n < 0x8000_0000_0000_0000
  }

  /** No double anywhere, and every integer fits. */
  predicate Plain(v: Value)
  {
    match v
    case Double(_) => false
    case Int(n) => InInt64(n)
    case Array(items) => PlainItems(items)
    case Object(members) => PlainMembers(members)
    case _ => true
  }

  predicate PlainItems(items: seq<Value>)
  {
    items == [] || (Plain(items[0]) && PlainItems(items[1..]))
  }

  predicate PlainMembers(members: seq<Member>)
  {
    members == [] || (Plain(members[0].value) && PlainMembers(members[1..]))
  }

  function Max(a: nat, b: nat): nat
  {
    if a < b then b else a
  }

  /** Nesting depth: a scalar has depth 1. */
  function Depth(v: Value): (d: nat)
    ensures d >= 1
  {
    match v
    case Array(items) => 1 + ItemsDepth(items)
    case Object(members) => 1 + MembersDepth(members)
    case _ => 1
  }

  function ItemsDepth(items: seq<Value>): nat
  {
    if items == [] then 0 else Max(Depth(items[0]), ItemsDepth(items[1..]))
  }

  function MembersDepth(members: seq<Member>): nat
  {
    if members == [] then 0 else Max(Depth(members[0].value), MembersDepth(members[1..]))
  }

  /** Byte-wise lexicographic order, the order of the member table. */
  predicate Less(a: Bytes, b: Bytes)
  {
    b != [] && (a == [] || a[0] < b[0] || (a[0] == b[0] && Less(a[1..], b[1..])))
  }

  /** The strings agree up to some place; there the first one ends, or has the smaller
      byte. */
  ghost predicate FirstDifference(a: Bytes, b: Bytes, i: nat)
  {
    && i <= |a| && i < |b| && a[..i] == b[..i]
    && (i < |a| ==> a[i] < b[i])
  }

  lemma FirstIsSame(a: Bytes, b: Bytes, i: nat)
    requires FirstDifference(a, b, i)
    ensures i > 0 ==> a != [] && a[0] == b[0]
  {
    assert i > 0 ==> a[..i][0] == b[..i][0];
  }

  /** The order is that of the first difference. */
  lemma {:induction false} LessIs(a: Bytes, b: Bytes)
    ensures Less(a, b) <==> exists i :: FirstDifference(a, b, i)
  {
    if a == [] || b == [] || a[0] != b[0] {
      assert Less(a, b) ==> FirstDifference(a, b, 0);
      forall i: nat | FirstDifference(a, b, i)
        ensures Less(a, b)
      {
        FirstIsSame(a, b, i);
      }
    } else {
      LessIs(a[1..], b[1..]);
      forall i: nat | FirstDifference(a, b, i)
        ensures FirstDifference(a[1..], b[1..], i - 1)
      {
        assert i > 0;
        assert a[1..][..i - 1] == a[..i][1..] && b[1..][..i - 1] == b[..i][1..];
      }
      forall i: nat | FirstDifference(a[1..], b[1..], i)
        ensures FirstDifference(a, b, i + 1)
      {
        assert a[..i + 1] == [a[0]] + a[1..][..i] && b[..i + 1] == [b[0]] + b[1..][..i];
      }
    }
  }

  lemma {:induction false} LessTransitive(a: Bytes, b: Bytes, c: Bytes)
    requires Less(a, b) && Less(b, c)
    ensures Less(a, c)
  {
    if a != [] && a[0] == b[0] == c[0] {
      LessTransitive(a[1..], b[1..], c[1..]);
    }
  }

  lemma {:induction false} LessTotal(a: Bytes, b: Bytes)
    ensures Less(a, b) || a == b || Less(b, a)
    ensures !(Less(a, b) && Less(b, a))
    ensures !Less(a, a)
  {
    if a != [] {
      LessTotal(a[1..], a[1..]);
      if b != [] {
        LessTotal(a[1..], b[1..]);
        assert a[1..] == b[1..] && a[0] == b[0] ==> a == [b[0]] + b[1..] == b;
      }
    }
  }

  /** The member table after `table[key] = value`. */
  function Put(table: seq<Member>, key: Bytes, value: Value): seq<Member>
  {
    if table == [] then [Member(key, value)]
    else if table[0].key == key then [Member(key, value)] + table[1..]
    else if Less(key, table[0].key) then [Member(key, value)] + table
    else [table[0]] + Put(table[1..], key, value)
  }

  /** The keys strictly increase. */
  predicate SortedKeys(table: seq<Member>)
  {
    |table| <= 1 || (Less(table[0].key, table[1].key) && SortedKeys(table[1..]))
  }

  /** Every object inside keeps its members as the C++ member table does. */
  predicate Sorted(v: Value)
  {
    match v
    case Array(items) => SortedItems(items)
    case Object(members) => SortedKeys(members) && SortedMembers(members)
    case _ => true
  }

  predicate SortedItems(items: seq<Value>)
  {
    items == [] || (Sorted(items[0]) && SortedItems(items[1..]))
  }

  predicate SortedMembers(members: seq<Member>)
  {
    members == [] || (Sorted(members[0].value) && SortedMembers(members[1..]))
  }

  /** The value C++ holds after storing the members of every object left to right. */
  function Norm(v: Value): Value
  {
    match v
    case Array(items) => Array(NormItems(items))
    case Object(members) => Object(NormMembers([], members))
    case _ => v
  }

  function NormItems(items: seq<Value>): seq<Value>
  {
    if items == [] then [] else [Norm(items[0])] + NormItems(items[1..])
  }

  function NormMembers(table: seq<Member>, members: seq<Member>): seq<Member>
    decreases members
  {
    if members == [] then table
    else NormMembers(Put(table, members[0].key, Norm(members[0].value)), members[1..])
  }

  /** What a member list means: for every key the value stored last. */
  function AsMap(members: seq<Member>): map<Bytes, Value>
  {
    if members == [] then map[]
    else
      var n := |members| - 1;
      AsMap(members[..n])[members[n].key := members[n].value]
  }

  lemma {:induction false} AsMapAppend(xs: seq<Member>, ys: seq<Member>)
    ensures AsMap(xs + ys) == AsMap(xs) + AsMap(ys)
  {
    if ys == [] {
      assert xs + ys == xs;
    } else {
      var n := |ys| - 1;
      assert (xs + ys)[..|xs + ys| - 1] == xs + ys[..n];
      AsMapAppend(xs, ys[..n]);
    }
  }

  lemma AsMapSnoc(xs: seq<Member>, y: Member)
    ensures AsMap(xs + [y]) == AsMap(xs)[y.key := y.value]
  {
    assert (xs + [y])[..|xs + [y]| - 1] == xs;
  }

  lemma AsMapCons(x: Member, ys: seq<Member>)
    ensures AsMap([x] + ys) == map[x.key := x.value] + AsMap(ys)
  {
    AsMapAppend([x], ys);
    assert [x][..0] == [];
    assert AsMap([x]) == map[x.key := x.value];
  }

  /** A key below the first key of a sorted table is not in the table. */
  lemma {:induction false} BelowAll(table: seq<Member>, key: Bytes)
    requires SortedKeys(table)
    requires table != [] ==> Less(key, table[0].key)
    ensures key !in AsMap(table)
  {
    if table != [] {
      if |table| > 1 {
        LessTransitive(key, table[0].key, table[1].key);
      }
      BelowAll(table[1..], key);
      AsMapCons(table[0], table[1..]);
      assert table == [table[0]] + table[1..];
      LessTotal(key, key);
    }
  }

  /** The first member of a sorted table is the only one with its key. */
  lemma FirstMember(table: seq<Member>)
    requires table != [] && SortedKeys(table)
    ensures SortedKeys(table[1..])
    ensures table[0].key !in AsMap(table[1..])
    ensures AsMap(table) == AsMap(table[1..])[table[0].key := table[0].value]
    ensures AsMap(table[1..]) == AsMap(table) - {table[0].key}
  {
    hide AsMap, Less;
    BelowAll(table[1..], table[0].key);
    AsMapCons(table[0], table[1..]);
    assert table == [table[0]] + table[1..];
  }

  lemma PutCases(table: seq<Member>, key: Bytes, value: Value)
    ensures var r := Put(table, key, value);
            && r != []
            && (table == [] ==> r == [Member(key, value)] && r[1..] == [])
            && (table != [] && table[0].key == key ==> r[0] == Member(key, value) && r[1..] == table[1..])
            && (table != [] && table[0].key != key && Less(key, table[0].key) ==>
                  r[0] == Member(key, value) && r[1..] == table)
            && (table != [] && table[0].key != key && !Less(key, table[0].key) ==>
                  r[0] == table[0] && r[1..] == Put(table[1..], key, value))
  {
  }

  lemma {:induction false} PutKeepsOrder(table: seq<Member>, key: Bytes, value: Value)
    requires SortedKeys(table)
    ensures var r := Put(table, key, value);
            && SortedKeys(r) && r != []
            && r[0].key == (if table == [] || Less(key, table[0].key) then key else table[0].key)
  {
    PutCases(table, key, value);
    if table != [] {
      LessTotal(key, table[0].key);
      hide Put, Less;
      PutKeepsOrder(table[1..], key, value);
    }
  }

  /** `Put` is assignment in a map: it keeps the table sorted and changes one key. */
  lemma {:induction false} PutIsAssignment(table: seq<Member>, key: Bytes, value: Value)
    requires SortedKeys(table)
    ensures SortedKeys(Put(table, key, value))
    ensures AsMap(Put(table, key, value)) == AsMap(table)[key := value]
  {
    PutKeepsOrder(table, key, value);
    PutCases(table, key, value);
    var r := Put(table, key, value);
    AsMapEmpty();
    hide Put, Less, SortedKeys, AsMap;
    FirstMember(r);
    if table != [] {
      FirstMember(table);
      LessTotal(key, table[0].key);
      var tail, first := AsMap(table[1..]), table[0];
      if first.key == key {
        assert tail[first.key := first.value][key := value] == tail[key := value];
      } else if !Less(key, first.key) {
        PutIsAssignment(table[1..], key, value);
        UpdatesCommute(tail, first.key, first.value, key, value);
      }
    }
  }

  lemma AsMapEmpty()
    ensures AsMap([]) == map[]
  {
  }

  lemma UpdatesCommute(m: map<Bytes, Value>, j: Bytes, v: Value, k: Bytes, w: Value)
    requires j != k
    ensures m[j := v][k := w] == m[k := w][j := v]
  {
  }

  /** Two sorted tables with the same meaning are the same table. */
  lemma {:induction false} SortedTableUnique(a: seq<Member>, b: seq<Member>)
    requires SortedKeys(a) && SortedKeys(b) && AsMap(a) == AsMap(b)
    ensures a == b
  {
    if a != [] {
      FirstMember(a);
    }
    if b != [] {
      FirstMember(b);
    }
    if a != [] && b != [] {
      LessTotal(a[0].key, b[0].key);
      if Less(a[0].key, b[0].key) {
        BelowAll(b, a[0].key);
      } else if Less(b[0].key, a[0].key) {
        BelowAll(a, b[0].key);
      }
      assert AsMap(a)[a[0].key] == a[0].value && AsMap(b)[b[0].key] == b[0].value;
      SortedTableUnique(a[1..], b[1..]);
      assert a[0] == b[0];
      assert a == [a[0]] + a[1..] && b == [b[0]] + b[1..];
    }
  }

  /** Putting a larger key than any present appends it. */
  lemma {:induction false} PutLast(table: seq<Member>, key: Bytes, value: Value)
    requires SortedKeys(table + [Member(key, value)])
    ensures Put(table, key, value) == table + [Member(key, value)]
  {
    var all := table + [Member(key, value)];
    if table != [] {
      assert all[1..] == table[1..] + [Member(key, value)];
      PutLast(table[1..], key, value);
      FirstIsLeast(all, |table|);
      LessTotal(table[0].key, key);
      assert table == [table[0]] + table[1..];
    }
  }

  lemma {:induction false} FirstIsLeast(table: seq<Member>, i: nat)
    requires SortedKeys(table) && 0 < i < |table|
    ensures Less(table[0].key, table[i].key)
  {
    if i > 1 {
      FirstIsLeast(table[1..], i - 1);
      LessTransitive(table[0].key, table[1].key, table[i].key);
    }
  }

  lemma {:induction false} SortedPrefix(table: seq<Member>, tail: seq<Member>)
    requires SortedKeys(table + tail)
    ensures SortedKeys(table)
  {
    if |table| > 1 {
      assert (table + tail)[1..] == table[1..] + tail;
      SortedPrefix(table[1..], tail);
    }
  }

  /** A value that is already in C++ form is left alone. */
  lemma {:induction false} NormOfSorted(v: Value)
    requires Sorted(v)
    ensures Norm(v) == v
    decreases v, 1
  {
    match v
    case Array(items) => NormItemsOfSorted(items);
    case Object(members) =>
      assert [] + members == members;
      NormMembersOfSorted([], members);
    case _ =>
  }

  lemma {:induction false} NormItemsOfSorted(items: seq<Value>)
    requires SortedItems(items)
    ensures NormItems(items) == items
    decreases items, 0
  {
    if items != [] {
      NormOfSorted(items[0]);
      NormItemsOfSorted(items[1..]);
    }
  }

  lemma {:induction false} NormMembersOfSorted(table: seq<Member>, members: seq<Member>)
    requires SortedKeys(table + members) && SortedMembers(members)
    ensures NormMembers(table, members) == table + members
    decreases members, 0
  {
    if members == [] {
      assert table + members == table;
    } else {
      NormOfSorted(members[0].value);
      assert table + members == (table + [members[0]]) + members[1..];
      SortedPrefix(table + [members[0]], members[1..]);
      PutLast(table, members[0].key, members[0].value);
      NormMembersOfSorted(table + [members[0]], members[1..]);
    }
  }

  /** `Norm` produces C++ form and keeps the depth within bounds. */
  lemma {:induction false} NormIsSorted(v: Value)
    ensures Sorted(Norm(v))
    ensures Depth(Norm(v)) <= Depth(v)
    ensures Plain(v) ==> Plain(Norm(v))
    decreases v, 1
  {
    match v
    case Array(items) => NormItemsSorted(items);
    case Object(members) => NormMembersSorted([], members);
    case _ =>
  }

  lemma {:induction false} NormItemsSorted(items: seq<Value>)
    ensures SortedItems(NormItems(items))
    ensures ItemsDepth(NormItems(items)) <= ItemsDepth(items)
    ensures PlainItems(items) ==> PlainItems(NormItems(items))
    decreases items, 0
  {
    if items != [] {
      NormIsSorted(items[0]);
      NormItemsSorted(items[1..]);
      assert NormItems(items)[1..] == NormItems(items[1..]);
    }
  }

  lemma {:induction false} NormMembersSorted(table: seq<Member>, members: seq<Member>)
    requires SortedKeys(table) && SortedMembers(table)
    ensures var r := NormMembers(table, members);
            && SortedKeys(r) && SortedMembers(r)
            && MembersDepth(r) <= Max(MembersDepth(table), MembersDepth(members))
            && (PlainMembers(table) && PlainMembers(members) ==> PlainMembers(r))
    decreases members, 0
  {
    if members != [] {
      hide Put, SortedKeys, Sorted, Norm;
      var key, value := members[0].key, Norm(members[0].value);
      NormIsSorted(members[0].value);
      PutKeepsOrder(table, key, value);
      PutKeeps(table, key, value);
      NormMembersSorted(Put(table, key, value), members[1..]);
    }
  }

  lemma {:induction false} PutKeeps(table: seq<Member>, key: Bytes, value: Value)
    requires SortedMembers(table) && Sorted(value)
    ensures SortedMembers(Put(table, key, value))
    ensures MembersDepth(Put(table, key, value)) <= Max(MembersDepth(table), Depth(value))
    ensures PlainMembers(table) && Plain(value) ==> PlainMembers(Put(table, key, value))
  {
    PutCases(table, key, value);
    hide Put, Less, Sorted, Plain, Depth;
    if table != [] {
      PutKeeps(table[1..], key, value);
    }
  }

  function NormValues(m: map<Bytes, Value>): map<Bytes, Value>
  {
    map k | k in m :: Norm(m[k])
  }

  lemma OneMoreKey(m: map<Bytes, Value>, key: Bytes, v: Value, later: map<Bytes, Value>)
    ensures m[key := Norm(v)] + NormValues(later) == m + NormValues(map[key := v] + later)
  {
  }

  /** Storing members left to right leaves, under every key, the value stored last. */
  lemma {:induction false} LastWins(table: seq<Member>, members: seq<Member>)
    requires SortedKeys(table)
    ensures AsMap(NormMembers(table, members)) == AsMap(table) + NormValues(AsMap(members))
    decreases members
  {
    if members == [] {
      assert AsMap(table) + map[] == AsMap(table);
    } else {
      var key, value := members[0].key, members[0].value;
      PutIsAssignment(table, key, Norm(value));
      LastWins(Put(table, key, Norm(value)), members[1..]);
      assert members == [members[0]] + members[1..];
      AsMapCons(members[0], members[1..]);
      hide Put, SortedKeys, Norm, AsMap, NormValues;
      OneMoreKey(AsMap(table), key, value, AsMap(members[1..]));
    }
  }
}
