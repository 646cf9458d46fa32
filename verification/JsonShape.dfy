/**
 The shape budget for parsed JSON: a recursive check with early exits that counts members as it
 goes, against a specification over the flat list of all nodes with their depths.
 */
module JsonShape {
  import opened Options

  const MAX_JSON_DEPTH := 32
  const MAX_JSON_MEMBERS := 100_000
  const MAX_JSON_STRING_BYTES := 65_536
  const MAX_INTEROPERABLE_INTEGER := 9_007_199_254_740_991

  /** A parsed value; `Unsupported` is anything the parser can produce that is none of the others. */
  datatype Value =
    | Null
    | Boolean(b: bool)
    | Integer(i: int)
    | Text(s: string)
    | List(items: seq<Value>)
    | Object(members: seq<Member>)
    | Unsupported

  datatype Member = Member(key: Value, item: Value)

  /** The length of a character in UTF-8. */
  function Utf8Width(c: char): nat {
    var n := c as int;
    if n < 0x80 then 1 else if n < 0x800 then 2 else if n < 0x1_0000 then 3 else 4
  }

  /** The bytes of a character in UTF-8: a lead byte with the high bits, then six bits to a byte. */
  ghost function Utf8(c: char): seq<int> {
    var n := c as int;
    if n / 0x80 == 0 then [n]
    else if n / 0x800 == 0 then [0xC0 + n / 0x40, 0x80 + n % 0x40]
    else if n / 0x1_0000 == 0 then [0xE0 + n / 0x1000, 0x80 + n / 0x40 % 0x40, 0x80 + n % 0x40]
    else [0xF0 + n / 0x4_0000, 0x80 + n / 0x1000 % 0x40, 0x80 + n / 0x40 % 0x40, 0x80 + n % 0x40]
  }

  /** How many bytes a lead byte announces; none for a continuation byte. */
  ghost function Announced(lead: int): nat {
    if lead < 0x80 then 1 else if lead < 0xC0 then 0 else if lead < 0xE0 then 2 else if lead < 0xF0 then 3 else 4
  }

  /** The number that the bytes of one character spell. */
  ghost function Spelled(bytes: seq<int>): int {
    match |bytes|
    case 1 => bytes[0]
    case 2 => (bytes[0] - 0xC0) * 0x40 + (bytes[1] - 0x80)
    case 3 => (bytes[0] - 0xE0) * 0x1000 + (bytes[1] - 0x80) * 0x40 + (bytes[2] - 0x80)
    case 4 => (bytes[0] - 0xF0) * 0x4_0000 + (bytes[1] - 0x80) * 0x1000 + (bytes[2] - 0x80) * 0x40 + (bytes[3] - 0x80)
    case _ => 0
  }

  /** The width is the number of bytes of the encoding, which its lead byte announces and which spells the character. */
  lemma WidthIsEncodedLength(c: char)
    ensures |Utf8(c)| == Utf8Width(c) == Announced(Utf8(c)[0]) && Spelled(Utf8(c)) == c as int
    ensures forall k | 0 <= k < |Utf8(c)| :: 0 <= Utf8(c)[k] < 0x100 && (k > 0 ==> 0x80 <= Utf8(c)[k] < 0xC0)
  {
    var n := c as int;
    assert n == n / 0x40 * 0x40 + n % 0x40;
    assert n / 0x40 == n / 0x1000 * 0x40 + n / 0x40 % 0x40;
    assert n / 0x1000 == n / 0x4_0000 * 0x40 + n / 0x1000 % 0x40;
  }

  ghost function Utf8Encode(s: string): seq<int> {
    if s == "" then [] else Utf8Encode(s[..|s| - 1]) + Utf8(s[|s| - 1])
  }

  lemma {:induction false} LengthIsEncodedLength(s: string)
    ensures Utf8Length(s) == |Utf8Encode(s)|
  {
    if s != "" {
      LengthIsEncodedLength(s[..|s| - 1]);
      WidthIsEncodedLength(s[|s| - 1]);
    }
  }

  function Utf8Length(s: string): nat {
    if s == "" then 0 else Utf8Length(s[..|s| - 1]) + Utf8Width(s[|s| - 1])
  }

  // ------------------------------------------------------------ the specification

  datatype Node = Node(depth: nat, value: Value)

  /** Every node of a value with its depth; keys are nodes too. */
  ghost function Nodes(v: Value, depth: nat): seq<Node>
    decreases v
  {
    [Node(depth, v)]
    + match v
      case List(items) => NodesOfItems(items, depth + 1)
      case Object(members) => NodesOfMembers(members, depth + 1)
      case _ => []
  }

  ghost function NodesOfItems(items: seq<Value>, depth: nat): seq<Node>
    decreases items
  {
    if items == [] then [] else NodesOfItems(items[..|items| - 1], depth) + Nodes(items[|items| - 1], depth)
  }

  ghost function NodesOfMembers(members: seq<Member>, depth: nat): seq<Node>
    decreases members
  {
    if members == [] then []
    else NodesOfMembers(members[..|members| - 1], depth) + NodesOfMember(members[|members| - 1], depth)
  }

  ghost function NodesOfMember(m: Member, depth: nat): seq<Node>
    decreases m
  {
    Nodes(m.key, depth) + Nodes(m.item, depth)
  }

  ghost predicate Bounded(v: Value) {
    match v
    case Integer(i) => -MAX_INTEROPERABLE_INTEGER <= i <= MAX_INTEROPERABLE_INTEGER
    case Text(s) => |Utf8Encode(s)| <= MAX_JSON_STRING_BYTES
    case Unsupported => false
    case _ => true
  }

  ghost predicate AllBounded(nodes: seq<Node>) {
    forall k | 0 <= k < |nodes| :: nodes[k].depth <= MAX_JSON_DEPTH && Bounded(nodes[k].value)
  }

  ghost predicate Fits(nodes: seq<Node>) {
    AllBounded(nodes) && |nodes| <= MAX_JSON_MEMBERS
  }

  lemma FitsParts(a: seq<Node>, b: seq<Node>)
    ensures AllBounded(a + b) <==> AllBounded(a) && AllBounded(b)
  {
    if AllBounded(a + b) {
      forall k | 0 <= k < |a| ensures a[k].depth <= MAX_JSON_DEPTH && Bounded(a[k].value) { assert a[k] == (a + b)[k]; }
      forall k | 0 <= k < |b|
        ensures b[k].depth <= MAX_JSON_DEPTH && Bounded(b[k].value) { assert b[k] == (a + b)[|a| + k]; }
    }
  }

  lemma {:induction false} ItemsPrefix(items: seq<Value>, i: nat, depth: nat)
    requires i <= |items|
    ensures NodesOfItems(items[..i], depth) <= NodesOfItems(items, depth) && |NodesOfItems(items, depth)| >= |items|
    decreases |items|
  {
    if items != [] {
      var front := items[..|items| - 1];
      if i < |items| {
        ItemsPrefix(front, i, depth);
        assert front[..i] == items[..i];
      } else {
        ItemsPrefix(front, 0, depth);
        assert items[..i] == items;
      }
    }
  }

  lemma {:induction false} MembersPrefix(members: seq<Member>, i: nat, depth: nat)
    requires i <= |members|
    ensures NodesOfMembers(members[..i], depth) <= NodesOfMembers(members, depth)
            && |NodesOfMembers(members, depth)| >= |members|
    decreases |members|
  {
    if members != [] {
      var front := members[..|members| - 1];
      assert |Nodes(members[|members| - 1].key, depth)| > 0;
      assert |NodesOfMember(members[|members| - 1], depth)| > 0;
      if i < |members| {
        MembersPrefix(front, i, depth);
        assert front[..i] == members[..i];
      } else {
        MembersPrefix(front, 0, depth);
        assert members[..i] == members;
      }
    }
  }

  /** What a container with these child nodes amounts to. */
  ghost predicate ChildrenFit(children: seq<Node>) {
    AllBounded(children) && |children| < MAX_JSON_MEMBERS
  }

  lemma ContainerFits(v: Value, depth: nat, children: seq<Node>)
    requires depth <= MAX_JSON_DEPTH && Bounded(v) && Nodes(v, depth) == [Node(depth, v)] + children
    ensures Fits(Nodes(v, depth)) <==> ChildrenFit(children)
  {
    hide Nodes;
    FitsParts([Node(depth, v)], children);
  }

  lemma ChildrenFitPrefix(a: seq<Node>, b: seq<Node>)
    requires a <= b && ChildrenFit(b)
    ensures ChildrenFit(a)
  {
    FitsParts(a, b[|a|..]);
    assert b == a + b[|a|..];
  }

  // ---------------------------------------------------------------- the check

  method ValidateJsonSequence(items: seq<Value>, depth: nat) returns (r: Checked<nat>)
    ensures r.Ok? <==> ChildrenFit(NodesOfItems(items, depth + 1))
    ensures r.Ok? ==> r.value == 1 + |NodesOfItems(items, depth + 1)|
    decreases items, 0
  {
    ItemsPrefix(items, 0, depth + 1);
    if |items| > MAX_JSON_MEMBERS { return Raised; }
    var members, i := 1, 0;
    assert items[..0] == [];
    while i < |items|
      invariant i <= |items| && members == 1 + |NodesOfItems(items[..i], depth + 1)|
      invariant ChildrenFit(NodesOfItems(items[..i], depth + 1))
    {
      var count := ValidateJsonShape(items[i], depth + 1);
      ItemStep(items, i, depth + 1);
      if count.Raised? { return Raised; }
      members := members + count.value;
      if members > MAX_JSON_MEMBERS { return Raised; }
      i := i + 1;
    }
    assert items[..i] == items;
    return Ok(members);
  }

  lemma ItemStep(items: seq<Value>, i: nat, depth: nat)
    requires i < |items| && ChildrenFit(NodesOfItems(items[..i], depth))
    ensures var before, one, after := NodesOfItems(items[..i], depth), Nodes(items[i], depth),
                                      NodesOfItems(items[..i + 1], depth);
            && |after| == |before| + |one|
            && (ChildrenFit(after) <==> Fits(one) && |before| + |one| < MAX_JSON_MEMBERS)
            && (ChildrenFit(NodesOfItems(items, depth)) ==> ChildrenFit(after))
  {
    assert items[..i + 1][..i] == items[..i];
    ItemsPrefix(items, i + 1, depth);
    FitsParts(NodesOfItems(items[..i], depth), Nodes(items[i], depth));
    if ChildrenFit(NodesOfItems(items, depth)) {
      ChildrenFitPrefix(NodesOfItems(items[..i + 1], depth), NodesOfItems(items, depth));
    }
  }

  /** A key and its item, one after the other. */
  method ValidateMember(m: Member, depth: nat) returns (r: Checked<nat>)
    ensures r.Ok? <==> Fits(Nodes(m.key, depth)) && Fits(Nodes(m.item, depth))
    ensures r.Ok? ==> r.value == |Nodes(m.key, depth)| + |Nodes(m.item, depth)|
    decreases m
  {
    var key := ValidateJsonShape(m.key, depth);
    if key.Raised? { return Raised; }
    var item := ValidateJsonShape(m.item, depth);
    if item.Raised? { return Raised; }
    return Ok(key.value + item.value);
  }

  method ValidateJsonMapping(members: seq<Member>, depth: nat) returns (r: Checked<nat>)
    ensures r.Ok? <==> ChildrenFit(NodesOfMembers(members, depth + 1))
    ensures r.Ok? ==> r.value == 1 + |NodesOfMembers(members, depth + 1)|
    decreases members, 0
  {
    MembersPrefix(members, 0, depth + 1);
    if |members| > MAX_JSON_MEMBERS { return Raised; }
    var total, i := 1, 0;
    assert members[..0] == [];
    while i < |members|
      invariant i <= |members| && total == 1 + |NodesOfMembers(members[..i], depth + 1)|
      invariant ChildrenFit(NodesOfMembers(members[..i], depth + 1))
    {
      MemberStep(members, i, depth + 1);
      var count := ValidateMember(members[i], depth + 1);
      if count.Raised? { return Raised; }
      total := total + count.value;
      if total > MAX_JSON_MEMBERS { return Raised; }
      i := i + 1;
    }
    assert members[..i] == members;
    return Ok(total);
  }

  lemma MemberStep(members: seq<Member>, i: nat, depth: nat)
    requires i < |members| && ChildrenFit(NodesOfMembers(members[..i], depth))
    ensures var before, after := NodesOfMembers(members[..i], depth), NodesOfMembers(members[..i + 1], depth);
            var key, item := Nodes(members[i].key, depth), Nodes(members[i].item, depth);
            && |after| == |before| + |key| + |item|
            && (ChildrenFit(after) <==> Fits(key) && Fits(item) && |before| + |key| + |item| < MAX_JSON_MEMBERS)
            && (ChildrenFit(NodesOfMembers(members, depth)) ==> ChildrenFit(after))
  {
    assert members[..i + 1][..i] == members[..i];
    MembersPrefix(members, i + 1, depth);
    var key, item := Nodes(members[i].key, depth), Nodes(members[i].item, depth);
    FitsParts(key, item);
    FitsParts(NodesOfMembers(members[..i], depth), key + item);
    if ChildrenFit(NodesOfMembers(members, depth)) {
      ChildrenFitPrefix(NodesOfMembers(members[..i + 1], depth), NodesOfMembers(members, depth));
    }
  }

  /**
   The check with its early exits accepts a value exactly when all its nodes fit the bounds, and
   returns the exact number of nodes.
   */
  method ValidateJsonShape(v: Value, depth: nat) returns (r: Checked<nat>)
    ensures r.Ok? <==> Fits(Nodes(v, depth))
    ensures r.Ok? ==> r.value == |Nodes(v, depth)|
    decreases v
  {
    if depth > MAX_JSON_DEPTH {
      assert Nodes(v, depth)[0] == Node(depth, v);
      return Raised;
    }
    match v {
      case Integer(i) =>
        assert Nodes(v, depth)[0] == Node(depth, v);
        if (if i < 0 then -i else i) > MAX_INTEROPERABLE_INTEGER { return Raised; }
        return Ok(1);
      case Text(s) =>
        assert Nodes(v, depth)[0] == Node(depth, v);
        LengthIsEncodedLength(s);
        if Utf8Length(s) > MAX_JSON_STRING_BYTES { return Raised; }
        return Ok(1);
      case List(items) =>
        ContainerFits(v, depth, NodesOfItems(items, depth + 1));
        r := ValidateJsonSequence(items, depth);
      case Object(members) =>
        ContainerFits(v, depth, NodesOfMembers(members, depth + 1));
        r := ValidateJsonMapping(members, depth);
      case Unsupported =>
        assert Nodes(v, depth)[0] == Node(depth, v);
        return Raised;
      case _ => return Ok(1);
    }
  }
}
