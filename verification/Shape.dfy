/** The bounded shape check that threads one counter through a recursive descent. */
module Shape {
  datatype Json =
    | Null | Bool(value: bool) | Number(text: string)
    | Text(chars: string)
    | Object(members: seq<Member>)
    | Array(items: seq<Json>)

  datatype Member = Member(key: string, item: Json)

  datatype Bounds = Bounds(maxDepth: nat, maxRecords: nat, maxString: nat)

  datatype Violation = DepthExceeded | RecordsExceeded | StringExceeded | InvalidKey

  datatype Verdict = Accepted | Rejected(violation: Violation)

  const MAX_KEY: nat := 128

  // ------------------------------------------------------- what is bounded

  function Max(a: nat, b: nat): nat { if a < b then b else a }

  /** Edges on the longest path from the value to a nested value. */
  function Height(v: Json): nat
    decreases v, 0
  {
    match v
    case Object(members) => TallestMember(members)
    case Array(items) => TallestItem(items)
    case _ => 0
  }

  function TallestItem(items: seq<Json>): nat
    decreases items
  {
    if items == [] then 0 else Max(TallestItem(items[..|items| - 1]), 1 + Height(items[|items| - 1]))
  }

  function TallestMember(members: seq<Member>): nat
    decreases members
  {
    if members == [] then 0 else Max(TallestMember(members[..|members| - 1]), 1 + Height(members[|members| - 1].item))
  }

  /** The number of values in the tree, the root included. */
  function Nodes(v: Json): nat
    decreases v, 0
  {
    match v
    case Object(members) => 1 + MemberNodes(members)
    case Array(items) => 1 + ItemNodes(items)
    case _ => 1
  }

  function ItemNodes(items: seq<Json>): nat
    decreases items
  {
    if items == [] then 0 else ItemNodes(items[..|items| - 1]) + Nodes(items[|items| - 1])
  }

  function MemberNodes(members: seq<Member>): nat
    decreases members
  {
    if members == [] then 0 else MemberNodes(members[..|members| - 1]) + Nodes(members[|members| - 1].item)
  }

  /** Every string value and every key is short enough. */
  predicate ShortTexts(v: Json, maxString: nat)
    decreases v
  {
    match v
    case Text(chars) => |chars| <= maxString
    case Object(members) =>
      forall i :: 0 <= i < |members| ==> |members[i].key| <= MAX_KEY && ShortTexts(members[i].item, maxString)
    case Array(items) => forall i :: 0 <= i < |items| ==> ShortTexts(items[i], maxString)
    case _ => true
  }

  /** The bounds a value met at `depth`, with `used` nodes already counted, has to satisfy. */
  predicate Fits(v: Json, depth: nat, used: nat, b: Bounds) {
    depth + Height(v) <= b.maxDepth && used + Nodes(v) <= b.maxRecords && ShortTexts(v, b.maxString)
  }

  // ------------------------------------------------------------- the check

  class Counter {
    var count: nat
    ghost var calls: nat

    constructor ()
      ensures count == 0 && calls == 0
    {
      count, calls := 0, 0;
    }
  }

  /** So far every call was counted and none was refused. */
  ghost predicate Counting(c: Counter, b: Bounds)
    reads c
  {
    c.calls == c.count <= b.maxRecords
  }

  method ValidateShape(v: Json, depth: nat, b: Bounds, c: Counter) returns (r: Verdict)
    requires Counting(c, b)
    modifies c
    ensures r.Accepted? <==> Fits(v, depth, old(c.count), b)
    ensures r.Accepted? ==> Counting(c, b) && c.count == old(c.count) + Nodes(v)
    ensures c.calls <= b.maxRecords + 1
    decreases v, 1
  {
    c.calls := c.calls + 1;
    if depth > b.maxDepth { return Rejected(DepthExceeded); }
    c.count := c.count + 1;
    if c.count > b.maxRecords { return Rejected(RecordsExceeded); }
    match v
    case Text(chars) =>
      if |chars| > b.maxString { return Rejected(StringExceeded); }
      return Accepted;
    case Object(members) => r := ValidateMembers(v, members, depth, b, c);
    case Array(items) => r := ValidateItems(v, items, depth, b, c);
    case _ => return Accepted;
  }

  method ValidateItems(v: Json, items: seq<Json>, depth: nat, b: Bounds, c: Counter) returns (r: Verdict)
    requires v == Array(items) && Counting(c, b) && depth <= b.maxDepth
    modifies c
    ensures r.Accepted? <==>
      depth + TallestItem(items) <= b.maxDepth && old(c.count) + ItemNodes(items) <= b.maxRecords
      && forall i :: 0 <= i < |items| ==> ShortTexts(items[i], b.maxString)
    ensures r.Accepted? ==> Counting(c, b) && c.count == old(c.count) + ItemNodes(items)
    ensures c.calls <= b.maxRecords + 1
    decreases v, 0
  {
    for i := 0 to |items|
      invariant Counting(c, b) && c.count == old(c.count) + ItemNodes(items[..i])
      invariant depth + TallestItem(items[..i]) <= b.maxDepth
      invariant forall k :: 0 <= k < i ==> ShortTexts(items[k], b.maxString)
    {
      assert items[..i + 1][..i] == items[..i];
      ItemPrefix(items, i + 1);
      r := ValidateShape(items[i], depth + 1, b, c);
      if r.Rejected? { return; }
    }
    assert items[..|items|] == items;
    return Accepted;
  }

  method ValidateMembers(v: Json, members: seq<Member>, depth: nat, b: Bounds, c: Counter) returns (r: Verdict)
    requires v == Object(members) && Counting(c, b) && depth <= b.maxDepth
    modifies c
    ensures r.Accepted? <==>
      depth + TallestMember(members) <= b.maxDepth && old(c.count) + MemberNodes(members) <= b.maxRecords
      && forall i :: 0 <= i < |members| ==> |members[i].key| <= MAX_KEY && ShortTexts(members[i].item, b.maxString)
    ensures r.Accepted? ==> Counting(c, b) && c.count == old(c.count) + MemberNodes(members)
    ensures c.calls <= b.maxRecords + 1
    decreases v, 0
  {
    for i := 0 to |members|
      invariant Counting(c, b) && c.count == old(c.count) + MemberNodes(members[..i])
      invariant depth + TallestMember(members[..i]) <= b.maxDepth
      invariant forall k :: 0 <= k < i ==> |members[k].key| <= MAX_KEY && ShortTexts(members[k].item, b.maxString)
    {
      assert members[..i + 1][..i] == members[..i];
      MemberPrefix(members, i + 1);
      if |members[i].key| > MAX_KEY { return Rejected(InvalidKey); }
      r := ValidateShape(members[i].item, depth + 1, b, c);
      if r.Rejected? { return; }
    }
    assert members[..|members|] == members;
    return Accepted;
  }

  lemma {:induction false} ItemPrefix(items: seq<Json>, k: nat)
    requires k <= |items|
    ensures TallestItem(items[..k]) <= TallestItem(items) && ItemNodes(items[..k]) <= ItemNodes(items)
    decreases |items| - k
  {
    if k < |items| {
      ItemPrefix(items, k + 1);
      assert items[..k + 1][..k] == items[..k];
    } else {
      assert items[..k] == items;
    }
  }

  lemma {:induction false} MemberPrefix(members: seq<Member>, k: nat)
    requires k <= |members|
    ensures TallestMember(members[..k]) <= TallestMember(members) && MemberNodes(members[..k]) <= MemberNodes(members)
    decreases |members| - k
  {
    if k < |members| {
      MemberPrefix(members, k + 1);
      assert members[..k + 1][..k] == members[..k];
    } else {
      assert members[..k] == members;
    }
  }

  /** A key may have 128 characters and no more, however short the rest is. */
  lemma KeyBound(key: string, maxString: nat)
    ensures ShortTexts(Object([Member(key, Null)]), maxString) <==> |key| <= 128
  {
    var members := [Member(key, Null)];
    assert ShortTexts(Object(members), maxString) ==> |members[0].key| <= MAX_KEY;
    assert ShortTexts(Null, maxString);
  }

  /** The whole check of a loaded document. */
  method CheckDocument(v: Json, b: Bounds) returns (r: Verdict, ghost calls: nat)
    ensures r.Accepted? <==> Height(v) <= b.maxDepth && Nodes(v) <= b.maxRecords && ShortTexts(v, b.maxString)
    ensures calls <= b.maxRecords + 1
  {
    var c := new Counter();
    r := ValidateShape(v, 0, b, c);
    calls := c.calls;
  }
}
