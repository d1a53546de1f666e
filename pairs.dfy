/** `kvPairs` (orgiaml.go:143-170): reading the key/value pairs that a map or
    a record is decoded from, off the non-blank nodes of a sequence. */
module KeyValue {
  import opened OrgNodes
  import opened Values
  import opened Blank

  /** One key/value pair: the nodes of the key and the nodes of the value. */
  datatype Pair = Pair(key: seq<Node>, value: seq<Node>)

  function PairSize(p: Pair): nat {
    1 + SeqSize(p.key) + SeqSize(p.value)
  }

  function PairsSize(ps: seq<Pair>): nat {
    if ps == [] then 0 else PairSize(ps[0]) + PairsSize(ps[1..])
  }

  lemma {:induction false} PairsSizeAppend(a: seq<Pair>, b: seq<Pair>)
    ensures PairsSize(a + b) == PairsSize(a) + PairsSize(b)
  {
    if a == [] {
      assert a + b == b;
    } else {
      assert (a + b)[1..] == a[1..] + b;
      PairsSizeAppend(a[1..], b);
    }
  }

  lemma {:induction false} PairsSizeElement(ps: seq<Pair>, i: nat)
    requires i < |ps|
    ensures PairSize(ps[i]) <= PairsSize(ps)
  {
    if i > 0 {
      PairsSizeElement(ps[1..], i - 1);
    }
  }

  /** Concatenates two partial results; the first error wins. */
  function Join(a: Result<seq<Pair>>, b: Result<seq<Pair>>): (r: Result<seq<Pair>>)
    ensures r.Ok? <==> a.Ok? && b.Ok?
    ensures r.Ok? ==> r.value == a.value + b.value
    ensures r.Err? ==> r.error == if a.Err? then a.error else b.error
  {
    if a.Err? then a else if b.Err? then b else Ok(a.value + b.value)
  }

  lemma JoinAssoc(a: Result<seq<Pair>>, b: Result<seq<Pair>>, c: Result<seq<Pair>>)
    ensures Join(Join(a, b), c) == Join(a, Join(b, c))
  {
    if a.Ok? && b.Ok? && c.Ok? {
      assert (a.value + b.value) + c.value == a.value + (b.value + c.value);
    }
  }

  lemma JoinEmpty(b: Result<seq<Pair>>)
    ensures Join(Ok([]), b) == b
  {
    if b.Ok? {
      assert [] + b.value == b.value;
    }
  }

  /** The pairs of a descriptive list: one (term, details) per item, or an
      error at the first item that is not a descriptive list item. */
  function ItemPairs(items: seq<Node>): (r: Result<seq<Pair>>)
    ensures r.Ok? <==> forall i :: 0 <= i < |items| ==> items[i].DescriptiveListItem?
    ensures r.Ok? ==> |r.value| == |items| && PairsSize(r.value) == SeqSize(items)
    ensures r.Ok? ==> forall i :: 0 <= i < |items| ==> r.value[i] == Pair(items[i].term, items[i].details)
  {
    if items == [] then Ok([])
    else
      var rest := ItemPairs(items[1..]);
      assert forall i :: 1 <= i < |items| ==> items[i] == items[1..][i - 1];
      match items[0]
      case DescriptiveListItem(term, details) =>
        if rest.Err? then rest
        else
          var ps := [Pair(term, details)] + rest.value;
          assert ps[1..] == rest.value;
          Ok(ps)
      case _ => Err(ItemNotPair(items[0]))
  }

  /** The error `ItemPairs` reports is the first item that is not a
      descriptive list item. */
  lemma {:induction false} ItemPairsError(items: seq<Node>, i: nat)
    requires i < |items| && !items[i].DescriptiveListItem?
    requires forall j :: 0 <= j < i ==> items[j].DescriptiveListItem?
    ensures ItemPairs(items) == Err(ItemNotPair(items[i]))
  {
    if i > 0 {
      assert items[0].DescriptiveListItem?;
      assert forall j :: 0 <= j < i - 1 ==> items[1..][j] == items[j + 1];
      ItemPairsError(items[1..], i - 1);
    }
  }

  /** A node that `kvPairs` can read pairs off: a headline with exactly one
      tag, or a descriptive list of descriptive list items. */
  predicate PairShaped(n: Node) {
    match n
    case Headline(tags, _) => |tags| == 1
    case List(kind, items) =>
      kind == Descriptive && forall i :: 0 <= i < |items| ==> items[i].DescriptiveListItem?
    case _ => false
  }

  /** The pairs one node contributes (the body of the loop at lines 146-167). */
  function NodePairs(n: Node): (r: Result<seq<Pair>>)
    ensures r.Ok? <==> PairShaped(n)
    ensures r.Ok? ==> PairsSize(r.value) <= Size(n)
    ensures n.Headline? && |n.tags| == 1 ==> r == Ok([Pair([Text(n.tags[0])], n.children)])
    ensures n.Headline? && |n.tags| != 1 ==> r == Err(HeadlineNotPair(n))
    ensures n.List? && n.kind == Descriptive ==> r == ItemPairs(n.items)
    ensures !n.Headline? && !(n.List? && n.kind == Descriptive) ==> r == Err(NotMapNode(n))
  {
    match n
    case Headline(tags, children) =>
      if |tags| != 1 then Err(HeadlineNotPair(n))
      else
        var key := [Text(tags[0])];
        assert SeqSize(key) == 1 by { assert key[1..] == []; }
        assert PairsSize([Pair(key, children)]) == PairSize(Pair(key, children)) by {
          assert [Pair(key, children)][1..] == [];
        }
        Ok([Pair(key, children)])
    case List(kind, items) =>
      if kind == Descriptive then ItemPairs(items) else Err(NotMapNode(n))
    case _ => Err(NotMapNode(n))
  }

  /** The pairs of a sequence of nodes, in document order. */
  function ExtractPairs(nodes: seq<Node>): (r: Result<seq<Pair>>)
    ensures r.Ok? <==> forall i :: 0 <= i < |nodes| ==> PairShaped(nodes[i])
    ensures r.Ok? ==> PairsSize(r.value) <= SeqSize(nodes)
  {
    if nodes == [] then Ok([])
    else
      var head := NodePairs(nodes[0]);
      var rest := ExtractPairs(nodes[1..]);
      assert forall i :: 1 <= i < |nodes| ==> nodes[i] == nodes[1..][i - 1];
      assert head.Ok? && rest.Ok? ==>
        PairsSize(head.value + rest.value) == PairsSize(head.value) + PairsSize(rest.value) by {
        if head.Ok? && rest.Ok? {
          PairsSizeAppend(head.value, rest.value);
        }
      }
      Join(head, rest)
  }

  /** `kvPairs`: the pairs of the non-blank nodes. */
  function KeyValuePairs(text: Node -> string, nodes: seq<Node>): (r: Result<seq<Pair>>)
    ensures r.Ok? <==> forall n :: n in Filtered(text, nodes) ==> PairShaped(n)
    ensures r.Ok? ==> PairsSize(r.value) <= SeqSize(nodes)
  {
    ExtractPairs(Filtered(text, nodes))
  }

  /** The pairs of a concatenation are the pairs of its parts, in order. */
  lemma {:induction false} ExtractPairsAppend(a: seq<Node>, b: seq<Node>)
    ensures ExtractPairs(a + b) == Join(ExtractPairs(a), ExtractPairs(b))
  {
    if a == [] {
      assert a + b == b;
      JoinEmpty(ExtractPairs(b));
    } else {
      assert (a + b)[0] == a[0];
      assert (a + b)[1..] == a[1..] + b;
      ExtractPairsAppend(a[1..], b);
      JoinAssoc(NodePairs(a[0]), ExtractPairs(a[1..]), ExtractPairs(b));
    }
  }

  /** The error is the one of the first node that does not give pairs. */
  lemma {:induction false} ExtractPairsError(nodes: seq<Node>, i: nat)
    requires i < |nodes| && !PairShaped(nodes[i])
    requires forall j :: 0 <= j < i ==> PairShaped(nodes[j])
    ensures ExtractPairs(nodes) == NodePairs(nodes[i])
  {
    if i > 0 {
      assert PairShaped(nodes[0]);
      assert forall j :: 0 <= j < i - 1 ==> nodes[1..][j] == nodes[j + 1];
      ExtractPairsError(nodes[1..], i - 1);
    } else {
      assert !NodePairs(nodes[0]).Ok?;
    }
  }

  lemma ExtractPairsStep(f: seq<Node>, i: nat)
    requires i < |f|
    ensures ExtractPairs(f[i..]) == Join(NodePairs(f[i]), ExtractPairs(f[i + 1..]))
  {
    assert f[i..][0] == f[i];
    assert f[i..][1..] == f[i + 1..];
  }

  /** The inner loop of `kvPairs` (lines 155-161): appends the pair of each
      item of a descriptive list to `pairs`, up to the first item that is not
      a descriptive list item. */
  method AppendItemPairs(pairs: seq<Pair>, items: seq<Node>) returns (r: Result<seq<Pair>>)
    ensures r == Join(Ok(pairs), ItemPairs(items))
  {
    var acc := pairs;
    var j := 0;
    assert items[0..] == items;
    while j < |items|
      invariant 0 <= j <= |items|
      invariant Join(Ok(pairs), ItemPairs(items)) == Join(Ok(acc), ItemPairs(items[j..]))
    {
      assert items[j..][0] == items[j];
      assert items[j..][1..] == items[j + 1..];
      if !items[j].DescriptiveListItem? {
        return Err(ItemNotPair(items[j]));
      }
      var p := Pair(items[j].term, items[j].details);
      JoinAssoc(Ok(acc), Ok([p]), ItemPairs(items[j + 1..]));
      acc := acc + [p];
      j := j + 1;
    }
    assert items[|items|..] == [];
    assert acc + [] == acc;
    r := Ok(acc);
  }

  /** `kvPairs`, imperatively: compacts the nodes, then appends each pair to
      `pairs` as the nodes are read, returning at the first error. */
  method KvPairs(text: Node -> string, nodes: seq<Node>) returns (r: Result<seq<Pair>>)
    ensures r == KeyValuePairs(text, nodes)
  {
    var f := Compact(text, nodes);
    var pairs: seq<Pair> := [];
    var i := 0;
    assert f[0..] == f;
    JoinEmpty(ExtractPairs(f));
    while i < |f|
      invariant 0 <= i <= |f|
      invariant ExtractPairs(f) == Join(Ok(pairs), ExtractPairs(f[i..]))
    {
      var node := f[i];
      ghost var rest := ExtractPairs(f[i + 1..]);
      ExtractPairsStep(f, i);
      JoinAssoc(Ok(pairs), NodePairs(node), rest);
      assert ExtractPairs(f) == Join(Ok(pairs), Join(NodePairs(node), rest));
      match node {
        case Headline(tags, children) =>
          if |tags| != 1 {
            return Err(HeadlineNotPair(node));
          }
          var p := Pair([Text(tags[0])], children);
          JoinAssoc(Ok(pairs), Ok([p]), rest);
          pairs := pairs + [p];
        case List(kind, items) =>
          if kind != Descriptive {
            return Err(NotMapNode(node));
          }
          JoinAssoc(Ok(pairs), ItemPairs(items), rest);
          var more := AppendItemPairs(pairs, items);
          if more.Err? {
            return more;
          }
          pairs := more.value;
        case _ =>
          return Err(NotMapNode(node));
      }
      i := i + 1;
    }
    assert f[|f|..] == [];
    assert pairs + [] == pairs;
    r := Ok(pairs);
  }
}
