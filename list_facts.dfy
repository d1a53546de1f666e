/** What decoding into a slice gives (orgiaml.go:172-200): one element per
    untagged headline and one per item of a plain list, in document order,
    each decoded from a fresh zero value, appended after what the slice held. */
module ListFacts {
  import opened OrgNodes
  import opened Values
  import opened Blank
  import opened DecodeSpec

  /** A node a slice can be decoded from, if its elements decode. */
  predicate ListShaped(n: Node) {
    (n.Headline? && n.tags == [])
    || (n.List? && n.kind != Descriptive && forall i :: 0 <= i < |n.items| ==> n.items[i].ListItem?)
  }

  /** The children of each item of a plain list. */
  function ItemChildren(items: seq<Node>): (r: seq<seq<Node>>)
    requires forall i :: 0 <= i < |items| ==> items[i].ListItem?
    ensures |r| == |items|
  {
    seq(|items|, i requires 0 <= i < |items| => items[i].children)
  }

  lemma ItemChildrenCons(items: seq<Node>)
    requires items != [] && forall i :: 0 <= i < |items| ==> items[i].ListItem?
    ensures forall i :: 0 <= i < |items[1..]| ==> items[1..][i].ListItem?
    ensures ItemChildren(items) == [items[0].children] + ItemChildren(items[1..])
  {
    assert forall i :: 1 <= i < |items| ==> items[1..][i - 1] == items[i];
  }

  /** The sources of the elements one node gives. */
  function NodeSources(n: Node): seq<seq<Node>>
    requires ListShaped(n)
  {
    if n.Headline? then [n.children] else ItemChildren(n.items)
  }

  /** The node sequences the elements of a slice are decoded from, one per
      element, in document order. */
  function Sources(f: seq<Node>): seq<seq<Node>>
    requires forall i :: 0 <= i < |f| ==> ListShaped(f[i])
  {
    if f == [] then []
    else
      assert ListShaped(f[0]);
      assert forall i :: 1 <= i < |f| ==> f[1..][i - 1] == f[i];
      NodeSources(f[0]) + Sources(f[1..])
  }

  /** The elements are decoded from fresh zero values. */
  function Element(env: Env, src: seq<Node>, elem: Shape): Decoded {
    Decode(env, src, elem, Zero(elem))
  }

  predicate AllDone(env: Env, srcs: seq<seq<Node>>, elem: Shape) {
    forall i :: 0 <= i < |srcs| ==> Element(env, srcs[i], elem).status.Done?
  }

  function Elements(env: Env, srcs: seq<seq<Node>>, elem: Shape): (r: seq<Value>)
    ensures |r| == |srcs|
  {
    seq(|srcs|, i requires 0 <= i < |srcs| => Element(env, srcs[i], elem).value)
  }

  /** The elements a slice value holds; a nil slice holds none. */
  function ListItems(v: Value): seq<Value> {
    if v.VList? then v.items else []
  }

  lemma AllDoneAppend(env: Env, a: seq<seq<Node>>, b: seq<seq<Node>>, elem: Shape)
    ensures AllDone(env, a + b, elem) <==> AllDone(env, a, elem) && AllDone(env, b, elem)
  {
    assert forall i :: 0 <= i < |a| ==> (a + b)[i] == a[i];
    assert forall i :: 0 <= i < |b| ==> (a + b)[|a| + i] == b[i];
  }

  lemma AllDoneSingle(env: Env, src: seq<Node>, elem: Shape)
    ensures AllDone(env, [src], elem) <==> Element(env, src, elem).status.Done?
    ensures Elements(env, [src], elem) == [Element(env, src, elem).value]
  {
    assert [src][0] == src;
  }

  lemma ElementsAppend(env: Env, a: seq<seq<Node>>, b: seq<seq<Node>>, elem: Shape)
    ensures Elements(env, a + b, elem) == Elements(env, a, elem) + Elements(env, b, elem)
  {
    assert forall i :: 0 <= i < |a| ==> (a + b)[i] == a[i];
    assert forall i :: 0 <= i < |b| ==> (a + b)[|a| + i] == b[i];
  }

  /** The items of a plain list decode exactly when each is a list item and
      each element decodes. */
  lemma {:induction false} ItemsDone(env: Env, items: seq<Node>, elem: Shape, cur: Value)
    requires Conforms(cur, SeqOf(elem))
    ensures DecodeItems(env, items, elem, cur).status.Done? <==>
      (forall i :: 0 <= i < |items| ==> items[i].ListItem?) && AllDone(env, ItemChildren(items), elem)
    decreases |items|
  {
    if items != [] {
      assert forall i :: 1 <= i < |items| ==> items[1..][i - 1] == items[i];
      if items[0].ListItem? {
        var d := Element(env, items[0].children, elem);
        if d.status.Done? {
          AppendConforms(cur, d.value, elem);
          ItemsDone(env, items[1..], elem, Append(cur, d.value));
        }
        if forall i :: 0 <= i < |items| ==> items[i].ListItem? {
          ItemChildrenCons(items);
          AllDoneAppend(env, [items[0].children], ItemChildren(items[1..]), elem);
          AllDoneSingle(env, items[0].children, elem);
        }
      }
    }
  }

  /** Then one element per item is appended, in order. */
  lemma {:induction false} ItemsAppended(env: Env, items: seq<Node>, elem: Shape, cur: Value)
    requires Conforms(cur, SeqOf(elem))
    requires forall i :: 0 <= i < |items| ==> items[i].ListItem?
    requires DecodeItems(env, items, elem, cur).status.Done?
    ensures ListItems(DecodeItems(env, items, elem, cur).value)
      == ListItems(cur) + Elements(env, ItemChildren(items), elem)
    decreases |items|
  {
    if items != [] {
      ItemChildrenCons(items);
      var d := Element(env, items[0].children, elem);
      AppendConforms(cur, d.value, elem);
      ItemsAppended(env, items[1..], elem, Append(cur, d.value));
      ElementsAppend(env, [items[0].children], ItemChildren(items[1..]), elem);
      AllDoneSingle(env, items[0].children, elem);
    }
  }

  /** Whatever happens, the elements the slice held stay, and so do those
      appended before a failure. */
  lemma {:induction false} ItemsKeepPrefix(env: Env, items: seq<Node>, elem: Shape, cur: Value)
    requires Conforms(cur, SeqOf(elem))
    ensures ListItems(cur) <= ListItems(DecodeItems(env, items, elem, cur).value)
    decreases |items|
  {
    if items != [] && items[0].ListItem? {
      var d := Element(env, items[0].children, elem);
      if d.status.Done? {
        AppendConforms(cur, d.value, elem);
        ItemsKeepPrefix(env, items[1..], elem, Append(cur, d.value));
      }
    }
  }

  /** One non-blank node of the loop decodes exactly when it is list-shaped
      and its elements decode; the elements held before stay. */
  lemma ListNodeDone(env: Env, node: Node, elem: Shape, cur: Value)
    requires Conforms(cur, SeqOf(elem))
    ensures var r := DecodeListNode(env, node, elem, cur);
      && (r.status.Done? <==> ListShaped(node) && AllDone(env, NodeSources(node), elem))
      && ListItems(cur) <= ListItems(r.value)
  {
    if node.List? && node.kind != Descriptive {
      ItemsDone(env, node.items, elem, cur);
      ItemsKeepPrefix(env, node.items, elem, cur);
    } else if node.Headline? && node.tags == [] {
      assert NodeSources(node) == [node.children];
      AllDoneSingle(env, node.children, elem);
    }
  }

  /** Then its elements are appended in order. */
  lemma ListNodeAppended(env: Env, node: Node, elem: Shape, cur: Value)
    requires Conforms(cur, SeqOf(elem))
    requires ListShaped(node) && DecodeListNode(env, node, elem, cur).status.Done?
    ensures ListItems(DecodeListNode(env, node, elem, cur).value)
      == ListItems(cur) + Elements(env, NodeSources(node), elem)
  {
    if node.List? {
      ItemsAppended(env, node.items, elem, cur);
    } else {
      AllDoneSingle(env, node.children, elem);
    }
  }

  lemma SourcesCons(f: seq<Node>)
    requires f != [] && forall i :: 0 <= i < |f| ==> ListShaped(f[i])
    ensures forall i :: 0 <= i < |f[1..]| ==> ListShaped(f[1..][i])
    ensures Sources(f) == NodeSources(f[0]) + Sources(f[1..])
  {
    assert forall i :: 1 <= i < |f| ==> f[1..][i - 1] == f[i];
  }

  /** The non-blank nodes decode exactly when each is list-shaped and every
      element decodes. */
  lemma {:induction false} ListNodesDone(env: Env, f: seq<Node>, elem: Shape, cur: Value)
    requires Conforms(cur, SeqOf(elem))
    ensures DecodeListNodes(env, f, elem, cur).status.Done? <==>
      (forall i :: 0 <= i < |f| ==> ListShaped(f[i])) && AllDone(env, Sources(f), elem)
    decreases |f|
  {
    if f != [] {
      assert forall i :: 1 <= i < |f| ==> f[1..][i - 1] == f[i];
      var d := DecodeListNode(env, f[0], elem, cur);
      ListNodeDone(env, f[0], elem, cur);
      if d.status.Done? {
        ListNodesDone(env, f[1..], elem, d.value);
      }
      if forall i :: 0 <= i < |f| ==> ListShaped(f[i]) {
        SourcesCons(f);
        AllDoneAppend(env, NodeSources(f[0]), Sources(f[1..]), elem);
      }
    }
  }

  /** Then they append their elements in document order. */
  lemma {:induction false} ListNodesAppended(env: Env, f: seq<Node>, elem: Shape, cur: Value)
    requires Conforms(cur, SeqOf(elem))
    requires forall i :: 0 <= i < |f| ==> ListShaped(f[i])
    requires DecodeListNodes(env, f, elem, cur).status.Done?
    ensures ListItems(DecodeListNodes(env, f, elem, cur).value)
      == ListItems(cur) + Elements(env, Sources(f), elem)
    decreases |f|
  {
    if f != [] {
      var d := DecodeListNode(env, f[0], elem, cur);
      var rest := DecodeListNodes(env, f[1..], elem, d.value);
      assert d.status.Done? && DecodeListNodes(env, f, elem, cur) == rest;
      var e0, e1 := Elements(env, NodeSources(f[0]), elem), Elements(env, Sources(f[1..]), elem);
      assert ListItems(d.value) == ListItems(cur) + e0 by {
        ListNodeAppended(env, f[0], elem, cur);
      }
      assert ListItems(rest.value) == ListItems(d.value) + e1 by {
        ElementsOfSources(env, f, elem);
        ListNodesAppended(env, f[1..], elem, d.value);
      }
      assert Elements(env, Sources(f), elem) == e0 + e1 by {
        ElementsOfSources(env, f, elem);
      }
      assert (ListItems(cur) + e0) + e1 == ListItems(cur) + (e0 + e1);
    }
  }

  lemma ElementsOfSources(env: Env, f: seq<Node>, elem: Shape)
    requires f != [] && forall i :: 0 <= i < |f| ==> ListShaped(f[i])
    ensures forall i :: 0 <= i < |f[1..]| ==> ListShaped(f[1..][i])
    ensures Elements(env, Sources(f), elem)
      == Elements(env, NodeSources(f[0]), elem) + Elements(env, Sources(f[1..]), elem)
  {
    SourcesCons(f);
    ElementsAppend(env, NodeSources(f[0]), Sources(f[1..]), elem);
  }

  lemma {:induction false} ListNodesKeepPrefix(env: Env, f: seq<Node>, elem: Shape, cur: Value)
    requires Conforms(cur, SeqOf(elem))
    ensures ListItems(cur) <= ListItems(DecodeListNodes(env, f, elem, cur).value)
    decreases |f|
  {
    if f != [] {
      var d := DecodeListNode(env, f[0], elem, cur);
      ListNodeDone(env, f[0], elem, cur);
      if d.status.Done? {
        ListNodesKeepPrefix(env, f[1..], elem, d.value);
      }
    }
  }

  /** `unmarshalList`: succeeds exactly when every non-blank node is an
      untagged headline or a plain list of list items and every element
      decodes; the slice then holds its old elements followed by one element
      per source, in document order. On failure the elements appended before
      the failure stay. */
  lemma ListOutcome(env: Env, nodes: seq<Node>, elem: Shape, cur: Value)
    requires Conforms(cur, SeqOf(elem))
    ensures var f := Filtered(env.nodeString, nodes);
      var r := DecodeList(env, nodes, elem, cur);
      && (r.status.Done? <==>
            (forall i :: 0 <= i < |f| ==> ListShaped(f[i])) && AllDone(env, Sources(f), elem))
      && (r.status.Done? ==>
            ListItems(r.value) == ListItems(cur) + Elements(env, Sources(f), elem))
      && ListItems(cur) <= ListItems(r.value)
  {
    var f := Filtered(env.nodeString, nodes);
    ListNodesDone(env, f, elem, cur);
    ListNodesKeepPrefix(env, f, elem, cur);
    if DecodeListNodes(env, f, elem, cur).status.Done? {
      ListNodesAppended(env, f, elem, cur);
    }
  }

  /** The error `unmarshalList` reports for a node that is neither an
      untagged headline nor a plain list. */
  function RejectionOf(n: Node): Error {
    if n.Headline? then TaggedHeadlineInList(n)
    else if n.List? then DescriptiveListInList(n)
    else NotListNode(n)
  }

  /** A headline with tags, a descriptive list or any other kind of node,
      met after the nodes before it have all decoded, ends the decode with
      its own error; the slice keeps the elements those nodes appended. */
  lemma {:induction false} ListRejectsNode(env: Env, f: seq<Node>, i: nat, elem: Shape, cur: Value)
    requires Conforms(cur, SeqOf(elem))
    requires i < |f|
    requires DecodeListNodes(env, f[..i], elem, cur).status.Done?
    requires !(f[i].Headline? && f[i].tags == []) && !(f[i].List? && f[i].kind != Descriptive)
    ensures DecodeListNodes(env, f, elem, cur)
      == Decoded(DecodeListNodes(env, f[..i], elem, cur).value, Failed(RejectionOf(f[i])))
    decreases i
  {
    if i == 0 {
      assert f[..i] == [];
    } else {
      var d := DecodeListNode(env, f[0], elem, cur);
      assert f[..i][0] == f[0] && f[..i][1..] == f[1..][..i - 1];
      assert d.status.Done?;
      assert f[1..][i - 1] == f[i];
      ListRejectsNode(env, f[1..], i - 1, elem, d.value);
    }
  }
}
