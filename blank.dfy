/** `withoutEmptyParagraphs` (orgiaml.go:202-210): dropping the nodes whose
    text is only white space. */
module Blank {
  import opened GoStrings
  import opened OrgNodes

  /** The node's `String()` (a go-org method, passed in as `text`) is only
      white space, which is when `strings.TrimSpace` leaves nothing of it
      (the contract of `TrimSpace`). */
  predicate IsBlank(text: Node -> string, n: Node) {
    AllSpace(text(n))
  }

  /** The non-blank nodes of `nodes`, in their original order. */
  function Filtered(text: Node -> string, nodes: seq<Node>): (r: seq<Node>)
    ensures |r| <= |nodes| && SeqSize(r) <= SeqSize(nodes)
    ensures forall i :: 0 <= i < |r| ==> !IsBlank(text, r[i])
  {
    if nodes == [] then []
    else if IsBlank(text, nodes[0]) then Filtered(text, nodes[1..])
    else
      var rest := Filtered(text, nodes[1..]);
      assert ([nodes[0]] + rest)[1..] == rest;
      [nodes[0]] + rest
  }

  /** Filtering commutes with concatenation. With the one-node cases below
      this determines `Filtered` completely: order is kept. */
  lemma {:induction false} FilteredAppend(text: Node -> string, a: seq<Node>, b: seq<Node>)
    ensures Filtered(text, a + b) == Filtered(text, a) + Filtered(text, b)
  {
    if a == [] {
      assert a + b == b;
    } else {
      assert (a + b)[0] == a[0];
      assert (a + b)[1..] == a[1..] + b;
      FilteredAppend(text, a[1..], b);
    }
  }

  lemma FilteredSingle(text: Node -> string, n: Node)
    ensures Filtered(text, [n]) == if IsBlank(text, n) then [] else [n]
  {
    assert [n][1..] == [];
  }

  lemma FilteredSnoc(text: Node -> string, s: seq<Node>, i: nat)
    requires i < |s|
    ensures Filtered(text, s[..i + 1]) == Filtered(text, s[..i]) + if IsBlank(text, s[i]) then [] else [s[i]]
  {
    assert s[..i + 1] == s[..i] + [s[i]];
    FilteredAppend(text, s[..i], [s[i]]);
    FilteredSingle(text, s[i]);
  }

  /** A node is kept exactly when it is in the input and not blank. */
  lemma {:induction false} FilteredMembers(text: Node -> string, nodes: seq<Node>, n: Node)
    ensures n in Filtered(text, nodes) <==> n in nodes && !IsBlank(text, n)
  {
    if nodes != [] {
      FilteredMembers(text, nodes[1..], n);
      assert nodes == [nodes[0]] + nodes[1..];
    }
  }

  /** Filtering twice is filtering once. */
  lemma {:induction false} FilteredIdempotent(text: Node -> string, nodes: seq<Node>)
    ensures Filtered(text, Filtered(text, nodes)) == Filtered(text, nodes)
  {
    if nodes != [] {
      FilteredIdempotent(text, nodes[1..]);
      if !IsBlank(text, nodes[0]) {
        var rest := Filtered(text, nodes[1..]);
        assert ([nodes[0]] + rest)[1..] == rest;
      }
    }
  }

  /** Nothing is left exactly when every node is blank. */
  lemma {:induction false} FilteredEmptyIff(text: Node -> string, nodes: seq<Node>)
    ensures Filtered(text, nodes) == [] <==> forall i :: 0 <= i < |nodes| ==> IsBlank(text, nodes[i])
  {
    if nodes != [] {
      FilteredEmptyIff(text, nodes[1..]);
      assert forall i :: 1 <= i < |nodes| ==> nodes[i] == nodes[1..][i - 1];
    }
  }

  /** `withoutEmptyParagraphs`: compacts the kept nodes, in order, into the
      front of the caller's own array and returns how many there are; the
      rest of the array keeps its old contents. */
  method WithoutEmptyParagraphs(text: Node -> string, a: array<Node>) returns (n: nat)
    modifies a
    ensures n <= a.Length
    ensures a[..n] == Filtered(text, old(a[..]))
    ensures forall k :: n <= k < a.Length ==> a[k] == old(a[k])
  {
    ghost var original := a[..];
    n := 0;
    var i := 0;
    while i < a.Length
      invariant n <= i <= a.Length
      invariant a[..n] == Filtered(text, original[..i])
      invariant forall k :: n <= k < a.Length ==> a[k] == original[k]
    {
      var node := a[i];
      FilteredSnoc(text, original, i);
      if TrimSpace(text(node)) != "" {
        ghost var prefix := a[..n];
        a[n] := node;
        assert a[..n + 1] == prefix + [node];
        n := n + 1;
      }
      i := i + 1;
    }
    assert original[..a.Length] == original;
  }

  /** `withoutEmptyParagraphs` run on a fresh backing array that holds
      `nodes`, as the decoding methods use it. */
  method Compact(text: Node -> string, nodes: seq<Node>) returns (kept: seq<Node>)
    ensures kept == Filtered(text, nodes)
  {
    var a := new Node[|nodes|](i requires 0 <= i < |nodes| => nodes[i]);
    assert a[..] == nodes;
    var n := WithoutEmptyParagraphs(text, a);
    kept := a[..n];
  }
}
