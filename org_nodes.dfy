/** The parsed org-mode tree that the decoder consumes. The parser itself
    belongs to the go-org library and is not part of this model. */
module OrgNodes {

  /** `org.List.Kind`: "unordered", "ordered" or "descriptive". */
  datatype ListKind = Unordered | Ordered | Descriptive

  /** The node kinds the decoder distinguishes; every other kind of go-org
      node (paragraphs, blocks, tables, ...) is `Other`. */
  datatype Node =
    | Headline(tags: seq<string>, children: seq<Node>)
    | List(kind: ListKind, items: seq<Node>)
    | ListItem(children: seq<Node>)
    | DescriptiveListItem(term: seq<Node>, details: seq<Node>)
    | Text(content: string)
    | Other(name: string)

  /** A size measure: it decreases along every recursive call of the decoder.
      A headline counts 2, so that the one-node key built from its tag is
      smaller than the headline itself. */
  function Size(n: Node): nat {
    match n
    case Headline(_, children) => 2 + SeqSize(children)
    case List(_, items) => 1 + SeqSize(items)
    case ListItem(children) => 1 + SeqSize(children)
    case DescriptiveListItem(term, details) => 1 + SeqSize(term) + SeqSize(details)
    case Text(_) => 1
    case Other(_) => 1
  }

  function SeqSize(s: seq<Node>): nat {
    if s == [] then 0 else Size(s[0]) + SeqSize(s[1..])
  }

  lemma {:induction false} SeqSizeAppend(a: seq<Node>, b: seq<Node>)
    ensures SeqSize(a + b) == SeqSize(a) + SeqSize(b)
  {
    if a == [] {
      assert a + b == b;
    } else {
      assert (a + b)[1..] == a[1..] + b;
      SeqSizeAppend(a[1..], b);
    }
  }

  /** Every node of a sequence is at most as large as the sequence. */
  lemma {:induction false} SeqSizeElement(s: seq<Node>, i: nat)
    requires i < |s|
    ensures Size(s[i]) <= SeqSize(s)
  {
    if i > 0 {
      SeqSizeElement(s[1..], i - 1);
    }
  }
}
