/** The two stringers that turn the nodes of a string target into its text
    (orgiaml.go:240-253), and the decoder's configuration. Rendering nodes to
    HTML or back to org text belongs to the go-org library; the rendered
    string is a parameter here and only the post-processing is modelled. */
module Stringers {
  import opened GoStrings
  import opened OrgNodes

  const ParagraphOpen: string := "<p>"
  const ParagraphClose: string := "</p>\n"

  /** `Config`: how nodes decoded into a string target become its text. */
  datatype Config = Config(stringer: seq<Node> -> string)

  /** What `HTMLStringer` does with the HTML that go-org rendered: when there
      is at most one paragraph, the enclosing `<p>` and `</p>\n` go, and the
      result is always trimmed of white space. */
  function HtmlPostProcess(html: string): (r: string)
    ensures |r| <= |html|
    ensures r == [] || (!IsSpace(r[0]) && !IsSpace(r[|r| - 1]))
  {
    var first := Index(html, ParagraphOpen);
    var last := LastIndex(html, ParagraphOpen);
    var s := if first == last then TrimSuffix(TrimPrefix(html, ParagraphOpen), ParagraphClose) else html;
    TrimSpace(s)
  }

  /** `HTMLStringer`, given go-org's HTML renderer as `render`. */
  function HtmlStringer(render: seq<Node> -> string, nodes: seq<Node>): (r: string)
    ensures r == [] || (!IsSpace(r[0]) && !IsSpace(r[|r| - 1]))
  {
    HtmlPostProcess(render(nodes))
  }

  /** `OrgStringer`, given go-org's `org.String` as `orgString`. */
  function OrgStringer(orgString: seq<Node> -> string, nodes: seq<Node>): (r: string)
    ensures |r| <= |orgString(nodes)|
    ensures r == [] || (!IsSpace(r[0]) && !IsSpace(r[|r| - 1]))
    ensures r == [] <==> AllSpace(orgString(nodes))
  {
    TrimSpace(orgString(nodes))
  }

  /** `New`: the default configuration renders to HTML. */
  function New(render: seq<Node> -> string): (c: Config)
    ensures forall nodes :: c.stringer(nodes) == HtmlStringer(render, nodes)
  {
    Config(nodes => HtmlStringer(render, nodes))
  }

  /** `p` occurs at most once in `s`. */
  predicate AtMostOnce(s: string, p: string) {
    forall i, j :: 0 <= i <= |s| && 0 <= j <= |s| && OccursAt(s, p, i) && OccursAt(s, p, j) ==> i == j
  }

  /** The test `first == last` at line 245 holds exactly when `<p>` occurs
      at most once. */
  lemma SingleParagraphTest(s: string, p: string)
    ensures Index(s, p) == LastIndex(s, p) <==> AtMostOnce(s, p)
  {
    var first, last := Index(s, p), LastIndex(s, p);
    if first == last && first >= 0 {
      forall i, j | 0 <= i <= |s| && 0 <= j <= |s| && OccursAt(s, p, i) && OccursAt(s, p, j) ensures i == j {
        assert i <= |s| && j <= |s|;
        assert first <= i <= last && first <= j <= last;
      }
    }
    if AtMostOnce(s, p) && first >= 0 {
      assert OccursAt(s, p, last);
    }
  }

  /** With two or more paragraphs the HTML is only trimmed. */
  lemma SeveralParagraphsOnlyTrimmed(html: string, i: int, j: int)
    requires OccursAt(html, ParagraphOpen, i) && OccursAt(html, ParagraphOpen, j) && i != j
    ensures HtmlPostProcess(html) == TrimSpace(html)
  {
    SingleParagraphTest(html, ParagraphOpen);
  }

  /** A single paragraph loses its enclosing tags. */
  lemma SingleParagraphUnwrapped(body: string)
    requires forall i :: 0 < i ==> !OccursAt(ParagraphOpen + body + ParagraphClose, ParagraphOpen, i)
    ensures HtmlPostProcess(ParagraphOpen + body + ParagraphClose) == TrimSpace(body)
  {
    var html := ParagraphOpen + body + ParagraphClose;
    SingleParagraphTest(html, ParagraphOpen);
    assert AtMostOnce(html, ParagraphOpen);
    assert html[..|ParagraphOpen|] == ParagraphOpen;
    var unprefixed := html[|ParagraphOpen|..];
    assert unprefixed == body + ParagraphClose;
    assert TrimPrefix(html, ParagraphOpen) == unprefixed;
    assert unprefixed[|unprefixed| - |ParagraphClose|..] == ParagraphClose;
    assert unprefixed[..|unprefixed| - |ParagraphClose|] == body;
  }

  /** Without any `<p>`, a trailing `</p>\n` is still dropped. */
  lemma NoParagraphStillUnsuffixed(html: string)
    requires forall i :: !OccursAt(html, ParagraphOpen, i)
    ensures HtmlPostProcess(html) == TrimSpace(TrimSuffix(html, ParagraphClose))
  {
    SingleParagraphTest(html, ParagraphOpen);
    assert !HasPrefix(html, ParagraphOpen) by {
      assert !OccursAt(html, ParagraphOpen, 0);
    }
  }

  /** `SkipSpaceForward` stops at the first non-space character. */
  lemma {:induction false} SkipForwardAt(s: string, i: nat, j: nat)
    requires i <= j <= |s|
    requires forall k :: i <= k < j ==> IsSpace(s[k])
    requires j == |s| || !IsSpace(s[j])
    ensures SkipSpaceForward(s, i) == j
    decreases j - i
  {
    if i < j {
      SkipForwardAt(s, i + 1, j);
    }
  }

  /** `SkipSpaceBackward` stops after the last non-space character. */
  lemma {:induction false} SkipBackwardAt(s: string, lo: nat, e: nat, j: nat)
    requires lo <= e <= j <= |s|
    requires forall k :: e <= k < j ==> IsSpace(s[k])
    requires e == lo || !IsSpace(s[e - 1])
    ensures SkipSpaceBackward(s, lo, j) == e
    decreases j - e
  {
    if e < j {
      SkipBackwardAt(s, lo, e, j - 1);
    }
  }

  /** `strings.TrimSpace` removes exactly the white-space padding around a
      text that does not itself start or end in white space. */
  lemma TrimSpacePadded(a: string, m: string, b: string)
    requires AllSpace(a) && AllSpace(b)
    requires m == [] || (!IsSpace(m[0]) && !IsSpace(m[|m| - 1]))
    ensures TrimSpace(a + m + b) == m
  {
    var s := a + m + b;
    if m == [] {
      assert s == a + b;
      AllSpaceAppend(a, b);
    } else {
      assert forall k :: 0 <= k < |a| ==> s[k] == a[k];
      assert s[|a|] == m[0];
      SkipForwardAt(s, 0, |a|);
      assert forall k :: |a| + |m| <= k < |s| ==> s[k] == b[k - |a| - |m|];
      assert s[|a| + |m| - 1] == m[|m| - 1];
      SkipBackwardAt(s, |a|, |a| + |m|, |s|);
      assert s[|a|..|a| + |m|] == m;
    }
  }

  /** Trimming is idempotent: a stringer's result is trimmed. */
  lemma TrimSpaceIdempotent(s: string)
    ensures TrimSpace(TrimSpace(s)) == TrimSpace(s)
  {
    var r := TrimSpace(s);
    TrimSpacePadded([], r, []);
    assert [] + r + [] == r;
  }
}
