/** How `Config.Unmarshal`, `unmarshal` and `unmarshalAny` (orgiaml.go:24-109)
    pick what to do: the top-level pointer check, the precedence of custom
    decoders, the string and unsupported targets, and the classification of
    an empty interface target by its first non-blank node. */
module DispatchFacts {
  import opened OrgNodes
  import opened Values
  import opened Blank
  import opened KeyValue
  import opened DecodeSpec
  import opened MapFacts
  import opened ListFacts

  /** A custom decoder sees the nodes as they are, unfiltered, and nothing
      but its own `UnmarshalOrg` decides the outcome: the configuration and
      the renderers play no part. */
  lemma CustomTakesPrecedence(env: Env, other: Env, nodes: seq<Node>, id: nat, cur: Value)
    requires Conforms(cur, Custom(id))
    requires other.unmarshalOrg == env.unmarshalOrg
    ensures var o := env.unmarshalOrg(id, cur.state, nodes);
      Decode(env, nodes, Custom(id), cur) == Decoded(VCustom(id, o.state), o.status)
    ensures Decode(other, nodes, Custom(id), cur) == Decode(env, nodes, Custom(id), cur)
  {
  }

  /** A string target is set to the stringer's text for all the nodes,
      blank ones included, and this never fails. */
  lemma StringTargetUnfiltered(env: Env, nodes: seq<Node>, cur: Value)
    requires Conforms(cur, Str)
    ensures Decode(env, nodes, Str, cur) == Decoded(VStr(env.config.stringer(nodes)), Done)
  {
  }

  /** A target of any other kind is refused and left as it was. */
  lemma UnsupportedTargetFails(env: Env, nodes: seq<Node>, name: string, cur: Value)
    requires Conforms(cur, Unsupported(name))
    ensures Decode(env, nodes, Unsupported(name), cur) == Decoded(cur, Failed(UnknownType(Unsupported(name))))
  {
  }

  /** Input made of blank nodes only leaves a slice, map, struct or
      empty-interface target as it was, without error. */
  lemma BlankInputIsNoOp(env: Env, nodes: seq<Node>, shape: Shape, cur: Value)
    requires shape.SeqOf? || shape.MapOf? || shape.Record? || shape.Any?
    requires Conforms(cur, shape)
    requires forall i :: 0 <= i < |nodes| ==> IsBlank(env.nodeString, nodes[i])
    ensures Decode(env, nodes, shape, cur) == Decoded(cur, Done)
  {
    FilteredEmptyIff(env.nodeString, nodes);
    match shape {
      case SeqOf(elem) =>
        assert DecodeList(env, nodes, elem, cur) == DecodeListNodes(env, [], elem, cur);
      case MapOf(key, elem) =>
        assert KeyValuePairs(env.nodeString, nodes) == Ok([]);
        assert DecodeMap(env, nodes, key, elem, cur) == DecodeEntries(env, [], key, elem, cur);
      case Record(fields) =>
        assert KeyValuePairs(env.nodeString, nodes) == Ok([]);
        assert DecodeRecord(env, nodes, fields, cur) == DecodeFields(env, [], fields, cur);
      case Any =>
    }
  }

  /** A first node that makes an empty interface a map. */
  predicate OpensMap(n: Node) {
    (n.List? && n.kind == Descriptive) || (n.Headline? && |n.tags| == 1)
  }

  /** A first node that makes an empty interface a slice. */
  predicate OpensList(n: Node) {
    (n.List? && n.kind != Descriptive) || (n.Headline? && |n.tags| != 1)
  }

  /** Filtering a second time changes nothing, so decoding the non-blank
      nodes into the fresh dynamic map or slice is decoding all the nodes. */
  lemma RefilterChangesNothing(env: Env, nodes: seq<Node>)
    ensures var f := Filtered(env.nodeString, nodes);
      && KeyValuePairs(env.nodeString, f) == KeyValuePairs(env.nodeString, nodes)
      && DecodeMap(env, f, Str, Any, VMap(map[])) == DecodeMap(env, nodes, Str, Any, VMap(map[]))
      && DecodeList(env, f, Any, VList([])) == DecodeList(env, nodes, Any, VList([]))
  {
    FilteredIdempotent(env.nodeString, nodes);
  }

  /** `unmarshalAny` on non-blank input: a descriptive list or a headline
      with one tag first makes a fresh `map[string]interface{}`, another list
      or headline a fresh `[]interface{}`, and any other node the stringer's
      text of the non-blank nodes; the target takes the new value only if its
      decode succeeds. */
  lemma AnyClassification(env: Env, nodes: seq<Node>, cur: Value)
    requires Filtered(env.nodeString, nodes) != []
    ensures var f := Filtered(env.nodeString, nodes);
      var r := DecodeAny(env, nodes, cur);
      && (OpensMap(f[0]) ==> r == Commit(cur, DecodeMap(env, nodes, Str, Any, VMap(map[]))))
      && (OpensList(f[0]) ==> r == Commit(cur, DecodeList(env, nodes, Any, VList([]))))
      && (!OpensMap(f[0]) && !OpensList(f[0]) ==> r == Decoded(VStr(env.config.stringer(f)), Done))
  {
    RefilterChangesNothing(env, nodes);
  }

  /** A headline with two or more tags first takes the slice branch, where
      a tagged headline is refused. */
  lemma AnyMultiTagHeadlineFails(env: Env, nodes: seq<Node>, cur: Value)
    requires var f := Filtered(env.nodeString, nodes); f != [] && f[0].Headline? && |f[0].tags| >= 2
    ensures var f := Filtered(env.nodeString, nodes);
      DecodeAny(env, nodes, cur) == Decoded(cur, Failed(TaggedHeadlineInList(f[0])))
  {
    var f := Filtered(env.nodeString, nodes);
    var e := Failed(TaggedHeadlineInList(f[0]));
    AnyClassification(env, nodes, cur);
    assert OpensList(f[0]);
    FilteredIdempotent(env.nodeString, nodes);
    assert DecodeListNode(env, f[0], Any, VList([])) == Decoded(VList([]), e);
    assert DecodeList(env, nodes, Any, VList([])) == DecodeListNodes(env, f, Any, VList([]));
    assert DecodeListNodes(env, f, Any, VList([])) == Decoded(VList([]), e);
  }

  /** A dynamic map decode succeeds only when every non-blank node gives
      pairs, and the new map holds exactly the keys of those pairs. */
  lemma AnyMapKeys(env: Env, nodes: seq<Node>, cur: Value)
    requires var f := Filtered(env.nodeString, nodes); f != [] && OpensMap(f[0])
    requires DecodeAny(env, nodes, cur).status.Done?
    ensures var f := Filtered(env.nodeString, nodes);
      var r := DecodeAny(env, nodes, cur);
      var kv := KeyValuePairs(env.nodeString, nodes);
      && (forall i :: 0 <= i < |f| ==> PairShaped(f[i]))
      && kv.Ok? && r.value.VMap?
      && r.value.entries.Keys == KeysOf(env, kv.value, Str)
  {
    AnyClassification(env, nodes, cur);
    var kv := KeyValuePairs(env.nodeString, nodes);
    assert kv.Ok?;
    EntriesKeys(env, kv.value, Str, Any, VMap(map[]));
  }

  /** A dynamic slice decode succeeds only when every non-blank node is an
      untagged headline or a plain list of list items, and the new slice
      holds one element per headline and per item, in document order. */
  lemma AnyListElements(env: Env, nodes: seq<Node>, cur: Value)
    requires var f := Filtered(env.nodeString, nodes); f != [] && OpensList(f[0])
    requires DecodeAny(env, nodes, cur).status.Done?
    ensures var f := Filtered(env.nodeString, nodes);
      && (forall i :: 0 <= i < |f| ==> ListShaped(f[i]))
      && DecodeAny(env, nodes, cur).value == VList(Elements(env, Sources(f), Any))
  {
    AnyClassification(env, nodes, cur);
    ListOutcome(env, nodes, Any, VList([]));
  }

  /** A target that is not a non-nil pointer is refused before the input
      is parsed: the outcome does not depend on the document. */
  lemma RejectedBeforeParse(env: Env, target: Target, doc: Document, doc2: Document)
    requires WellTyped(target) && !target.Pointer?
    ensures UnmarshalOutcome(env, target, doc) == UnmarshalOutcome(env, target, doc2)
    ensures UnmarshalOutcome(env, target, doc).status.Failed?
  {
  }

  /** A parse error is returned as it is, and the target is not touched. */
  lemma ParseErrorReported(env: Env, shape: Shape, value: Value, message: string)
    requires Conforms(value, shape)
    ensures UnmarshalOutcome(env, Pointer(shape, value), ParseFailed(message))
      == Unmarshalled(Pointer(shape, value), Failed(ParseError(message)))
  {
  }

  /** As written, `Unmarshal(nil)` does not return an error: building the
      error message calls `Type()` on the zero `reflect.Value`, which
      panics. */
  lemma NilInterfacePanics(env: Env, doc: Document)
    ensures UnmarshalOutcomeAsWritten(env, NilInterface, doc).status == Panicked(TypeOfNil)
    ensures UnmarshalOutcome(env, NilInterface, doc).status == Failed(CannotUnmarshalInto(NilTypeName))
  {
  }

  /** The corrected `Unmarshal` differs from the code as written only on a
      nil interface. */
  lemma CorrectedAgreesOtherwise(env: Env, target: Target, doc: Document)
    requires WellTyped(target) && target != NilInterface
    ensures UnmarshalOutcome(env, target, doc) == UnmarshalOutcomeAsWritten(env, target, doc)
  {
  }
}
