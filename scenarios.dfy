/** Worked decodes of small documents. What go-org makes of the nodes (their
    text, and the stringer's result) is stated as hypotheses about the
    environment, since rendering is not part of the decoder. */
module Scenarios {
  import opened GoStrings
  import opened OrgNodes
  import opened Values
  import opened Blank
  import opened KeyValue
  import opened Stringers
  import opened DecodeSpec

  /** `* Name :tag:` with the text `Alice` below it, decoded into an empty
      `map[string]string`, gives `{"tag": "Alice"}`. */
  lemma TaggedHeadlineIntoMap(env: Env)
    requires !IsBlank(env.nodeString, Headline(["tag"], [Text("Alice")]))
    requires env.config.stringer([Text("tag")]) == "tag"
    requires env.config.stringer([Text("Alice")]) == "Alice"
    ensures Decode(env, [Headline(["tag"], [Text("Alice")])], MapOf(Str, Str), VMap(map[]))
      == Decoded(VMap(map[VStr("tag") := VStr("Alice")]), Done)
  {
    var h := Headline(["tag"], [Text("Alice")]);
    var p := Pair([Text("tag")], [Text("Alice")]);
    FilteredSingle(env.nodeString, h);
    assert ExtractPairs([h]) == Join(NodePairs(h), ExtractPairs([]));
    assert [p] + [] == [p];
    assert KeyValuePairs(env.nodeString, [h]) == Ok([p]);
    assert DecodeEntries(env, [p], Str, Str, VMap(map[]))
      == var d := DecodeEntry(env, p, Str, Str, VMap(map[])); if d.status.Done? then DecodeEntries(env, [], Str, Str, d.value) else d;
  }

  /** The same headline into a nil map: `SetMapIndex` panics, and the error
      names the key. */
  lemma TaggedHeadlineIntoNilMap(env: Env)
    requires !IsBlank(env.nodeString, Headline(["tag"], [Text("Alice")]))
    ensures Decode(env, [Headline(["tag"], [Text("Alice")])], MapOf(Str, Str), VNil)
      == Decoded(VNil, Failed(KeyPanic([Text("tag")], NilMapWrite)))
  {
    var h := Headline(["tag"], [Text("Alice")]);
    var p := Pair([Text("tag")], [Text("Alice")]);
    FilteredSingle(env.nodeString, h);
    assert ExtractPairs([h]) == Join(NodePairs(h), ExtractPairs([]));
    assert [p] + [] == [p];
    assert KeyValuePairs(env.nodeString, [h]) == Ok([p]);
  }

  /** `- A` and `- B`, decoded into a nil `[]string`, give `["A", "B"]`. */
  lemma ItemsIntoSlice(env: Env)
    requires !IsBlank(env.nodeString, List(Unordered, [ListItem([Text("A")]), ListItem([Text("B")])]))
    requires env.config.stringer([Text("A")]) == "A"
    requires env.config.stringer([Text("B")]) == "B"
    ensures Decode(env, [List(Unordered, [ListItem([Text("A")]), ListItem([Text("B")])])], SeqOf(Str), VNil)
      == Decoded(VList([VStr("A"), VStr("B")]), Done)
  {
    var items := [ListItem([Text("A")]), ListItem([Text("B")])];
    var l := List(Unordered, items);
    FilteredSingle(env.nodeString, l);
    var first := Append(VNil, VStr("A"));
    assert items[1..] == [ListItem([Text("B")])];
    assert DecodeItems(env, items, Str, VNil) == DecodeItems(env, items[1..], Str, first);
    assert DecodeItems(env, items[1..], Str, first) == DecodeItems(env, [], Str, Append(first, VStr("B")));
    assert DecodeListNodes(env, [l], Str, VNil) == DecodeListNodes(env, [], Str, DecodeListNode(env, l, Str, VNil).value);
  }

  /** The pair of the descriptive item `Name :: Alice`, whose key text is
      `Name`. */
  lemma NamePair(env: Env)
    requires !IsBlank(env.nodeString, List(Descriptive, [DescriptiveListItem([Text("Name")], [Text("Alice")])]))
    requires env.orgString([Text("Name")]) == "Name"
    ensures KeyValuePairs(env.nodeString, [List(Descriptive, [DescriptiveListItem([Text("Name")], [Text("Alice")])])])
      == Ok([Pair([Text("Name")], [Text("Alice")])])
    ensures KeyText(env, [Text("Name")]) == "Name"
  {
    var l := List(Descriptive, [DescriptiveListItem([Text("Name")], [Text("Alice")])]);
    var p := Pair([Text("Name")], [Text("Alice")]);
    FilteredSingle(env.nodeString, l);
    assert ItemPairs(l.items) == Ok([p]) by {
      assert l.items[1..] == [];
      assert [p] + [] == [p];
    }
    assert ExtractPairs([l]) == Join(NodePairs(l), ExtractPairs([]));
    assert [p] + [] == [p];
    assert TrimSpace("Name") == "Name" by {
      TrimSpacePadded([], "Name", []);
      assert [] + "Name" + [] == "Name";
    }
  }

  /** A descriptive item `Name :: Alice`, decoded into a struct with an
      exported string field `Name`, sets that field to `"Alice"`. */
  lemma DescriptiveItemIntoStruct(env: Env)
    requires !IsBlank(env.nodeString, List(Descriptive, [DescriptiveListItem([Text("Name")], [Text("Alice")])]))
    requires env.orgString([Text("Name")]) == "Name"
    requires env.config.stringer([Text("Alice")]) == "Alice"
    ensures Decode(env, [List(Descriptive, [DescriptiveListItem([Text("Name")], [Text("Alice")])])],
                   Record([Field("Name", Str, true)]), VRecord([VStr("")]))
      == Decoded(VRecord([VStr("Alice")]), Done)
  {
    var l := List(Descriptive, [DescriptiveListItem([Text("Name")], [Text("Alice")])]);
    var p := Pair([Text("Name")], [Text("Alice")]);
    var fields := [Field("Name", Str, true)];
    NamePair(env);
    assert FieldPosition(fields, KeyText(env, p.key)) == 0;
    assert DecodeFields(env, [p], fields, VRecord([VStr("")]))
      == DecodeFields(env, [], fields, DecodeField(env, p, fields, VRecord([VStr("")])).value);
  }

  /** The same item into a struct whose only field is `Age`: the pair is
      skipped and the decode succeeds with the field unset. */
  lemma DescriptiveItemUnmatched(env: Env)
    requires !IsBlank(env.nodeString, List(Descriptive, [DescriptiveListItem([Text("Name")], [Text("Alice")])]))
    requires env.orgString([Text("Name")]) == "Name"
    ensures Decode(env, [List(Descriptive, [DescriptiveListItem([Text("Name")], [Text("Alice")])])],
                   Record([Field("Age", Str, true)]), VRecord([VStr("")]))
      == Decoded(VRecord([VStr("")]), Done)
  {
    var l := List(Descriptive, [DescriptiveListItem([Text("Name")], [Text("Alice")])]);
    var p := Pair([Text("Name")], [Text("Alice")]);
    var fields := [Field("Age", Str, true)];
    NamePair(env);
    assert !NameMatches("Age", "Name");
    assert FieldPosition(fields, KeyText(env, p.key)) == -1;
    assert DecodeFields(env, [p], fields, VRecord([VStr("")]))
      == DecodeFields(env, [], fields, DecodeField(env, p, fields, VRecord([VStr("")])).value);
  }

  /** An untagged headline cannot be a key/value pair, so decoding it into a
      map fails with an error naming the headline and leaves the map as it
      was. */
  lemma UntaggedHeadlineIntoMap(env: Env, children: seq<Node>, cur: Value)
    requires Conforms(cur, MapOf(Str, Str))
    requires !IsBlank(env.nodeString, Headline([], children))
    ensures Decode(env, [Headline([], children)], MapOf(Str, Str), cur)
      == Decoded(cur, Failed(HeadlineNotPair(Headline([], children))))
  {
    var h := Headline([], children);
    FilteredSingle(env.nodeString, h);
    assert ExtractPairs([h]) == Join(NodePairs(h), ExtractPairs([]));
  }
}
