/** The decoder's operations as the Go code performs them: loops that append
    to the target slice, store map entries and write struct fields one pair
    at a time, returning at the first failure. Each method is proved to
    compute the function of `DecodeSpec` that specifies it. */
module Decoder {
  import opened GoStrings
  import opened OrgNodes
  import opened Values
  import opened Blank
  import opened KeyValue
  import opened Stringers
  import opened DecodeSpec

  /** `Config.Unmarshal` (lines 24-34), with the nil-interface case
      refused by an error (see `UnmarshalOutcomeAsWritten`). */
  method Unmarshal(env: Env, target: Target, doc: Document) returns (r: Unmarshalled)
    requires WellTyped(target)
    ensures r == UnmarshalOutcome(env, target, doc)
  {
    match target {
      case NilInterface =>
        return Unmarshalled(target, Failed(CannotUnmarshalInto(NilTypeName)));
      case NonPointer(name) =>
        return Unmarshalled(target, Failed(CannotUnmarshalInto(name)));
      case NilPointer(name) =>
        return Unmarshalled(target, Failed(CannotUnmarshalInto(name)));
      case Pointer(shape, value) =>
        if doc.ParseFailed? {
          return Unmarshalled(target, Failed(ParseError(doc.message)));
        }
        var d := UnmarshalValue(env, doc.nodes, shape, value);
        return Unmarshalled(Pointer(shape, d.value), d.status);
    }
  }

  /** `unmarshal` (lines 36-58). */
  method UnmarshalValue(env: Env, nodes: seq<Node>, shape: Shape, cur: Value) returns (r: Decoded)
    requires Conforms(cur, shape)
    ensures r == Decode(env, nodes, shape, cur)
    decreases SeqSize(nodes), 6
  {
    match shape {
      case Custom(id) =>
        var o := env.unmarshalOrg(id, cur.state, nodes);
        r := Decoded(VCustom(id, o.state), o.status);
      case SeqOf(elem) =>
        r := UnmarshalList(env, nodes, elem, cur);
      case MapOf(key, elem) =>
        r := UnmarshalMap(env, nodes, key, elem, cur);
      case Record(fields) =>
        r := UnmarshalStruct(env, nodes, fields, cur);
      case Str =>
        r := Decoded(VStr(env.config.stringer(nodes)), Done);
      case Any =>
        r := UnmarshalAny(env, nodes, cur);
      case Unsupported(_) =>
        r := Decoded(cur, Failed(UnknownType(shape)));
    }
  }

  /** `unmarshalAny` (lines 60-85). */
  method UnmarshalAny(env: Env, nodes: seq<Node>, cur: Value) returns (r: Decoded)
    ensures r == DecodeAny(env, nodes, cur)
    decreases SeqSize(nodes), 5
  {
    var f := Compact(env.nodeString, nodes);
    if |f| == 0 {
      return Decoded(cur, Done);
    }
    match f[0] {
      case List(kind, _) =>
        if kind == Descriptive {
          r := UnmarshalAnyMap(env, f, cur);
        } else {
          r := UnmarshalAnyList(env, f, cur);
        }
      case Headline(tags, _) =>
        if |tags| == 1 {
          r := UnmarshalAnyMap(env, f, cur);
        } else {
          r := UnmarshalAnyList(env, f, cur);
        }
      case _ =>
        // the string case of `unmarshal`, into a fresh string
        r := Decoded(VStr(env.config.stringer(f)), Done);
    }
  }

  /** `unmarshalAnyMap` (lines 87-97). */
  method UnmarshalAnyMap(env: Env, nodes: seq<Node>, cur: Value) returns (r: Decoded)
    ensures r == DecodeAnyMap(env, nodes, cur)
    decreases SeqSize(nodes), 4
  {
    var d := UnmarshalMap(env, nodes, Str, Any, VMap(map[]));
    if !d.status.Done? {
      return Decoded(cur, d.status);
    }
    r := d;
  }

  /** `unmarshalAnyList` (lines 99-109). */
  method UnmarshalAnyList(env: Env, nodes: seq<Node>, cur: Value) returns (r: Decoded)
    ensures r == DecodeAnyList(env, nodes, cur)
    decreases SeqSize(nodes), 4
  {
    var d := UnmarshalList(env, nodes, Any, VList([]));
    if !d.status.Done? {
      return Decoded(cur, d.status);
    }
    r := d;
  }

  /** `unmarshalMap` (lines 111-122). */
  method UnmarshalMap(env: Env, nodes: seq<Node>, key: Shape, elem: Shape, cur: Value) returns (r: Decoded)
    requires Conforms(cur, MapOf(key, elem))
    ensures r == DecodeMap(env, nodes, key, elem, cur)
    decreases SeqSize(nodes), 3
  {
    var kv := KvPairs(env.nodeString, nodes);
    if kv.Err? {
      return Decoded(cur, Failed(kv.error));
    }
    r := StoreEntries(env, kv.value, key, elem, cur);
  }

  /** The loop of `unmarshalMap` (lines 116-120): stores the entries one
      pair at a time, returning at the first failure. */
  method StoreEntries(env: Env, pairs: seq<Pair>, key: Shape, elem: Shape, cur: Value) returns (r: Decoded)
    requires Conforms(cur, MapOf(key, elem))
    ensures r == DecodeEntries(env, pairs, key, elem, cur)
    decreases PairsSize(pairs), 2
  {
    var m := cur;
    var i := 0;
    assert pairs[0..] == pairs;
    while i < |pairs|
      invariant 0 <= i <= |pairs|
      invariant Conforms(m, MapOf(key, elem))
      invariant DecodeEntries(env, pairs, key, elem, cur) == DecodeEntries(env, pairs[i..], key, elem, m)
    {
      PairsSizeElement(pairs, i);
      EntriesStep(env, pairs, i, key, elem, m);
      var d := UnmarshalMapKV(env, m, pairs[i], key, elem);
      if !d.status.Done? {
        return d;
      }
      m := d.value;
      i := i + 1;
    }
    r := Decoded(m, Done);
  }

  /** One turn of the loop of `unmarshalMap`. */
  lemma EntriesStep(env: Env, pairs: seq<Pair>, i: nat, key: Shape, elem: Shape, m: Value)
    requires i < |pairs| && Conforms(m, MapOf(key, elem))
    ensures DecodeEntries(env, pairs[i..], key, elem, m)
      == var d := DecodeEntry(env, pairs[i], key, elem, m);
         if d.status.Done? then DecodeEntries(env, pairs[i + 1..], key, elem, d.value) else d
  {
    assert pairs[i..][0] == pairs[i];
    assert pairs[i..][1..] == pairs[i + 1..];
  }

  /** `unmarshalMapKV` (lines 124-141). */
  method UnmarshalMapKV(env: Env, m: Value, p: Pair, key: Shape, elem: Shape) returns (r: Decoded)
    requires Conforms(m, MapOf(key, elem))
    ensures r == DecodeEntry(env, p, key, elem, m)
    decreases PairSize(p), 1
  {
    var dk := UnmarshalValue(env, p.key, key, Zero(key));
    if !dk.status.Done? {
      return Decoded(m, Recovered(p.key, dk.status));
    }
    var dv := UnmarshalValue(env, p.value, elem, Zero(elem));
    if !dv.status.Done? {
      return Decoded(m, Recovered(p.key, dv.status));
    }
    r := SetMapIndex(p.key, m, dk.value, dv.value);
  }

  /** `unmarshalList` (lines 172-200): appends the elements one at a time. */
  method UnmarshalList(env: Env, nodes: seq<Node>, elem: Shape, cur: Value) returns (r: Decoded)
    requires Conforms(cur, SeqOf(elem))
    ensures r == DecodeList(env, nodes, elem, cur)
    decreases SeqSize(nodes), 3
  {
    var f := Compact(env.nodeString, nodes);
    var v := cur;
    var i := 0;
    assert f[0..] == f;
    while i < |f|
      invariant 0 <= i <= |f|
      invariant Conforms(v, SeqOf(elem))
      invariant DecodeListNodes(env, f, elem, cur) == DecodeListNodes(env, f[i..], elem, v)
    {
      SeqSizeElement(f, i);
      assert f[i..][0] == f[i];
      assert f[i..][1..] == f[i + 1..];
      var d := UnmarshalListNode(env, f[i], elem, v);
      if !d.status.Done? {
        return d;
      }
      v := d.value;
      i := i + 1;
    }
    r := Decoded(v, Done);
  }

  /** The body of that loop (lines 174-197), for one non-blank node. */
  method UnmarshalListNode(env: Env, node: Node, elem: Shape, cur: Value) returns (r: Decoded)
    requires Conforms(cur, SeqOf(elem))
    ensures r == DecodeListNode(env, node, elem, cur)
    decreases Size(node), 1
  {
    match node {
      case Headline(tags, children) =>
        if tags != [] {
          return Decoded(cur, Failed(TaggedHeadlineInList(node)));
        }
        var d := UnmarshalValue(env, children, elem, Zero(elem));
        if !d.status.Done? {
          return Decoded(cur, d.status);
        }
        AppendConforms(cur, d.value, elem);
        r := Decoded(Append(cur, d.value), Done);
      case List(kind, items) =>
        if kind == Descriptive {
          return Decoded(cur, Failed(DescriptiveListInList(node)));
        }
        r := UnmarshalItems(env, items, elem, cur);
      case _ =>
        r := Decoded(cur, Failed(NotListNode(node)));
    }
  }

  /** The inner loop of `unmarshalList` (lines 188-194): one element per
      item of a plain list, each of which must be a list item. */
  method UnmarshalItems(env: Env, items: seq<Node>, elem: Shape, cur: Value) returns (r: Decoded)
    requires Conforms(cur, SeqOf(elem))
    ensures r == DecodeItems(env, items, elem, cur)
    decreases SeqSize(items), 0
  {
    var v := cur;
    var j := 0;
    assert items[0..] == items;
    while j < |items|
      invariant 0 <= j <= |items|
      invariant Conforms(v, SeqOf(elem))
      invariant DecodeItems(env, items, elem, cur) == DecodeItems(env, items[j..], elem, v)
    {
      SeqSizeElement(items, j);
      assert items[j..][0] == items[j];
      assert items[j..][1..] == items[j + 1..];
      if !items[j].ListItem? {
        return Decoded(v, Panicked(NotListItem(items[j])));
      }
      var d := UnmarshalValue(env, items[j].children, elem, Zero(elem));
      if !d.status.Done? {
        return Decoded(v, d.status);
      }
      AppendConforms(v, d.value, elem);
      v := Append(v, d.value);
      j := j + 1;
    }
    r := Decoded(v, Done);
  }

  /** `unmarshalStruct` (lines 212-227): writes the matched fields one pair
      at a time. */
  method UnmarshalStruct(env: Env, nodes: seq<Node>, fields: seq<Field>, cur: Value) returns (r: Decoded)
    requires Conforms(cur, Record(fields))
    ensures r == DecodeRecord(env, nodes, fields, cur)
    decreases SeqSize(nodes), 3
  {
    var kv := KvPairs(env.nodeString, nodes);
    if kv.Err? {
      return Decoded(cur, Failed(kv.error));
    }
    var pairs := kv.value;
    var v := cur;
    var i := 0;
    assert pairs[0..] == pairs;
    while i < |pairs|
      invariant 0 <= i <= |pairs|
      invariant Conforms(v, Record(fields))
      invariant DecodeFields(env, pairs, fields, cur) == DecodeFields(env, pairs[i..], fields, v)
    {
      var p := pairs[i];
      PairsSizeElement(pairs, i);
      assert pairs[i..][0] == p;
      assert pairs[i..][1..] == pairs[i + 1..];
      var k := FieldIndex(env, fields, p.key);
      if k != -1 {
        if !fields[k].exported {
          return Decoded(v, Panicked(UnexportedField(fields[k].name)));
        }
        var d := UnmarshalValue(env, p.value, fields[k].shape, v.fieldValues[k]);
        v := VRecord(v.fieldValues[k := d.value]);
        if !d.status.Done? {
          return Decoded(v, d.status);
        }
      }
      i := i + 1;
    }
    r := Decoded(v, Done);
  }

  /** `fieldIndex` (lines 229-238): the first field whose lower-cased name
      is the lower-cased trimmed key text, or -1. */
  method FieldIndex(env: Env, fields: seq<Field>, keyNodes: seq<Node>) returns (i: int)
    ensures i == FieldPosition(fields, KeyText(env, keyNodes))
  {
    var key := TrimSpace(env.orgString(keyNodes));
    var k := 0;
    while k < |fields|
      invariant 0 <= k <= |fields|
      invariant forall j :: 0 <= j < k ==> !NameMatches(fields[j].name, key)
    {
      var name := ToLower(fields[k].name);
      if name == ToLower(key) {
        return k;
      }
      k := k + 1;
    }
    return -1;
  }
}
