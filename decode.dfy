/** What the decoder computes (orgiaml.go:24-238), as functions over values.
    Each function takes the current contents of its target and returns the
    contents afterwards with the way the decode ended; the `Decoder` module
    implements the same operations with the loops of the Go code and is proved
    to compute exactly these functions. */
module DecodeSpec {
  import opened GoStrings
  import opened OrgNodes
  import opened Values
  import opened Blank
  import opened KeyValue
  import opened Stringers

  /** How a custom `UnmarshalOrg` leaves its receiver, and what it returned
      (a `Failed` status for a returned error, `Panicked` for a panic). */
  datatype CustomOutcome = CustomOutcome(state: int, status: Status)

  /** The code the decoder calls but that is not part of it: the decoder's
      configuration; go-org's `Node.String()` and `org.String`; and the
      `UnmarshalOrg` methods of custom types, given the type, the state of the
      receiver and the nodes. */
  datatype Env = Env(
    config: Config,
    nodeString: Node -> string,
    orgString: seq<Node> -> string,
    unmarshalOrg: (nat, int, seq<Node>) -> CustomOutcome)

  /** `unmarshalMapKV`'s deferred `recover`: a panic becomes an error that
      names the key; an error passes through as it is. */
  function Recovered(key: seq<Node>, s: Status): (r: Status)
    ensures !r.Panicked?
    ensures s.Panicked? ==> r == Failed(KeyPanic(key, s.cause))
    ensures !s.Panicked? ==> r == s
  {
    if s.Panicked? then Failed(KeyPanic(key, s.cause)) else s
  }

  /** `SetMapIndex` (line 139): panics on a nil map and on a key that cannot
      be hashed; the deferred `recover` turns either into an error. */
  function SetMapIndex(key: seq<Node>, m: Value, k: Value, v: Value): (r: Decoded)
    requires m.VNil? || m.VMap?
    ensures r.status.Done? ==> m.VMap? && Hashable(k) && r.value == VMap(m.entries[k := v])
    ensures !r.status.Done? ==> r.value == m && !r.status.Panicked?
    ensures m.VNil? ==> r.status == Failed(KeyPanic(key, NilMapWrite))
    ensures m.VMap? && !Hashable(k) ==> r.status == Failed(KeyPanic(key, UnhashableKey(k)))
  {
    if m.VNil? then Decoded(m, Failed(KeyPanic(key, NilMapWrite)))
    else if !Hashable(k) then Decoded(m, Failed(KeyPanic(key, UnhashableKey(k))))
    else Decoded(VMap(m.entries[k := v]), Done)
  }

  /** The text `fieldIndex` matches against the field names (line 230). */
  function KeyText(env: Env, key: seq<Node>): string {
    TrimSpace(env.orgString(key))
  }

  /** A field name matches a key when both lower-case to the same text. */
  predicate NameMatches(name: string, key: string) {
    ToLower(name) == ToLower(key)
  }

  /** The first field from position `i` on whose name matches `key`, or -1. */
  function FieldPositionFrom(fields: seq<Field>, key: string, i: nat): (r: int)
    requires i <= |fields|
    ensures r == -1 || i <= r < |fields|
    ensures r == -1 <==> forall j :: i <= j < |fields| ==> !NameMatches(fields[j].name, key)
    ensures r >= 0 ==> NameMatches(fields[r].name, key)
    ensures r >= 0 ==> forall j :: i <= j < r ==> !NameMatches(fields[j].name, key)
    decreases |fields| - i
  {
    if i == |fields| then -1
    else if NameMatches(fields[i].name, key) then i
    else FieldPositionFrom(fields, key, i + 1)
  }

  /** `fieldIndex`: the first field whose name matches `key`, or -1. */
  function FieldPosition(fields: seq<Field>, key: string): (r: int)
    ensures -1 <= r < |fields|
    ensures r == -1 <==> forall j :: 0 <= j < |fields| ==> !NameMatches(fields[j].name, key)
    ensures r >= 0 ==> NameMatches(fields[r].name, key)
    ensures r >= 0 ==> forall j :: 0 <= j < r ==> !NameMatches(fields[j].name, key)
  {
    FieldPositionFrom(fields, key, 0)
  }

  /** A dynamic decode keeps what it built only if it succeeded
      (lines 91-96 and 103-108). */
  function Commit(cur: Value, d: Decoded): (r: Decoded)
    ensures r.status == d.status
    ensures r.value == if d.status.Done? then d.value else cur
  {
    if d.status.Done? then d else Decoded(cur, d.status)
  }

  /** `unmarshal` (lines 36-58): a custom type decodes itself from the nodes
      as they are; otherwise the kind of the target picks the decoder. */
  function Decode(env: Env, nodes: seq<Node>, shape: Shape, cur: Value): (r: Decoded)
    requires Conforms(cur, shape)
    ensures Conforms(r.value, shape)
    decreases SeqSize(nodes), 6
  {
    match shape
    case Custom(id) =>
      var o := env.unmarshalOrg(id, cur.state, nodes);
      Decoded(VCustom(id, o.state), o.status)
    case SeqOf(elem) => DecodeList(env, nodes, elem, cur)
    case MapOf(key, elem) => DecodeMap(env, nodes, key, elem, cur)
    case Record(fields) => DecodeRecord(env, nodes, fields, cur)
    case Str => Decoded(VStr(env.config.stringer(nodes)), Done)
    case Any => DecodeAny(env, nodes, cur)
    case Unsupported(_) => Decoded(cur, Failed(UnknownType(shape)))
  }

  /** `unmarshalAny` (lines 60-85): the first non-blank node decides whether
      an empty interface receives a map, a list or a string. */
  function DecodeAny(env: Env, nodes: seq<Node>, cur: Value): (r: Decoded)
    ensures !r.status.Done? ==> r.value == cur
    decreases SeqSize(nodes), 5
  {
    var f := Filtered(env.nodeString, nodes);
    if f == [] then Decoded(cur, Done)
    else
      match f[0]
      case List(kind, _) =>
        if kind == Descriptive then DecodeAnyMap(env, f, cur) else DecodeAnyList(env, f, cur)
      case Headline(tags, _) =>
        if |tags| == 1 then DecodeAnyMap(env, f, cur) else DecodeAnyList(env, f, cur)
      case _ =>
        // `unmarshal` into a fresh string, which is always the string case
        Decoded(VStr(env.config.stringer(f)), Done)
  }

  /** `unmarshalAnyMap` (lines 87-97): decode into a fresh, empty
      `map[string]interface{}`. */
  function DecodeAnyMap(env: Env, nodes: seq<Node>, cur: Value): (r: Decoded)
    ensures !r.status.Panicked?
    ensures r.status.Done? ==> r.value.VMap? && Conforms(r.value, MapOf(Str, Any))
    ensures !r.status.Done? ==> r.value == cur
    decreases SeqSize(nodes), 4
  {
    Commit(cur, DecodeMap(env, nodes, Str, Any, VMap(map[])))
  }

  /** `unmarshalAnyList` (lines 99-109): decode into a fresh, empty
      `[]interface{}`. */
  function DecodeAnyList(env: Env, nodes: seq<Node>, cur: Value): (r: Decoded)
    ensures r.status.Done? ==> r.value.VList?
    ensures !r.status.Done? ==> r.value == cur
    decreases SeqSize(nodes), 4
  {
    Commit(cur, DecodeList(env, nodes, Any, VList([])))
  }

  /** `unmarshalMap` (lines 111-122). */
  function DecodeMap(env: Env, nodes: seq<Node>, key: Shape, elem: Shape, cur: Value): (r: Decoded)
    requires Conforms(cur, MapOf(key, elem))
    ensures Conforms(r.value, MapOf(key, elem))
    ensures cur.VMap? ==> r.value.VMap?
    ensures !r.status.Panicked?
    decreases SeqSize(nodes), 3
  {
    match KeyValuePairs(env.nodeString, nodes)
    case Err(e) => Decoded(cur, Failed(e))
    case Ok(pairs) => DecodeEntries(env, pairs, key, elem, cur)
  }

  /** The loop of `unmarshalMap`: the pairs in order, up to the first one
      that fails. */
  function DecodeEntries(env: Env, pairs: seq<Pair>, key: Shape, elem: Shape, cur: Value): (r: Decoded)
    requires Conforms(cur, MapOf(key, elem))
    ensures Conforms(r.value, MapOf(key, elem))
    ensures cur.VMap? ==> r.value.VMap?
    ensures !r.status.Panicked?
    decreases PairsSize(pairs), 2
  {
    if pairs == [] then Decoded(cur, Done)
    else
      var d := DecodeEntry(env, pairs[0], key, elem, cur);
      if d.status.Done? then DecodeEntries(env, pairs[1..], key, elem, d.value) else d
  }

  /** `unmarshalMapKV` (lines 124-141): decode the key, then the value, each
      into a fresh zero value, and store the entry. */
  function DecodeEntry(env: Env, p: Pair, key: Shape, elem: Shape, cur: Value): (r: Decoded)
    requires Conforms(cur, MapOf(key, elem))
    ensures Conforms(r.value, MapOf(key, elem))
    ensures cur.VMap? ==> r.value.VMap?
    ensures !r.status.Panicked?
    decreases PairSize(p), 1
  {
    var dk := Decode(env, p.key, key, Zero(key));
    if !dk.status.Done? then Decoded(cur, Recovered(p.key, dk.status))
    else
      var dv := Decode(env, p.value, elem, Zero(elem));
      if !dv.status.Done? then Decoded(cur, Recovered(p.key, dv.status))
      else SetMapIndex(p.key, cur, dk.value, dv.value)
  }

  /** `unmarshalList` (lines 172-200). */
  function DecodeList(env: Env, nodes: seq<Node>, elem: Shape, cur: Value): (r: Decoded)
    requires Conforms(cur, SeqOf(elem))
    ensures Conforms(r.value, SeqOf(elem))
    ensures cur.VList? ==> r.value.VList?
    decreases SeqSize(nodes), 3
  {
    DecodeListNodes(env, Filtered(env.nodeString, nodes), elem, cur)
  }

  /** The loop of `unmarshalList` over the non-blank nodes, up to the first
      node that fails. */
  function DecodeListNodes(env: Env, f: seq<Node>, elem: Shape, cur: Value): (r: Decoded)
    requires Conforms(cur, SeqOf(elem))
    ensures Conforms(r.value, SeqOf(elem))
    ensures cur.VList? ==> r.value.VList?
    decreases SeqSize(f), 2
  {
    if f == [] then Decoded(cur, Done)
    else
      var d := DecodeListNode(env, f[0], elem, cur);
      if d.status.Done? then DecodeListNodes(env, f[1..], elem, d.value) else d
  }

  /** One pass of that loop: an untagged headline gives one element, a plain
      list one per item. */
  function DecodeListNode(env: Env, node: Node, elem: Shape, cur: Value): (r: Decoded)
    requires Conforms(cur, SeqOf(elem))
    ensures Conforms(r.value, SeqOf(elem))
    ensures cur.VList? ==> r.value.VList?
    decreases Size(node), 1
  {
    match node
    case Headline(tags, children) =>
      if tags != [] then Decoded(cur, Failed(TaggedHeadlineInList(node)))
      else
        var d := Decode(env, children, elem, Zero(elem));
        if !d.status.Done? then Decoded(cur, d.status)
        else
          AppendConforms(cur, d.value, elem);
          Decoded(Append(cur, d.value), Done)
    case List(kind, items) =>
      if kind == Descriptive then Decoded(cur, Failed(DescriptiveListInList(node)))
      else DecodeItems(env, items, elem, cur)
    case _ => Decoded(cur, Failed(NotListNode(node)))
  }

  /** The inner loop of `unmarshalList` (lines 188-194) over the items of a
      plain list; an item that is not a list item fails the unchecked type
      assertion at line 190. */
  function DecodeItems(env: Env, items: seq<Node>, elem: Shape, cur: Value): (r: Decoded)
    requires Conforms(cur, SeqOf(elem))
    ensures Conforms(r.value, SeqOf(elem))
    ensures cur.VList? ==> r.value.VList?
    decreases SeqSize(items), 0
  {
    if items == [] then Decoded(cur, Done)
    else
      assert SeqSize(items) == Size(items[0]) + SeqSize(items[1..]);
      match items[0]
      case ListItem(children) =>
        var d := Decode(env, children, elem, Zero(elem));
        if !d.status.Done? then Decoded(cur, d.status)
        else
          AppendConforms(cur, d.value, elem);
          DecodeItems(env, items[1..], elem, Append(cur, d.value))
      case _ => Decoded(cur, Panicked(NotListItem(items[0])))
  }

  /** `unmarshalStruct` (lines 212-227). */
  function DecodeRecord(env: Env, nodes: seq<Node>, fields: seq<Field>, cur: Value): (r: Decoded)
    requires Conforms(cur, Record(fields))
    ensures Conforms(r.value, Record(fields))
    decreases SeqSize(nodes), 3
  {
    match KeyValuePairs(env.nodeString, nodes)
    case Err(e) => Decoded(cur, Failed(e))
    case Ok(pairs) => DecodeFields(env, pairs, fields, cur)
  }

  /** The loop of `unmarshalStruct`: the pairs in order, up to the first one
      that fails. */
  function DecodeFields(env: Env, pairs: seq<Pair>, fields: seq<Field>, cur: Value): (r: Decoded)
    requires Conforms(cur, Record(fields))
    ensures Conforms(r.value, Record(fields))
    decreases PairsSize(pairs), 2
  {
    if pairs == [] then Decoded(cur, Done)
    else
      var d := DecodeField(env, pairs[0], fields, cur);
      if d.status.Done? then DecodeFields(env, pairs[1..], fields, d.value) else d
  }

  /** One pass of that loop: a key that names no field is skipped; otherwise
      the value is decoded in place into the field it names. Taking the
      address of an unexported field and asking for its interface (line 37)
      panics. */
  function DecodeField(env: Env, p: Pair, fields: seq<Field>, cur: Value): (r: Decoded)
    requires Conforms(cur, Record(fields))
    ensures Conforms(r.value, Record(fields))
    decreases PairSize(p), 1
  {
    var i := FieldPosition(fields, KeyText(env, p.key));
    if i == -1 then Decoded(cur, Done)
    else if !fields[i].exported then Decoded(cur, Panicked(UnexportedField(fields[i].name)))
    else
      var d := Decode(env, p.value, fields[i].shape, cur.fieldValues[i]);
      Decoded(VRecord(cur.fieldValues[i := d.value]), d.status)
  }

  /** What the caller of `Unmarshal` passes as `pointer`. */
  datatype Target =
    | NilInterface                          // a nil `interface{}`
    | NonPointer(typeName: string)          // a value that is not a pointer
    | NilPointer(typeName: string)          // a nil pointer
    | Pointer(shape: Shape, value: Value)   // a pointer to a value of type `shape`

  /** What the go-org parser made of the input. */
  datatype Document = Parsed(nodes: seq<Node>) | ParseFailed(message: string)

  /** The target after `Unmarshal`, and how it ended. */
  datatype Unmarshalled = Unmarshalled(target: Target, status: Status)

  predicate WellTyped(t: Target) {
    t.Pointer? ==> Conforms(t.value, t.shape)
  }

  /** The decode of a parsed document into a valid pointer (lines 29-33). */
  function DecodeDocument(env: Env, shape: Shape, value: Value, doc: Document): (r: Unmarshalled)
    requires Conforms(value, shape)
    ensures r.target.Pointer? && r.target.shape == shape && Conforms(r.target.value, shape)
  {
    match doc
    case ParseFailed(message) => Unmarshalled(Pointer(shape, value), Failed(ParseError(message)))
    case Parsed(nodes) =>
      var d := Decode(env, nodes, shape, value);
      Unmarshalled(Pointer(shape, d.value), d.status)
  }

  /** `Config.Unmarshal` as written (lines 24-34): on a nil interface,
      `v.Type()` of the zero `reflect.Value` panics while making the error. */
  function UnmarshalOutcomeAsWritten(env: Env, target: Target, doc: Document): (r: Unmarshalled)
    requires WellTyped(target)
    ensures WellTyped(r.target)
    ensures !target.Pointer? ==> r.target == target && !r.status.Done?
  {
    match target
    case NilInterface => Unmarshalled(target, Panicked(TypeOfNil))
    case NonPointer(name) => Unmarshalled(target, Failed(CannotUnmarshalInto(name)))
    case NilPointer(name) => Unmarshalled(target, Failed(CannotUnmarshalInto(name)))
    case Pointer(shape, value) => DecodeDocument(env, shape, value, doc)
  }

  /** The type name Go prints for a nil interface. */
  const NilTypeName: string := "<nil>"

  /** `Config.Unmarshal` as intended: every target that is not a non-nil
      pointer is refused with an error. */
  function UnmarshalOutcome(env: Env, target: Target, doc: Document): (r: Unmarshalled)
    requires WellTyped(target)
    ensures WellTyped(r.target)
    ensures !target.Pointer? ==> r.target == target && r.status.Failed? && r.status.error.CannotUnmarshalInto?
  {
    match target
    case NilInterface => Unmarshalled(target, Failed(CannotUnmarshalInto(NilTypeName)))
    case NonPointer(name) => Unmarshalled(target, Failed(CannotUnmarshalInto(name)))
    case NilPointer(name) => Unmarshalled(target, Failed(CannotUnmarshalInto(name)))
    case Pointer(shape, value) => DecodeDocument(env, shape, value, doc)
  }
}
