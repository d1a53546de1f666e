/** Decode targets, the values stored in them, and the outcome of a decode.
    The Go program inspects its targets by reflection; here the static type
    of a target is a `Shape` and its contents a `Value`. */
module Values {
  import opened OrgNodes

  /** A struct field: its Go name, its type, and whether it is exported. */
  datatype Field = Field(name: string, shape: Shape, exported: bool)

  /** The kind of the value a pointer points to, as `unmarshal` classifies it.
      `Custom(id)` is a type whose pointer implements `Unmarshaler`; `Any` is
      the empty interface; `Unsupported` is every other kind (numbers,
      pointers, interfaces with methods, ...). */
  datatype Shape =
    | SeqOf(elem: Shape)
    | MapOf(key: Shape, elem: Shape)
    | Record(fields: seq<Field>)
    | Str
    | Any
    | Custom(id: nat)
    | Unsupported(name: string)

  /** A Go value. `VNil` is a nil slice, a nil map or a nil interface;
      `VCustom` holds the state of a custom type, which only its own
      `UnmarshalOrg` interprets; `VOpaque` is a value of an unsupported kind. */
  datatype Value =
    | VNil
    | VStr(str: string)
    | VList(items: seq<Value>)
    | VMap(entries: map<Value, Value>)
    | VRecord(fieldValues: seq<Value>)
    | VCustom(id: nat, state: int)
    | VOpaque(name: string)

  /** `v` is a value of the Go type `s`. An interface holds anything. */
  predicate Conforms(v: Value, s: Shape)
    decreases s
  {
    match s
    case SeqOf(e) =>
      v.VNil? || (v.VList? && forall i :: 0 <= i < |v.items| ==> Conforms(v.items[i], e))
    case MapOf(k, e) =>
      v.VNil? || (v.VMap? && forall x :: x in v.entries ==> Conforms(x, k) && Conforms(v.entries[x], e))
    case Record(fields) =>
      v.VRecord? && |v.fieldValues| == |fields|
      && forall i :: 0 <= i < |fields| ==> Conforms(v.fieldValues[i], fields[i].shape)
    case Str => v.VStr?
    case Any => true
    case Custom(id) => v.VCustom? && v.id == id
    case Unsupported(name) => v == VOpaque(name)
  }

  /** The zero value of a type, as `reflect.New` allocates it. */
  function Zero(s: Shape): (v: Value)
    ensures Conforms(v, s)
    decreases s
  {
    match s
    case SeqOf(_) => VNil
    case MapOf(_, _) => VNil
    case Record(fields) =>
      VRecord(seq(|fields|, i requires 0 <= i < |fields| => Zero(fields[i].shape)))
    case Str => VStr("")
    case Any => VNil
    case Custom(id) => VCustom(id, 0)
    case Unsupported(name) => VOpaque(name)
  }

  /** Whether a value may be used as a map key at run time: slices and maps
      cannot, and neither can a struct that holds one. */
  predicate Hashable(v: Value) {
    match v
    case VList(_) => false
    case VMap(_) => false
    case VRecord(fs) => forall i :: 0 <= i < |fs| ==> Hashable(fs[i])
    case _ => true
  }

  /** `reflect.Append`: appending to a nil slice makes a non-nil one. */
  function Append(list: Value, x: Value): (r: Value)
    requires list.VNil? || list.VList?
    ensures r.VList? && r.items == (if list.VNil? then [] else list.items) + [x]
  {
    if list.VNil? then VList([x]) else VList(list.items + [x])
  }

  lemma AppendConforms(list: Value, x: Value, e: Shape)
    requires Conforms(list, SeqOf(e)) && Conforms(x, e)
    ensures Conforms(Append(list, x), SeqOf(e))
  {
  }

  /** The causes of the run-time panics the decoder can raise. */
  datatype PanicCause =
    | NotListItem(item: Node)          // the unchecked `node.(org.ListItem)` assertion
    | NilMapWrite                      // `SetMapIndex` on a nil map
    | UnhashableKey(key: Value)        // `SetMapIndex` with a slice or map inside the key
    | UnexportedField(field: string)   // `v.Interface()` on an unexported struct field
    | TypeOfNil                        // `reflect.Value{}.Type()`
    | CustomPanic(message: string)     // raised by a custom `UnmarshalOrg`

  /** The errors the decoder returns. */
  datatype Error =
    | CannotUnmarshalInto(typeName: string)  // the top-level target is not a non-nil pointer
    | ParseError(message: string)            // reported by the go-org parser
    | UnknownType(shape: Shape)              // the target kind is not supported
    | HeadlineNotPair(headline: Node)        // a key/value headline without exactly one tag
    | ItemNotPair(item: Node)                // a descriptive list holding another kind of item
    | NotMapNode(node: Node)                 // a plain list or another node where pairs are expected
    | TaggedHeadlineInList(headline: Node)
    | DescriptiveListInList(list: Node)
    | NotListNode(node: Node)
    | KeyPanic(key: seq<Node>, cause: PanicCause)  // a panic recovered while decoding one map entry
    | CustomError(message: string)           // returned by a custom `UnmarshalOrg`

  datatype Status = Done | Failed(error: Error) | Panicked(cause: PanicCause)

  /** The state of a target after a decode into it, and how the decode ended.
      Go decodes in place, so a failed decode leaves behind whatever it had
      written before the failure. */
  datatype Decoded = Decoded(value: Value, status: Status)

  datatype Result<T> = Ok(value: T) | Err(error: Error)
}
