# orgiaml decoder, modelled in Dafny

`orgiaml` decodes an org-mode document into a Go value. The document's
headlines, lists and list items become the entries of a map, the fields of
a struct, the elements of a slice or the text of a string, depending on
the type of the target. An empty-interface target takes its shape from the
first non-blank node: a map, a slice or a string. Key/value pairs come from
headlines with exactly one tag (the tag is the key, the children are the
value) and from descriptive list items (term and details). Blank nodes are
dropped first. A type whose pointer implements `Unmarshaler` decodes itself.

The model has two halves:

- **Specification functions** (module `DecodeSpec`). Each decode is a
  function from the target's current contents to its contents afterwards,
  paired with how the decode ended (`Done`, `Failed(error)` or
  `Panicked(cause)`). The Go code decodes in place, so a failure leaves
  behind whatever was written before it (elements appended, entries
  stored, fields set), and the functions return exactly that.
- **Imperative methods** (modules `Decoder`, `KeyValue`, `Blank`). These
  have the loops of the Go code: `withoutEmptyParagraphs` compacts an
  `array` in place; `kvPairs` appends to the pair list; `unmarshalList`,
  `unmarshalMap` and `unmarshalStruct` append, store or write field by
  field and return at the first failure; `fieldIndex` searches with an
  early return. Each method is proved to compute its specification
  function.

The properties of the decoder are proved as lemmas about those functions:
modules `ListFacts`, `MapFacts`, `RecordFacts` and `DispatchFacts`, plus
worked examples in `Scenarios`.

Reflection is replaced by data:

- a `Shape` is the static type of a target (slice, map, struct, string,
  empty interface, custom decodable, anything else);
- a `Value` is its contents;
- `Conforms` is Go's typing of values. Every decode preserves it.

The go-org library stays outside the model. Its `Node.String()`, its
`org.String`, the configured stringer and custom `UnmarshalOrg` methods
are parameters, collected in `DecodeSpec.Env`.

Modules, in dependency order:

- `GoStrings`: the `strings` functions used;
- `OrgNodes`: the node tree;
- `Values`: shapes, values, errors;
- `Blank`: the blank filter;
- `KeyValue`: `kvPairs`;
- `Stringers`: `HTMLStringer` and `OrgStringer`;
- `DecodeSpec`, `Decoder`;
- the fact modules and `Scenarios`.

Where the decoder's evident intent and its code differ, the model follows
the code:

- Some failures are run-time panics, not returned errors, and they
  propagate. They are:
  - an item of a plain list that is not a list item (the unchecked type
    assertion at line 190);
  - decoding into an unexported struct field (`v.Interface()` at line 37);
  - storing into a nil map (`SetMapIndex` at line 139);
  - a map key that cannot be hashed.
- Only `unmarshalMapKV` recovers, and it attaches the key only to a
  recovered panic. An error returned by a key or value decode passes
  through without the key.
- Empty or all-blank input is a no-op, without error, only for slice,
  map, struct and empty-interface targets. For the other kinds:
  - a string target is set to the stringer's text of the nodes, unfiltered;
  - a custom type receives the nodes;
  - an unsupported kind is an error.
- Pairs naming different fields can come in either order, but only when
  the decode succeeds. A failure keeps the writes done before it.
- A field whose decode fails is still written with what that decode left
  behind, before the error is returned.

## Model

| member | source | states |
|---|---|---|
| GoStrings.TrimSpace | orgiaml/orgiaml.go:248 | the result starts and ends with no white space, is no longer than the input, and is empty exactly when the input is all white space |
| GoStrings.Index | orgiaml/orgiaml.go:244 | the first position where the pattern occurs, or -1 exactly when it occurs nowhere |
| GoStrings.LastIndex | orgiaml/orgiaml.go:244 | the last position where the pattern occurs, or -1 exactly when it occurs nowhere |
| Stringers.HtmlPostProcess | orgiaml/orgiaml.go:243-248 | the post-processed HTML is no longer than the rendered HTML and is trimmed at both ends |
| Stringers.HtmlStringer | orgiaml/orgiaml.go:240-249 | `HTMLStringer`'s text never starts or ends with white space; it is the stringer of the default configuration (`New`, lines 18-22, modelled by `Stringers.New`) |
| Stringers.OrgStringer | orgiaml/orgiaml.go:251-253 | `OrgStringer`'s text is trimmed, no longer than the org rendering, and empty exactly when the rendering is all white space |
| Stringers.SingleParagraphTest | orgiaml/orgiaml.go:244-245 | `first == last` holds exactly when `<p>` occurs at most once |
| Stringers.SeveralParagraphsOnlyTrimmed | orgiaml/orgiaml.go:244-248 | with two occurrences of `<p>` the HTML is only trimmed |
| Stringers.SingleParagraphUnwrapped | orgiaml/orgiaml.go:245-248 | a single paragraph `<p>body</p>\n` becomes the trimmed body |
| Stringers.NoParagraphStillUnsuffixed | orgiaml/orgiaml.go:245-248 | with no `<p>` at all, a trailing `</p>\n` is still removed before trimming |
| Stringers.TrimSpacePadded | orgiaml/orgiaml.go:248 | trimming removes exactly the white-space padding around a text that does not start or end in white space |
| Stringers.TrimSpaceIdempotent | orgiaml/orgiaml.go:248 | trimming a trimmed text changes nothing |
| Blank.Filtered | orgiaml/orgiaml.go:202-210 | the kept nodes are no more than the input and none of them is blank |
| Blank.FilteredAppend | orgiaml/orgiaml.go:204-208 | filtering commutes with concatenation, so order is kept |
| Blank.FilteredSingle | orgiaml/orgiaml.go:205-207 | a single node is kept exactly when its trimmed text is non-empty |
| Blank.FilteredMembers | orgiaml/orgiaml.go:204-208 | a node is kept exactly when it is in the input and not blank |
| Blank.FilteredIdempotent | orgiaml/orgiaml.go:61 | filtering again, as `kvPairs` and `unmarshalList` do after `unmarshalAny`, changes nothing |
| Blank.FilteredEmptyIff | orgiaml/orgiaml.go:61-64 | nothing is left exactly when every node is blank |
| Blank.WithoutEmptyParagraphs | orgiaml/orgiaml.go:202-210 | the kept nodes are compacted, in order, into the front of the caller's own array; the count is returned, and the rest of the array is untouched |
| Blank.Compact | orgiaml/orgiaml.go:145 | the filter run on an array holding the nodes returns exactly the non-blank nodes |
| KeyValue.ItemPairs | orgiaml/orgiaml.go:155-161 | the items of a descriptive list give one (term, details) pair each, in order, exactly when every item is a descriptive list item |
| KeyValue.ItemPairsError | orgiaml/orgiaml.go:156-158 | the error names the first item that is not a descriptive list item |
| KeyValue.NodePairs | orgiaml/orgiaml.go:146-166 | a headline with one tag gives the pair ([Text(tag)], children); another headline gives the untagged-headline error; a descriptive list gives its item pairs; anything else gives the not-a-map error |
| KeyValue.ExtractPairs | orgiaml/orgiaml.go:145-168 | succeeds exactly when every node gives pairs, and the pairs are no larger than the nodes |
| KeyValue.KeyValuePairs | orgiaml/orgiaml.go:143-170 | `kvPairs` succeeds exactly when every non-blank node gives pairs |
| KeyValue.ExtractPairsAppend | orgiaml/orgiaml.go:145-168 | the pairs of a concatenation are the pairs of its parts, in document order |
| KeyValue.ExtractPairsError | orgiaml/orgiaml.go:145-168 | the error is the one the first unsuitable node gives |
| KeyValue.AppendItemPairs | orgiaml/orgiaml.go:155-161 | the inner loop appends the item pairs to the pairs so far, or stops at the first unsuitable item |
| KeyValue.KvPairs | orgiaml/orgiaml.go:143-170 | the loop of `kvPairs` computes `KeyValuePairs` |
| DecodeSpec.FieldPositionFrom | orgiaml/orgiaml.go:231-236 | the first matching field from a position on, or -1 exactly when none matches |
| DecodeSpec.FieldPosition | orgiaml/orgiaml.go:229-238 | the first field whose lower-cased name equals the lower-cased key, or -1 exactly when none does |
| DecodeSpec.Decode | orgiaml/orgiaml.go:36-58 | every decode leaves the target a value of its type |
| DecodeSpec.DecodeAny | orgiaml/orgiaml.go:60-85 | a failed dynamic decode leaves the interface as it was |
| DecodeSpec.DecodeAnyMap | orgiaml/orgiaml.go:87-97 | never panics; on success the interface holds a `map[string]interface{}`; on failure it is unchanged |
| DecodeSpec.DecodeAnyList | orgiaml/orgiaml.go:99-109 | on success the interface holds a slice; on failure it is unchanged |
| DecodeSpec.DecodeMap | orgiaml/orgiaml.go:111-122 | a map decode keeps the map's type, keeps a non-nil map non-nil, and never panics |
| DecodeSpec.DecodeEntries | orgiaml/orgiaml.go:116-120 | the same, for the loop over the pairs |
| DecodeSpec.DecodeEntry | orgiaml/orgiaml.go:124-141 | the same, for one entry |
| DecodeSpec.DecodeList | orgiaml/orgiaml.go:172-200 | the slice keeps its type and a non-nil slice stays non-nil |
| DecodeSpec.DecodeListNodes | orgiaml/orgiaml.go:173-198 | the same, for the loop over the non-blank nodes |
| DecodeSpec.DecodeListNode | orgiaml/orgiaml.go:174-197 | the same, for one node |
| DecodeSpec.DecodeItems | orgiaml/orgiaml.go:188-194 | the same, for the items of one plain list |
| DecodeSpec.DecodeRecord | orgiaml/orgiaml.go:212-227 | the struct keeps its type |
| DecodeSpec.DecodeFields | orgiaml/orgiaml.go:217-225 | the same, for the loop over the pairs |
| DecodeSpec.DecodeField | orgiaml/orgiaml.go:218-224 | the same, for one pair |
| DecodeSpec.DecodeDocument | orgiaml/orgiaml.go:29-33 | decoding a document leaves the pointer pointing to a value of its type |
| DecodeSpec.UnmarshalOutcomeAsWritten | orgiaml/orgiaml.go:24-34 | as written, a target that is not a non-nil pointer is left alone and the call does not succeed |
| DecodeSpec.UnmarshalOutcome | orgiaml/orgiaml.go:24-34 | corrected: every target that is not a non-nil pointer is refused with a cannot-unmarshal error |
| Decoder.Unmarshal | orgiaml/orgiaml.go:24-34 | computes the corrected `UnmarshalOutcome` |
| Decoder.UnmarshalValue | orgiaml/orgiaml.go:36-58 | computes `Decode` |
| Decoder.UnmarshalAny | orgiaml/orgiaml.go:60-85 | computes `DecodeAny` |
| Decoder.UnmarshalAnyMap | orgiaml/orgiaml.go:87-97 | computes `DecodeAnyMap` |
| Decoder.UnmarshalAnyList | orgiaml/orgiaml.go:99-109 | computes `DecodeAnyList` |
| Decoder.UnmarshalMap | orgiaml/orgiaml.go:111-122 | computes `DecodeMap` |
| Decoder.StoreEntries | orgiaml/orgiaml.go:116-120 | the loop storing the entries pair by pair, returning at the first failure, computes `DecodeEntries` |
| Decoder.UnmarshalMapKV | orgiaml/orgiaml.go:124-141 | computes `DecodeEntry` |
| Decoder.UnmarshalList | orgiaml/orgiaml.go:172-200 | the loop appending node by node computes `DecodeList` |
| Decoder.UnmarshalListNode | orgiaml/orgiaml.go:174-197 | computes `DecodeListNode` |
| Decoder.UnmarshalItems | orgiaml/orgiaml.go:188-194 | the loop appending item by item computes `DecodeItems` |
| Decoder.UnmarshalStruct | orgiaml/orgiaml.go:212-227 | the loop writing field by field computes `DecodeRecord` |
| Decoder.FieldIndex | orgiaml/orgiaml.go:229-238 | the search loop returns `FieldPosition` of the trimmed key text |
| ListFacts.ItemsDone | orgiaml/orgiaml.go:188-194 | the items decode exactly when each is a list item and each element decodes |
| ListFacts.ItemsAppended | orgiaml/orgiaml.go:188-194 | then one element per item is appended, in order |
| ListFacts.ItemsKeepPrefix | orgiaml/orgiaml.go:188-194 | the slice's earlier elements always stay |
| ListFacts.ListNodeDone | orgiaml/orgiaml.go:174-197 | one node decodes exactly when it is an untagged headline or a plain list of list items and its elements decode |
| ListFacts.ListNodeAppended | orgiaml/orgiaml.go:174-197 | then its elements are appended, in order |
| ListFacts.ListNodesDone | orgiaml/orgiaml.go:173-198 | the loop succeeds exactly when every node is list-shaped and every element decodes |
| ListFacts.ListNodesAppended | orgiaml/orgiaml.go:173-198 | on success the slice holds its old elements followed by one per headline and per item, in document order |
| ListFacts.ListNodesKeepPrefix | orgiaml/orgiaml.go:173-198 | whatever happens, earlier elements stay |
| ListFacts.ListOutcome | orgiaml/orgiaml.go:172-200 | `unmarshalList`: success exactly when every non-blank node is list-shaped and every element decodes; the old elements then the new ones, in document order; the old elements kept on failure |
| ListFacts.ListRejectsNode | orgiaml/orgiaml.go:175-196 | a tagged headline, a descriptive list or any other node, met after the nodes before it have decoded, ends the decode with its own error; the slice keeps the elements those earlier nodes appended |
| MapFacts.EntryOutcome | orgiaml/orgiaml.go:124-141 | an entry is stored exactly when key and value decode, the map is non-nil and the key hashable; otherwise the map is unchanged and a panic comes back as an error naming the key |
| MapFacts.EntriesSplit | orgiaml/orgiaml.go:116-120 | the pairs of `a + b` are decoded as `a`, then `b` on its result |
| MapFacts.LastPairWins | orgiaml/orgiaml.go:116-120 | the last pair is stored over what the earlier ones left, so a later pair with the same key overwrites the entry |
| MapFacts.FirstFailureAborts | orgiaml/orgiaml.go:117-119 | the first failing pair ends the decode; later pairs are not looked at |
| MapFacts.FailingPairReported | orgiaml/orgiaml.go:125-137 | a failing key or value decode ends the map decode with the entries before it; a panic is wrapped with the key, an error is not |
| MapFacts.NilMapTakesNoEntry | orgiaml/orgiaml.go:139 | a nil map takes no entry: the first pair whose key and value decode panics in `SetMapIndex`, wrapped with its key |
| MapFacts.EntriesKeys | orgiaml/orgiaml.go:116-120 | after success the map holds exactly its old keys and the pairs' keys; entries no pair names are unchanged |
| RecordFacts.FieldOutcome | orgiaml/orgiaml.go:218-224 | an unmatched pair changes nothing; an unexported field panics; an exported field is decoded in place from its contents and is the only field written |
| RecordFacts.FieldsSplit | orgiaml/orgiaml.go:217-225 | the pairs of `a + b` are decoded as `a`, then `b` on its result |
| RecordFacts.UnmatchedKeySkipped | orgiaml/orgiaml.go:218-221 | a pair whose key names no field is skipped as if absent |
| RecordFacts.OnlyMatchedFieldsWritten | orgiaml/orgiaml.go:217-225 | a field no pair names keeps its contents, whatever the outcome |
| RecordFacts.TwoFieldsCommute | orgiaml/orgiaml.go:218-224 | two successful passes writing different fields commute |
| RecordFacts.DistinctFieldsCommute | orgiaml/orgiaml.go:217-225 | swapping neighbouring pairs that name different fields does not change a successful decode |
| DispatchFacts.CustomTakesPrecedence | orgiaml/orgiaml.go:37-39 | a custom decoder gets the nodes unfiltered and alone decides the outcome |
| DispatchFacts.StringTargetUnfiltered | orgiaml/orgiaml.go:47-49 | a string target is set to the stringer's text of all the nodes, and never fails |
| DispatchFacts.UnsupportedTargetFails | orgiaml/orgiaml.go:50-57 | any other kind is refused and left as it was |
| DispatchFacts.BlankInputIsNoOp | orgiaml/orgiaml.go:61-64 | all-blank input leaves a slice, map, struct or empty-interface target as it was, without error |
| DispatchFacts.RefilterChangesNothing | orgiaml/orgiaml.go:61 | decoding the filtered nodes into the fresh dynamic map or slice is decoding all of them |
| DispatchFacts.AnyClassification | orgiaml/orgiaml.go:65-84 | a descriptive list or one-tag headline first gives a fresh map; another list or headline a fresh slice; anything else the stringer's text |
| DispatchFacts.AnyMultiTagHeadlineFails | orgiaml/orgiaml.go:71-75 | a headline with two or more tags first fails as a tagged headline in a list |
| DispatchFacts.AnyMapKeys | orgiaml/orgiaml.go:87-97 | a successful dynamic map needs every non-blank node to give pairs and holds exactly their keys |
| DispatchFacts.AnyListElements | orgiaml/orgiaml.go:99-109 | a successful dynamic slice needs every non-blank node list-shaped and holds one element per headline and item, in order |
| DispatchFacts.RejectedBeforeParse | orgiaml/orgiaml.go:25-28 | a target that is not a non-nil pointer fails whatever the document |
| DispatchFacts.ParseErrorReported | orgiaml/orgiaml.go:29-32 | a parse error is returned and the target untouched |
| DispatchFacts.NilInterfacePanics | orgiaml/orgiaml.go:25-27 | as written, a nil interface panics while the error is built; corrected, it is an error |
| DispatchFacts.CorrectedAgreesOtherwise | orgiaml/orgiaml.go:24-34 | the correction changes nothing but the nil-interface case |
| Scenarios.TaggedHeadlineIntoMap | orgiaml/orgiaml.go:147-152 | `* Name :tag:` over `Alice` into an empty `map[string]string` gives `{"tag": "Alice"}` |
| Scenarios.TaggedHeadlineIntoNilMap | orgiaml/orgiaml.go:139 | the same into a nil map fails with the key and the nil-map panic |
| Scenarios.ItemsIntoSlice | orgiaml/orgiaml.go:184-194 | `- A`, `- B` into a nil `[]string` gives `["A", "B"]` |
| Scenarios.NamePair | orgiaml/orgiaml.go:155-160 | the item `Name :: Alice` gives the one pair (Name, Alice), whose key text is `Name` |
| Scenarios.DescriptiveItemIntoStruct | orgiaml/orgiaml.go:217-224 | that item sets the field `Name` of a struct to `"Alice"` |
| Scenarios.DescriptiveItemUnmatched | orgiaml/orgiaml.go:218-221 | into a struct whose only field is `Age`, it succeeds with the field unset |
| Scenarios.UntaggedHeadlineIntoMap | orgiaml/orgiaml.go:148-150 | an untagged headline into a map fails with an error naming the headline |

## Left out

- Reading the input and parsing it with go-org (line 29) are left out. The
  parse result is a `Document` parameter: the nodes, or the parser's error.
- go-org's `Node.String()`, its HTML writer and `org.String` are foreign
  code. They are the functions `nodeString`, `render` and `orgString`.
  Only what the decoder does with their results is modelled.
- A custom type's `UnmarshalOrg` is a parameter over an opaque integer
  state. What it does with the nodes is its own business.
- Errors are datatypes naming the offending node or key, not formatted
  messages. `fmt`'s rendering of nodes with `%s` and `%#v` is left out.
- Go reflection is replaced by `Shape` and `Value`. Every kind the
  dispatcher refuses is one `Unsupported` shape. That includes an
  interface with methods, which falls through to the error at line 56.
- The `Unmarshaler` test applies at each level, on any type. The model
  has it only for the `Custom` shape. A slice, map or struct type with
  its own `UnmarshalOrg` is written as `Custom`.
- Decoder.UnmarshalList, Decoder.UnmarshalMap, Decoder.UnmarshalStruct and
  Decoder.UnmarshalAny return the target's new contents instead of writing
  through a pointer. The Go code compacts the caller's own node slice in
  place; these methods filter a fresh array, through `Blank.Compact`. An
  error message that prints an input slice after compaction would show the
  compacted prefix; the model keeps the original.
  `Blank.WithoutEmptyParagraphs` itself does keep the in-place compaction
  of one array.
- The map iteration order of the resulting values is left out. The
  decoder never iterates over a map.
- GoStrings.ToLower: lower-cases ASCII letters only. Go's
  `strings.ToLower` follows Unicode, so two field names that differ by
  non-ASCII case match in Go but not in the model.
- GoStrings.Index and GoStrings.LastIndex count positions in characters,
  not UTF-8 bytes. The decoder only compares the two results, and that
  comparison is the same either way.
- Values.Hashable: decides hashability from the stored value. Go decides
  it from the dynamic type, and only an interface-typed key can reach
  `SetMapIndex` with an unhashable value.
- A `Config` whose `Stringer` is nil (a nil function call) is not
  representable.
- `main.go` (HTTP serving, file watching, templates) and the fixture
  tests are out of scope.

## Findings

| source | as written | input that shows it | evidently intended | confidence | as-written member | corrected member |
|---|---|---|---|---|---|---|
| orgiaml/orgiaml.go:25-27 | for a nil `pointer`, `reflect.ValueOf(nil)` is the zero `Value`, and building the error calls `v.Type()` on it, which panics | `Unmarshal(input, path, nil)` | return a "cannot unmarshal into" error, as for every other target that is not a non-nil pointer | high; not executed | DecodeSpec.UnmarshalOutcomeAsWritten (shown by DispatchFacts.NilInterfacePanics) | DecodeSpec.UnmarshalOutcome and Decoder.Unmarshal (proved by DispatchFacts.RejectedBeforeParse and DispatchFacts.CorrectedAgreesOtherwise) |
