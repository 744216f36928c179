# XML decoding engine: a verified model

This project models the decoding engine of a music-notation loader that maps
a parsed XML tree onto typed values with serde. The engine has three parts:

- The **element decoder** (`ElementDeserializer`). It keeps two forward-only
  cursors over one element, one over its attributes and one over its
  children. Requests from the target type advance them.
- The **scalar decoder** (`TextDeserializer`). It turns one attribute value
  or text run into a string, a fixed-width integer, a `yes`/`no` boolean, an
  enum variant or an always-present option.
- The **sequence decoders** (`SeqDeserializer`, `EmptySeqDeserializer`).
  `SeqDeserializer` consumes, from its parent's child cursor, the contiguous
  run of sibling elements that carry one tag.

Modules, one per part of the source:

- `Tree`: the input tree.
- `Outcomes`: results, with a separate `Abort` for Rust panics.
- `Integers`: Rust's `str::parse` for `u8`…`i32`.
- `Text`: the scalar decoder.
- `Fields`: the field-matching step of `deserialize_struct`, as a pure
  function of the cursors and the flatten index.
- `Element`: the class `Decoder`. Its methods advance its cursors in place
  and are proved against the `Fields`/`Element` functions.
- `Sequence`: the class `SeqDecoder`. It advances its parent `Decoder`'s
  child cursor and is proved against `Pull`/`RunFrom`.
- `Scenarios`: small documents traced end to end.

Where the code and the design description differ, the model follows the code:

- Every text child is consumed and yielded under the key `"$"`, whitespace-only
  text included. It does not matter whether a `"$"` field exists. So the
  struct loop's "skip whitespace" branch can never run, and one field step
  never loops.
- A comment or processing instruction ends the field iteration; it is not
  skipped.
- The attribute phase tests the whole field name for flatten. The child phase
  tests the tag prefix. So a field named `"$"` is a flatten field for element
  children, but never for attributes.
- "The decimal of the index" means that the name parses as an `i32` equal to
  the index. So `+1` and `01` also name index 1.
- A text child can never match a field by name: the parser gives text the
  empty name, and named matching requires a non-empty name.

## Model

| member | source | states |
|---|---|---|
| Outcomes.TryMap | src/xml/mod.rs:1-4 | absent stays absent and never fails; present succeeds exactly when `f` does, wrapping its value, and otherwise fails with `f`'s failure |
| Integers.Accumulate | src/xml/mod.rs:45-50 | the digit loop only succeeds within the width's bounds, moves away from zero towards the sign, and fails only with invalid-digit or overflow |
| Integers.ParseInt | src/xml/mod.rs:45-50 | a parsed integer always lies within the target width; the empty text is exactly the "empty string" error; parsing never aborts |
| Integers.ParseIntDenotes | src/xml/mod.rs:45-50 | parse gives `v` exactly when the text is an optional sign ('-' only for signed widths) then one or more digits whose value `v` fits the width (both directions) |
| Integers.ParseShow | src/xml/mod.rs:45-50 | every integer within a width parses back from its decimal text |
| Text.FromYesNo | src/xml/mod.rs:27-33 | true exactly for `yes`, false exactly for `no`; any other text is an error whose message ends with that text |
| Text.DecodeScalar | src/xml/mod.rs:43-52 | never aborts; a success has the requested kind, and an integer lies within its width |
| Text.Decode | src/xml/mod.rs:38-56 | never aborts; a success conforms to the request's shape, recursively through options |
| Text.StringUnchanged | src/xml/mod.rs:40-56 | string and any requests return the text unchanged; an enum request returns the text as the variant name |
| Text.IntegerExact | src/xml/mod.rs:45-50 | an integer request yields `v` exactly when the text denotes `v` in the width |
| Text.IntegerRoundTrip | src/xml/mod.rs:45-50 | decoding an in-range integer's decimal text returns exactly that integer |
| Text.BooleanLiterals | src/xml/mod.rs:52 | a boolean request yields `b` exactly for `yes`/`no`, and fails exactly on every other text |
| Text.OptionAlwaysPresent | src/xml/mod.rs:42 | an option request succeeds exactly when the inner one does and always wraps its value as present; failures pass through unchanged |
| Tree.ElementChildren | src/xml/mod.rs:118 | the filter keeps only elements and never lengthens the list |
| Tree.ElementChildrenAppend | src/xml/mod.rs:118 | filtering a concatenation is concatenating the filtered parts, so order is preserved |
| Fields.Split | src/xml/mod.rs:154 | the prefix and suffix concatenate back to the field; the prefix has no split character; a non-empty suffix starts with one |
| Fields.SplitOf | src/xml/mod.rs:154 | the split of a field is determined by where its first split character stands |
| Fields.FirstWhere | src/xml/mod.rs:156 | returns the first field satisfying the test, or none when no field does |
| Fields.AttributeStep | src/xml/mod.rs:136-149 | the attribute phase never moves the child cursor, consumes at most one attribute, and advances the flatten index exactly on a content view |
| Fields.ChildStep | src/xml/mod.rs:151-190 | the child phase never moves the attribute cursor, consumes at most one child and only for a text or element view, and an ended iteration moves nothing |
| Fields.FieldStep | src/xml/mod.rs:133-191 | neither cursor moves backwards; at most one item is consumed per step; while attributes remain the child cursor is untouched; the index advances exactly on a content view |
| Fields.AttributeMatched | src/xml/mod.rs:136-140 | an attribute is consumed and yielded as `(name, text)` exactly when its name equals a whole field name |
| Fields.AttributeUnmatched | src/xml/mod.rs:141-148 | an unmatched attribute goes, unconsumed, to the first field that is empty or the index's decimal, advancing the index; the iteration ends exactly when there is no such field |
| Fields.ChildNamed | src/xml/mod.rs:155-168 | an element child named by the first field with its tag prefix: a suffix gives a sequence view with the child left unconsumed; no suffix consumes exactly that child as an element view |
| Fields.ChildFlatten | src/xml/mod.rs:169-172 | an element child that no field names goes, unconsumed, to the first field whose prefix is empty or the index's decimal, advancing the index |
| Fields.TextCaught | src/xml/mod.rs:173-177 | every text child, whitespace-only included, is consumed and yielded under `"$"`, whatever the fields |
| Fields.ChildPhaseEnds | src/xml/mod.rs:178-189 | after the attributes, iteration ends exactly at the end of the children, at a non-text non-element child, or at an element that no field names or flattens (both directions) |
| Fields.EmptyFieldList | src/xml/mod.rs:125-127 | with no fields a step yields something exactly when no attribute remains and the next child is text, and then it is `("$", text)` |
| Fields.DollarFieldFlattensOnlyChildren | src/xml/mod.rs:141-169 | the field `"$"` is a flatten field in the child phase for every index and never in the attribute phase |
| Fields.IndexNameIsParsed | src/xml/mod.rs:141 | an index's decimal, and the same with a `+` sign or a leading zero, all name that flatten index |
| Element.TakeSimpleContent | src/xml/mod.rs:80-84 | succeeds exactly when the next child is text, it is the last child and no attribute remains; it returns that text with both cursors exhausted; otherwise "Expected simple content"; cursors never move back |
| Element.ElementScalar | src/xml/mod.rs:103-112 | on simple content the result is the scalar decoder's on the text; otherwise "Expected simple content" |
| Element.OwnedScalar | src/xml/mod.rs:211-234 | as written, a boolean request on an owned decoder is refused without consuming anything; every other kind behaves as on the borrowed decoder |
| Element.EnumChoice | src/xml/mod.rs:195-202 | if the enum's name is not the element's tag: external tagging with the tag as variant and no cursor moved; otherwise internal tagging, succeeding exactly on simple content with the text as variant |
| Element.Decoder.constructor | src/xml/mod.rs:76-79 | only an element or the root; starts with both cursors at the start of its attributes and children |
| Element.Decoder.NextField | src/xml/mod.rs:129-193 | yields the entry of `FieldStep` and leaves the cursors and index where it says |
| Element.Decoder.NextMapEntry | src/xml/mod.rs:125-127 | a map pull is the field step with no fields |
| Element.Decoder.SimpleContent | src/xml/mod.rs:80-84 | returns `TakeSimpleContent`'s result and leaves the cursors where it says |
| Element.Decoder.Scalar | src/xml/mod.rs:103-112 | returns `ElementScalar`'s result and leaves the cursors where it says |
| Element.Decoder.Unit | src/xml/mod.rs:99-102 | succeeds exactly when both cursors are exhausted, and otherwise aborts |
| Element.Decoder.Elements | src/xml/mod.rs:116-123 | returns every remaining element child in order and consumes all remaining children; attributes untouched |
| Element.Decoder.Enum | src/xml/mod.rs:195-202 | returns `EnumChoice`'s result and leaves the cursors where it says |
| Element.SimpleContentDecodes | src/xml/mod.rs:103-112 | simple content decodes as its text does in the scalar decoder; `yes`/`no` content is true/false |
| Element.OwnedBooleanRefused | src/xml/mod.rs:233 | `<flag>yes</flag>` fails as a boolean on the owned decoder, but is true on the borrowed decoder |
| Sequence.Pull | src/xml/seq.rs:23-37 | skips only filler; returns the next element carrying the tag, consuming it; ends at an element with another tag or at the end; aborts at anything else, left unconsumed |
| Sequence.RunFrom | src/xml/seq.rs:23-38 | the run ends at a boundary: the end, or an element with another tag; every member carries the tag |
| Sequence.RunSound | src/xml/seq.rs:24-36 | a run satisfies the reference definition `IsRun`, and an abort satisfies `IsAbortAt` with the assertion's message |
| Sequence.RunCharacterized | src/xml/seq.rs:24-36 | the run is `(items, q)` exactly when everything before `q` is filler or a member, `q` is a boundary and the items are the elements in between, in order (both directions) |
| Sequence.AbortCharacterized | src/xml/seq.rs:32-34 | the scan aborts at `q` exactly when `q` is the first child that is neither filler nor an element: non-blank text is fatal |
| Sequence.FillerInsertion | src/xml/seq.rs:32-34 | inserting a comment or blank text anywhere in the scanned range changes neither the members nor the abort; only the end cursor shifts past it |
| Sequence.SeqViewMakesProgress | src/xml/mod.rs:156-159 | a sequence view's run always consumes the child that selected it, and that child is its first member unless the scan aborts later |
| Sequence.EmptySeq | src/xml/seq.rs:3-16 | a sequence request gets zero items without inspecting anything; every other request aborts |
| Sequence.SeqDecoder.constructor | src/xml/seq.rs:18 | binds the parent decoder and the tag |
| Sequence.SeqDecoder.Next | src/xml/seq.rs:23-37 | returns `Pull` on the parent's child cursor and leaves that cursor where the pull ended; attributes untouched |
| Sequence.SeqDecoder.Collect | src/xml/seq.rs:22-38 | returns `RunFrom` on the parent's child cursor and leaves it at the run's end |
| Sequence.SeqDecoder.Decode | src/xml/seq.rs:41-45 | a sequence request gets the run's items (an abort stays an abort); any other request aborts without moving the cursor |
| Scenarios.AttributeThenRepeatingField | src/xml/mod.rs:136-159 | fields `a`, `b*` against `<e a="1"><b>x</b><b>y</b></e>`: `a` is `1`, then a run of both `b`s in order, then the end |
| Scenarios.RunStopsAtOtherTag | src/xml/seq.rs:26-31 | `<b>x</b><c>z</c><b>y</b>` with `b*`: the run is the first `b` only, and the next step stops at `c` |
| Scenarios.SimpleContentInteger | src/xml/mod.rs:103-112 | `<x>42</x>` decodes as the `i32` 42 |
| Scenarios.UnitOnSimpleContent | src/xml/mod.rs:99-102 | a unit request on `<x>42</x>` aborts |
| Scenarios.FlattenSeesTheRest | src/xml/mod.rs:136-145 | fields `name`, `""` against `name="n" extra="e"`: `name` is taken, then the flatten field gets the decoder with `extra` still unconsumed |

## Findings

| source | as written | input that shows it | evidently intended | confidence | as-written member | corrected member |
|---|---|---|---|---|---|---|
| src/xml/mod.rs:233 | the owned `ElementDeserializer` forwards `bool` to `deserialize_any`, which makes a map request that the boolean visitor refuses | a `bool` field bound to a child element `<flag>yes</flag>` (a singular field gives an owned decoder, mod.rs:164) | hand `bool` to the borrowed decoder like every other primitive, so it goes through simple content (mod.rs:112) | medium, not executed | Element.OwnedScalar (Element.OwnedBooleanRefused exhibits it) | Element.ElementScalar (Element.SimpleContentDecodes proves `yes`/`no` decode) |

## Left out

- Float parsing (`deserialize_f32`, src/xml/mod.rs:51, 111) is not modelled: it is not integer or text logic.
- Other requests on the text decoder (`char`, `u64`, `i64`, `unit`, `struct`, `seq`, `map`, …, src/xml/mod.rs:58-59) go to `deserialize_any`. That answers with the string, modelled as `Text.Any`; whether the visitor accepts a string is serde's behaviour.
- `deserialize_option` on an element (src/xml/mod.rs:114) hands the same decoder to the visitor as present. The inner request that follows is one of the modelled ones, so it has no member of its own.
- The `Value` sum and its forwarding (src/xml/mod.rs:87-95, src/xml/serde.rs) are not modelled; they have no behaviour of their own. `Fields.View` names the active variant.
- `ContentDeserializer` (content.rs) is not part of this model. A flatten field's view is `ContentView`: the same decoder, with its cursors where the step left them. The nested decode is not modelled.
- serde's visitors and `MapDeserializer` are not modelled. The field iteration is modelled one pull at a time (`Decoder.NextField`). What a visitor does with each view, and when it stops pulling, is up to the caller.
- The order-preserving filter of `deserialize_seq` on an element (src/xml/mod.rs:116-123) is modelled as drained to the end (`Decoder.Elements`), not one lazy pull at a time.
- XML parsing and UTF-8 checking (src/xml/mod.rs:242), and the one-line entry points `from_node`/`from_document` (src/xml/mod.rs:236-241), are not modelled. The tree is an input datatype. Namespaces are ignored: a tag is its local name.
- Error formatting and the `From` conversions (src/xml/mod.rs:8-18) are not modelled: errors are message strings. Panic messages are simplified, because the debug text of a node is not modelled.
- `println!` tracing, the `Debug` impl (src/xml/mod.rs:68-73) and the `RefCell` borrow (src/xml/mod.rs:131, 134) are not modelled: they do not change what is decoded.
- Element.Decoder.Unit: does not model the cursor moves that the failing assertion makes before it panics, because nothing runs after a panic.
- Element.Decoder.constructor: the source's assertion that the node is an element or the root is stated as a precondition, not as an abort.
- The flatten index is an unbounded integer. Overflowing the source's `i32` counter would take 2^31 flatten steps in one element, so it is not modelled.
