/** The field-matching step of `deserialize_struct` (src/xml/mod.rs:129-193),
    as a function of the decoder's two cursors and the running flatten index.
    Each step yields at most one `(field key, view)` entry, or ends the
    iteration. The class `Element.Decoder` runs it on its own cursors. */
module Fields {
  import opened Outcomes
  import opened Tree
  import opened Integers

  /** The characters that end a field's match tag. */
  const SplitChars: string := "$*+{"

  /** `field.split_at(field.find(|c| "$*+{".contains(c)).unwrap_or(field.len()))`
      (src/xml/mod.rs:154): the tag prefix and the suffix that starts at the
      first split character. */
  function Split(field: string): (r: (string, string))
    ensures r.0 + r.1 == field
    ensures forall i :: 0 <= i < |r.0| ==> r.0[i] !in SplitChars
    ensures r.1 != [] ==> r.1[0] in SplitChars
  {
    if field == [] then ([], [])
    else if field[0] in SplitChars then ([], field)
    else
      var (prefix, suffix) := Split(field[1..]);
      ([field[0]] + prefix, suffix)
  }

  /** The two parts of a field are determined by where its first split
      character stands. */
  lemma {:induction false} SplitOf(prefix: string, suffix: string)
    requires forall i :: 0 <= i < |prefix| ==> prefix[i] !in SplitChars
    requires suffix != [] ==> suffix[0] in SplitChars
    ensures Split(prefix + suffix) == (prefix, suffix)
    decreases prefix
  {
    if prefix == [] {
      assert prefix + suffix == suffix;
    } else {
      var field := prefix + suffix;
      assert field[0] == prefix[0] && field[1..] == prefix[1..] + suffix;
      SplitOf(prefix[1..], suffix);
      assert [prefix[0]] + prefix[1..] == prefix;
    }
  }

  /** A name is the flatten index when it parses, as an `i32`, to it. */
  predicate IsIndex(name: string, index: int) {
    ParseInt(name, I32) == Ok(index)
  }

  /** The attribute phase tests the whole field name (src/xml/mod.rs:141). */
  predicate FlattensAttribute(field: string, index: int) {
    field == "" || IsIndex(field, index)
  }

  /** The child phase tests the field's tag prefix (src/xml/mod.rs:169). */
  predicate FlattensChild(field: string, index: int) {
    var prefix := Split(field).0;
    prefix == "" || IsIndex(prefix, index)
  }

  /** The child phase matches a child's tag against the field's tag prefix
      (src/xml/mod.rs:156). */
  predicate Names(field: string, tag: string) {
    Split(field).0 == tag
  }

  /** `Iterator::find` over the field list: the position of the first field
      that satisfies `p`. */
  function FirstWhere(fields: seq<string>, p: string -> bool): (r: Option<nat>)
    ensures r.Some? ==> r.value < |fields| && p(fields[r.value])
    ensures r.Some? ==> forall j :: 0 <= j < r.value ==> !p(fields[j])
    ensures r.None? ==> forall j :: 0 <= j < |fields| ==> !p(fields[j])
  {
    if fields == [] then None
    else if p(fields[0]) then Some(0)
    else
      var rest := FirstWhere(fields[1..], p);
      if rest.Some? then Some(rest.value + 1) else None
  }

  /** The decoder's position: the next attribute, the next child, and the
      flatten index kept by the iteration. */
  datatype Cursor = Cursor(attrPos: nat, childPos: nat, index: int)

  /** What a field is bound to (the `Value` sum of src/xml/mod.rs:93): a text,
      a consumed child element, the same decoder handed on to a nested decode
      (a flatten field), or a sequence over the run of children with a tag. */
  datatype View = TextView(text: string) | ElementView(element: Node) | ContentView | SeqView(tag: string)

  datatype Entry = Entry(key: string, view: View)

  datatype Step = Step(entry: Option<Entry>, after: Cursor)

  predicate Within(attrs: seq<Attribute>, children: seq<Node>, c: Cursor) {
    c.attrPos <= |attrs| && c.childPos <= |children|
  }

  /** How many attributes and children a move from `c` to `d` consumed. */
  function Consumed(c: Cursor, d: Cursor): int {
    (d.attrPos - c.attrPos) + (d.childPos - c.childPos)
  }

  predicate Consumes(v: View) {
    v.TextView? || v.ElementView?
  }

  /** The properties every step keeps: no cursor moves backwards, at most one
      item is consumed and only for a text or element view, the flatten index
      advances exactly for a content view, and an ended iteration moves nothing. */
  predicate Orderly(attrs: seq<Attribute>, children: seq<Node>, c: Cursor, s: Step) {
    && Within(attrs, children, s.after)
    && c.attrPos <= s.after.attrPos && c.childPos <= s.after.childPos
    && Consumed(c, s.after) <= 1
    && (Consumed(c, s.after) == 1 <==> s.entry.Some? && Consumes(s.entry.value.view))
    && s.after.index == (if s.entry.Some? && s.entry.value.view.ContentView? then c.index + 1 else c.index)
    && (s.entry.None? ==> s.after == c)
  }

  /** The attribute phase (src/xml/mod.rs:136-149): an attribute named by a
      whole field is consumed; otherwise a flatten field takes the decoder
      without consuming it; otherwise the iteration ends. */
  function AttributeStep(attrs: seq<Attribute>, children: seq<Node>, fields: seq<string>, c: Cursor): (s: Step)
    requires Within(attrs, children, c) && c.attrPos < |attrs|
    ensures Orderly(attrs, children, c, s)
    ensures s.after.childPos == c.childPos
  {
    var a := attrs[c.attrPos];
    if a.name in fields then
      Step(Some(Entry(a.name, TextView(a.value))), c.(attrPos := c.attrPos + 1))
    else
      var flatten := FirstWhere(fields, f => FlattensAttribute(f, c.index));
      if flatten.Some? then Step(Some(Entry(fields[flatten.value], ContentView)), c.(index := c.index + 1))
      else Step(None, c)
  }

  /** The child phase (src/xml/mod.rs:151-190), once no attribute is left. */
  function ChildStep(attrs: seq<Attribute>, children: seq<Node>, fields: seq<string>, c: Cursor): (s: Step)
    requires Within(attrs, children, c) && c.attrPos == |attrs|
    ensures Orderly(attrs, children, c, s)
    ensures s.after.attrPos == c.attrPos
  {
    if c.childPos == |children| then
      Step(None, c)
    else
      var child := children[c.childPos];
      var name := TagName(child);
      var named := if name != "" then FirstWhere(fields, f => Names(f, name)) else None;
      if named.Some? then
        var field := fields[named.value];
        if Split(field).1 != "" then Step(Some(Entry(field, SeqView(name))), c)
        else Step(Some(Entry(field, ElementView(child))), c.(childPos := c.childPos + 1))
      else
        var flatten := if child.Element? then FirstWhere(fields, f => FlattensChild(f, c.index)) else None;
        if flatten.Some? then Step(Some(Entry(fields[flatten.value], ContentView)), c.(index := c.index + 1))
        else if child.Text? then Step(Some(Entry("$", TextView(child.text))), c.(childPos := c.childPos + 1))
        else Step(None, c)
  }

  /** One call of the iteration closure of `deserialize_struct`
      (src/xml/mod.rs:133-191): the attribute phase while attributes remain,
      then the child phase. The loop at src/xml/mod.rs:151-190 could only go
      round again through its white-space branch, which is unreachable because
      every text child is caught just before it, so a step never iterates. */
  function FieldStep(attrs: seq<Attribute>, children: seq<Node>, fields: seq<string>, c: Cursor): (s: Step)
    requires Within(attrs, children, c)
    ensures Orderly(attrs, children, c, s)
    ensures c.attrPos < |attrs| ==> s.after.childPos == c.childPos
    ensures c.attrPos == |attrs| ==> s.after.attrPos == c.attrPos
  {
    if c.attrPos < |attrs| then AttributeStep(attrs, children, fields, c)
    else ChildStep(attrs, children, fields, c)
  }

  predicate FirstAttributeFlatten(fields: seq<string>, index: int, j: int) {
    0 <= j < |fields| && FlattensAttribute(fields[j], index)
    && forall k :: 0 <= k < j ==> !FlattensAttribute(fields[k], index)
  }

  predicate FirstChildFlatten(fields: seq<string>, index: int, j: int) {
    0 <= j < |fields| && FlattensChild(fields[j], index)
    && forall k :: 0 <= k < j ==> !FlattensChild(fields[k], index)
  }

  predicate FirstNamed(fields: seq<string>, tag: string, j: int) {
    0 <= j < |fields| && Names(fields[j], tag)
    && forall k :: 0 <= k < j ==> !Names(fields[k], tag)
  }

  /** An attribute whose name equals a whole field name is consumed and
      yielded as its value, and only such an attribute (src/xml/mod.rs:136-140). */
  lemma AttributeMatched(attrs: seq<Attribute>, children: seq<Node>, fields: seq<string>, c: Cursor)
    requires Within(attrs, children, c) && c.attrPos < |attrs|
    ensures var a := attrs[c.attrPos];
      a.name in fields
      <==> FieldStep(attrs, children, fields, c) == Step(Some(Entry(a.name, TextView(a.value))), c.(attrPos := c.attrPos + 1))
  {
  }

  /** An unmatched attribute is handed, unconsumed, to the first flatten field
      (the empty name or the decimal of the index), which advances the index;
      with no flatten field the iteration ends (src/xml/mod.rs:141-148). */
  lemma AttributeUnmatched(attrs: seq<Attribute>, children: seq<Node>, fields: seq<string>, c: Cursor)
    requires Within(attrs, children, c) && c.attrPos < |attrs|
    requires attrs[c.attrPos].name !in fields
    ensures var s := FieldStep(attrs, children, fields, c);
      (s.entry.None? <==> forall j :: 0 <= j < |fields| ==> !FlattensAttribute(fields[j], c.index))
      && (s.entry.None? ==> s.after == c)
    ensures forall j :: FirstAttributeFlatten(fields, c.index, j) ==>
      FieldStep(attrs, children, fields, c) == Step(Some(Entry(fields[j], ContentView)), c.(index := c.index + 1))
  {
  }

  /** An element child whose tag is the prefix of a field: a field with a
      suffix is repeating and yields a sequence view, leaving the child for the
      sequence to consume; a field without one takes exactly that child
      (src/xml/mod.rs:155-168). */
  lemma ChildNamed(attrs: seq<Attribute>, children: seq<Node>, fields: seq<string>, c: Cursor, j: int)
    requires Within(attrs, children, c) && c.attrPos == |attrs| && c.childPos < |children|
    requires children[c.childPos].Element? && children[c.childPos].tag != ""
    requires FirstNamed(fields, children[c.childPos].tag, j)
    ensures var child := children[c.childPos];
      FieldStep(attrs, children, fields, c)
      == if Split(fields[j]).1 != "" then Step(Some(Entry(fields[j], SeqView(child.tag))), c)
         else Step(Some(Entry(fields[j], ElementView(child))), c.(childPos := c.childPos + 1))
  {
  }

  /** An element child that no field prefix names goes, unconsumed, to the
      first field whose prefix is empty or the decimal of the index, which
      advances the index (src/xml/mod.rs:169-172). */
  lemma ChildFlatten(attrs: seq<Attribute>, children: seq<Node>, fields: seq<string>, c: Cursor, j: int)
    requires Within(attrs, children, c) && c.attrPos == |attrs| && c.childPos < |children|
    requires children[c.childPos].Element?
    requires forall k :: 0 <= k < |fields| ==> !Names(fields[k], children[c.childPos].tag)
    requires FirstChildFlatten(fields, c.index, j)
    ensures FieldStep(attrs, children, fields, c) == Step(Some(Entry(fields[j], ContentView)), c.(index := c.index + 1))
  {
  }

  /** Every text child, white space included, is consumed and yielded under
      the key "$", whatever the fields are (src/xml/mod.rs:173-177). */
  lemma TextCaught(attrs: seq<Attribute>, children: seq<Node>, fields: seq<string>, c: Cursor)
    requires Within(attrs, children, c) && c.attrPos == |attrs| && c.childPos < |children|
    requires children[c.childPos].Text?
    ensures FieldStep(attrs, children, fields, c)
            == Step(Some(Entry("$", TextView(children[c.childPos].text))), c.(childPos := c.childPos + 1))
  {
  }

  /** Once the attributes are exhausted the iteration ends exactly at the end
      of the children, at a comment or instruction, or at an element that no
      field names and no flatten field takes (src/xml/mod.rs:178-189). */
  lemma ChildPhaseEnds(attrs: seq<Attribute>, children: seq<Node>, fields: seq<string>, c: Cursor)
    requires Within(attrs, children, c) && c.attrPos == |attrs|
    ensures FieldStep(attrs, children, fields, c).entry.None?
      <==> c.childPos == |children|
           || (var child := children[c.childPos];
               && !child.Text?
               && (child.Element? ==>
                     (child.tag == "" || forall k :: 0 <= k < |fields| ==> !Names(fields[k], child.tag))
                     && forall k :: 0 <= k < |fields| ==> !FlattensChild(fields[k], c.index)))
  {
    if c.childPos < |children| {
      var child := children[c.childPos];
      if child.Element? && child.tag != "" {
        var named := FirstWhere(fields, f => Names(f, child.tag));
        if named.Some? {
          assert Names(fields[named.value], child.tag);
        }
      }
      if child.Element? {
        var flatten := FirstWhere(fields, f => FlattensChild(f, c.index));
        if flatten.Some? {
          assert FlattensChild(fields[flatten.value], c.index);
        }
      }
    }
  }

  /** A map request is a struct request with no fields (src/xml/mod.rs:125-127):
      nothing matches and nothing flattens, so it yields only a text child,
      under "$", and never once an attribute remains. */
  lemma EmptyFieldList(attrs: seq<Attribute>, children: seq<Node>, c: Cursor)
    requires Within(attrs, children, c)
    ensures var s := FieldStep(attrs, children, [], c);
      (s.entry.Some? <==> c.attrPos == |attrs| && c.childPos < |children| && children[c.childPos].Text?)
      && (s.entry.Some? ==> s.entry.value == Entry("$", TextView(children[c.childPos].text)))
  {
  }

  /** The field "$" has an empty tag prefix, so in the child phase it is a
      flatten field for any index, while in the attribute phase, which tests
      the whole name, it never is (src/xml/mod.rs:141, 169). */
  lemma DollarFieldFlattensOnlyChildren(index: int)
    ensures FlattensChild("$", index)
    ensures !FlattensAttribute("$", index)
  {
    assert Split("$") == ("", "$");
  }

  /** The flatten index is compared by parsing the name as an `i32`, so a
      decimal with a '+' sign or leading zeros names the same index. */
  lemma IndexNameIsParsed(index: int)
    requires 0 <= index <= Max(I32)
    ensures FlattensAttribute(Show(index), index)
    ensures FlattensAttribute("+" + Show(index), index)
    ensures FlattensAttribute("0" + Show(index), index)
  {
    ParseShow(index, I32);
    var d := Show(index);
    assert d == Decimal(index);
    DecimalValue(index);
    assert SignAndDigits("+" + d, I32) == (false, d);
    ParseIntDenotes("+" + d, I32, index);
    var z := "0" + d;
    assert SignAndDigits(z, I32) == (false, z);
    assert Fold(0, z) == Fold(0, d) by {
      assert z[1..] == d;
    }
    ParseIntDenotes(z, I32, index);
  }
}
