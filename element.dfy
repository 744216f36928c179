/** The element decoder (`ElementDeserializer`, src/xml/mod.rs:62-234): two
    forward-only cursors over one element's attributes and children, advanced
    in place by the requests a target makes of it. */
module Element {
  import opened Outcomes
  import opened Tree
  import opened Text
  import opened Fields

  const SimpleContentMessage: string := "Expected simple content"

  /** What serde's boolean visitor answers when it is handed a map. */
  const MapNotBoolMessage: string := "invalid type: map, expected a boolean"

  const UnitMessage: string := "assertion failed: self.attributes.next().is_none() && self.children.next().is_none()"

  /** A result together with where the two cursors stand afterwards. */
  datatype Taken<T> = Taken(result: Result<T>, attrPos: nat, childPos: nat)

  predicate IsSimpleContent(attrs: seq<Attribute>, children: seq<Node>, ap: nat, cp: nat) {
    cp + 1 == |children| && children[cp].Text? && ap == |attrs|
  }

  /** `simple_content` (src/xml/mod.rs:80-84): the next child must be text and
      the last child, and no attribute may remain. The checks consume what
      they look at, stopping at the first that fails. */
  function TakeSimpleContent(attrs: seq<Attribute>, children: seq<Node>, ap: nat, cp: nat): (t: Taken<string>)
    requires ap <= |attrs| && cp <= |children|
    ensures ap <= t.attrPos <= |attrs| && cp <= t.childPos <= |children|
    ensures t.result.Ok? <==> IsSimpleContent(attrs, children, ap, cp)
    ensures t.result.Ok? ==> t.result.value == children[cp].text
    ensures t.result.Ok? ==> t.attrPos == |attrs| && t.childPos == |children|
    ensures !t.result.Ok? ==> t.result == Err(SimpleContentMessage)
  {
    if cp == |children| then Taken(Err(SimpleContentMessage), ap, cp)
    else if !children[cp].Text? then Taken(Err(SimpleContentMessage), ap, cp + 1)
    else if cp + 1 < |children| then Taken(Err(SimpleContentMessage), ap, cp + 2)
    else if ap < |attrs| then Taken(Err(SimpleContentMessage), ap + 1, cp + 1)
    else Taken(Ok(children[cp].text), ap, cp + 1)
  }

  /** A primitive request on an element (src/xml/mod.rs:103-112): the simple
      content, decoded by the scalar decoder. */
  function ElementScalar(attrs: seq<Attribute>, children: seq<Node>, ap: nat, cp: nat, kind: ScalarKind): (t: Taken<Value>)
    requires ap <= |attrs| && cp <= |children|
    ensures ap <= t.attrPos <= |attrs| && cp <= t.childPos <= |children|
    ensures IsSimpleContent(attrs, children, ap, cp) ==> t.result == DecodeScalar(children[cp].text, kind)
    ensures !IsSimpleContent(attrs, children, ap, cp) ==> t.result == Err(SimpleContentMessage)
  {
    var text := TakeSimpleContent(attrs, children, ap, cp);
    var r := if text.result.Ok? then DecodeScalar(text.result.value, kind) else Err(text.result.message);
    Taken(r, text.attrPos, text.childPos)
  }

  /** A primitive request on an owned decoder, as written
      (src/xml/mod.rs:211-234): every kind is handed on to the borrowed decoder
      except `bool`, which sits in the list forwarded to `deserialize_any`
      (src/xml/mod.rs:233), which makes a map request (src/xml/mod.rs:204-207);
      the boolean visitor refuses a map before pulling any entry. */
  function OwnedScalar(attrs: seq<Attribute>, children: seq<Node>, ap: nat, cp: nat, kind: ScalarKind): (t: Taken<Value>)
    requires ap <= |attrs| && cp <= |children|
    ensures kind.BoolKind? ==> t == Taken(Err(MapNotBoolMessage), ap, cp)
    ensures !kind.BoolKind? ==> t == ElementScalar(attrs, children, ap, cp, kind)
  {
    if kind.BoolKind? then Taken(Err(MapNotBoolMessage), ap, cp)
    else ElementScalar(attrs, children, ap, cp, kind)
  }

  /** How `deserialize_enum` reads an element (src/xml/mod.rs:195-202): by its
      text when the element's own tag is the enum's name, otherwise as a
      one-entry map from the tag to the decoder itself. */
  datatype EnumAccess = Internal(variant: string) | External(variant: string)

  function EnumChoice(enumName: string, tag: string, attrs: seq<Attribute>, children: seq<Node>, ap: nat, cp: nat): (t: Taken<EnumAccess>)
    requires ap <= |attrs| && cp <= |children|
    ensures enumName != tag ==> t == Taken(Ok(External(tag)), ap, cp)
    ensures enumName == tag ==>
      (t.result.Ok? <==> IsSimpleContent(attrs, children, ap, cp))
      && (t.result.Ok? ==> t.result.value == Internal(children[cp].text))
      && (!t.result.Ok? ==> t.result == Err(SimpleContentMessage))
  {
    if enumName == tag then
      var text := TakeSimpleContent(attrs, children, ap, cp);
      var r := if text.result.Ok? then Ok(Internal(text.result.value)) else Err(text.result.message);
      Taken(r, text.attrPos, text.childPos)
    else
      Taken(Ok(External(tag)), ap, cp)
  }

  class Decoder {
    const name: string
    const attrs: seq<Attribute>
    const children: seq<Node>
    var attrPos: nat
    var childPos: nat

    ghost predicate Valid()
      reads this
    {
      attrPos <= |attrs| && childPos <= |children|
    }

    function At(index: int): Cursor
      reads this
    {
      Cursor(attrPos, childPos, index)
    }

    /** `ElementDeserializer::new` (src/xml/mod.rs:76-79): only an element or
        the document root can be decoded this way. */
    constructor (node: Node)
      requires node.Element? || node.Root?
      ensures Valid()
      ensures name == TagName(node) && attrs == AttributesOf(node) && children == ChildrenOf(node)
      ensures attrPos == 0 && childPos == 0
    {
      name := TagName(node);
      attrs := AttributesOf(node);
      children := ChildrenOf(node);
      attrPos := 0;
      childPos := 0;
    }

    /** One pull of the field iteration of `deserialize_struct`
        (src/xml/mod.rs:129-193), with the flatten index the iteration keeps. */
    method NextField(fields: seq<string>, index: int) returns (entry: Option<Entry>, next: int)
      requires Valid()
      modifies this
      ensures Valid()
      ensures var s := FieldStep(attrs, children, fields, old(At(index)));
        entry == s.entry && At(next) == s.after
    {
      next := index;
      if attrPos < |attrs| {
        var a := attrs[attrPos];
        if a.name in fields {
          attrPos := attrPos + 1;
          entry := Some(Entry(a.name, TextView(a.value)));
        } else {
          var flatten := FirstWhere(fields, f => FlattensAttribute(f, index));
          if flatten.Some? {
            next := index + 1;
            entry := Some(Entry(fields[flatten.value], ContentView));
          } else {
            entry := None;
          }
        }
        return;
      }
      if childPos == |children| {
        return None, index;
      }
      var child := children[childPos];
      var tag := TagName(child);
      if tag != "" {
        var named := FirstWhere(fields, f => Names(f, tag));
        if named.Some? {
          var field := fields[named.value];
          if Split(field).1 != "" {
            return Some(Entry(field, SeqView(tag))), index;
          }
          childPos := childPos + 1;
          return Some(Entry(field, ElementView(child))), index;
        }
      }
      if child.Element? {
        var flatten := FirstWhere(fields, f => FlattensChild(f, index));
        if flatten.Some? {
          return Some(Entry(fields[flatten.value], ContentView)), index + 1;
        }
      }
      if child.Text? {
        childPos := childPos + 1;
        return Some(Entry("$", TextView(child.text))), index;
      }
      entry := None;
    }

    /** A map request, and the `deserialize_any` that makes one, is the field
        iteration with no fields (src/xml/mod.rs:125-127, 204-207). */
    method NextMapEntry(index: int) returns (entry: Option<Entry>, next: int)
      requires Valid()
      modifies this
      ensures Valid()
      ensures var s := FieldStep(attrs, children, [], old(At(index)));
        entry == s.entry && At(next) == s.after
    {
      entry, next := NextField([], index);
    }

    /** `simple_content` (src/xml/mod.rs:80-84) on this decoder's cursors. */
    method SimpleContent() returns (r: Result<string>)
      requires Valid()
      modifies this
      ensures Valid()
      ensures var t := TakeSimpleContent(attrs, children, old(attrPos), old(childPos));
        r == t.result && attrPos == t.attrPos && childPos == t.childPos
    {
      if childPos == |children| {
        return Err(SimpleContentMessage);
      }
      var text := children[childPos];
      childPos := childPos + 1;
      var ok := text.Text?;
      if ok {
        var more := childPos < |children|;
        if more {
          childPos := childPos + 1;
        }
        ok := !more;
      }
      if ok {
        var more := attrPos < |attrs|;
        if more {
          attrPos := attrPos + 1;
        }
        ok := !more;
      }
      if ok {
        r := Ok(text.text);
      } else {
        r := Err(SimpleContentMessage);
      }
    }

    /** `deserialize_str` ... `deserialize_bool` on the borrowed decoder
        (src/xml/mod.rs:103-112). */
    method Scalar(kind: ScalarKind) returns (r: Result<Value>)
      requires Valid()
      modifies this
      ensures Valid()
      ensures var t := ElementScalar(attrs, children, old(attrPos), old(childPos), kind);
        r == t.result && attrPos == t.attrPos && childPos == t.childPos
    {
      var text := SimpleContent();
      if text.Ok? {
        r := DecodeScalar(text.value, kind);
      } else {
        r := Err(text.message);
      }
    }

    /** `deserialize_unit` (src/xml/mod.rs:99-102): a unit is an element with
        nothing left in it; anything left is an assertion failure. */
    method Unit() returns (r: Result<()>)
      requires Valid()
      ensures r.Ok? <==> attrPos == |attrs| && childPos == |children|
      ensures !r.Ok? ==> r == Abort(UnitMessage)
    {
      if attrPos < |attrs| || childPos < |children| {
        r := Abort(UnitMessage);
      } else {
        r := Ok(());
      }
    }

    /** `deserialize_seq` on an element (src/xml/mod.rs:116-123): every
        remaining element child, in order, each a decoder of its own; text and
        comments between them are consumed and dropped. */
    method Elements() returns (items: seq<Node>)
      requires Valid()
      modifies this
      ensures Valid()
      ensures items == ElementChildren(children[old(childPos)..])
      ensures childPos == |children| && attrPos == old(attrPos)
    {
      items := [];
      while childPos < |children|
        invariant old(childPos) <= childPos <= |children|
        invariant attrPos == old(attrPos)
        invariant items == ElementChildren(children[old(childPos)..childPos])
      {
        var child := children[childPos];
        ElementChildrenSnoc(children, old(childPos), childPos);
        childPos := childPos + 1;
        if child.Element? {
          items := items + [child];
        }
      }
      assert children[old(childPos)..childPos] == children[old(childPos)..];
    }

    /** `deserialize_enum` (src/xml/mod.rs:195-202). */
    method Enum(enumName: string) returns (r: Result<EnumAccess>)
      requires Valid()
      modifies this
      ensures Valid()
      ensures var t := EnumChoice(enumName, name, attrs, children, old(attrPos), old(childPos));
        r == t.result && attrPos == t.attrPos && childPos == t.childPos
    {
      if enumName == name {
        var text := SimpleContent();
        if text.Ok? {
          r := Ok(Internal(text.value));
        } else {
          r := Err(text.message);
        }
      } else {
        r := Ok(External(name));
      }
    }
  }

  lemma ElementChildrenSnoc(children: seq<Node>, from: nat, to: nat)
    requires from <= to < |children|
    ensures ElementChildren(children[from..to + 1])
            == ElementChildren(children[from..to]) + (if children[to].Element? then [children[to]] else [])
  {
    assert children[from..to + 1] == children[from..to] + [children[to]];
    ElementChildrenAppend(children[from..to], [children[to]]);
    assert ElementChildren([children[to]]) == (if children[to].Element? then [children[to]] else []) + ElementChildren([]);
  }

  /** Simple content decodes as the scalar decoder decodes its text: `<x>42</x>`
      is the integer 42, `<x>yes</x>` the boolean true. */
  lemma SimpleContentDecodes(attrs: seq<Attribute>, children: seq<Node>, ap: nat, cp: nat, kind: ScalarKind)
    requires ap <= |attrs| && cp <= |children|
    requires IsSimpleContent(attrs, children, ap, cp)
    ensures ElementScalar(attrs, children, ap, cp, kind).result == Decode(children[cp].text, Scalar(kind))
    ensures kind == BoolKind && children[cp].text == "yes" ==> ElementScalar(attrs, children, ap, cp, kind).result == Ok(Bool(true))
    ensures kind == BoolKind && children[cp].text == "no" ==> ElementScalar(attrs, children, ap, cp, kind).result == Ok(Bool(false))
  {
  }

  /** The owned decoder as written refuses every boolean, even on simple
      content the borrowed decoder accepts: `<flag>yes</flag>` fails. */
  lemma OwnedBooleanRefused()
    ensures OwnedScalar([], [Text("yes")], 0, 0, BoolKind).result.Err?
    ensures ElementScalar([], [Text("yes")], 0, 0, BoolKind).result == Ok(Bool(true))
  {
  }
}
