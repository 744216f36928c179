/** The parse tree the decoder reads. It is produced by the XML parser, which
    is not part of this model; the decoder only borrows it and never changes it. */
module Tree {

  datatype Attribute = Attribute(name: string, value: string)

  /** A node of the document: the document root, an element with its ordered
      attributes and children, a text run, a comment or a processing instruction. */
  datatype Node =
    | Root(children: seq<Node>)
    | Element(tag: string, attrs: seq<Attribute>, children: seq<Node>)
    | Text(text: string)
    | Comment(text: string)
    | Instruction(target: string, content: string)

  /** The local tag name; the parser gives every non-element node the empty name. */
  function TagName(n: Node): string {
    if n.Element? then n.tag else ""
  }

  function AttributesOf(n: Node): seq<Attribute> {
    if n.Element? then n.attrs else []
  }

  function ChildrenOf(n: Node): seq<Node> {
    if n.Element? || n.Root? then n.children else []
  }

  /** Rust's `char::is_whitespace`: the Unicode White_Space property. */
  predicate IsWhitespace(c: char) {
    var n := c as int;
    (0x09 <= n <= 0x0D) || n == 0x20 || n == 0x85 || n == 0xA0 || n == 0x1680
    || (0x2000 <= n <= 0x200A) || n == 0x2028 || n == 0x2029 || n == 0x202F
    || n == 0x205F || n == 0x3000
  }

  /** `s.trim().is_empty()`: the text holds nothing but white space. */
  predicate IsBlank(s: string) {
    forall i :: 0 <= i < |s| ==> IsWhitespace(s[i])
  }

  /** A child that a sequence scan steps over: a comment or white-space-only text. */
  predicate IsFiller(n: Node) {
    n.Comment? || (n.Text? && IsBlank(n.text))
  }

  /** The element children of `xs`, in document order. */
  function ElementChildren(xs: seq<Node>): (r: seq<Node>)
    ensures |r| <= |xs|
    ensures forall i :: 0 <= i < |r| ==> r[i].Element?
  {
    if xs == [] then []
    else (if xs[0].Element? then [xs[0]] else []) + ElementChildren(xs[1..])
  }

  /** Taking the element children commutes with splitting the child list. */
  lemma {:induction false} ElementChildrenAppend(xs: seq<Node>, ys: seq<Node>)
    ensures ElementChildren(xs + ys) == ElementChildren(xs) + ElementChildren(ys)
    decreases xs
  {
    if xs == [] {
      assert xs + ys == ys;
    } else {
      assert (xs + ys)[0] == xs[0];
      assert (xs + ys)[1..] == xs[1..] + ys;
      ElementChildrenAppend(xs[1..], ys);
    }
  }
}
