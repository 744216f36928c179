/** The sequence decoders (src/xml/seq.rs). `SeqDeserializer` consumes, from
    its parent element decoder's child cursor, the contiguous run of sibling
    elements that carry one tag; `EmptySeqDeserializer` is a sequence with no
    items. */
module Sequence {
  import opened Outcomes
  import opened Tree
  import opened Fields
  import opened Element

  /** The message of the assertion that rejects unexpected content
      (src/xml/seq.rs:33); the node's debug text is not modelled. */
  const IgnoredMessage: string := "Ignored"

  const SeqAnyMessage: string := "Got seq"
  const EmptySeqAnyMessage: string := "empty seq any"

  /** What one pull of the sequence gives: the next member and the cursor
      after it, the end with the cursor left where the scan stopped, or an
      abort at the child that the assertion rejects. */
  datatype Pulled = Item(element: Node, pos: nat) | End(pos: nat) | Aborted(pos: nat, message: string)

  /** A child that may stand inside a run with tag `tag`. */
  predicate Member(n: Node, tag: string) {
    IsFiller(n) || (n.Element? && n.tag == tag)
  }

  /** Where a run with tag `tag` may stop: at the end of the children, or at an
      element with another tag, which is left unconsumed. */
  predicate Boundary(children: seq<Node>, q: nat, tag: string) {
    q == |children| || (q < |children| && children[q].Element? && children[q].tag != tag)
  }

  /** The children a pull stepped over before what it returned. */
  function Scanned(r: Pulled): int {
    if r.Item? then r.pos - 1 else r.pos
  }

  /** One pull of `SeqDeserializer::deserialize_seq` (src/xml/seq.rs:23-37):
      comments and white-space-only text are consumed and skipped; an element
      with the tag is consumed and returned; an element with another tag or
      the end of the children ends the sequence; anything else is an
      assertion failure. */
  function Pull(children: seq<Node>, pos: nat, tag: string): (r: Pulled)
    requires pos <= |children|
    ensures pos <= r.pos <= |children|
    ensures r.Item? ==> pos < r.pos && r.element == children[r.pos - 1] && r.element.Element? && r.element.tag == tag
    ensures r.End? ==> Boundary(children, r.pos, tag)
    ensures r.Aborted? ==> r.pos < |children| && !children[r.pos].Element? && !IsFiller(children[r.pos])
    ensures r.Aborted? ==> r.message == IgnoredMessage
    ensures forall i :: pos <= i < Scanned(r) ==> IsFiller(children[i])
    decreases |children| - pos
  {
    if pos == |children| then End(pos)
    else
      var child := children[pos];
      if child.Element? then
        if child.tag == tag then Item(child, pos + 1) else End(pos)
      else if IsFiller(child) then Pull(children, pos + 1, tag)
      else Aborted(pos, IgnoredMessage)
  }

  /** The whole sequence as a visitor that pulls to the end sees it: the
      members in order and where the parent's child cursor is left, or the
      abort that ended it. */
  datatype Run = Ran(items: seq<Node>, pos: nat) | RunAborted(pos: nat, message: string)

  function Prepend(items: seq<Node>, r: Run): Run {
    if r.Ran? then Ran(items + r.items, r.pos) else r
  }

  function RunFrom(children: seq<Node>, pos: nat, tag: string): (r: Run)
    requires pos <= |children|
    ensures pos <= r.pos <= |children|
    ensures r.Ran? ==> Boundary(children, r.pos, tag)
    ensures r.Ran? ==> forall i :: 0 <= i < |r.items| ==> r.items[i].Element? && r.items[i].tag == tag
    decreases |children| - pos
  {
    match Pull(children, pos, tag)
    case Item(n, p) => Prepend([n], RunFrom(children, p, tag))
    case End(p) => Ran([], p)
    case Aborted(p, m) => RunAborted(p, m)
  }

  /** Reference definition of a run from `pos` ending at `q`: every child in
      between is filler or an element with the tag, `q` is a boundary, and
      the items are the elements in between, in document order. */
  predicate IsRun(children: seq<Node>, pos: nat, tag: string, items: seq<Node>, q: nat) {
    pos <= q <= |children|
    && (forall i :: pos <= i < q ==> Member(children[i], tag))
    && Boundary(children, q, tag)
    && items == ElementChildren(children[pos..q])
  }

  /** Reference definition of a scan that aborts at `q`: every child before it
      is filler or an element with the tag, and the child at `q` is neither
      an element nor filler (non-blank text, or an instruction). */
  predicate IsAbortAt(children: seq<Node>, pos: nat, tag: string, q: nat) {
    pos <= q < |children|
    && (forall i :: pos <= i < q ==> Member(children[i], tag))
    && !children[q].Element? && !IsFiller(children[q])
  }

  lemma {:induction false} FillerHasNoElements(xs: seq<Node>)
    requires forall i :: 0 <= i < |xs| ==> IsFiller(xs[i])
    ensures ElementChildren(xs) == []
    decreases xs
  {
    if xs != [] {
      FillerHasNoElements(xs[1..]);
    }
  }

  /** A run grows at its front by the member a pull returns, together with
      the filler the pull stepped over. */
  lemma RunExtends(children: seq<Node>, pos: nat, next: nat, tag: string, items: seq<Node>, q: nat)
    requires pos < next <= |children|
    requires forall i :: pos <= i < next - 1 ==> IsFiller(children[i])
    requires children[next - 1].Element? && children[next - 1].tag == tag
    requires IsRun(children, next, tag, items, q)
    ensures IsRun(children, pos, tag, [children[next - 1]] + items, q)
  {
    var n := children[next - 1];
    var filler := children[pos..next - 1];
    assert children[pos..q] == filler + ([n] + children[next..q]);
    FillerHasNoElements(filler);
    ElementChildrenAppend(filler, [n] + children[next..q]);
    assert ([n] + children[next..q])[1..] == children[next..q];
  }

  lemma {:induction false} RunSound(children: seq<Node>, pos: nat, tag: string)
    requires pos <= |children|
    ensures var r := RunFrom(children, pos, tag);
      (r.Ran? ==> IsRun(children, pos, tag, r.items, r.pos))
      && (r.RunAborted? ==> IsAbortAt(children, pos, tag, r.pos) && r.message == IgnoredMessage)
    decreases |children| - pos
  {
    var p := Pull(children, pos, tag);
    if p.Item? {
      RunSound(children, p.pos, tag);
      var rest := RunFrom(children, p.pos, tag);
      if rest.Ran? {
        RunExtends(children, pos, p.pos, tag, rest.items, rest.pos);
      }
    } else if p.End? {
      assert RunFrom(children, pos, tag) == Ran([], p.pos);
      FillerHasNoElements(children[pos..p.pos]);
    }
  }

  /** A run, and an abort, end at the first child from `pos` that cannot
      stand in the run, so at most one of them describes a child list. */
  lemma RunUnique(children: seq<Node>, pos: nat, tag: string, items: seq<Node>, q: nat, r: Run)
    requires IsRun(children, pos, tag, items, q)
    requires r.Ran? ==> IsRun(children, pos, tag, r.items, r.pos)
    requires r.RunAborted? ==> IsAbortAt(children, pos, tag, r.pos)
    ensures r.Ran? && r.items == items && r.pos == q
  {
  }

  /** The run a pulling visitor gets is exactly the reference run: both
      directions. */
  lemma RunCharacterized(children: seq<Node>, pos: nat, tag: string, items: seq<Node>, q: nat)
    requires pos <= |children|
    ensures RunFrom(children, pos, tag) == Ran(items, q) <==> IsRun(children, pos, tag, items, q)
  {
    RunSound(children, pos, tag);
    if IsRun(children, pos, tag, items, q) {
      RunUnique(children, pos, tag, items, q, RunFrom(children, pos, tag));
    }
  }

  /** The scan aborts exactly at the first child that is neither filler nor an
      element: non-blank text met during the scan is fatal. */
  lemma AbortCharacterized(children: seq<Node>, pos: nat, tag: string, q: nat)
    requires pos <= |children|
    ensures RunFrom(children, pos, tag) == RunAborted(q, IgnoredMessage) <==> IsAbortAt(children, pos, tag, q)
  {
    RunSound(children, pos, tag);
    var r := RunFrom(children, pos, tag);
  }

  function Insert(xs: seq<Node>, k: nat, f: Node): (r: seq<Node>)
    requires k <= |xs|
    ensures |r| == |xs| + 1
  {
    xs[..k] + [f] + xs[k..]
  }

  /** Where a run's end lands once a child has been inserted at `k`. */
  function Shift(r: Run, k: nat): Run {
    var q := if k <= r.pos then r.pos + 1 else r.pos;
    if r.Ran? then Ran(r.items, q) else RunAborted(q, r.message)
  }

  lemma InsertedMembers(xs: seq<Node>, k: nat, f: Node, pos: nat, q: nat, tag: string)
    requires pos <= k <= |xs| && pos <= q <= |xs| && IsFiller(f)
    requires forall i :: pos <= i < q ==> Member(xs[i], tag)
    ensures var q' := if k <= q then q + 1 else q;
      forall i :: pos <= i < q' ==> Member(Insert(xs, k, f)[i], tag)
  {
    var ys := Insert(xs, k, f);
    var q' := if k <= q then q + 1 else q;
    forall i | pos <= i < q'
      ensures Member(ys[i], tag)
    {
      if i < k {
        assert ys[i] == xs[i];
      } else if i > k {
        assert ys[i] == xs[i - 1];
      }
    }
  }

  lemma DropFiller(a: seq<Node>, f: Node, b: seq<Node>)
    requires IsFiller(f)
    ensures ElementChildren(a + [f] + b) == ElementChildren(a + b)
  {
    ElementChildrenAppend(a + [f], b);
    ElementChildrenAppend(a, [f]);
    ElementChildrenAppend(a, b);
    FillerHasNoElements([f]);
  }

  lemma InsertedRun(xs: seq<Node>, pos: nat, tag: string, k: nat, f: Node, items: seq<Node>, q: nat)
    requires pos <= k <= |xs| && IsFiller(f)
    requires IsRun(xs, pos, tag, items, q)
    ensures IsRun(Insert(xs, k, f), pos, tag, items, if k <= q then q + 1 else q)
  {
    var ys := Insert(xs, k, f);
    var q' := if k <= q then q + 1 else q;
    InsertedMembers(xs, k, f, pos, q, tag);
    assert q < |xs| ==> ys[q'] == xs[q];
    if k <= q {
      assert ys[pos..q'] == xs[pos..k] + [f] + xs[k..q];
      assert xs[pos..q] == xs[pos..k] + xs[k..q];
      DropFiller(xs[pos..k], f, xs[k..q]);
    } else {
      assert ys[pos..q'] == xs[pos..q];
    }
  }

  lemma InsertedAbort(xs: seq<Node>, pos: nat, tag: string, k: nat, f: Node, q: nat)
    requires pos <= k <= |xs| && IsFiller(f)
    requires IsAbortAt(xs, pos, tag, q)
    ensures IsAbortAt(Insert(xs, k, f), pos, tag, if k <= q then q + 1 else q)
  {
    var ys := Insert(xs, k, f);
    var q' := if k <= q then q + 1 else q;
    InsertedMembers(xs, k, f, pos, q, tag);
    assert ys[q'] == xs[q];
  }

  /** Inserting a comment or white-space-only text anywhere after the start
      of a scan changes neither the members of the run nor whether and why it
      aborts; only the cursor it ends at moves past the inserted child. */
  lemma FillerInsertion(xs: seq<Node>, pos: nat, tag: string, k: nat, f: Node)
    requires pos <= k <= |xs| && IsFiller(f)
    ensures RunFrom(Insert(xs, k, f), pos, tag) == Shift(RunFrom(xs, pos, tag), k)
  {
    var ys := Insert(xs, k, f);
    var r := RunFrom(xs, pos, tag);
    RunSound(xs, pos, tag);
    var q' := if k <= r.pos then r.pos + 1 else r.pos;
    if r.Ran? {
      InsertedRun(xs, pos, tag, k, f, r.items, r.pos);
      RunCharacterized(ys, pos, tag, r.items, q');
    } else {
      InsertedAbort(xs, pos, tag, k, f, r.pos);
      AbortCharacterized(ys, pos, tag, q');
    }
  }

  /** A repeating field's sequence view always has work to do: the child that
      selected it is an element with the bound tag, so pulling the sequence
      consumes it and, unless the scan aborts later, it is the first member. */
  lemma SeqViewMakesProgress(attrs: seq<Attribute>, children: seq<Node>, fields: seq<string>, c: Cursor)
    requires Within(attrs, children, c)
    requires var s := FieldStep(attrs, children, fields, c); s.entry.Some? && s.entry.value.view.SeqView?
    ensures var t := FieldStep(attrs, children, fields, c).entry.value.view.tag;
      var r := RunFrom(children, c.childPos, t);
      c.childPos < r.pos && (r.Ran? ==> |r.items| >= 1 && r.items[0] == children[c.childPos])
  {
  }

  /** `EmptySeqDeserializer` (src/xml/seq.rs:3-16): a sequence request gets no
      items and looks at nothing; any other request panics. */
  datatype Request = SequenceRequest | OtherRequest

  function EmptySeq(req: Request): (r: Result<seq<Node>>)
    ensures r.Ok? <==> req.SequenceRequest?
    ensures r.Ok? ==> r.value == []
    ensures !r.Ok? ==> r.Abort?
  {
    if req.SequenceRequest? then Ok([]) else Abort(EmptySeqAnyMessage)
  }

  /** `SeqDeserializer` (src/xml/seq.rs:18-46): the parent decoder whose child
      cursor it advances, and the tag of the run. */
  class SeqDecoder {
    const parent: Decoder
    const tag: string

    constructor (parent: Decoder, tag: string)
      ensures this.parent == parent && this.tag == tag
    {
      this.parent := parent;
      this.tag := tag;
    }

    /** One pull (src/xml/seq.rs:23-37), on the parent's child cursor. */
    method Next() returns (r: Pulled)
      requires parent.Valid()
      modifies parent
      ensures parent.Valid()
      ensures r == Pull(parent.children, old(parent.childPos), tag)
      ensures parent.childPos == r.pos && parent.attrPos == old(parent.attrPos)
    {
      while true
        invariant parent.Valid()
        invariant old(parent.childPos) <= parent.childPos && parent.attrPos == old(parent.attrPos)
        invariant Pull(parent.children, old(parent.childPos), tag) == Pull(parent.children, parent.childPos, tag)
        decreases |parent.children| - parent.childPos
      {
        if parent.childPos == |parent.children| {
          return End(parent.childPos);
        }
        var child := parent.children[parent.childPos];
        if child.Element? {
          if child.tag == tag {
            parent.childPos := parent.childPos + 1;
            return Item(child, parent.childPos);
          }
          return End(parent.childPos);
        }
        if !IsFiller(child) {
          return Aborted(parent.childPos, IgnoredMessage);
        }
        parent.childPos := parent.childPos + 1;
      }
    }

    /** Pulling until the sequence ends, as a visitor that collects every
        item does. */
    method Collect() returns (r: Run)
      requires parent.Valid()
      modifies parent
      ensures parent.Valid()
      ensures r == RunFrom(parent.children, old(parent.childPos), tag)
      ensures parent.childPos == r.pos && parent.attrPos == old(parent.attrPos)
    {
      var items: seq<Node> := [];
      while true
        invariant parent.Valid()
        invariant old(parent.childPos) <= parent.childPos && parent.attrPos == old(parent.attrPos)
        invariant RunFrom(parent.children, old(parent.childPos), tag)
                  == Prepend(items, RunFrom(parent.children, parent.childPos, tag))
        decreases |parent.children| - parent.childPos
      {
        var p := Next();
        match p
        case Item(n, _) =>
          items := items + [n];
        case End(q) =>
          return Ran(items, q);
        case Aborted(q, m) =>
          return RunAborted(q, m);
      }
    }

    /** A request on the sequence decoder: a sequence request pulls the run;
        every other request is forwarded to `deserialize_any`, which panics
        (src/xml/seq.rs:41-45). */
    method Decode(req: Request) returns (r: Result<seq<Node>>)
      requires parent.Valid()
      modifies parent
      ensures parent.Valid()
      ensures req.OtherRequest? ==> r == Abort(SeqAnyMessage) && parent.childPos == old(parent.childPos)
      ensures req.SequenceRequest? ==>
        var run := RunFrom(parent.children, old(parent.childPos), tag);
        r == (if run.Ran? then Ok(run.items) else Abort(run.message)) && parent.childPos == run.pos
      ensures parent.attrPos == old(parent.attrPos)
    {
      if req.OtherRequest? {
        return Abort(SeqAnyMessage);
      }
      var run := Collect();
      r := if run.Ran? then Ok(run.items) else Abort(run.message);
    }
  }
}
