/** Whole decodes traced through the model: the behaviour the decoder's
    design promises for small documents. */
module Scenarios {
  import opened Outcomes
  import opened Tree
  import opened Text
  import opened Integers
  import opened Fields
  import opened Element
  import opened Sequence

  function B(text: string): Node {
    Element("b", [], [Text(text)])
  }

  /** `<e a="1"><b>x</b><b>y</b></e>` against the fields `a` and `b*`: the
      attribute comes first, then one sequence view whose run is both `b`
      children in document order, then the iteration ends. */
  lemma AttributeThenRepeatingField()
    ensures var attrs := [Attribute("a", "1")];
      var children := [B("x"), B("y")];
      var fields := ["a", "b*"];
      && FieldStep(attrs, children, fields, Cursor(0, 0, 0)) == Step(Some(Entry("a", TextView("1"))), Cursor(1, 0, 0))
      && FieldStep(attrs, children, fields, Cursor(1, 0, 0)) == Step(Some(Entry("b*", SeqView("b"))), Cursor(1, 0, 0))
      && RunFrom(children, 0, "b") == Ran([B("x"), B("y")], 2)
      && FieldStep(attrs, children, fields, Cursor(1, 2, 0)) == Step(None, Cursor(1, 2, 0))
  {
    var children := [B("x"), B("y")];
    SplitOf("b", "*");
    SplitOf("a", "");
    assert RunFrom(children, 2, "b") == Ran([], 2);
    assert RunFrom(children, 1, "b") == Ran([B("y")], 2);
  }

  /** `<b>x</b><c>z</c><b>y</b>` against the repeating field `b*`: the run
      stops at `c`, which the next field step meets and cannot place, so the
      later `b` is never joined to the run. */
  lemma RunStopsAtOtherTag()
    ensures var children := [B("x"), Element("c", [], [Text("z")]), B("y")];
      && RunFrom(children, 0, "b") == Ran([B("x")], 1)
      && FieldStep([], children, ["b*"], Cursor(0, 1, 0)) == Step(None, Cursor(0, 1, 0))
  {
    var children := [B("x"), Element("c", [], [Text("z")]), B("y")];
    SplitOf("b", "*");
    assert RunFrom(children, 1, "b") == Ran([], 1);
    assert !FlattensChild("b*", 0) by {
      assert ParseInt("b", I32).Err?;
    }
  }

  /** `<x>42</x>` decodes as the integer 42, while a unit request on the same
      element fails: its child is still there. */
  lemma SimpleContentInteger()
    ensures ElementScalar([], [Text("42")], 0, 0, IntKind(I32)).result == Ok(Int(42))
  {
    IntegerRoundTrip(42, I32);
    assert Show(42) == "42";
  }

  method UnitOnSimpleContent() returns (r: Result<()>)
    ensures r.Abort?
  {
    var d := new Decoder(Element("x", [], [Text("42")]));
    r := d.Unit();
  }

  /** The fields `name` and `""` against the attributes `name="n"` and
      `extra="e"`: `name` takes its attribute, then the flatten field takes
      the decoder with `extra` still unconsumed and `name` gone. */
  lemma FlattenSeesTheRest()
    ensures var attrs := [Attribute("name", "n"), Attribute("extra", "e")];
      var fields := ["name", ""];
      && FieldStep(attrs, [], fields, Cursor(0, 0, 0)) == Step(Some(Entry("name", TextView("n"))), Cursor(1, 0, 0))
      && FieldStep(attrs, [], fields, Cursor(1, 0, 0)) == Step(Some(Entry("", ContentView)), Cursor(1, 0, 1))
      && attrs[1..] == [Attribute("extra", "e")]
  {
    var attrs := [Attribute("name", "n"), Attribute("extra", "e")];
    var fields := ["name", ""];
    assert "name"[0] == 'n';
    assert ParseInt("name", I32) == Err(InvalidDigitMessage);
    assert FirstAttributeFlatten(fields, 0, 1);
    AttributeUnmatched(attrs, [], fields, Cursor(1, 0, 0));
  }
}
