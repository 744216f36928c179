/** The scalar decoder (`TextDeserializer`, src/xml/mod.rs:35-60): decodes one
    attribute value or text run into the primitive the target asks for. */
module Text {
  import opened Outcomes
  import opened Integers

  /** The primitive kinds an element's simple content can be decoded into
      (src/xml/mod.rs:103-112); floats are not part of this model. */
  datatype ScalarKind = StrKind | IntKind(width: Width) | BoolKind

  /** What a target asks of a text: a primitive, anything (answered with the
      string), an enum variant, or an optional value. */
  datatype Request = Scalar(kind: ScalarKind) | Any | EnumVariant | Optional(inner: Request)

  datatype Value = Str(text: string) | Int(number: int) | Bool(flag: bool) | Variant(name: string) | Present(inner: Value)

  const YesNoMessage: string := "provided string was not `yes` or `no`, got "

  predicate EndsWith(m: string, s: string) {
    |s| <= |m| && m[|m| - |s|..] == s
  }

  /** `from_yes_no` (src/xml/mod.rs:27-33): the document's boolean literals. */
  function FromYesNo(s: string): (r: Result<bool>)
    ensures r == Ok(true) <==> s == "yes"
    ensures r == Ok(false) <==> s == "no"
    ensures r.Err? <==> s != "yes" && s != "no"
    ensures r.Err? ==> EndsWith(r.message, s)
  {
    match s
    case "yes" => Ok(true)
    case "no" => Ok(false)
    case _ => Err(YesNoMessage + s)
  }

  /** The decoded value has the shape the request asked for, and an integer
      lies within its width. */
  predicate Conforms(v: Value, req: Request) {
    match req
    case Scalar(StrKind) => v.Str?
    case Scalar(IntKind(w)) => v.Int? && Min(w) <= v.number <= Max(w)
    case Scalar(BoolKind) => v.Bool?
    case Any => v.Str?
    case EnumVariant => v.Variant?
    case Optional(inner) => v.Present? && Conforms(v.inner, inner)
  }

  function DecodeScalar(s: string, kind: ScalarKind): (r: Result<Value>)
    ensures !r.Abort?
    ensures r.Ok? ==> Conforms(r.value, Scalar(kind))
  {
    match kind
    case StrKind => Ok(Str(s))
    case IntKind(w) =>
      var n := ParseInt(s, w);
      if n.Ok? then Ok(Int(n.value)) else Err(n.message)
    case BoolKind =>
      var b := FromYesNo(s);
      if b.Ok? then Ok(Bool(b.value)) else Err(b.message)
  }

  /** `TextDeserializer`'s answer to a request (src/xml/mod.rs:38-56): strings
      unchanged, integers by the lexical parse of their width, booleans by
      `from_yes_no`, the text itself as the enum variant, and an option is
      always present. */
  function Decode(s: string, req: Request): (r: Result<Value>)
    ensures !r.Abort?
    ensures r.Ok? ==> Conforms(r.value, req)
  {
    match req
    case Scalar(kind) => DecodeScalar(s, kind)
    case Any => Ok(Str(s))
    case EnumVariant => Ok(Variant(s))
    case Optional(inner) =>
      var v := Decode(s, inner);
      if v.Ok? then Ok(Present(v.value)) else v
  }

  lemma StringUnchanged(s: string)
    ensures Decode(s, Scalar(StrKind)) == Ok(Str(s))
    ensures Decode(s, Any) == Ok(Str(s))
    ensures Decode(s, EnumVariant) == Ok(Variant(s))
  {
  }

  /** An integer request succeeds with `v` exactly when the text denotes `v`
      in the requested width. */
  lemma IntegerExact(s: string, w: Width, v: int)
    ensures Decode(s, Scalar(IntKind(w))) == Ok(Int(v)) <==> Denotes(s, w, v)
  {
    ParseIntDenotes(s, w, v);
  }

  /** Every integer of a width decodes back from its decimal text. */
  lemma IntegerRoundTrip(n: int, w: Width)
    requires Min(w) <= n <= Max(w)
    ensures Decode(Show(n), Scalar(IntKind(w))) == Ok(Int(n))
  {
    ParseShow(n, w);
  }

  lemma BooleanLiterals(s: string, b: bool)
    ensures Decode(s, Scalar(BoolKind)) == Ok(Bool(b)) <==> s == (if b then "yes" else "no")
    ensures Decode(s, Scalar(BoolKind)).Err? <==> s != "yes" && s != "no"
  {
  }

  /** An optional request never yields an absent value: it succeeds exactly
      when the inner request does, wrapping its value, and fails the same way. */
  lemma OptionAlwaysPresent(s: string, inner: Request)
    ensures Decode(s, Optional(inner)).Ok? <==> Decode(s, inner).Ok?
    ensures Decode(s, inner).Ok? ==> Decode(s, Optional(inner)) == Ok(Present(Decode(s, inner).value))
    ensures Decode(s, inner).Err? ==> Decode(s, Optional(inner)) == Decode(s, inner)
  {
  }
}
