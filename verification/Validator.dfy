/**
 * The type gate at the head of the prediction handler: a fixed, ordered
 * table of seven required fields and the Python type each must have, walked
 * in order until the first field that is absent or of the wrong type.
 */
module Validator {
  import opened Json
  import opened Text

  /** The two Python types the table names. */
  datatype PyType = IntType | StrType

  /** `tipo.__name__`. */
  function PyTypeName(t: PyType): string {
    match t
    case IntType => "int"
    case StrType => "str"
  }

  /** `isinstance(v, t)`. A JSON boolean decodes to `bool`, a subclass of
      `int`, so it passes the `int` check; a float such as `3.0` does not. */
  predicate IsInstance(v: Value, t: PyType) {
    match t
    case IntType => v.Int? || v.Bool?
    case StrType => v.Str?
  }

  datatype FieldSpec = FieldSpec(name: string, expected: PyType)

  /** The `tipos_esperados` table, in declaration order. */
  const Schema: seq<FieldSpec> := [
    FieldSpec("idade", IntType),
    FieldSpec("tempo_experiencia", IntType),
    FieldSpec("nivel_profissional", StrType),
    FieldSpec("nivel_academico", StrType),
    FieldSpec("nivel_ingles", StrType),
    FieldSpec("nivel_espanhol", StrType),
    FieldSpec("certificacoes", IntType)
  ]

  /** Why a field was refused. */
  datatype Kind = MissingField | TypeMismatch(expected: PyType, received: string)

  /** The outcome of validation: the request may proceed, or the first
      offending field and what is wrong with it. */
  datatype Verdict = Ok | Invalid(field: string, kind: Kind)

  /** The field is present and of the declared type. */
  predicate Conforms(body: Body, f: FieldSpec) {
    f.name in body && IsInstance(body[f.name], f.expected)
  }

  /** One iteration of the loop: the membership test, then the type test. */
  function CheckField(body: Body, f: FieldSpec): (r: Verdict)
    ensures r.Ok? <==> Conforms(body, f)
    ensures r.Invalid? ==> r.field == f.name
    ensures r.Invalid? ==> (r.kind.MissingField? <==> f.name !in body)
    ensures r.Invalid? && r.kind.TypeMismatch? ==>
      r.kind == TypeMismatch(f.expected, TypeName(body[f.name]))
  {
    if f.name !in body then Invalid(f.name, MissingField)
    else if !IsInstance(body[f.name], f.expected) then
      Invalid(f.name, TypeMismatch(f.expected, TypeName(body[f.name])))
    else Ok
  }

  /** Every field before index `n` conforms. */
  predicate ConformsBefore(schema: seq<FieldSpec>, body: Body, n: int)
    requires n <= |schema|
  {
    forall j :: 0 <= j < n ==> Conforms(body, schema[j])
  }

  /** Walks `schema` in order and stops at the first failing field. */
  function ValidateAgainst(schema: seq<FieldSpec>, body: Body): (r: Verdict)
    ensures r.Ok? <==> ConformsBefore(schema, body, |schema|)
    ensures r.Invalid? ==>
      exists i :: 0 <= i < |schema| && ConformsBefore(schema, body, i) && r == CheckField(body, schema[i])
  {
    if |schema| == 0 then Ok
    else
      var v := CheckField(body, schema[0]);
      if v.Invalid? then
        assert ConformsBefore(schema, body, 0);
        v
      else
        var r := ValidateAgainst(schema[1..], body);
        assert forall j :: 1 <= j < |schema| ==> schema[j] == schema[1..][j - 1];
        assert r.Invalid? ==> exists i :: 0 <= i < |schema| && ConformsBefore(schema, body, i) && r == CheckField(body, schema[i]) by {
          if r.Invalid? {
            var k :| 0 <= k < |schema| - 1 && ConformsBefore(schema[1..], body, k) && r == CheckField(body, schema[1..][k]);
            assert ConformsBefore(schema, body, k + 1);
          }
        }
        r
  }

  /** The validation performed by the handler. */
  function Validate(body: Body): Verdict {
    ValidateAgainst(Schema, body)
  }

  /** A request passes iff each of the seven fields is present with its
      declared type; a refusal is the verdict of the first field that is not. */
  lemma ValidateChecksEveryField(body: Body)
    ensures Validate(body).Ok? <==> forall i :: 0 <= i < |Schema| ==> Conforms(body, Schema[i])
    ensures Validate(body).Invalid? ==> exists i ::
      0 <= i < |Schema| && ConformsBefore(Schema, body, i) && !Conforms(body, Schema[i])
      && Validate(body) == CheckField(body, Schema[i])
  {
  }

  /** `idade` is checked first, so an `idade` of any type other than `int`
      or `bool` is refused on `idade`, naming the type received, whatever
      the rest of the body holds. */
  lemma IdadeRefused(body: Body)
    requires "idade" in body && !IsInstance(body["idade"], IntType)
    ensures Validate(body) == Invalid("idade", TypeMismatch(IntType, TypeName(body["idade"])))
  {
    FirstFailureWins(Schema, body, 0);
  }

  /** First failure wins: when field `i` is the first that fails, the verdict
      is that field's own failure (missing, or the wrong type), whatever the
      fields after it hold. */
  lemma FirstFailureWins(schema: seq<FieldSpec>, body: Body, i: nat)
    requires i < |schema|
    requires ConformsBefore(schema, body, i)
    requires !Conforms(body, schema[i])
    ensures ValidateAgainst(schema, body) == CheckField(body, schema[i])
    ensures ValidateAgainst(schema, body).field == schema[i].name
  {
    var r := ValidateAgainst(schema, body);
    var k :| 0 <= k < |schema| && ConformsBefore(schema, body, k) && r == CheckField(body, schema[k]);
    if k < i {
      assert Conforms(body, schema[k]);
    }
  }

  /** The handler's loop: `for campo, tipo in tipos_esperados.items()`, raising
      at the first failure. */
  method ValidateLoop(body: Body) returns (r: Verdict)
    ensures r == Validate(body)
  {
    var i := 0;
    while i < |Schema|
      invariant 0 <= i <= |Schema|
      invariant ConformsBefore(Schema, body, i)
    {
      var f := Schema[i];
      if f.name !in body {
        FirstFailureWins(Schema, body, i);
        return Invalid(f.name, MissingField);
      }
      if !IsInstance(body[f.name], f.expected) {
        FirstFailureWins(Schema, body, i);
        return Invalid(f.name, TypeMismatch(f.expected, TypeName(body[f.name])));
      }
      i := i + 1;
    }
    r := Ok;
  }

  /** Only the seven declared keys are read: two bodies that agree on them get
      the same verdict, so extra keys are ignored. */
  lemma {:induction false} OnlyDeclaredKeysMatter(schema: seq<FieldSpec>, b1: Body, b2: Body)
    requires forall j :: 0 <= j < |schema| ==> (schema[j].name in b1 <==> schema[j].name in b2)
    requires forall j :: 0 <= j < |schema| && schema[j].name in b1 ==> b1[schema[j].name] == b2[schema[j].name]
    ensures ValidateAgainst(schema, b1) == ValidateAgainst(schema, b2)
  {
    if |schema| > 0 {
      assert CheckField(b1, schema[0]) == CheckField(b2, schema[0]);
      OnlyDeclaredKeysMatter(schema[1..], b1, b2);
    }
  }

  /** Adding keys outside the table never changes the verdict. */
  lemma ExtraKeysIgnored(body: Body, extra: Body)
    requires forall j :: 0 <= j < |Schema| ==> Schema[j].name !in extra
    ensures Validate(body + extra) == Validate(body)
  {
    OnlyDeclaredKeysMatter(Schema, body + extra, body);
  }

  /** The `int` check: accepts ints and booleans, refuses strings, floats
      (even integral ones such as `3.0`) and null. The `str` check accepts
      strings only. */
  lemma IsInstanceTable(n: int, b: bool, x: real, s: string)
    ensures IsInstance(Int(n), IntType) && IsInstance(Bool(b), IntType)
    ensures !IsInstance(Str(s), IntType) && !IsInstance(Float(x), IntType) && !IsInstance(Null, IntType)
    ensures IsInstance(Str(s), StrType)
    ensures !IsInstance(Int(n), StrType) && !IsInstance(Bool(b), StrType) && !IsInstance(Float(x), StrType)
    ensures !IsInstance(Null, StrType)
  {
  }

  /** The received type name a mismatch reports always names a type the
      check refuses: the `int` check passes exactly the values named "int"
      or "bool", the `str` check exactly those named "str". */
  lemma TypeNameAgrees(v: Value)
    ensures IsInstance(v, IntType) <==> TypeName(v) == "int" || TypeName(v) == "bool"
    ensures IsInstance(v, StrType) <==> TypeName(v) == "str"
  {
    match v
    case Null =>
      assert TypeName(v)[0] == 'N';
    case Bool(_) =>
    case Int(_) =>
    case Float(_) =>
      assert TypeName(v)[0] == 'f';
    case Str(_) =>
    case Array(_) =>
      assert TypeName(v)[0] == 'l';
    case Object(_) =>
      assert TypeName(v)[0] == 'd';
  }

  /** The text of the `ValueError` raised for a failure, which the handler
      returns as `{"erro": ...}`. */
  function Message(field: string, kind: Kind): (m: string)
  {
    match kind
    case MissingField => MissingPrefix + field
    case TypeMismatch(expected, received) =>
      MismatchPrefix + field + MismatchTail(expected, received)
  }

  /** What follows the field name in a type-mismatch text: the expected and
      the received type names. */
  function MismatchTail(expected: PyType, received: string): string {
    "'. Esperado " + PyTypeName(expected) + ", recebido " + received
  }

  const MissingPrefix: string := "Campo ausente: "
  const MismatchPrefix: string := "Tipo inválido para '"

  /** The message names the offending field at a fixed position after its
      kind's prefix, so the field can be read back from it, and the two kinds
      of message begin differently. */
  lemma MessageNamesField(field: string, kind: Kind)
    ensures kind.MissingField? ==> StartsWith(Message(field, kind), MissingPrefix)
    ensures kind.MissingField? ==> Message(field, kind)[|MissingPrefix|..] == field
    ensures kind.TypeMismatch? ==> StartsWith(Message(field, kind), MismatchPrefix)
    ensures kind.TypeMismatch? ==> Message(field, kind)[|MismatchPrefix|..|MismatchPrefix| + |field|] == field
    ensures !(StartsWith(Message(field, kind), MissingPrefix) && StartsWith(Message(field, kind), MismatchPrefix))
  {
    match kind
    case MissingField =>
      MissingMessage(field);
    case TypeMismatch(expected, received) =>
      MismatchMessage(field, expected, received);
  }

  lemma MissingMessage(field: string)
    ensures StartsWith(Message(field, MissingField), MissingPrefix)
    ensures Message(field, MissingField)[|MissingPrefix|..] == field
    ensures !StartsWith(Message(field, MissingField), MismatchPrefix)
  {
    var m := Message(field, MissingField);
    assert m == MissingPrefix + field;
    assert m[0] == 'C';
  }

  lemma MismatchMessage(field: string, expected: PyType, received: string)
    ensures StartsWith(Message(field, TypeMismatch(expected, received)), MismatchPrefix)
    ensures Message(field, TypeMismatch(expected, received))[|MismatchPrefix|..|MismatchPrefix| + |field|] == field
    ensures !StartsWith(Message(field, TypeMismatch(expected, received)), MissingPrefix)
    ensures Message(field, TypeMismatch(expected, received))[|MismatchPrefix| + |field|..]
      == "'. Esperado " + PyTypeName(expected) + ", recebido " + received
  {
    var m := Message(field, TypeMismatch(expected, received));
    Prefixed(MismatchPrefix, field, MismatchTail(expected, received));
    assert m[0] == MismatchPrefix[0];
  }

  /** `p + x + tail` starts with `p`, and `x` sits right after it. */
  lemma Prefixed(p: string, x: string, tail: string)
    ensures StartsWith(p + x + tail, p)
    ensures (p + x + tail)[|p|..|p| + |x|] == x
    ensures (p + x + tail)[|p| + |x|..] == tail
  {
    var s := p + x + tail;
    assert s[..|p|] == p;
    assert s[|p|..|p| + |x|] == x;
    assert s[|p| + |x|..] == tail;
  }

  /** The request of the test suite passes, and so does the same request
      with a boolean in an `int` field. */
  lemma SampleBodyAccepted()
    ensures Validate(SampleBody) == Ok
    ensures Validate(SampleBody["certificacoes" := Bool(true)]) == Ok
  {
    var b := SampleBody;
    assert Conforms(b, Schema[0]) && Conforms(b, Schema[1]) && Conforms(b, Schema[2]);
    assert Conforms(b, Schema[3]) && Conforms(b, Schema[4]) && Conforms(b, Schema[5]);
    assert Conforms(b, Schema[6]);
    assert ConformsBefore(Schema, b, 7);
    var b' := SampleBody["certificacoes" := Bool(true)];
    assert Conforms(b', Schema[0]) && Conforms(b', Schema[1]) && Conforms(b', Schema[2]);
    assert Conforms(b', Schema[3]) && Conforms(b', Schema[4]) && Conforms(b', Schema[5]);
    assert Conforms(b', Schema[6]);
    assert ConformsBefore(Schema, b', 7);
  }

  /** Dropping `certificacoes` from the sample request is refused as a missing
      field naming it. */
  lemma MissingFieldExample()
    ensures Validate(SampleBody - {"certificacoes"}) == Invalid("certificacoes", MissingField)
  {
    var b := SampleBody - {"certificacoes"};
    assert Conforms(b, Schema[0]) && Conforms(b, Schema[1]) && Conforms(b, Schema[2]);
    assert Conforms(b, Schema[3]) && Conforms(b, Schema[4]) && Conforms(b, Schema[5]);
    assert "certificacoes" !in b;
    FirstFailureWins(Schema, b, 6);
  }

  /** Sending `idade` as a string or as an integral float is refused as a
      type mismatch on `idade`, the first field checked. */
  lemma WrongTypeExamples()
    ensures Validate(SampleBody["idade" := Str("trinta")]) == Invalid("idade", TypeMismatch(IntType, "str"))
    ensures Validate(SampleBody["idade" := Float(35.0)]) == Invalid("idade", TypeMismatch(IntType, "float"))
  {
  }

  const SampleBody: Body := map[
    "idade" := Int(35),
    "tempo_experiencia" := Int(10),
    "nivel_profissional" := Str("Sênior"),
    "nivel_academico" := Str("Ensino Superior Completo"),
    "nivel_ingles" := Str("Avançado"),
    "nivel_espanhol" := Str("Básico"),
    "certificacoes" := Int(3)
  ]
}
