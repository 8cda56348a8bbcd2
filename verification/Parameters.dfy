/**
 Typed parameter values, definitions, constraints and bindings
 (domain/parameter, domain/execution/validation.go).
 */
module Parameters {
  import opened Wrappers
  import opened Text
  import Decimal

  datatype Type = TextType | NumberType | BooleanType | SingleSelectType | MultiSelectType

  datatype Value =
    | TextValue(text: string)
    | NumberValue(number: string)
    | BooleanValue(boolean: bool)
    | SingleSelectValue(choice: string)
    | MultiSelectValue(choices: seq<string>)
  {
    function Type(): Type {
      match this
      case TextValue(_) => TextType
      case NumberValue(_) => NumberType
      case BooleanValue(_) => BooleanType
      case SingleSelectValue(_) => SingleSelectType
      case MultiSelectValue(_) => MultiSelectType
    }

    /** `Value.Validate`: bounded strings, and numbers in canonical form. */
    predicate Valid() {
      match this
      case TextValue(s) => |s| <= MAX_STRING_BYTES
      case SingleSelectValue(s) => |s| <= MAX_STRING_BYTES
      case NumberValue(s) => Decimal.Canonical(s) == Some(s)
      case BooleanValue(_) => true
      case MultiSelectValue(items) => forall i | 0 <= i < |items| :: |items[i]| <= MAX_STRING_BYTES
    }
  }

  /** `NewNumberValue`: a number is kept in canonical form. */
  function NewNumberValue(input: string): Option<Value> {
    match Decimal.Canonical(input)
    case None => None
    case Some(c) => Some(NumberValue(c))
  }

  type Scope = map<string, Value>

  /** What a called workflow checks a bound value against at run time. */
  datatype Constraint = Constraint(typ: Type, options: seq<string>)
  {
    predicate Accepts(value: Value) {
      && value.Valid()
      && value.Type() == typ
      && (value.SingleSelectValue? ==> value.choice in options)
      && (value.MultiSelectValue? ==> forall i | 0 <= i < |value.choices| :: value.choices[i] in options)
    }
  }

  /** A declared workflow parameter. */
  datatype Definition = Definition(
    name: string, typ: Type, required: bool, default: Option<Value>, options: seq<string>)
  {
    /** `Parameter.validateValue`. */
    predicate Accepts(value: Value) {
      && value.Valid()
      && value.Type() == typ
      && (value.SingleSelectValue? ==> value.choice in options)
      && (value.MultiSelectValue? ==>
            && (required ==> value.choices != [])
            && (forall i | 0 <= i < |value.choices| :: value.choices[i] in options)
            && (forall i, j | 0 <= i < j < |value.choices| :: value.choices[i] != value.choices[j]))
    }

    function Schema(): Constraint {
      Constraint(typ, options)
    }
  }

  datatype Binding =
    | Literal(value: Value)
    | ParentReference(name: string)
    | Malformed
  {
    /** `Binding.Resolve` against the values of the calling scope. */
    function Resolve(parent: Scope): Option<Value> {
      match this
      case Literal(v) => if v.Valid() then Some(v) else None
      case ParentReference(n) => if Blank(n) || n !in parent then None else Some(parent[n])
      case Malformed => None
    }
  }

  /** The bound values of a call, when every binding resolves. */
  function ResolveBindings(bindings: map<string, Binding>, parent: Scope): Option<Scope> {
    if forall n | n in bindings :: bindings[n].Resolve(parent).Some? then
      Some(map n | n in bindings :: bindings[n].Resolve(parent).value)
    else None
  }

  /** Adds the declared default of every parameter that is still unbound. */
  function WithDefaults(definitions: seq<Definition>, values: Scope): Scope
  {
    if definitions == [] then values else
    var d := definitions[0];
    WithDefaults(definitions[1..],
      if d.name !in values && d.default.Some? then values[d.name := d.default.value] else values)
  }

  predicate UniqueNames(definitions: seq<Definition>) {
    forall i, j | 0 <= i < j < |definitions| :: definitions[i].name != definitions[j].name
  }

  predicate Selects(typ: Type) {
    typ.SingleSelectType? || typ.MultiSelectType?
  }

  /** `Parameter.Validate`, display names aside: exactly the optional parameters have a default, and it is accepted. */
  predicate DefinitionOk(d: Definition) {
    && !Blank(d.name)
    && (if Selects(d.typ)
        then d.options != [] && Distinct(d.options) && forall i | 0 <= i < |d.options| :: !Blank(d.options[i])
        else d.options == [])
    && (d.required <==> d.default.None?)
    && (d.default.Some? ==> d.Accepts(d.default.value))
  }

  predicate DefinitionsOk(definitions: seq<Definition>) {
    UniqueNames(definitions) && forall i | 0 <= i < |definitions| :: DefinitionOk(definitions[i])
  }

  /** One option, as a value of a selecting parameter. */
  function Probe(typ: Type, option: string): Value {
    if typ.SingleSelectType? then SingleSelectValue(option) else MultiSelectValue([option])
  }

  /** The caller's parameter fits the callee's: the same type, and no option the callee does not have. */
  predicate ReferenceFits(parent: Definition, child: Definition) {
    && parent.typ == child.typ
    && (Selects(child.typ) ==>
          forall i | 0 <= i < |parent.options| :: child.Accepts(Probe(child.typ, parent.options[i])))
  }

  predicate BindingFits(parents: seq<Definition>, child: Definition, binding: Binding) {
    match binding
    case Literal(value) => child.Accepts(value)
    case ParentReference(name) =>
      name != "" && exists i :: 0 <= i < |parents| && parents[i].name == name && ReferenceFits(parents[i], child)
    case Malformed => false
  }

  /** `validateBindings`: only declared parameters are bound, each fittingly, and what is not bound has a default. */
  predicate BindingsOk(parents: seq<Definition>, children: seq<Definition>, bindings: map<string, Binding>) {
    && (forall n | n in bindings :: exists i :: 0 <= i < |children| && children[i].name == n)
    && (forall i | 0 <= i < |children| ::
          if children[i].name in bindings then BindingFits(parents, children[i], bindings[children[i].name])
          else children[i].default.Some?)
  }

  /** `validateSnapshotValues`: exactly the declared names, each with an accepted value. */
  predicate ValuesFit(definitions: seq<Definition>, values: Scope) {
    && UniqueNames(definitions)
    && (forall n | n in values :: exists i :: 0 <= i < |definitions| && definitions[i].name == n)
    && (forall i | 0 <= i < |definitions| ::
          definitions[i].name in values && definitions[i].Accepts(values[definitions[i].name]))
  }
}
