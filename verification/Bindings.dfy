/**
 Parameter bindings of reference steps (domain/execution/validation.go): the check
 of a plan's bindings against the two parameter lists, and what it guarantees when
 the bindings are resolved in the values of a caller.
 */
module Bindings {
  import opened Wrappers
  import opened Text
  import opened Parameters
  import opened Indexes

  const NAME: Definition -> string := (d: Definition) => d.name

  lemma NamesAreKeys(definitions: seq<Definition>)
    requires UniqueNames(definitions)
    ensures DistinctKeys(definitions, NAME)
  {
  }

  /** Looking a name up is finding its one declaration. */
  lemma LookUp(definitions: seq<Definition>, n: string)
    requires UniqueNames(definitions)
    ensures n in IndexBy(definitions, NAME) <==> exists i :: 0 <= i < |definitions| && definitions[i].name == n
    ensures forall i | 0 <= i < |definitions| && definitions[i].name == n ::
              n in IndexBy(definitions, NAME) && IndexBy(definitions, NAME)[n] == definitions[i]
  {
    NamesAreKeys(definitions);
    IndexHolds(definitions, NAME, n);
    forall i | 0 <= i < |definitions| && definitions[i].name == n
      ensures n in IndexBy(definitions, NAME) && IndexBy(definitions, NAME)[n] == definitions[i]
    {
      IndexGives(definitions, NAME, i);
    }
  }

  // ----- the check -----

  /** The parameters by name; of several with one name the last wins. */
  method ByName(definitions: seq<Definition>) returns (byName: map<string, Definition>)
    ensures byName == IndexBy(definitions, NAME)
  {
    byName := map[];
    for i := 0 to |definitions|
      invariant byName == IndexBy(definitions[..i], NAME)
    {
      assert definitions[..i + 1][..i] == definitions[..i];
      byName := byName[definitions[i].name := definitions[i]];
    }
    assert definitions[..|definitions|] == definitions;
  }

  method ValidateReference(parent: Definition, child: Definition) returns (ok: bool)
    ensures ok <==> ReferenceFits(parent, child)
  {
    if parent.typ != child.typ { return false; }
    if Selects(child.typ) {
      for i := 0 to |parent.options|
        invariant forall j | 0 <= j < i :: child.Accepts(Probe(child.typ, parent.options[j]))
      {
        if !child.Accepts(Probe(child.typ, parent.options[i])) { return false; }
      }
    }
    return true;
  }

  /** What the first loop asks of one binding; the values of literals are left to the second. */
  predicate Plausible(parents: seq<Definition>, children: seq<Definition>, n: string, binding: Binding) {
    exists i :: 0 <= i < |children| && children[i].name == n
      && (binding.Literal? || BindingFits(parents, children[i], binding))
  }

  /** What the second loop asks of one declared parameter. */
  predicate Supplied(child: Definition, bindings: map<string, Binding>) {
    if child.name !in bindings then child.default.Some?
    else bindings[child.name].Literal? ==> child.Accepts(bindings[child.name].value)
  }

  lemma TwoLoops(parents: seq<Definition>, children: seq<Definition>, bindings: map<string, Binding>)
    requires UniqueNames(children)
    ensures BindingsOk(parents, children, bindings) <==>
      && (forall n | n in bindings :: Plausible(parents, children, n, bindings[n]))
      && (forall i | 0 <= i < |children| :: Supplied(children[i], bindings))
  {
    if BindingsOk(parents, children, bindings) {
      forall n | n in bindings
        ensures Plausible(parents, children, n, bindings[n])
      {
        var i :| 0 <= i < |children| && children[i].name == n;
        assert BindingFits(parents, children[i], bindings[children[i].name]);
      }
    } else if (forall n | n in bindings :: Plausible(parents, children, n, bindings[n]))
           && (forall i | 0 <= i < |children| :: Supplied(children[i], bindings)) {
      forall i | 0 <= i < |children| && children[i].name in bindings
        ensures BindingFits(parents, children[i], bindings[children[i].name])
      {
        assert Plausible(parents, children, children[i].name, bindings[children[i].name]);
        assert Supplied(children[i], bindings);
      }
      assert forall i | 0 <= i < |children| && children[i].name !in bindings :: Supplied(children[i], bindings);
      assert forall n | n in bindings :: Plausible(parents, children, n, bindings[n]);
    }
  }

  /** One turn of the first loop. */
  method ValidateBinding(parents: seq<Definition>, children: seq<Definition>, parentsByName: map<string, Definition>,
      childrenByName: map<string, Definition>, n: string, binding: Binding)
    returns (ok: bool)
    requires UniqueNames(parents) && UniqueNames(children)
    requires parentsByName == IndexBy(parents, NAME) && childrenByName == IndexBy(children, NAME)
    ensures ok <==> Plausible(parents, children, n, binding)
  {
    LookUp(children, n);
    if n !in childrenByName { return false; }
    var child := childrenByName[n];
    match binding {
      case Literal(_) => return true;
      case Malformed => return false;
      case ParentReference(name) =>
        LookUp(parents, name);
        if name == "" || name !in parentsByName { return false; }
        ok := ValidateReference(parentsByName[name], child);
    }
  }

  /** `validateBindings`. */
  method ValidateBindings(parents: seq<Definition>, children: seq<Definition>, bindings: map<string, Binding>)
    returns (ok: bool)
    requires UniqueNames(parents) && UniqueNames(children)
    ensures ok <==> BindingsOk(parents, children, bindings)
  {
    var parentsByName := ByName(parents);
    var childrenByName := ByName(children);
    TwoLoops(parents, children, bindings);
    hide BindingsOk, Plausible, Supplied, IndexBy, UniqueNames;
    var names := bindings.Keys;
    while names != {}
      invariant names <= bindings.Keys
      invariant forall n | n in bindings && n !in names :: Plausible(parents, children, n, bindings[n])
      decreases names
    {
      var n :| n in names;
      ok := ValidateBinding(parents, children, parentsByName, childrenByName, n, bindings[n]);
      if !ok { return; }
      names := names - {n};
    }
    for i := 0 to |children|
      invariant forall j | 0 <= j < i :: Supplied(children[j], bindings)
    {
      if !Supplied(children[i], bindings) { return false; }
    }
    return true;
  }

  // ----- what the check guarantees -----

  /** A required selection of several options that is bound to an empty one: each option was checked, not their number. */
  predicate BoundEmpty(child: Definition, bindings: map<string, Binding>, caller: Scope) {
    && child.required && child.typ.MultiSelectType?
    && child.name in bindings && bindings[child.name].ParentReference?
    && bindings[child.name].name in caller && caller[bindings[child.name].name] == MultiSelectValue([])
  }

  /** A checked binding resolves in every caller whose values fit its declarations. */
  lemma CheckedResolves(parents: seq<Definition>, child: Definition, binding: Binding, caller: Scope)
    requires DefinitionsOk(parents) && ValuesFit(parents, caller) && BindingFits(parents, child, binding)
    ensures binding.Resolve(caller).Some?
    ensures binding.Literal? ==> child.Accepts(binding.Resolve(caller).value)
    ensures binding.ParentReference? ==>
      var value := binding.Resolve(caller).value;
      && value == caller[binding.name]
      && (child.Accepts(value) <==> !(child.required && child.typ.MultiSelectType? && value == MultiSelectValue([])))
  {
    if binding.ParentReference? {
      var i :| 0 <= i < |parents| && parents[i].name == binding.name && ReferenceFits(parents[i], child);
      assert DefinitionOk(parents[i]) && parents[i].Accepts(caller[parents[i].name]);
      ReferencedIsAccepted(parents[i], child, caller[binding.name]);
    }
  }

  lemma ReferencedIsAccepted(parent: Definition, child: Definition, value: Value)
    requires ReferenceFits(parent, child) && parent.Accepts(value)
    ensures child.Accepts(value) <==> !(child.required && child.typ.MultiSelectType? && value == MultiSelectValue([]))
  {
    if value.SingleSelectValue? {
      var i :| 0 <= i < |parent.options| && parent.options[i] == value.choice;
      assert child.Accepts(Probe(child.typ, parent.options[i]));
    }
    if value.MultiSelectValue? {
      forall k | 0 <= k < |value.choices|
        ensures value.choices[k] in child.options
      {
        var i :| 0 <= i < |parent.options| && parent.options[i] == value.choices[k];
        assert child.Accepts(Probe(child.typ, parent.options[i]));
        assert Probe(child.typ, parent.options[i]).choices[0] == value.choices[k];
      }
    }
  }

  predicate Defaulted(definitions: seq<Definition>, n: string) {
    exists i :: 0 <= i < |definitions| && definitions[i].name == n && definitions[i].default.Some?
  }

  /** Defaults are added for what is not bound, and nothing else changes. */
  lemma {:induction false} DefaultsAre(definitions: seq<Definition>, values: Scope, n: string)
    requires UniqueNames(definitions)
    ensures n in values ==> n in WithDefaults(definitions, values) && WithDefaults(definitions, values)[n] == values[n]
    ensures n !in values ==> (n in WithDefaults(definitions, values) <==> Defaulted(definitions, n))
    ensures forall i | 0 <= i < |definitions| && definitions[i].name == n && definitions[i].default.Some? && n !in values ::
              WithDefaults(definitions, values)[n] == definitions[i].default.value
  {
    if definitions != [] {
      var d, rest := definitions[0], definitions[1..];
      var next := if d.name !in values && d.default.Some? then values[d.name := d.default.value] else values;
      assert forall i | 0 <= i < |rest| :: rest[i] == definitions[i + 1];
      DefaultsAre(rest, next, n);
      if n !in values {
        if n == d.name && d.default.Some? {
          assert definitions[0].name == n;
        } else {
          forall i | 0 <= i < |definitions| && definitions[i].name == n && definitions[i].default.Some?
            ensures i > 0 && rest[i - 1] == definitions[i]
          {
          }
        }
      }
    }
  }

  ghost predicate Resolved(bindings: map<string, Binding>, caller: Scope, values: Scope) {
    ResolveBindings(bindings, caller) == Some(values)
  }

  /** One declared parameter has an accepted value exactly when it is not bound to an empty selection. */
  lemma ParameterIsSupplied(parents: seq<Definition>, children: seq<Definition>, bindings: map<string, Binding>,
    caller: Scope, values: Scope, i: nat)
    requires DefinitionsOk(parents) && DefinitionsOk(children) && ValuesFit(parents, caller)
    requires BindingsOk(parents, children, bindings) && Resolved(bindings, caller, values) && i < |children|
    ensures children[i].name in WithDefaults(children, values)
    ensures children[i].Accepts(WithDefaults(children, values)[children[i].name]) <==> !BoundEmpty(children[i], bindings, caller)
  {
    var child := children[i];
    DefaultsAre(children, values, child.name);
    assert DefinitionOk(child);
    if child.name in bindings {
      CheckedResolves(parents, child, bindings[child.name], caller);
      assert values[child.name] == bindings[child.name].Resolve(caller).value;
    }
    hide ValuesFit, ReferenceFits, DefinitionsOk, WithDefaults;
  }

  lemma OnlyDeclared(parents: seq<Definition>, children: seq<Definition>, bindings: map<string, Binding>,
    caller: Scope, values: Scope, n: string)
    requires DefinitionsOk(children) && BindingsOk(parents, children, bindings) && Resolved(bindings, caller, values)
    requires n in WithDefaults(children, values)
    ensures exists i :: 0 <= i < |children| && children[i].name == n
  {
    DefaultsAre(children, values, n);
    hide BindingFits, DefinitionOk, WithDefaults;
  }

  lemma AllResolve(parents: seq<Definition>, children: seq<Definition>, bindings: map<string, Binding>, caller: Scope)
    requires DefinitionsOk(parents) && ValuesFit(parents, caller) && BindingsOk(parents, children, bindings)
    ensures ResolveBindings(bindings, caller).Some?
  {
    forall n | n in bindings
      ensures bindings[n].Resolve(caller).Some?
    {
      var i :| 0 <= i < |children| && children[i].name == n;
      assert BindingFits(parents, children[i], bindings[children[i].name]);
      CheckedResolves(parents, children[i], bindings[n], caller);
    }
  }

  /**
   Bindings that pass the check of the plan resolve in every caller whose values
   fit, and give the called workflow values that fit in turn, except exactly where a
   required selection is bound to an empty one of the caller.
   */
  lemma CheckedBindingsFit(parents: seq<Definition>, children: seq<Definition>, bindings: map<string, Binding>, caller: Scope)
    requires DefinitionsOk(parents) && DefinitionsOk(children)
    requires ValuesFit(parents, caller) && BindingsOk(parents, children, bindings)
    ensures ResolveBindings(bindings, caller).Some?
    ensures ValuesFit(children, WithDefaults(children, ResolveBindings(bindings, caller).value))
       <==> !exists i :: 0 <= i < |children| && BoundEmpty(children[i], bindings, caller)
  {
    AllResolve(parents, children, bindings, caller);
    var values := ResolveBindings(bindings, caller).value;
    var scope := WithDefaults(children, values);
    assert Resolved(bindings, caller, values) && UniqueNames(children);
    forall i | 0 <= i < |children|
      ensures children[i].name in scope
      ensures children[i].Accepts(scope[children[i].name]) <==> !BoundEmpty(children[i], bindings, caller)
    {
      ParameterIsSupplied(parents, children, bindings, caller, values, i);
    }
    forall n | n in scope
      ensures exists i :: 0 <= i < |children| && children[i].name == n
    {
      OnlyDeclared(parents, children, bindings, caller, values, n);
    }
    hide BoundEmpty, DefinitionsOk, BindingsOk, WithDefaults, ResolveBindings, UniqueNames, Definition.Accepts;
  }

  /** The exception is real: an optional selection left empty, passed on to a required one. */
  lemma EmptySelectionSlipsThrough()
    ensures var parents := [Definition("all", MultiSelectType, false, Some(MultiSelectValue([])), ["a"])];
            var children := [Definition("some", MultiSelectType, true, None, ["a"])];
            var bindings, caller := map["some" := ParentReference("all")], map["all" := MultiSelectValue([])];
            && DefinitionsOk(parents) && DefinitionsOk(children) && ValuesFit(parents, caller)
            && BindingsOk(parents, children, bindings) && BoundEmpty(children[0], bindings, caller)
  {
    var parents := [Definition("all", MultiSelectType, false, Some(MultiSelectValue([])), ["a"])];
    var children := [Definition("some", MultiSelectType, true, None, ["a"])];
    assert "all"[0] == 'a' && "some"[0] == 's' && "a"[0] == 'a';
    assert parents[0].name == "all" && children[0].name == "some";
    assert ReferenceFits(parents[0], children[0]);
  }
}
