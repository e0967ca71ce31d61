/**
  The declaration synthesiser (`createDeclaration`): the `const` declaration
  that replaces an inlined import, and what that declaration binds when it runs.
*/
module Declaration {
  import opened Wrappers
  import opened ImportSyntax
  import JsonString

  /** A property descriptor written as an object literal: `{ value, configurable, writable, enumerable }`. */
  datatype Descriptor = Descriptor(value: string, configurable: bool, writable: bool, enumerable: bool)

  /** A property key: a plain name (`default`), or a computed well-known symbol (`[Symbol.toStringTag]`). */
  datatype PropertyKey = Name(name: string) | WellKnownSymbol(name: string)

  datatype PropertyDefinition = PropertyDefinition(key: PropertyKey, descriptor: Descriptor)

  /** The initialiser of a declarator. */
  datatype Init =
    | NullPrototypeObject(properties: seq<PropertyDefinition>)  // Object.create(null, { ... })
    | StringLiteral(value: string)
    | MemberAccess(objectName: string, property: string)        // objectName.property

  datatype Declarator = Declarator(id: string, init: Init)

  /** A `const` declaration. */
  datatype VariableDeclaration = Const(declarators: seq<Declarator>)

  /** The module object: an own, read-only, enumerable `default` and a read-only, hidden `Module` tag. */
  function ModuleObject(defaultValue: string): Init {
    NullPrototypeObject([
      PropertyDefinition(Name("default"),
        Descriptor(defaultValue, configurable := false, writable := false, enumerable := true)),
      PropertyDefinition(WellKnownSymbol("toStringTag"),
        Descriptor("Module", configurable := false, writable := false, enumerable := false))
    ])
  }

  /**
    `createDeclaration(namespaceIdentifier, defaultIdentifier, text)`. With a
    namespace name, the first declarator binds it to the module object and a
    second one, present exactly when a default name is given, binds the default
    name to `namespace.default`; with only a default name, the single declarator
    binds it to the escaped text itself; with neither, it throws "unreachable".
  */
  function CreateDeclaration(namespaceName: Option<string>, defaultName: Option<string>, text: string)
    : (r: Result<VariableDeclaration, Error>)
    ensures r.Failure? <==> namespaceName.None? && defaultName.None?
    ensures r.Failure? ==> r.error == UnreachableError
    ensures r.Success? ==>
      |r.value.declarators| == (if namespaceName.Some? && defaultName.Some? then 2 else 1)
    ensures namespaceName.Some? ==>
      r.Success? && r.value.declarators[0] ==
        Declarator(namespaceName.value, ModuleObject(JsonString.Escape(text)))
    ensures namespaceName.Some? && defaultName.Some? ==>
      r.value.declarators[1] == Declarator(defaultName.value, MemberAccess(namespaceName.value, "default"))
    ensures namespaceName.None? && defaultName.Some? ==>
      r.value.declarators == [Declarator(defaultName.value, StringLiteral(JsonString.Escape(text)))]
  {
    if namespaceName.Some? then
      var declarations := [Declarator(namespaceName.value, ModuleObject(JsonString.LiteralValue(text)))];
      var declarations :=
        if defaultName.Some? then
          declarations + [Declarator(defaultName.value, MemberAccess(namespaceName.value, "default"))]
        else declarations;
      Success(Const(declarations))
    else if defaultName.Some? then
      Success(Const([Declarator(defaultName.value, StringLiteral(JsonString.LiteralValue(text)))]))
    else
      Failure(UnreachableError)
  }

  // What a declaration binds when it runs.

  /** A run-time value: a string, or an object given by its own properties. */
  datatype Value = StringValue(s: string) | ObjectValue(properties: map<PropertyKey, Descriptor>)

  /** `Object.create(null, descriptors)`: an object whose only properties are the defined ones. */
  function DefineProperties(definitions: seq<PropertyDefinition>): (props: map<PropertyKey, Descriptor>)
    ensures props.Keys == set d | d in definitions :: d.key
  {
    if definitions == [] then map[]
    else
      var last := definitions[|definitions| - 1];
      var init := definitions[..|definitions| - 1];
      assert definitions == init + [last];
      DefineProperties(init)[last.key := last.descriptor]
  }

  /** The value of an initialiser under the bindings made so far; `None` where JavaScript would throw or yield `undefined`. */
  function EvalInit(env: map<string, Value>, init: Init): Option<Value> {
    match init
    case StringLiteral(v) => Some(StringValue(v))
    case NullPrototypeObject(definitions) => Some(ObjectValue(DefineProperties(definitions)))
    case MemberAccess(objectName, property) =>
      if objectName in env && env[objectName].ObjectValue? && Name(property) in env[objectName].properties
      then Some(StringValue(env[objectName].properties[Name(property)].value))
      else None
  }

  /** Runs the declarators left to right, each seeing the bindings of those before it. */
  function Evaluate(declarators: seq<Declarator>, env: map<string, Value>): Option<map<string, Value>>
    decreases |declarators|
  {
    if declarators == [] then Some(env)
    else match EvalInit(env, declarators[0].init)
      case None => None
      case Some(v) => Evaluate(declarators[1..], env[declarators[0].id := v])
  }

  /** The synthetic module of a namespace import: exactly two own properties, both read-only and fixed. */
  ghost predicate IsSyntheticModule(v: Value, defaultValue: string) {
    && v.ObjectValue?
    && v.properties.Keys == {Name("default"), WellKnownSymbol("toStringTag")}
    && v.properties[Name("default")] ==
       Descriptor(defaultValue, configurable := false, writable := false, enumerable := true)
    && v.properties[WellKnownSymbol("toStringTag")] ==
       Descriptor("Module", configurable := false, writable := false, enumerable := false)
  }

  /** The keys of an object's own enumerable properties. */
  function EnumerableKeys(v: Value): set<PropertyKey>
    requires v.ObjectValue?
  {
    set k | k in v.properties && v.properties[k].enumerable
  }

  /**
    Running a namespace-shaped declaration binds the namespace name to the
    synthetic module holding the escaped text, of whose properties only
    `default` is enumerable, and the default name, when there is one, to that
    module's `default`; nothing else is bound.
  */
  lemma NamespaceDeclarationBinds(namespaceName: string, defaultName: Option<string>, text: string,
                                  env: map<string, Value>)
    requires defaultName != Some(namespaceName)
    ensures var d := CreateDeclaration(Some(namespaceName), defaultName, text);
      && d.Success?
      && var after := Evaluate(d.value.declarators, env);
      && after.Some?
      && after.value.Keys == env.Keys + {namespaceName} + (if defaultName.Some? then {defaultName.value} else {})
      && IsSyntheticModule(after.value[namespaceName], JsonString.LiteralValue(text))
      && EnumerableKeys(after.value[namespaceName]) == {Name("default")}
      && (defaultName.Some? ==> after.value[defaultName.value] == StringValue(JsonString.LiteralValue(text)))
  {
    var value := JsonString.LiteralValue(text);
    var d := CreateDeclaration(Some(namespaceName), defaultName, text).value;
    var defs := ModuleObject(value).properties;
    var props := DefineProperties(defs);
    assert defs[..1][..0] == [];
    assert DefineProperties(defs[..1]) == map[][defs[0].key := defs[0].descriptor];
    assert props == DefineProperties(defs[..1])[defs[1].key := defs[1].descriptor];
    assert props == map[Name("default") := defs[0].descriptor, WellKnownSymbol("toStringTag") := defs[1].descriptor];
    var env1 := env[namespaceName := ObjectValue(props)];
    assert Evaluate(d.declarators, env) == Evaluate(d.declarators[1..], env1);
    if defaultName.Some? {
      var env2 := env1[defaultName.value := StringValue(value)];
      assert Evaluate(d.declarators[1..], env1) == Evaluate(d.declarators[2..], env2);
    }
  }

  /** Running a default-only declaration binds the default name straight to the escaped text. */
  lemma DefaultDeclarationBinds(defaultName: string, text: string, env: map<string, Value>)
    ensures var d := CreateDeclaration(None, Some(defaultName), text);
      && d.Success?
      && Evaluate(d.value.declarators, env) == Some(env[defaultName := StringValue(JsonString.LiteralValue(text))])
  {
  }

  /**
    Both shapes give the default name the same value: with or without the
    wrapper object, the default binding holds the escaped text.
  */
  lemma DefaultBindingAgreesAcrossShapes(namespaceName: Option<string>, defaultName: string, text: string,
                                         env: map<string, Value>)
    requires namespaceName != Some(defaultName)
    ensures var d := CreateDeclaration(namespaceName, Some(defaultName), text);
      && d.Success?
      && var after := Evaluate(d.value.declarators, env);
      && after.Some? && defaultName in after.value
      && after.value[defaultName] == StringValue(JsonString.LiteralValue(text))
  {
    if namespaceName.Some? {
      NamespaceDeclarationBinds(namespaceName.value, Some(defaultName), text, env);
    } else {
      DefaultDeclarationBinds(defaultName, text, env);
    }
  }
}
