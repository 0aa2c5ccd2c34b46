/** `definition(schemata)` reads `definitions[resource]` with `_.get`, which
    follows the prototype chain: a resource named after a member every plain
    object inherits (`constructor`, `toString`, …) is "found" even when the
    schema's `definitions` object does not define it, and the failure surfaces one step later as a
    missing `links` array instead of a missing definition. This module models
    that lookup as written; `Resolver.DefinitionOf` is the own-property lookup
    the rest of the model uses. */
module InheritedNames {
  import opened JsValues
  import opened JsStrings
  import opened SchemaDocs
  import opened Resolver

  /** The members every plain object inherits from `Object.prototype`. */
  const ObjectPrototypeNames: set<string> := {
    "constructor", "hasOwnProperty", "isPrototypeOf", "propertyIsEnumerable",
    "toLocaleString", "toString", "valueOf", "__proto__",
    "__defineGetter__", "__defineSetter__", "__lookupGetter__", "__lookupSetter__"
  }

  /** What `_.get(schemata, ['definitions', resource])` returns: a definition
      of the schema, or an inherited function or prototype object. */
  datatype Found = Own(def: Definition) | Inherited(name: string)

  /** `definition(schemata)(resource)` as written. Inherited members are found
      only through a `definitions` object: without one, `_.get` stops at the
      missing `definitions` and reads `undefined`. */
  function DefinitionAsWritten(root: Root, resource: string): (f: Result<Found>)
    ensures resource in root.definitions ==> f == Ok(Own(root.definitions[resource]))
    ensures resource !in root.definitions && root.hasDefinitions && resource in ObjectPrototypeNames ==>
      f == Ok(Inherited(resource))
    ensures f.Err? <==>
      resource !in root.definitions && (!root.hasDefinitions || resource !in ObjectPrototypeNames)
    ensures f.Err? ==> f.error == DefinitionNotFound("definitions." + resource)
  {
    if resource in root.definitions then Ok(Own(root.definitions[resource]))
    else if root.hasDefinitions && resource in ObjectPrototypeNames then Ok(Inherited(resource))
    else DefinitionOf(root, resource).PropagateFailure()
  }

  /** `schema(props)` applied to what was found: an inherited member has no
      `links`. */
  function SchemaAsWritten(props: Props, found: Found): Result<JsValue> {
    match found
    case Own(def) => Schema(props, def)
    case Inherited(_) => Err(LinksNotFound)
  }

  /** `doc(resource)` built on the lookup as written. */
  function SpecialiseAsWritten(root: Root, props: Props, resource: string): Result<Root> {
    var found :- DefinitionAsWritten(root, resource);
    var spec :- SchemaAsWritten(props, found);
    Ok(Mandatory(root, resource, spec))
  }

  /** When the schema has a `definitions` object that does not define
      `constructor`, the lookup as written reports a missing `links` array
      where the own-property lookup reports the missing definition. */
  lemma InheritedNameMisreported(root: Root, props: Props)
    requires root.hasDefinitions && "constructor" !in root.definitions
    ensures SpecialiseAsWritten(root, props, "constructor") == Err(LinksNotFound)
    ensures Specialise(root, props, "constructor") == Err(DefinitionNotFound("definitions.constructor"))
  {
    assert "constructor" in ObjectPrototypeNames;
  }

  /** Without a `definitions` object, as for the root `{}` or the string
      `'nope'`, the lookup as written reports the missing definition for
      every name, inherited ones included. */
  lemma NoDefinitionsObjectReported(root: Root, props: Props, resource: string)
    requires root.WellFormed() && !root.hasDefinitions
    ensures SpecialiseAsWritten(root, props, resource) == Err(DefinitionNotFound("definitions." + resource))
  {
  }

  /** `'/constructors'` names the resource `constructor`. */
  lemma ConstructorsResource()
    ensures Resource(Str("/constructors")) == Ok("constructor")
  {
    ResourceOfPath(1, "constructors", "");
    assert Repeat('/', 1) + "constructors" + "" == "/constructors";
    assert Singular("constructors") == "constructor";
  }

  /** For every other name, and for every name when the root has no
      `definitions` object, the two lookups lead to the same result. */
  lemma AsWrittenAgreesElsewhere(root: Root, props: Props, resource: string)
    requires resource in root.definitions || resource !in ObjectPrototypeNames || !root.hasDefinitions
    ensures SpecialiseAsWritten(root, props, resource) == Specialise(root, props, resource)
  {
  }
}
