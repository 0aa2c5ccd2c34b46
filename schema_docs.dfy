/** The documents the resolver works on: the root schema with its
    `definitions`, each definition's `links`, the caller's descriptor, the
    errors it reports and the validator engine it hands the composed schema to. */
module SchemaDocs {
  import opened JsValues

  /** The caller's descriptor `{url, method}`, as the keys it actually has. */
  type Props = map<string, JsValue>

  /** One entry of a definition's `links` array. A missing `href` or `method`
      reads as `Undefined`; a missing or falsy `schema` as a falsy value. */
  datatype Link = Link(href: JsValue, httpMethod: JsValue, schema: JsValue)

  /** `definitions[resource]`: its `links` (`None` when absent or falsy), its
      `required` value (`Undefined` when absent) and, in `other`, the fields
      besides those two. */
  datatype Definition = Definition(
    links: Option<seq<Link>>,
    required: JsValue,
    other: map<string, JsValue>)
  {
    /** `other` holds only the keys that are not `links` or `required`. */
    predicate WellFormed() {
      "links" !in other && "required" !in other
    }
  }

  /** The root schema. `hasDefinitions` says whether `schemata.definitions`
      is an object at all: it is false for a root without that key and for a
      non-object root such as a string, which has no such property either.
      `definitions` holds its own keys, and `other` the top-level fields
      besides `definitions`. */
  datatype Root = Root(
    hasDefinitions: bool,
    definitions: map<string, Definition>,
    other: map<string, JsValue>)
  {
    /** Without a `definitions` object there are no definitions, no field is
        recorded twice, and every definition is well formed. */
    predicate WellFormed() {
      && (!hasDefinitions ==> definitions == map[])
      && "definitions" !in other
      && forall k :: k in definitions ==> definitions[k].WellFormed()
    }
  }

  /** One field-level error reported by the validator engine. */
  datatype FieldError = FieldError(field: string, message: string)

  /** The errors a validation can end with, one kind per message of the
      resolver, plus the engine's compile failure and JavaScript's own
      `TypeError` raised by a string built-in applied to a non-string. */
  datatype Error =
    | MissingProp(prop: string)
    | DefinitionNotFound(path: string)
    | LinksNotFound
    | SchemaNotFound(httpMethod: JsValue, url: JsValue)
    | InvalidSchema(message: string)
    | InvalidData(fields: seq<FieldError>)
    | TypeError(operation: string)

  datatype Result<+T> = Ok(value: T) | Err(error: Error) {
    predicate IsFailure() { Err? }

    function PropagateFailure<U>(): Result<U>
      requires Err?
    {
      Err(error)
    }

    function Extract(): T
      requires Ok?
    {
      value
    }
  }

  /** What the engine's validator answers for one document: its verdict and
      the errors the engine reports. */
  datatype Verdict = Verdict(valid: bool, errors: seq<FieldError>)

  /** The engine's compiler applied to a schema: a validator, or the message
      of the exception it threw. */
  datatype Validator = Compiled(check: JsValue -> Verdict) | CompileError(message: string)

  /** How the promise returned by `validate` settles. */
  datatype Outcome = Resolved(data: JsValue) | Rejected(error: Error)
}
