/** `validate(schemata, props, data)`: resolve the composed schema, compile it
    with the engine, validate the payload wrapped under its resource name, and
    settle with the original payload or with the first error met. */
module Pipeline {
  import opened JsValues
  import opened SchemaDocs
  import opened JsStrings
  import opened Resolver

  /** `namespaceData(resource, data)`: a fresh object whose only key is the
      resource, holding the payload. Assigning to `__proto__` calls the
      inherited setter instead of creating a key, so for that name the body
      has no own key at all. */
  function Namespace(resource: string, data: JsValue): (body: JsValue)
    ensures body.Obj?
    ensures resource != "__proto__" ==> body.fields.Keys == {resource} && Property(body, resource) == data
    ensures resource == "__proto__" ==> body.fields == map[]
  {
    if resource == "__proto__" then Obj(map[]) else Obj(map[resource := data])
  }

  /** `exports.validate`. The steps run in a fixed order (descriptor check,
      resource, definition, link schema, `required` override, compile,
      validate) and the first that fails rejects the promise; the engine
      `jsen` compiles a schema into a validator. Invalid data rejects only
      when the validator reports errors; otherwise the promise resolves with
      the payload as given, not the namespaced one. */
  method Validate(root: Root, props: Props, data: JsValue, jsen: Root -> Validator)
    returns (out: Outcome)
    ensures "url" !in props ==> out == Rejected(MissingProp("url"))
    ensures "url" in props && "method" !in props ==> out == Rejected(MissingProp("method"))
    ensures Resolve(root, props).Err? ==> out == Rejected(Resolve(root, props).error)
    ensures Resolve(root, props).Ok? ==>
      var resource, doc := Resolve(root, props).value.0, Resolve(root, props).value.1;
      match jsen(doc)
      case CompileError(message) => out == Rejected(InvalidSchema(message))
      case Compiled(check) =>
        var verdict := check(Namespace(resource, data));
        out == if !verdict.valid && |verdict.errors| > 0 then Rejected(InvalidData(verdict.errors))
               else Resolved(data)
    ensures out.Resolved? ==> out.data == data && Resolve(root, props).Ok?
    ensures out.Rejected? && out.error.InvalidData? ==> |out.error.fields| > 0
  {
    ResolveStepOrder(root, props);
    var checked := CheckProps(props);
    if checked.Err? {
      return Rejected(checked.error);
    }
    var resource := Resource(props["url"]);
    if resource.Err? {
      return Rejected(resource.error);
    }
    var doc := Specialise(root, props, resource.value);
    if doc.Err? {
      return Rejected(doc.error);
    }
    var validator := jsen(doc.value);
    if validator.CompileError? {
      return Rejected(InvalidSchema(validator.message));
    }
    var verdict := validator.check(Namespace(resource.value, data));
    if !verdict.valid && |verdict.errors| > 0 {
      return Rejected(InvalidData(verdict.errors));
    }
    return Resolved(data);
  }

  /** The error a failed resolution reports is the first failing step's:
      the descriptor's `url`, then its `method`, then the resource, then the
      definition, then its `links`. */
  lemma ResolveStepOrder(root: Root, props: Props)
    ensures "url" !in props ==> Resolve(root, props) == Err(MissingProp("url"))
    ensures "url" in props && "method" !in props ==> Resolve(root, props) == Err(MissingProp("method"))
    ensures "url" in props && "method" in props && Resource(props["url"]).Err? ==>
      Resolve(root, props) == Err(Resource(props["url"]).error)
    ensures "url" in props && "method" in props && Resource(props["url"]).Ok? ==>
      var resource := Resource(props["url"]).value;
      && (resource !in root.definitions ==>
            Resolve(root, props) == Err(DefinitionNotFound("definitions." + resource)))
      && (resource in root.definitions && root.definitions[resource].links.None? ==>
            Resolve(root, props) == Err(LinksNotFound))
      && (resource in root.definitions && Schema(props, root.definitions[resource]).Err? ==>
            Resolve(root, props) == Err(Schema(props, root.definitions[resource]).error))
  {
    var missing := FirstMissing(props, RequiredProps);
    assert RequiredProps[0] == "url" && RequiredProps[1] == "method";
    if "url" !in props {
      assert missing == Some("url");
    } else if "method" !in props {
      assert missing == Some("method");
    }
  }

  /** Resolution succeeds exactly when the descriptor is complete, the
      resource is defined with a `links` array, and the first link matching
      the descriptor carries a truthy schema; the composed schema is then the
      root specialised with that link's schema. */
  lemma ResolveSucceeds(root: Root, props: Props, resource: string, doc: Root)
    ensures Resolve(root, props) == Ok((resource, doc)) <==>
      && "url" in props && "method" in props
      && Resource(props["url"]) == Ok(resource)
      && resource in root.definitions
      && root.definitions[resource].links.Some?
      && var links := root.definitions[resource].links.value;
         exists i :: 0 <= i < |links| && Passes(links, i, props["method"], props["url"])
                     && Matches(links[i], props["method"], props["url"])
                     && Truthy(links[i].schema)
                     && doc == Mandatory(root, resource, links[i].schema)
  {
    ResolveStepOrder(root, props);
  }

  /** Copy on write: the composed schema is the root with at most
      `definitions[resource].required` replaced, and it is the root itself
      when the matched link's schema declares no truthy `required`. */
  lemma ResolveCopyOnWrite(root: Root, props: Props)
    ensures Resolve(root, props).Ok? ==>
      var resource, doc := Resolve(root, props).value.0, Resolve(root, props).value.1;
      && resource in root.definitions && resource in doc.definitions
      && doc == root.(definitions := root.definitions[resource :=
                  root.definitions[resource].(required := doc.definitions[resource].required)])
      && (doc.definitions[resource].required != root.definitions[resource].required ==>
            Truthy(doc.definitions[resource].required))
  {
    if Resolve(root, props).Ok? {
      var resource, doc := Resolve(root, props).value.0, Resolve(root, props).value.1;
      ResolveSucceeds(root, props, resource, doc);
      var links := root.definitions[resource].links.value;
      var i :| 0 <= i < |links| && Passes(links, i, props["method"], props["url"])
               && Matches(links[i], props["method"], props["url"])
               && Truthy(links[i].schema)
               && doc == Mandatory(root, resource, links[i].schema);
      var patched := root.(definitions := root.definitions[resource :=
                       root.definitions[resource].(required := doc.definitions[resource].required)]);
      assert patched.definitions == doc.definitions;
    }
  }

  /** Resolving the composed schema again with the same descriptor gives the
      same resource and the same composed schema. */
  lemma ResolveIdempotent(root: Root, props: Props)
    ensures Resolve(root, props).Ok? ==>
      Resolve(Resolve(root, props).value.1, props) == Resolve(root, props)
  {
    if Resolve(root, props).Ok? {
      var resource, doc := Resolve(root, props).value.0, Resolve(root, props).value.1;
      ResolveSucceeds(root, props, resource, doc);
      var links := root.definitions[resource].links.value;
      var i :| 0 <= i < |links| && Passes(links, i, props["method"], props["url"])
               && Matches(links[i], props["method"], props["url"])
               && Truthy(links[i].schema)
               && doc == Mandatory(root, resource, links[i].schema);
      assert doc.definitions[resource].links == root.definitions[resource].links;
      MandatoryIdempotent(root, resource, links[i].schema);
      ResolveSucceeds(doc, props, resource, doc);
    }
  }

  /** A root without `definitions`, which is also how a non-object such as
      the string `'nope'` reads (`hasDefinitions` false, no definitions), is
      rejected for the missing definition before the engine is reached. */
  lemma MissingDefinitionsRejected(jsonRoot: Root)
    requires jsonRoot.definitions == map[]
    ensures Resolve(jsonRoot, map["url" := Str("/x"), "method" := Str("get")])
            == Err(DefinitionNotFound("definitions.x"))
  {
    var props := map["url" := Str("/x"), "method" := Str("get")];
    ResourceOfPath(1, "x", "");
    assert Repeat('/', 1) + "x" + "" == "/x";
    ResolveStepOrder(jsonRoot, props);
  }

  /** `resource('/tests')` is `'test'`. */
  lemma TestsResource()
    ensures Resource(Str("/tests")) == Ok("test")
  {
    ResourceOfPath(1, "tests", "");
    assert Repeat('/', 1) + "tests" + "" == "/tests";
    assert Singular("tests") == "test";
  }

  /** `post /tests` matches a link declared as `POST /TESTS`. */
  lemma PostTestsMatches(link: Link)
    requires link.href == Str("/TESTS") && link.httpMethod == Str("POST")
    ensures Matches(link, Str("post"), Str("/tests"))
  {
    EqualsIgnoreCasePointwise("POST", "post");
    EqualsIgnoreCasePointwise("/TESTS", "/tests");
  }

  /** The composed schema for `post /tests` against a definition whose only
      link is `POST /TESTS` takes that link's `required` list. */
  lemma PostTestsSpecialised(root: Root, props: Props, link: Link)
    requires props == map["url" := Str("/tests"), "method" := Str("post")]
    requires link == Link(Str("/TESTS"), Str("POST"), Obj(map["required" := Arr([Str("name")])]))
    requires "test" in root.definitions && root.definitions["test"].links == Some([link])
    ensures Specialise(root, props, "test") == Ok(root.(definitions := root.definitions["test" :=
              root.definitions["test"].(required := Arr([Str("name")]))]))
  {
    PostTestsMatches(link);
    assert Passes([link], 0, props["method"], props["url"]);
    assert Property(link.schema, "required") == Arr([Str("name")]);
  }

  /** A `POST` to `/tests` matched case-insensitively against a link declared
      as `POST /TESTS`: the composed schema takes the link's `required` list
      for `test` and keeps everything else. */
  lemma PostTestsExample(root: Root, props: Props, link: Link)
    requires props == map["url" := Str("/tests"), "method" := Str("post")]
    requires link == Link(Str("/TESTS"), Str("POST"), Obj(map["required" := Arr([Str("name")])]))
    requires "test" in root.definitions && root.definitions["test"].links == Some([link])
    ensures Resolve(root, props) == Ok(("test", root.(definitions := root.definitions["test" :=
              root.definitions["test"].(required := Arr([Str("name")]))])))
  {
    TestsResource();
    PostTestsSpecialised(root, props, link);
    assert FirstMissing(props, RequiredProps) == None;
  }
}
