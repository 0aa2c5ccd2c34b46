/** The resolution steps of `index.js`: check the descriptor, derive the
    resource from the URL, look up its definition, match a link, and
    specialise the root schema's `required` list (copy on write). */
module Resolver {
  import opened JsValues
  import opened JsStrings
  import opened SchemaDocs

  /** The descriptor keys `checkProps` insists on, in the order it tests them. */
  const RequiredProps: seq<string> := ["url", "method"]

  // ---------------------------------------------------------------- checkProps

  /** The first of `names` that is not a key of `props`. */
  function FirstMissing(props: Props, names: seq<string>): (m: Option<string>)
    ensures m.None? <==> forall i :: 0 <= i < |names| ==> names[i] in props
    ensures m.Some? ==> exists i :: 0 <= i < |names| && names[i] == m.value && names[i] !in props
                                    && forall j :: 0 <= j < i ==> names[j] in props
  {
    if names == [] then None
    else if names[0] !in props then Some(names[0])
    else
      var m := FirstMissing(props, names[1..]);
      assert m.Some? ==> exists i :: 0 <= i < |names| && names[i] == m.value && names[i] !in props
                                     && forall j :: 0 <= j < i ==> names[j] in props by {
        if m.Some? {
          var i :| 0 <= i < |names[1..]| && names[1..][i] == m.value && names[1..][i] !in props
                   && forall j :: 0 <= j < i ==> names[1..][j] in props;
          assert forall j :: 0 <= j < i + 1 ==> names[j] in props by {
            forall j | 0 <= j < i + 1 ensures names[j] in props {
              if j > 0 { assert names[j] == names[1..][j - 1]; }
            }
          }
        }
      }
      m
  }

  /** `checkProps(props)`: tests each required key for presence (not its
      value), in order, and fails on the first one missing. */
  method CheckProps(props: Props) returns (r: Result<Props>)
    ensures "url" !in props ==> r == Err(MissingProp("url"))
    ensures "url" in props && "method" !in props ==> r == Err(MissingProp("method"))
    ensures "url" in props && "method" in props ==> r == Ok(props)
    ensures r == (if FirstMissing(props, RequiredProps).Some?
                  then Err(MissingProp(FirstMissing(props, RequiredProps).value)) else Ok(props))
  {
    var i := 0;
    while i < |RequiredProps|
      invariant 0 <= i <= |RequiredProps|
      invariant forall j :: 0 <= j < i ==> RequiredProps[j] in props
    {
      if RequiredProps[i] !in props {
        return Err(MissingProp(RequiredProps[i]));
      }
      i := i + 1;
    }
    assert RequiredProps[0] == "url" && RequiredProps[1] == "method";
    return Ok(props);
  }

  // ------------------------------------------------------------------ resource

  /** `isPlural(str)`: `str.endsWith('s')`. */
  predicate IsPlural(str: string) {
    |str| > 0 && str[|str| - 1] == 's'
  }

  /** `str.slice(0, -1)` when the word is plural: a prefix of the word, one
      character shorter exactly when it ends in `s`, and the word itself
      otherwise. */
  function Singular(str: string): (t: string)
    ensures |t| <= |str| && t == str[..|t|]
    ensures |t| == |str| - 1 <==> IsPlural(str)
    ensures !IsPlural(str) ==> t == str
  {
    if IsPlural(str) then str[..|str| - 1] else str
  }

  /** `resource(url)`: the first non-empty `/`-separated segment of `url`,
      less one trailing `s`. `split` on a non-string and `endsWith` on the
      `undefined` left when there is no segment both throw a `TypeError`. */
  function Resource(url: JsValue): (r: Result<string>)
    ensures !url.Str? ==> r == Err(TypeError("split"))
    ensures url.Str? ==> (r.Err? <==> forall i :: 0 <= i < |url.s| ==> url.s[i] == '/')
    ensures url.Str? && r.Err? ==> r.error == TypeError("endsWith")
  {
    if !url.Str? then Err(TypeError("split"))
    else
      FirstSegment(url.s, '/');
      var segments := NonEmpty(Split(url.s, '/'));
      if segments == [] then Err(TypeError("endsWith"))
      else Ok(Singular(segments[0]))
  }

  /** The resource of a string URL is its first word, found by skipping the
      leading slashes and reading up to the next one, less one trailing `s`;
      it fails exactly when the URL holds nothing but slashes. */
  lemma ResourceIsFirstWord(url: string)
    ensures Resource(Str(url)).Err? <==> forall i :: 0 <= i < |url| ==> url[i] == '/'
    ensures Resource(Str(url)).Err? ==> Resource(Str(url)).error == TypeError("endsWith")
    ensures Resource(Str(url)).Ok? ==>
      var word := FirstField(TrimStart(url, '/'), '/');
      && word != []
      && '/' !in word
      && (if word[|word| - 1] == 's' then word == Resource(Str(url)).value + "s"
          else word == Resource(Str(url)).value)
  {
    FirstSegment(url, '/');
    var segments := NonEmpty(Split(url, '/'));
    if segments != [] {
      assert segments[0] in Split(url, '/') by {
        NonEmptyKeeps(Split(url, '/'), 0);
      }
    }
  }

  /** Every part kept by `NonEmpty` is one of the parts it was given. */
  lemma {:induction false} NonEmptyKeeps(parts: seq<string>, k: nat)
    requires k < |NonEmpty(parts)|
    ensures NonEmpty(parts)[k] in parts
  {
    if parts[0] == [] {
      NonEmptyKeeps(parts[1..], k);
    } else if k > 0 {
      NonEmptyKeeps(parts[1..], k - 1);
    }
  }

  /** For a URL of the form `//…/word` or `//…/word/…`, the resource is the
      word with at most one trailing `s` removed and its case unchanged. */
  lemma ResourceOfPath(slashes: nat, word: string, rest: string)
    requires word != [] && '/' !in word
    requires rest == [] || rest[0] == '/'
    ensures Resource(Str(Repeat('/', slashes) + word + rest)) == Ok(Singular(word))
    ensures IsPlural(word) ==> word == Singular(word) + "s"
    ensures !IsPlural(word) ==> word == Singular(word)
  {
    var url := Repeat('/', slashes) + word + rest;
    assert url == Repeat('/', slashes) + (word + rest);
    TrimStartRepeat(slashes, word + rest, '/');
    FirstFieldOfWord(word, rest, '/');
    FirstSegment(url, '/');
    assert url[slashes] == word[0];
  }

  /** `resource('/sup/')` is `'sup'`: trailing slashes are ignored. */
  lemma ResourceOfSup()
    ensures Resource(Str("/sup/")) == Ok("sup")
  {
    ResourceOfPath(1, "sup", "/");
    assert Repeat('/', 1) + "sup" + "/" == "/sup/";
  }

  /** `resource('/bros')` is `'bro'`, and the heuristic turns `'/status'`
      into `'statu'`. */
  lemma ResourceOfPlurals()
    ensures Resource(Str("/bros")) == Ok("bro")
    ensures Resource(Str("/status")) == Ok("statu")
  {
    ResourceOfPath(1, "bros", "");
    assert Repeat('/', 1) + "bros" + "" == "/bros";
    assert Singular("bros") == "bro";
    ResourceOfPath(1, "status", "");
    assert Repeat('/', 1) + "status" + "" == "/status";
    assert Singular("status") == "statu";
  }

  // ---------------------------------------------------------------- definition

  /** `definition(schemata)(resource)`: `schemata.definitions[resource]`, or a
      failure naming the dotted path that was tried. */
  function DefinitionOf(root: Root, resource: string): (d: Result<Definition>)
    ensures d.Ok? <==> resource in root.definitions
    ensures d.Ok? ==> d.value == root.definitions[resource]
    ensures d.Err? ==> d.error == DefinitionNotFound("definitions." + resource)
  {
    if resource in root.definitions then Ok(root.definitions[resource])
    else
      var path := ["definitions", resource];
      assert path[1..] == [resource];
      assert Join(path, '.') == "definitions" + ['.'] + resource;
      assert "definitions" + ['.'] == "definitions.";
      Err(DefinitionNotFound(Join(path, '.')))
  }

  // -------------------------------------------------------------------- schema

  /** `strCompare(s1, s2)`: `toUpperCase` throws on a non-string. */
  function StrCompare(s1: JsValue, s2: JsValue): (r: Result<bool>)
    ensures r.Ok? <==> s1.Str? && s2.Str?
    ensures r.Err? ==> r.error == TypeError("toUpperCase")
    ensures r.Ok? ==>
      (r.value <==> |s1.s| == |s2.s| && forall i :: 0 <= i < |s1.s| ==> UpperChar(s1.s[i]) == UpperChar(s2.s[i]))
  {
    if !s1.Str? || !s2.Str? then Err(TypeError("toUpperCase"))
    else
      EqualsIgnoreCasePointwise(s1.s, s2.s);
      Ok(EqualsIgnoreCase(s1.s, s2.s))
  }

  /** The callback `_.find` applies to a link: both comparisons are made
      before their results are combined. */
  function LinkMatches(link: Link, httpMethod: JsValue, url: JsValue): (r: Result<bool>)
    ensures r.Ok? <==> Comparable(link, httpMethod, url)
    ensures r == Ok(true) <==> Matches(link, httpMethod, url)
    ensures r.Err? ==> r.error == TypeError("toUpperCase")
  {
    var sameMethod :- StrCompare(link.httpMethod, httpMethod);
    var sameHref :- StrCompare(link.href, url);
    Ok(sameMethod && sameHref)
  }

  /** The link and the descriptor can be compared without a `TypeError`. */
  predicate Comparable(link: Link, httpMethod: JsValue, url: JsValue) {
    link.httpMethod.Str? && httpMethod.Str? && link.href.Str? && url.Str?
  }

  /** The link's method and href equal the descriptor's, ignoring case. */
  predicate Matches(link: Link, httpMethod: JsValue, url: JsValue) {
    && Comparable(link, httpMethod, url)
    && EqualsIgnoreCase(link.httpMethod.s, httpMethod.s)
    && EqualsIgnoreCase(link.href.s, url.s)
  }

  /** The first `k` links are compared without error and none of them matches. */
  predicate Passes(links: seq<Link>, k: nat, httpMethod: JsValue, url: JsValue)
    requires k <= |links|
  {
    forall j :: 0 <= j < k ==> Comparable(links[j], httpMethod, url) && !Matches(links[j], httpMethod, url)
  }

  /** `_.find(links, …)`: scans the links in order and stops at the first one
      that matches, or at the first comparison that throws. */
  function FindLink(links: seq<Link>, httpMethod: JsValue, url: JsValue): (r: Result<Option<Link>>)
    ensures r == Ok(None) <==> Passes(links, |links|, httpMethod, url)
    ensures forall i :: 0 <= i < |links| && Passes(links, i, httpMethod, url) && Matches(links[i], httpMethod, url) ==>
              r == Ok(Some(links[i]))
    ensures forall i :: 0 <= i < |links| && Passes(links, i, httpMethod, url) && !Comparable(links[i], httpMethod, url) ==>
              r == Err(TypeError("toUpperCase"))
    ensures r.Ok? && r.value.Some? ==>
              exists i :: 0 <= i < |links| && Passes(links, i, httpMethod, url) && Matches(links[i], httpMethod, url)
                          && r.value.value == links[i]
    ensures r.Err? ==> r.error == TypeError("toUpperCase")
  {
    if links == [] then Ok(None)
    else
      match LinkMatches(links[0], httpMethod, url)
      case Err(e) => Err(e)
      case Ok(true) => Ok(Some(links[0]))
      case Ok(false) =>
        var r := FindLink(links[1..], httpMethod, url);
        PassesShift(links, httpMethod, url);
        assert r.Ok? && r.value.Some? ==>
          exists i :: 0 <= i < |links| && Passes(links, i, httpMethod, url) && Matches(links[i], httpMethod, url)
                      && r.value.value == links[i] by {
          if r.Ok? && r.value.Some? {
            var i :| 0 <= i < |links[1..]| && Passes(links[1..], i, httpMethod, url)
                     && Matches(links[1..][i], httpMethod, url) && r.value.value == links[1..][i];
            assert Passes(links, i + 1, httpMethod, url);
          }
        }
        r
  }

  /** Passing the first `k + 1` links is passing the first one and then `k`
      of the rest. */
  lemma PassesShift(links: seq<Link>, httpMethod: JsValue, url: JsValue)
    requires links != []
    ensures forall k :: 0 <= k < |links| ==>
      (Passes(links, k + 1, httpMethod, url) <==>
        Comparable(links[0], httpMethod, url) && !Matches(links[0], httpMethod, url)
        && Passes(links[1..], k, httpMethod, url))
  {
    forall k | 0 <= k < |links|
      ensures Passes(links, k + 1, httpMethod, url) <==>
        Comparable(links[0], httpMethod, url) && !Matches(links[0], httpMethod, url)
        && Passes(links[1..], k, httpMethod, url)
    {
      if Comparable(links[0], httpMethod, url) && !Matches(links[0], httpMethod, url)
         && Passes(links[1..], k, httpMethod, url) {
        forall j | 0 <= j < k + 1
          ensures Comparable(links[j], httpMethod, url) && !Matches(links[j], httpMethod, url)
        {
          if j > 0 { assert links[j] == links[1..][j - 1]; }
        }
      }
    }
  }

  /** `schema(props)(definition)`: the `links` array is checked before the
      descriptor; then the first link whose method and href equal the
      descriptor's, ignoring case, decides: its truthy `schema` is the result,
      and a falsy or missing one is "not found", whatever later links hold. */
  function Schema(props: Props, def: Definition): (r: Result<JsValue>)
    ensures def.links.None? ==> r == Err(LinksNotFound)
    ensures def.links.Some? && "url" !in props ==> r == Err(MissingProp("url"))
    ensures def.links.Some? && "url" in props && "method" !in props ==> r == Err(MissingProp("method"))
    ensures r.Ok? ==> Truthy(r.value)
    ensures def.links.Some? && "url" in props && "method" in props ==>
      var links, httpMethod, url := def.links.value, props["method"], props["url"];
      && (forall i :: 0 <= i < |links| && Passes(links, i, httpMethod, url) && Matches(links[i], httpMethod, url) ==>
            r == if Truthy(links[i].schema) then Ok(links[i].schema) else Err(SchemaNotFound(httpMethod, url)))
      && (forall i :: 0 <= i < |links| && Passes(links, i, httpMethod, url) && !Comparable(links[i], httpMethod, url) ==>
            r == Err(TypeError("toUpperCase")))
      && (Passes(links, |links|, httpMethod, url) ==> r == Err(SchemaNotFound(httpMethod, url)))
      && (r.Ok? ==> exists i :: 0 <= i < |links| && Passes(links, i, httpMethod, url)
                               && Matches(links[i], httpMethod, url) && r.value == links[i].schema)
  {
    if def.links.None? then Err(LinksNotFound)
    else
      var missing := FirstMissing(props, RequiredProps);
      if missing.Some? then Err(MissingProp(missing.value))
      else
        assert RequiredProps[0] in props && RequiredProps[1] in props;
        var httpMethod, url := props["method"], props["url"];
        var found :- FindLink(def.links.value, httpMethod, url);
        var schemata := if found.Some? then found.value.schema else Undefined;
        if !Truthy(schemata) then Err(SchemaNotFound(httpMethod, url)) else Ok(schemata)
  }

  /** Of two links with the same method and href, the later one is never
      consulted: the earlier one's schema decides. */
  lemma FirstOfDuplicatesWins(props: Props, def: Definition, i: nat, j: nat)
    requires def.links.Some? && "url" in props && "method" in props
    requires i < j < |def.links.value|
    requires def.links.value[i].httpMethod == def.links.value[j].httpMethod
    requires def.links.value[i].href == def.links.value[j].href
    requires Passes(def.links.value, i, props["method"], props["url"])
    requires Matches(def.links.value[j], props["method"], props["url"])
    ensures Schema(props, def) ==
      if Truthy(def.links.value[i].schema) then Ok(def.links.value[i].schema)
      else Err(SchemaNotFound(props["method"], props["url"]))
  {
    assert Matches(def.links.value[i], props["method"], props["url"]);
  }

  // ----------------------------------------------------------------- mandatory

  /** `mandatory(schemata, resource)(spec)`: when the link's schema declares no
      truthy `required`, the root itself; otherwise a copy of the root in which
      only `definitions[resource].required` is replaced by the link's list.
      Copying into a resource the root does not define changes nothing. */
  function Mandatory(root: Root, resource: string, spec: JsValue): (m: Root)
    ensures !Truthy(Property(spec, "required")) ==> m == root
    ensures resource !in root.definitions ==> m == root
    ensures m.other == root.other && m.hasDefinitions == root.hasDefinitions
    ensures root.WellFormed() ==> m.WellFormed()
    ensures m.definitions.Keys == root.definitions.Keys
    ensures forall k :: k in root.definitions && k != resource ==> m.definitions[k] == root.definitions[k]
    ensures resource in root.definitions ==>
      && m.definitions[resource].links == root.definitions[resource].links
      && m.definitions[resource].other == root.definitions[resource].other
    ensures resource in root.definitions && Truthy(Property(spec, "required")) ==>
      m.definitions[resource].required == Property(spec, "required")
  {
    var need := Property(spec, "required");
    if !Truthy(need) then root
    else if resource !in root.definitions then root
    else
      var clone := root;
      var def := clone.definitions[resource].(required := need);
      clone.(definitions := clone.definitions[resource := def])
  }

  /** Specialising an already specialised schema with the same link schema
      changes nothing more. */
  lemma MandatoryIdempotent(root: Root, resource: string, spec: JsValue)
    ensures Mandatory(Mandatory(root, resource, spec), resource, spec) == Mandatory(root, resource, spec)
  {
    var m := Mandatory(root, resource, spec);
    var mm := Mandatory(m, resource, spec);
    if Truthy(Property(spec, "required")) && resource in root.definitions {
      assert mm.definitions[resource] == m.definitions[resource];
      assert mm.definitions == m.definitions;
    }
  }

  // ------------------------------------------------------------- composition

  /** `doc(resource)`, the composition `mandatory ∘ schema ∘ definition`
      applied to the resource: each step feeds the next, and the first
      failing step's error is the result. */
  function Specialise(root: Root, props: Props, resource: string): (r: Result<Root>)
    ensures resource !in root.definitions ==> r == Err(DefinitionNotFound("definitions." + resource))
    ensures resource in root.definitions ==>
      && (r.Ok? <==> Schema(props, root.definitions[resource]).Ok?)
      && (r.Err? ==> r.error == Schema(props, root.definitions[resource]).error)
      && (r.Ok? ==> r.value == Mandatory(root, resource, Schema(props, root.definitions[resource]).value))
    ensures r.Ok? && root.WellFormed() ==> r.value.WellFormed()
  {
    var def :- DefinitionOf(root, resource);
    var spec :- Schema(props, def);
    Ok(Mandatory(root, resource, spec))
  }

  /** The part of `validate` before the engine runs: check the descriptor,
      derive the resource from its `url`, then build the composed schema. */
  function Resolve(root: Root, props: Props): (r: Result<(string, Root)>)
    ensures r.Ok? ==> && "url" in props && "method" in props
                      && Resource(props["url"]) == Ok(r.value.0)
                      && Specialise(root, props, r.value.0) == Ok(r.value.1)
    ensures r.Ok? && root.WellFormed() ==> r.value.1.WellFormed()
    ensures r.Err? ==> !r.error.InvalidSchema? && !r.error.InvalidData?
  {
    var missing := FirstMissing(props, RequiredProps);
    if missing.Some? then Err(MissingProp(missing.value))
    else
      assert RequiredProps[0] in props;
      var resource :- Resource(props["url"]);
      var doc :- Specialise(root, props, resource);
      Ok((resource, doc))
  }
}
