/**
 * The endpoint resolver of Contentful.NET: a closed mapping from the kind of
 * content item being requested to the REST path suffix under a space, and to
 * the type name the Contentful API uses for that kind inside query filters.
 */
module Endpoints {
  import opened Wrappers

  /** The content-item classes the client can be asked for (the type parameter `T`). */
  datatype ItemKind = Asset | LocalizedAsset | ContentType | Entry | Space

  /** `KeyNotFoundException` from a dictionary that has no entry for the kind. */
  datatype LookupError = KeyNotFound(kind: ItemKind)

  const ProductionHost: string := "cdn"
  const PreviewHost: string := "preview"

  /** Composite-format template; `{0}` is the host, `{1}` the space id. */
  const ApiBase: string := "https://{0}.contentful.com/spaces/{1}"

  /** Kinds that have a REST endpoint. `LocalizedAsset` deliberately has none. */
  const EndpointDictionary: map<ItemKind, string> :=
    map[Asset := "/assets/", ContentType := "/content_types/", Entry := "/entries/", Space := ""]

  /** Kinds that have a wire type name. `ContentType` and `Space` have none. */
  const ContentfulItemTypeNameDictionary: map<ItemKind, string> :=
    map[Asset := "Asset", LocalizedAsset := "Asset", Entry := "Entrty"]

  /** The keys of the two dictionaries. */
  lemma DictionaryKeys(kind: ItemKind)
    ensures kind in EndpointDictionary <==> kind != LocalizedAsset
    ensures kind in ContentfulItemTypeNameDictionary <==> kind == Asset || kind == LocalizedAsset || kind == Entry
  {
    match kind
    case Asset =>
    case LocalizedAsset =>
    case ContentType =>
    case Entry =>
    case Space =>
  }

  /** A dictionary indexer: the entry for `k`, or `KeyNotFound`. */
  function Lookup(dictionary: map<ItemKind, string>, k: ItemKind): (r: Result<string, LookupError>)
    ensures r.Success? <==> k in dictionary
    ensures r.Success? ==> r.value == dictionary[k]
    ensures r.Failure? ==> r.error == KeyNotFound(k)
  {
    if k in dictionary then Success(dictionary[k]) else Failure(KeyNotFound(k))
  }

  /**
   * Composite formatting restricted to the placeholders `{0}` and `{1}`:
   * each placeholder in the template is replaced by its argument, inserted
   * verbatim; every other character of the template is copied.
   */
  function Format(template: string, arg0: string, arg1: string): (r: string)
    ensures arg0 == "{0}" && arg1 == "{1}" ==> r == template
    decreases |template|
  {
    if |template| >= 3 && template[..3] == "{0}" then arg0 + Format(template[3..], arg0, arg1)
    else if |template| >= 3 && template[..3] == "{1}" then arg1 + Format(template[3..], arg0, arg1)
    else if template == [] then []
    else [template[0]] + Format(template[1..], arg0, arg1)
  }

  /** A template text without `{` is copied through unchanged, whatever follows it. */
  lemma {:induction false} FormatLiteral(literal: string, rest: string, arg0: string, arg1: string)
    requires '{' !in literal
    ensures Format(literal + rest, arg0, arg1) == literal + Format(rest, arg0, arg1)
    decreases |literal|
  {
    if literal != [] {
      var t := literal + rest;
      assert t[0] == literal[0] && t[0] != '{';
      assert |t| >= 3 ==> t[..3][0] == t[0];
      assert t[1..] == literal[1..] + rest;
      assert Format(t, arg0, arg1) == [t[0]] + Format(t[1..], arg0, arg1);
      FormatLiteral(literal[1..], rest, arg0, arg1);
      var f := Format(rest, arg0, arg1);
      assert [literal[0]] + (literal[1..] + f) == literal + f;
    } else {
      assert literal + rest == rest;
    }
  }

  /** A placeholder is replaced by its argument. */
  lemma FormatPlaceholder(n: char, rest: string, arg0: string, arg1: string)
    requires n == '0' || n == '1'
    ensures Format(['{', n, '}'] + rest, arg0, arg1) == (if n == '0' then arg0 else arg1) + Format(rest, arg0, arg1)
  {
    var t := ['{', n, '}'] + rest;
    assert t[..3] == ['{', n, '}'];
    assert t[3..] == rest;
  }

  /** Formatting the base template followed by a brace-free suffix is plain concatenation. */
  lemma {:induction false} FormatApiBase(suffix: string, host: string, space: string)
    requires '{' !in suffix
    ensures Format(ApiBase + suffix, host, space) == "https://" + host + ".contentful.com/spaces/" + space + suffix
  {
    var p0, p1 := "https://", ".contentful.com/spaces/";
    var t2 := "{1}" + suffix;
    var t1 := p1 + t2;
    var t0 := "{0}" + t1;
    var f2 := Format(t2, host, space);
    assert f2 == space + suffix by {
      FormatPlaceholder('1', suffix, host, space);
      FormatLiteral(suffix, [], host, space);
      assert suffix + [] == suffix;
    }
    var f1 := Format(t1, host, space);
    assert f1 == p1 + f2 by { FormatLiteral(p1, t2, host, space); }
    var f0 := Format(t0, host, space);
    assert f0 == host + f1 by { FormatPlaceholder('0', t1, host, space); }
    assert Format(ApiBase + suffix, host, space) == p0 + f0 by {
      ApiBaseParts();
      Associative(p0, "{0}", p1, "{1}", suffix);
      FormatLiteral(p0, t0, host, space);
    }
    assert p0 + (host + (p1 + (space + suffix))) == p0 + host + p1 + space + suffix;
  }

  /** The base template is a literal, the host placeholder, a literal and the space placeholder. */
  lemma ApiBaseParts()
    ensures ApiBase == "https://" + "{0}" + ".contentful.com/spaces/" + "{1}"
  {
  }

  /** Regrouping a concatenation of five strings. */
  lemma Associative(a: string, b: string, c: string, d: string, e: string)
    ensures a + b + c + d + e == a + (b + (c + (d + e)))
  {
  }

  /** The host label: `preview` exactly when the preview API is asked for, `cdn` otherwise. */
  function Host(preview: bool): (h: string)
    ensures h == PreviewHost <==> preview
    ensures h == ProductionHost <==> !preview
  {
    if preview then PreviewHost else ProductionHost
  }

  /**
   * `GetEndpointUrl<T>(space, preview = false)`: the REST URL of the endpoint
   * for kind `kind` in space `space`, or the lookup failure for a kind that
   * has no endpoint.
   */
  function GetEndpointUrl(kind: ItemKind, space: string, preview: bool := false): (r: Result<string, LookupError>)
    ensures r.Failure? <==> kind == LocalizedAsset
    ensures r.Failure? ==> r.error == KeyNotFound(kind)
    ensures r.Success? ==> (kind in EndpointDictionary &&
      r.value == "https://" + Host(preview) + ".contentful.com/spaces/" + space + EndpointDictionary[kind])
  {
    var host := Host(preview);
    DictionaryKeys(kind);
    match Lookup(EndpointDictionary, kind)
    case Failure(e) => Failure(e)
    case Success(suffix) =>
      FormatApiBase(suffix, host, space);
      Success(Format(ApiBase + suffix, host, space))
  }

  /** `GetContentfulItemTypeName<T>()`: the wire type name of the kind, or the lookup failure. */
  function GetContentfulItemTypeName(kind: ItemKind): (r: Result<string, LookupError>)
    ensures r.Failure? <==> kind == ContentType || kind == Space
    ensures r.Failure? ==> r.error == KeyNotFound(kind)
    ensures r.Success? ==> (r.value == "Asset" <==> kind == Asset || kind == LocalizedAsset)
    ensures r.Success? ==> (r.value == "Entrty" <==> kind == Entry)
  {
    DictionaryKeys(kind);
    Lookup(ContentfulItemTypeNameDictionary, kind)
  }

  /** Every kind with an endpoint is served from the same two hosts under `/spaces/`. */
  lemma EndpointSuffixes(space: string, preview: bool)
    ensures GetEndpointUrl(Asset, space, preview).Success?
    ensures GetEndpointUrl(Asset, space, preview).value == "https://" + Host(preview) + ".contentful.com/spaces/" + space + "/assets/"
    ensures GetEndpointUrl(ContentType, space, preview).value == "https://" + Host(preview) + ".contentful.com/spaces/" + space + "/content_types/"
    ensures GetEndpointUrl(Entry, space, preview).value == "https://" + Host(preview) + ".contentful.com/spaces/" + space + "/entries/"
    ensures GetEndpointUrl(Space, space, preview).value == "https://" + Host(preview) + ".contentful.com/spaces/" + space
  {
    assert space + "" == space;
  }

  /** The host part of the URL tells whether the preview API was selected. */
  lemma EndpointHost(kind: ItemKind, space: string, preview: bool)
    requires kind != LocalizedAsset
    ensures preview <==> "https://preview." <= GetEndpointUrl(kind, space, preview).value
    ensures !preview <==> "https://cdn." <= GetEndpointUrl(kind, space, preview).value
  {
    var url := GetEndpointUrl(kind, space, preview).value;
    var head := "https://" + Host(preview) + ".contentful.com/spaces/";
    assert head <= url;
    HostPrefix(head, preview);
    assert url[8] == head[8];
  }

  /** The scheme and host part of a URL names the host it was built with. */
  lemma HostPrefix(head: string, preview: bool)
    requires head == "https://" + Host(preview) + ".contentful.com/spaces/"
    ensures preview ==> "https://preview." <= head
    ensures !preview ==> "https://cdn." <= head
    ensures |head| > 8 && head[8] == if preview then 'p' else 'c'
  {
  }

  /** Without a `preview` argument the production host `cdn` is used. */
  lemma DefaultHost(kind: ItemKind, space: string)
    requires kind != LocalizedAsset
    ensures "https://cdn." <= GetEndpointUrl(kind, space).value
    ensures !("https://preview." <= GetEndpointUrl(kind, space).value)
  {
    EndpointHost(kind, space, false);
  }

  /** Distinct spaces or hosts give distinct URLs for the same kind. */
  lemma {:induction false} EndpointUrlInjective(kind: ItemKind, space1: string, preview1: bool, space2: string, preview2: bool)
    requires kind != LocalizedAsset
    requires GetEndpointUrl(kind, space1, preview1) == GetEndpointUrl(kind, space2, preview2)
    ensures space1 == space2 && preview1 == preview2
  {
    var url := GetEndpointUrl(kind, space1, preview1).value;
    EndpointHost(kind, space1, preview1);
    EndpointHost(kind, space2, preview2);
    var base := "https://" + Host(preview1) + ".contentful.com/spaces/";
    var suffix := EndpointDictionary[kind];
    assert url == base + space1 + suffix;
    assert url == base + space2 + suffix;
    assert space1 == url[|base|..|url| - |suffix|];
    assert space2 == url[|base|..|url| - |suffix|];
  }

  /** The type-name mapping is many-to-one: both asset kinds share the name `Asset`. */
  lemma TypeNameManyToOne()
    ensures GetContentfulItemTypeName(Asset) == GetContentfulItemTypeName(LocalizedAsset) == Success("Asset")
    ensures GetContentfulItemTypeName(Entry) == Success("Entrty")
  {
  }
}
