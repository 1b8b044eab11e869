/** `generate_apigw_integration`: the `x-amazon-apigateway-integration`
    object that sends one operation to the backend over a VPC link. */
module Integration {
  import opened Wrappers
  import opened Json
  import opened Strings

  const DomainSegment := "http://${stageVariables.CustomDomainName}"
  const ServicePrefixSegment := "/${stageVariables.ServicePrefix}"
  const ApiVersionSegment := "/${stageVariables.ApiVersion}"
  const VpcLinkReference := "${stageVariables.VpcLinkId}"
  const BackendSlotPrefix := "integration.request.path."
  const CallerSlotPrefix := "method.request.path."

  /** The backend request slot of path parameter `p`. */
  function BackendSlot(p: string): string
  {
    BackendSlotPrefix + p
  }

  /** The caller request slot of path parameter `p`. */
  function CallerSlot(p: string): string
  {
    CallerSlotPrefix + p
  }

  /** Different parameters never share a backend slot. */
  lemma BackendSlotInjective(p: string, q: string)
    requires BackendSlot(p) == BackendSlot(q)
    ensures p == q
  {
    assert p == BackendSlot(p)[|BackendSlotPrefix|..];
    assert q == BackendSlot(q)[|BackendSlotPrefix|..];
  }

  /** The names in a parameter list, as a set. */
  function NameSet(params: seq<string>): set<string>
  {
    set p | p in params
  }

  /** The backend URI: the domain, then the service prefix when it is used,
      then the API version when one is given, then the normalized template. */
  function BackendUri(pathUri: string, apiVersion: string, useServicePrefix: bool): (r: string)
    ensures |DomainSegment| <= |r| && r[..|DomainSegment|] == DomainSegment
    ensures |r| <= |DomainSegment| + |ServicePrefixSegment| + |ApiVersionSegment| + |pathUri|
  {
    DomainSegment
    + (if useServicePrefix then ServicePrefixSegment else "")
    + (if apiVersion != "" then ApiVersionSegment else "")
    + Normalize(pathUri)
  }

  /** `k` is the backend slot of one of `names`. */
  predicate IsBackendSlotOf(k: string, names: set<string>)
  {
    |BackendSlotPrefix| <= |k| && k[..|BackendSlotPrefix|] == BackendSlotPrefix && k[|BackendSlotPrefix|..] in names
  }

  /** `requestParameters` as a dict, characterised by its lookups: it maps
      the backend slot of each named parameter to its caller slot, and holds
      nothing else. */
  ghost predicate ParameterMapping(d: Fields, names: set<string>)
  {
    && UniqueKeys(d)
    && (forall k :: k in Keys(d) ==> IsBackendSlotOf(k, names))
    && (forall p {:trigger BackendSlot(p)} :: p in names ==> Get(d, BackendSlot(p)) == Some(Str(CallerSlot(p))))
  }

  /** The dict the loop over `path_parameters` fills, one assignment per
      parameter in list order. */
  function RequestParameters(params: seq<string>): Fields
  {
    if params == [] then []
    else
      var last := params[|params| - 1];
      Put(RequestParameters(params[..|params| - 1]), BackendSlot(last), Str(CallerSlot(last)))
  }

  /** Assigning the slot of one more parameter extends the mapping to it;
      assigning it again changes nothing. */
  lemma ParameterMappingPut(d: Fields, names: set<string>, p: string)
    requires ParameterMapping(d, names)
    ensures ParameterMapping(Put(d, BackendSlot(p), Str(CallerSlot(p))), names + {p})
  {
    var d' := Put(d, BackendSlot(p), Str(CallerSlot(p)));
    PutKeys(d, BackendSlot(p), Str(CallerSlot(p)));
    PutUnique(d, BackendSlot(p), Str(CallerSlot(p)));
    forall k | k in Keys(d') ensures IsBackendSlotOf(k, names + {p}) {
      if k == BackendSlot(p) {
        assert k[|BackendSlotPrefix|..] == p;
      } else {
        assert IsBackendSlotOf(k, names);
      }
    }
    forall q | q in names + {p} ensures Get(d', BackendSlot(q)) == Some(Str(CallerSlot(q))) {
      if BackendSlot(q) == BackendSlot(p) {
        BackendSlotInjective(q, p);
      }
    }
  }

  lemma NameSetLast(params: seq<string>)
    requires params != []
    ensures NameSet(params) == NameSet(params[..|params| - 1]) + {params[|params| - 1]}
  {
    assert params == params[..|params| - 1] + [params[|params| - 1]];
  }

  /** The filled dict maps exactly the listed names; a repeated name only
      assigns the same value again. */
  lemma {:induction false} RequestParametersMapping(params: seq<string>)
    ensures ParameterMapping(RequestParameters(params), NameSet(params))
  {
    if params != [] {
      var init := params[..|params| - 1];
      var last := params[|params| - 1];
      RequestParametersMapping(init);
      ParameterMappingPut(RequestParameters(init), NameSet(init), last);
      NameSetLast(params);
    }
  }

  /** One more turn of the loop assigns the next parameter. */
  lemma RequestParametersNext(params: seq<string>, i: nat)
    requires i < |params|
    ensures RequestParameters(params[..i + 1])
            == Put(RequestParameters(params[..i]), BackendSlot(params[i]), Str(CallerSlot(params[i])))
  {
    assert params[..i + 1][..i] == params[..i];
  }

  const FixedFieldNames: seq<string> :=
    ["type", "httpMethod", "passthroughBehavior", "connectionId", "connectionType", "uri"]
  const IntegrationFieldNames: seq<string> := FixedFieldNames + ["requestParameters"]

  /** What every generated integration looks like: the five fixed fields,
      the backend URI, and `requestParameters` exactly when some path
      parameter is known, mapping each of them. */
  ghost predicate IntegrationFor(g: Json, pathUri: string, names: set<string>, apiVersion: string, useServicePrefix: bool)
  {
    && g.Obj?
    && UniqueKeys(g.fields)
    && (forall k :: k in Keys(g.fields) ==> k in IntegrationFieldNames)
    && Get(g.fields, "type") == Some(Str("http_proxy"))
    && Get(g.fields, "httpMethod") == Some(Str("ANY"))
    && Get(g.fields, "passthroughBehavior") == Some(Str("when_no_match"))
    && Get(g.fields, "connectionId") == Some(Str(VpcLinkReference))
    && Get(g.fields, "connectionType") == Some(Str("VPC_LINK"))
    && Get(g.fields, "uri") == Some(Str(BackendUri(pathUri, apiVersion, useServicePrefix)))
    && match Get(g.fields, "requestParameters")
       case None => names == {}
       case Some(rp) => names != {} && rp.Obj? && ParameterMapping(rp.fields, names)
  }

  /** The dict literal of the integration: the five fixed fields and the
      backend URI, in the order the code writes them. */
  function FixedFields(uri: string): Fields
  {
    [ ("type", Str("http_proxy")),
      ("httpMethod", Str("ANY")),
      ("passthroughBehavior", Str("when_no_match")),
      ("connectionId", Str(VpcLinkReference)),
      ("connectionType", Str("VPC_LINK")),
      ("uri", Str(uri)) ]
  }

  /** The six keys of the dict literal have six different lengths. */
  lemma FixedFieldsDistinct(uri: string)
    ensures DistinctKeys(FixedFields(uri))
  {
    var f := FixedFields(uri);
    var lengths := [4, 10, 19, 12, 14, 3];
    forall i, j | 0 <= i < j < |f| ensures f[i].0 != f[j].0 {
      assert |f[i].0| == lengths[i] && |f[j].0| == lengths[j];
    }
  }

  /** The dict literal holds six different keys, none of them
      `requestParameters`. */
  lemma FixedFieldsKeys(uri: string)
    ensures var f := FixedFields(uri);
      && UniqueKeys(f)
      && (forall k :: k in Keys(f) ==> k in FixedFieldNames)
      && Get(f, "requestParameters") == None
  {
    var f := FixedFields(uri);
    var names := FixedFieldNames;
    assert Keys(f) == names;
    assert "requestParameters" !in names;
    FixedFieldsDistinct(uri);
    DistinctKeysUnique(f);
  }

  /** What each lookup in the dict literal finds. */
  lemma FixedFieldsLookup(uri: string)
    ensures var f := FixedFields(uri);
      && UniqueKeys(f)
      && (forall k :: k in Keys(f) ==> k in FixedFieldNames)
      && Get(f, "requestParameters") == None
      && Get(f, "type") == Some(Str("http_proxy"))
      && Get(f, "httpMethod") == Some(Str("ANY"))
      && Get(f, "passthroughBehavior") == Some(Str("when_no_match"))
      && Get(f, "connectionId") == Some(Str(VpcLinkReference))
      && Get(f, "connectionType") == Some(Str("VPC_LINK"))
      && Get(f, "uri") == Some(Str(uri))
  {
    var f := FixedFields(uri);
    FixedFieldsKeys(uri);
    GetAt(f, 0);
    GetAt(f, 1);
    GetAt(f, 2);
    GetAt(f, 3);
    GetAt(f, 4);
    GetAt(f, 5);
  }

  /** The integration `generate_apigw_integration` returns: the dict literal,
      then `requestParameters` assigned when there are path parameters. */
  function IntegrationOf(pathUri: string, params: seq<string>, apiVersion: string, useServicePrefix: bool): Json
  {
    var fixed := FixedFields(BackendUri(pathUri, apiVersion, useServicePrefix));
    if |params| > 0 then Obj(Put(fixed, "requestParameters", Obj(RequestParameters(params))))
    else Obj(fixed)
  }

  /** The generated integration has the promised shape for the set of names
      in `params`; neither their order nor repetitions matter. */
  lemma IntegrationOfIsIntegrationFor(pathUri: string, params: seq<string>, apiVersion: string, useServicePrefix: bool)
    ensures IntegrationFor(IntegrationOf(pathUri, params, apiVersion, useServicePrefix),
                           pathUri, NameSet(params), apiVersion, useServicePrefix)
  {
    var fixed := FixedFields(BackendUri(pathUri, apiVersion, useServicePrefix));
    FixedFieldsLookup(BackendUri(pathUri, apiVersion, useServicePrefix));
    RequestParametersMapping(params);
    if |params| > 0 {
      var rp := Obj(RequestParameters(params));
      PutKeys(fixed, "requestParameters", rp);
      PutUnique(fixed, "requestParameters", rp);
      assert params[0] in NameSet(params);
    }
  }

  /** The loop of `generate_apigw_integration` over `path_parameters`: one
      assignment into `requestParameters` per parameter, in list order. */
  method FillRequestParameters(pathParameters: seq<string>) returns (pathIntegrations: Fields)
    ensures pathIntegrations == RequestParameters(pathParameters)
  {
    pathIntegrations := [];
    var i := 0;
    while i < |pathParameters|
      invariant 0 <= i <= |pathParameters|
      invariant pathIntegrations == RequestParameters(pathParameters[..i])
    {
      var param := pathParameters[i];
      RequestParametersNext(pathParameters, i);
      pathIntegrations := Put(pathIntegrations, BackendSlot(param), Str(CallerSlot(param)));
      i := i + 1;
    }
    assert pathParameters[..i] == pathParameters;
  }

  /** `generate_apigw_integration`: builds the base URI by appending
      segments and fills `requestParameters` one parameter at a time. */
  method GenerateIntegration(pathUri: string, pathParameters: seq<string>, apiVersion: string, useServicePrefix: bool)
    returns (integration: Json)
    ensures integration == IntegrationOf(pathUri, pathParameters, apiVersion, useServicePrefix)
  {
    var normalizedUri := Normalize(pathUri);
    var baseUri := DomainSegment;
    if useServicePrefix {
      baseUri := baseUri + ServicePrefixSegment;
    }
    if apiVersion != "" {
      baseUri := baseUri + ApiVersionSegment;
    }
    assert baseUri + normalizedUri == BackendUri(pathUri, apiVersion, useServicePrefix);
    var fields := FixedFields(baseUri + normalizedUri);
    if |pathParameters| > 0 {
      var pathIntegrations := FillRequestParameters(pathParameters);
      fields := Put(fields, "requestParameters", Obj(pathIntegrations));
    }
    integration := Obj(fields);
  }
}
