/** `integrate_openapi`: integrate every Path Item of a parsed OpenAPI
    document and declare the binary media types. The document is a value,
    so the deep copy the code makes first is implicit: the input is never
    changed. */
module Document {
  import opened Wrappers
  import opened Json
  import opened PathIntegration

  const BinaryMediaTypesKey := "x-amazon-apigateway-binary-media-types"
  const BinaryMediaTypes := Arr([Str("multipart/form-data")])

  /** Every value under `paths` is a Path Item `integrate_path` can process. */
  predicate ReadablePaths(paths: Fields)
  {
    forall i :: 0 <= i < |paths| ==> paths[i].1.Obj? && ReadablePathItem(paths[i].1.fields)
  }

  /** A document `integrate_openapi` can process without raising: a mapping
      whose `paths` entry exists and is a mapping of readable Path Items. */
  predicate ReadableDocument(doc: Json)
  {
    && doc.Obj?
    && Get(doc.fields, "paths").Some?
    && Get(doc.fields, "paths").value.Obj?
    && ReadablePaths(Get(doc.fields, "paths").value.fields)
  }

  function PathsOf(doc: Json): Fields
    requires ReadableDocument(doc)
  {
    Get(doc.fields, "paths").value.fields
  }

  lemma ReadablePathsSuffix(paths: Fields, n: nat)
    requires ReadablePaths(paths) && n <= |paths|
    ensures ReadablePaths(paths[n..])
  {
    forall i | 0 <= i < |paths[n..]| ensures paths[n..][i].1.Obj? && ReadablePathItem(paths[n..][i].1.fields) {
      assert paths[n..][i] == paths[n + i];
    }
  }

  /** The loop over `paths` from some entry on: each Path Item is replaced,
      under its own key, by its integrated form. */
  function IntegratePaths(paths: Fields, apiVersion: string, useServicePrefix: bool): (r: Fields)
    requires ReadablePaths(paths)
    ensures |r| == |paths|
    decreases |paths|
  {
    if paths == [] then []
    else
      ReadablePathsSuffix(paths, 1);
      var (path, item) := paths[0];
      [(path, Obj(IntegratePathItem(path, item.fields, apiVersion, useServicePrefix)))]
      + IntegratePaths(paths[1..], apiVersion, useServicePrefix)
  }

  /** `paths` keeps its keys in their order, and a lookup of any path finds
      `integrate_path` applied to the input's Path Item under that path. */
  lemma {:induction false} IntegratePathsLookup(paths: Fields, apiVersion: string, useServicePrefix: bool)
    requires ReadablePaths(paths)
    ensures Keys(IntegratePaths(paths, apiVersion, useServicePrefix)) == Keys(paths)
    ensures forall k :: (Get(IntegratePaths(paths, apiVersion, useServicePrefix), k) ==
                         match Get(paths, k)
                         case None => None
                         case Some(item) => Some(Obj(IntegratePathItem(k, item.fields, apiVersion, useServicePrefix))))
    decreases |paths|
  {
    if paths != [] {
      ReadablePathsSuffix(paths, 1);
      var r := IntegratePaths(paths, apiVersion, useServicePrefix);
      var tail := IntegratePaths(paths[1..], apiVersion, useServicePrefix);
      IntegratePathsLookup(paths[1..], apiVersion, useServicePrefix);
      assert r[1..] == tail;
      assert Keys(r) == [paths[0].0] + Keys(tail);
    }
  }

  /** The document `integrate_openapi` returns: `paths` replaced by its
      integrated form, then the binary media types assigned. */
  function IntegrateOpenapiSpec(doc: Json, apiVersion: string, useServicePrefix: bool): Json
    requires ReadableDocument(doc)
  {
    var paths := IntegratePaths(PathsOf(doc), apiVersion, useServicePrefix);
    Obj(Put(Put(doc.fields, "paths", Obj(paths)), BinaryMediaTypesKey, BinaryMediaTypes))
  }

  /** The integrated document: `paths` holds the integrated Path Items,
      the binary media types are `multipart/form-data`, and every other
      top-level entry is as it was. */
  lemma IntegrateOpenapiSpecShape(doc: Json, apiVersion: string, useServicePrefix: bool)
    requires ReadableDocument(doc)
    ensures var r := IntegrateOpenapiSpec(doc, apiVersion, useServicePrefix);
      && r.Obj?
      && Get(r.fields, "paths") == Some(Obj(IntegratePaths(PathsOf(doc), apiVersion, useServicePrefix)))
      && Get(r.fields, BinaryMediaTypesKey) == Some(BinaryMediaTypes)
      && (forall k :: k != "paths" && k != BinaryMediaTypesKey ==> Get(r.fields, k) == Get(doc.fields, k))
  {
    assert "paths" != BinaryMediaTypesKey by {
      assert |"paths"| != |BinaryMediaTypesKey|;
    }
  }

  /** What holds of the loop over `paths`: entries before `i` are
      integrated, entries from `i` on are untouched. */
  ghost predicate PathsLoop(original: Fields, paths: Fields, i: nat, whole: Fields,
                            apiVersion: string, useServicePrefix: bool)
  {
    && i <= |paths| == |original|
    && paths[i..] == original[i..]
    && ReadablePaths(original[i..])
    && paths[..i] + IntegratePaths(original[i..], apiVersion, useServicePrefix) == whole
  }

  /** One turn of the loop over `paths`. */
  lemma PathsStep(original: Fields, paths: Fields, i: nat, whole: Fields, item: Fields,
                  apiVersion: string, useServicePrefix: bool)
    requires PathsLoop(original, paths, i, whole, apiVersion, useServicePrefix) && i < |paths|
    requires paths[i].1.Obj? && ReadablePathItem(paths[i].1.fields)
    requires item == IntegratePathItem(paths[i].0, paths[i].1.fields, apiVersion, useServicePrefix)
    ensures PathsLoop(original, paths[i := (paths[i].0, Obj(item))], i + 1, whole, apiVersion, useServicePrefix)
  {
    assert paths[i] == original[i..][0];
    assert original[i..][1..] == original[i + 1..];
    ReadablePathsSuffix(original[i..], 1);
    var later := IntegratePaths(original[i + 1..], apiVersion, useServicePrefix);
    AssignExtends(paths, i, (paths[i].0, Obj(item)), later, whole);
  }

  lemma PathsLoopItem(original: Fields, paths: Fields, i: nat, whole: Fields, apiVersion: string, useServicePrefix: bool)
    requires PathsLoop(original, paths, i, whole, apiVersion, useServicePrefix) && i < |paths|
    ensures paths[i].1.Obj? && ReadablePathItem(paths[i].1.fields)
  {
    assert paths[i] == original[i..][0];
  }

  lemma PathsLoopDone(original: Fields, paths: Fields, i: nat, whole: Fields, apiVersion: string, useServicePrefix: bool)
    requires PathsLoop(original, paths, i, whole, apiVersion, useServicePrefix) && i == |paths|
    ensures paths == whole
  {
    assert original[i..] == [];
    assert paths[..i] == paths;
  }

  /** `integrate_openapi`: copies the document, replaces each Path Item by
      its integrated form, then sets the binary media types. */
  method IntegrateOpenapi(openapi: Json, apiVersion: string, useServicePrefix: bool) returns (integrated: Json)
    requires ReadableDocument(openapi)
    ensures integrated == IntegrateOpenapiSpec(openapi, apiVersion, useServicePrefix)
  {
    var original := PathsOf(openapi);
    ghost var whole := IntegratePaths(original, apiVersion, useServicePrefix);
    var paths := original;
    var i := 0;
    while i < |paths|
      invariant PathsLoop(original, paths, i, whole, apiVersion, useServicePrefix)
    {
      var (path, pathData) := paths[i];
      PathsLoopItem(original, paths, i, whole, apiVersion, useServicePrefix);
      var item := IntegratePath(path, pathData.fields, apiVersion, useServicePrefix);
      PathsStep(original, paths, i, whole, item, apiVersion, useServicePrefix);
      paths := paths[i := (path, Obj(item))];
      i := i + 1;
    }
    PathsLoopDone(original, paths, i, whole, apiVersion, useServicePrefix);
    integrated := Obj(Put(openapi.fields, "paths", Obj(paths)));
    integrated := Obj(Put(integrated.fields, BinaryMediaTypesKey, BinaryMediaTypes));
  }
}
