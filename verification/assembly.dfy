/** The part of `default_integration` that works on parsed documents: for
    the `bff` API every key of `paths` is prefixed with
    `/backend-for-frontend`, and the `paths` of a supplementary document,
    when one is given, are merged over the integrated ones. Reading the
    files is left to the caller: the documents arrive parsed. */
module Assembly {
  import opened Wrappers
  import opened Json
  import opened PathIntegration
  import opened Document
  import opened Renaming

  const BffPrefix := "/backend-for-frontend"
  const BffKind := "bff"

  /** A document whose `paths`, if it has one, is a dict. */
  predicate PathsDict(doc: Json)
  {
    doc.Obj? && match Get(doc.fields, "paths")
                case None => true
                case Some(p) => p.Obj? && UniqueKeys(p.fields)
  }

  /** `doc.get('paths', {})` */
  function PathsOrEmpty(doc: Json): Fields
    requires PathsDict(doc)
  {
    match Get(doc.fields, "paths")
    case None => []
    case Some(p) => p.fields
  }

  /** The document after the `bff` renaming loop over its `paths`. */
  function PrefixedDocument(doc: Json): Json
    requires PathsDict(doc)
  {
    match Get(doc.fields, "paths")
    case None => doc
    case Some(p) =>
      KeysRenameReady(p.fields);
      Obj(Put(doc.fields, "paths", Obj(RenameFrom(BffPrefix, p.fields, Keys(p.fields)))))
  }

  /** After the renaming every key of `paths` carries the prefix, `paths` is
      still a dict, and nothing else in the document changes. */
  lemma PrefixedDocumentShape(doc: Json)
    requires PathsDict(doc)
    ensures PathsDict(PrefixedDocument(doc))
    ensures forall k :: k in Keys(PathsOrEmpty(PrefixedDocument(doc))) ==> HasPrefix(BffPrefix, k)
    ensures Get(PrefixedDocument(doc).fields, "paths").Some? <==> Get(doc.fields, "paths").Some?
    ensures forall k :: k != "paths" ==> Get(PrefixedDocument(doc).fields, k) == Get(doc.fields, k)
  {
    match Get(doc.fields, "paths")
    case None =>
    case Some(p) =>
      KeysRenameReady(p.fields);
      RenameFromPrefixes(BffPrefix, p.fields, Keys(p.fields));
  }

  /** When no prefixed path is already a path, the renamed `paths` is the
      prefixed copy of the old one. */
  lemma PrefixedDocumentWithoutCollision(doc: Json)
    requires PathsDict(doc) && NoCollision(BffPrefix, PathsOrEmpty(doc))
    ensures PathsDict(PrefixedDocument(doc))
    ensures PathsOrEmpty(PrefixedDocument(doc)) == PrefixAll(BffPrefix, PathsOrEmpty(doc))
  {
    PrefixedDocumentShape(doc);
    match Get(doc.fields, "paths")
    case None =>
    case Some(p) =>
      RenameWithoutCollision(BffPrefix, p.fields);
  }

  lemma RenameLoopStep(keys: seq<string>, paths: Fields, i: nat)
    requires i < |keys| && RenameReady(paths, keys[i..])
    ensures keys[i] in Keys(paths) && UniqueKeys(paths)
    ensures RenameReady(RenameStep(BffPrefix, paths, keys[i]), keys[i + 1..])
    ensures RenameFrom(BffPrefix, paths, keys[i..])
            == RenameFrom(BffPrefix, RenameStep(BffPrefix, paths, keys[i]), keys[i + 1..])
  {
    assert keys[i..][0] == keys[i];
    assert keys[i..][1..] == keys[i + 1..];
    RenameReadyStep(BffPrefix, paths, keys[i..]);
  }

  /** Lines renaming the keys of one document's `paths` under `bff`: a
      snapshot of the keys is taken first, then each is popped and stored
      again under its prefixed form. */
  method PrefixPathKeys(doc: Json) returns (r: Json)
    requires PathsDict(doc)
    ensures r == PrefixedDocument(doc)
  {
    r := doc;
    match Get(doc.fields, "paths") {
      case None =>
      case Some(p) =>
        var keys := Keys(p.fields);
        KeysRenameReady(p.fields);
        ghost var whole := RenameFrom(BffPrefix, p.fields, keys);
        var paths := p.fields;
        var i := 0;
        assert keys[0..] == keys;
        while i < |keys|
          invariant i <= |keys|
          invariant RenameReady(paths, keys[i..])
          invariant RenameFrom(BffPrefix, paths, keys[i..]) == whole
        {
          var path := keys[i];
          RenameLoopStep(keys, paths, i);
          var editedPath := BffPrefix + path;
          var value := Get(paths, path).value;
          paths := Remove(paths, path);
          paths := Put(paths, editedPath, value);
          i := i + 1;
        }
        assert keys[i..] == [];
        r := Obj(Put(r.fields, "paths", Obj(paths)));
    }
  }

  /** Inputs `default_integration` can process: an integrable document whose
      `paths` is a dict, and a supplementary document whose `paths`, if any,
      is a dict. */
  predicate AssemblyReady(openapi: Json, supplement: Option<Json>)
  {
    && ReadableDocument(openapi)
    && UniqueKeys(PathsOf(openapi))
    && (supplement.Some? ==> PathsDict(supplement.value))
  }

  /** The integrated document has a `paths` dict with the input's paths. */
  lemma IntegratedPathsDict(openapi: Json, apiVersion: string, useServicePrefix: bool)
    requires ReadableDocument(openapi) && UniqueKeys(PathsOf(openapi))
    ensures PathsDict(IntegrateOpenapiSpec(openapi, apiVersion, useServicePrefix))
    ensures PathsOrEmpty(IntegrateOpenapiSpec(openapi, apiVersion, useServicePrefix))
            == IntegratePaths(PathsOf(openapi), apiVersion, useServicePrefix)
  {
    IntegrateOpenapiSpecShape(openapi, apiVersion, useServicePrefix);
    IntegratePathsLookup(PathsOf(openapi), apiVersion, useServicePrefix);
    SameKeysUnique(PathsOf(openapi), IntegratePaths(PathsOf(openapi), apiVersion, useServicePrefix));
  }

  /** The integrated document, renamed under `bff`. */
  function RenamedIntegration(openapi: Json, kind: string, apiVersion: string, useServicePrefix: bool): (r: Json)
    requires ReadableDocument(openapi) && UniqueKeys(PathsOf(openapi))
  {
    IntegratedPathsDict(openapi, apiVersion, useServicePrefix);
    var integrated := IntegrateOpenapiSpec(openapi, apiVersion, useServicePrefix);
    if kind == BffKind then PrefixedDocument(integrated) else integrated
  }

  lemma RenamedIntegrationDict(openapi: Json, kind: string, apiVersion: string, useServicePrefix: bool)
    requires ReadableDocument(openapi) && UniqueKeys(PathsOf(openapi))
    ensures PathsDict(RenamedIntegration(openapi, kind, apiVersion, useServicePrefix))
  {
    IntegratedPathsDict(openapi, apiVersion, useServicePrefix);
    PrefixedDocumentShape(IntegrateOpenapiSpec(openapi, apiVersion, useServicePrefix));
  }

  /** The paths the supplementary document contributes, renamed under `bff`. */
  function SupplementPaths(swagger: Json, kind: string): Fields
    requires PathsDict(swagger)
  {
    PrefixedDocumentShape(swagger);
    PathsOrEmpty(if kind == BffKind then PrefixedDocument(swagger) else swagger)
  }

  /** What `default_integration` returns for parsed inputs. */
  function Assemble(openapi: Json, kind: string, apiVersion: string, useServicePrefix: bool,
                    supplement: Option<Json>): Json
    requires AssemblyReady(openapi, supplement)
  {
    RenamedIntegrationDict(openapi, kind, apiVersion, useServicePrefix);
    var renamed := RenamedIntegration(openapi, kind, apiVersion, useServicePrefix);
    match supplement
    case None => renamed
    case Some(swagger) =>
      Obj(Put(renamed.fields, "paths", Obj(Update(PathsOrEmpty(renamed), SupplementPaths(swagger, kind)))))
  }

  /** Under `bff`, every key of the final `paths` carries the prefix, whether
      it came from the integrated or the supplementary document. */
  lemma AssembleBffPrefixed(openapi: Json, apiVersion: string, useServicePrefix: bool, supplement: Option<Json>)
    requires AssemblyReady(openapi, supplement)
    ensures var r := Assemble(openapi, BffKind, apiVersion, useServicePrefix, supplement);
      && PathsDict(r)
      && forall k :: k in Keys(PathsOrEmpty(r)) ==> HasPrefix(BffPrefix, k)
  {
    IntegratedPathsDict(openapi, apiVersion, useServicePrefix);
    var integrated := IntegrateOpenapiSpec(openapi, apiVersion, useServicePrefix);
    PrefixedDocumentShape(integrated);
    match supplement
    case None =>
    case Some(swagger) =>
      PrefixedDocumentShape(swagger);
      var renamed := RenamedIntegration(openapi, BffKind, apiVersion, useServicePrefix);
      var extra := SupplementPaths(swagger, BffKind);
      UpdateLookup(PathsOrEmpty(renamed), extra);
      UpdateUnique(PathsOrEmpty(renamed), extra);
  }

  /** With a supplementary document, the final `paths` has the keys of both;
      a supplementary key holds the supplementary value, every other key its
      integrated value; nothing outside `paths` changes. */
  lemma AssembleMerge(openapi: Json, kind: string, apiVersion: string, useServicePrefix: bool, swagger: Json)
    requires AssemblyReady(openapi, Some(swagger))
    ensures PathsDict(RenamedIntegration(openapi, kind, apiVersion, useServicePrefix))
    ensures var renamed := RenamedIntegration(openapi, kind, apiVersion, useServicePrefix);
      var extra := SupplementPaths(swagger, kind);
      var r := Assemble(openapi, kind, apiVersion, useServicePrefix, Some(swagger));
      && PathsDict(r)
      && (forall k :: k in Keys(PathsOrEmpty(r)) <==> k in Keys(PathsOrEmpty(renamed)) || k in Keys(extra))
      && (forall k :: k in Keys(extra) ==> Get(PathsOrEmpty(r), k) == Get(extra, k))
      && (forall k :: k !in Keys(extra) ==> Get(PathsOrEmpty(r), k) == Get(PathsOrEmpty(renamed), k))
      && (forall k :: k != "paths" ==> Get(r.fields, k) == Get(renamed.fields, k))
  {
    RenamedIntegrationDict(openapi, kind, apiVersion, useServicePrefix);
    var renamed := RenamedIntegration(openapi, kind, apiVersion, useServicePrefix);
    PrefixedDocumentShape(swagger);
    var extra := SupplementPaths(swagger, kind);
    assert PathsDict(if kind == BffKind then PrefixedDocument(swagger) else swagger);
    UpdateLookup(PathsOrEmpty(renamed), extra);
    UpdateUnique(PathsOrEmpty(renamed), extra);
  }

  /** The merge appends the supplementary paths "to the bottom": the
      integrated paths keep their places, and the supplementary paths they
      lack follow in the supplement's order. */
  lemma AssembleMergeOrder(openapi: Json, kind: string, apiVersion: string, useServicePrefix: bool, swagger: Json)
    requires AssemblyReady(openapi, Some(swagger))
    ensures PathsDict(RenamedIntegration(openapi, kind, apiVersion, useServicePrefix))
    ensures var renamed := RenamedIntegration(openapi, kind, apiVersion, useServicePrefix);
      var extra := SupplementPaths(swagger, kind);
      var r := Assemble(openapi, kind, apiVersion, useServicePrefix, Some(swagger));
      && PathsDict(r)
      && Keys(PathsOrEmpty(r)) == Keys(PathsOrEmpty(renamed)) + NewKeys(Keys(extra), Keys(PathsOrEmpty(renamed)))
  {
    RenamedIntegrationDict(openapi, kind, apiVersion, useServicePrefix);
    var renamed := RenamedIntegration(openapi, kind, apiVersion, useServicePrefix);
    PrefixedDocumentShape(swagger);
    var extra := SupplementPaths(swagger, kind);
    assert PathsDict(if kind == BffKind then PrefixedDocument(swagger) else swagger);
    UpdateKeys(PathsOrEmpty(renamed), extra);
    UpdateUnique(PathsOrEmpty(renamed), extra);
  }

  /** Under `bff` with no supplementary document, when no prefixed path is
      already a path, the final `paths` holds each integrated Path Item under
      its prefixed path, in order. */
  lemma AssembleBffWithoutCollision(openapi: Json, apiVersion: string, useServicePrefix: bool)
    requires AssemblyReady(openapi, None) && NoCollision(BffPrefix, PathsOf(openapi))
    ensures var r := Assemble(openapi, BffKind, apiVersion, useServicePrefix, None);
      var paths := IntegratePaths(PathsOf(openapi), apiVersion, useServicePrefix);
      && PathsDict(r)
      && PathsOrEmpty(r) == PrefixAll(BffPrefix, paths)
      && forall k :: Get(PathsOrEmpty(r), BffPrefix + k) == Get(paths, k)
  {
    IntegratedPathsDict(openapi, apiVersion, useServicePrefix);
    var paths := IntegratePaths(PathsOf(openapi), apiVersion, useServicePrefix);
    IntegratePathsLookup(PathsOf(openapi), apiVersion, useServicePrefix);
    NoCollisionSameKeys(BffPrefix, PathsOf(openapi), paths);
    var integrated := IntegrateOpenapiSpec(openapi, apiVersion, useServicePrefix);
    PrefixedDocumentShape(integrated);
    PrefixedDocumentWithoutCollision(integrated);
    PrefixAllLookup(BffPrefix, paths);
  }

  /** `default_integration` on parsed documents: integrate, rename under
      `bff`, then merge the (renamed) supplementary `paths` over the result. */
  method DefaultIntegration(openapi: Json, kind: string, apiVersion: string, useServicePrefix: bool,
                            supplement: Option<Json>) returns (integrated: Json)
    requires AssemblyReady(openapi, supplement)
    ensures integrated == Assemble(openapi, kind, apiVersion, useServicePrefix, supplement)
  {
    integrated := IntegrateOpenapi(openapi, apiVersion, useServicePrefix);
    IntegratedPathsDict(openapi, apiVersion, useServicePrefix);
    if kind == BffKind {
      integrated := PrefixPathKeys(integrated);
    }
    RenamedIntegrationDict(openapi, kind, apiVersion, useServicePrefix);
    if supplement.Some? {
      var swagger := supplement.value;
      if kind == BffKind {
        PrefixedDocumentShape(swagger);
        swagger := PrefixPathKeys(swagger);
      }
      var swaggerPaths := PathsOrEmpty(swagger);
      integrated := Obj(Put(integrated.fields, "paths", Obj(Update(PathsOrEmpty(integrated), swaggerPaths))));
    }
  }
}
