# OpenAPI integration for API Gateway, modelled in Dafny

This project models `openapi_integration.py` in `terraform/modules/rest-apigw-openapi/scripts/`. The script takes an OpenAPI document and adds an API Gateway HTTP-proxy integration (`x-amazon-apigateway-integration`) to every operation. Each integration reaches the backend through a VPC link. The script also declares `multipart/form-data` as a binary media type. For the backend-for-frontend (`bff`) API, it prefixes every path with `/backend-for-frontend`. Optionally, it merges in the `paths` of a supplementary document.

The model works on parsed documents. A document is a `Json` value, and a mapping is an ordered list of key/value pairs, because a Python dict keeps insertion order and the order of a Path Item's entries matters. The Python dict operations the script uses are modelled on these lists:

- `d[k]` and `d.get(k)` are `Json.Get`;
- `d[k] = v` is `Json.Put` (replace in place, or append at the end);
- `d.pop(k)` is `Json.Remove`;
- `d.update(e)` is `Json.Update`.

Each routine of the script that loops is a Dafny method with the same loop. Its postcondition ties the result to a specification function, and the properties are lemmas about that function. The modules are:

- `Json` (`json.dfy`): the document tree and the dict operations, with their lookup laws.
- `Strings` (`strings.dfy`): `str.replace` and the `proxy+` normalization of path templates.
- `Integration` (`integration.dfy`): `generate_apigw_integration`.
- `PathIntegration` (`path_integration.dfy`): `http_methods` and `integrate_path`, including the path-parameter list that grows across the operations of one path.
- `Document` (`document.dfy`): `integrate_openapi`.
- `Renaming` (`renaming.dfy`): the key-prefixing loop of the `bff` branch, generic in the prefix.
- `Assembly` (`assembly.dfy`): the document-level part of `default_integration` — integrate, prefix under `bff`, and merge the supplementary `paths`.

Under `bff`, each key of the snapshot of `paths` is popped and its value assigned under the prefixed key, in declaration order. A prefixed key that is not yet present is inserted at the end; one that is already present is replaced in place. So when no prefixed path is already a path, the renaming keeps the declaration order of `paths`, and `Renaming.RenameWithoutCollision` proves this.

## Model

All source paths are in `terraform/modules/rest-apigw-openapi/scripts/`.

| member | source | states |
|---|---|---|
| Json.Keys | terraform/modules/rest-apigw-openapi/scripts/openapi_integration.py:84 | the snapshot `list(d.keys())`: one key per pair, the key of the pair at each position, in insertion order |
| Json.Get | terraform/modules/rest-apigw-openapi/scripts/openapi_integration.py:41 | a lookup finds a value exactly when the key is present, and the pair found is in the mapping |
| Json.GetAt | terraform/modules/rest-apigw-openapi/scripts/openapi_integration.py:42 | in a dict, looking up the key stored at any position finds the value stored there |
| Json.Put | terraform/modules/rest-apigw-openapi/scripts/openapi_integration.py:53 | after `d[k] = v`, `k` finds `v` and every other key finds what it found before |
| Json.PutKeys | terraform/modules/rest-apigw-openapi/scripts/openapi_integration.py:53 | after `d[k] = v` the keys are the old keys plus `k` |
| Json.PutExistingKey | terraform/modules/rest-apigw-openapi/scripts/openapi_integration.py:61 | assigning to a key that is present keeps every key in its place |
| Json.PutNewKey | terraform/modules/rest-apigw-openapi/scripts/openapi_integration.py:86 | assigning to a new key appends the pair at the end |
| Json.PutUnique | terraform/modules/rest-apigw-openapi/scripts/openapi_integration.py:32 | assignment keeps a dict free of duplicate keys |
| Json.Remove | terraform/modules/rest-apigw-openapi/scripts/openapi_integration.py:86 | after `d.pop(k)`, `k` is absent, every other lookup is unchanged, and the result is still a dict |
| Json.UniqueKeysAt | terraform/modules/rest-apigw-openapi/scripts/openapi_integration.py:84 | two positions of a dict hold different keys |
| Json.UniqueKeysDistinct | terraform/modules/rest-apigw-openapi/scripts/openapi_integration.py:84 | a dict has pairwise different keys |
| Json.DistinctKeysUnique | terraform/modules/rest-apigw-openapi/scripts/openapi_integration.py:20-27 | pairwise different keys make a dict |
| Json.SameKeysUnique | terraform/modules/rest-apigw-openapi/scripts/openapi_integration.py:60-61 | a list with the same keys as a dict, in the same order, is a dict |
| Json.Update | terraform/modules/rest-apigw-openapi/scripts/openapi_integration.py:104 | `d.update(e)`: assigns each pair of `e` into `d` in order; its lookups are characterised by `Json.UpdateLookup` and its key order by `Json.UpdateKeys` |
| Json.UpdateLookup | terraform/modules/rest-apigw-openapi/scripts/openapi_integration.py:104 | after `d.update(e)` the keys are those of both; a key of `e` finds its value in `e`, any other key its value in `d` |
| Json.NewKeys | terraform/modules/rest-apigw-openapi/scripts/openapi_integration.py:103-104 | the keys of `e` that `d` lacks, in the order of `e`: a key is listed exactly when it is in `e` and not in `d` |
| Json.UpdateKeys | terraform/modules/rest-apigw-openapi/scripts/openapi_integration.py:103-104 | after `d.update(e)` the keys of `d` stay in their places and the keys of `e` that `d` lacked follow at the bottom, in the order of `e` |
| Json.UpdateUnique | terraform/modules/rest-apigw-openapi/scripts/openapi_integration.py:104 | `d.update(e)` keeps `d` a dict |
| Strings.ReplaceAll | terraform/modules/rest-apigw-openapi/scripts/openapi_integration.py:10 | replacing by a string no longer than the pattern never lengthens, and a string without the pattern is returned unchanged |
| Strings.ReplaceAllChangesIffOccurs | terraform/modules/rest-apigw-openapi/scripts/openapi_integration.py:10 | with a shorter replacement, the string changes if and only if the pattern occurs in it, and then it gets shorter |
| Strings.ReplaceAllAfter | terraform/modules/rest-apigw-openapi/scripts/openapi_integration.py:10 | when no occurrence starts before a given one, the text before it is copied, that occurrence is replaced, and replacement goes on after it |
| Strings.Normalize | terraform/modules/rest-apigw-openapi/scripts/openapi_integration.py:10 | `path_uri.replace("proxy+", "proxy")` is never longer than the template and leaves a template without `proxy+` unchanged |
| Strings.NormalizeWithoutPlus | terraform/modules/rest-apigw-openapi/scripts/openapi_integration.py:10 | a path template without `+` reaches the backend URI unchanged |
| Strings.NormalizeFirstMarker | terraform/modules/rest-apigw-openapi/scripts/openapi_integration.py:10 | the text before the first `proxy+` is copied, that marker becomes `proxy`, and the rest is normalized in turn |
| Strings.NoMarkerInPlusFree | terraform/modules/rest-apigw-openapi/scripts/openapi_integration.py:10 | text without `+` holds no `proxy+`, so a marker after it is the first one |
| Strings.NormalizeGreedyVariable | terraform/modules/rest-apigw-openapi/scripts/openapi_integration.py:10 | a template ending in `{proxy+}` (with no other `+`) ends in `{proxy}` after normalization |
| Integration.BackendUri | terraform/modules/rest-apigw-openapi/scripts/openapi_integration.py:12-18 | the base URI always starts with the custom-domain stage variable and grows by at most the two optional segments and the template |
| Integration.BackendSlot | terraform/modules/rest-apigw-openapi/scripts/openapi_integration.py:32 | the f-string `integration.request.path.{param}`, the backend slot of a path parameter |
| Integration.CallerSlot | terraform/modules/rest-apigw-openapi/scripts/openapi_integration.py:32 | the f-string `method.request.path.{param}`, the caller slot of a path parameter |
| Integration.BackendSlotInjective | terraform/modules/rest-apigw-openapi/scripts/openapi_integration.py:32 | different path parameters never share an `integration.request.path.` slot |
| Integration.ParameterMappingPut | terraform/modules/rest-apigw-openapi/scripts/openapi_integration.py:32 | assigning one more parameter's slot extends the mapping to that name and keeps it a dict |
| Integration.RequestParameters | terraform/modules/rest-apigw-openapi/scripts/openapi_integration.py:30-32 | the dict the loop fills, one assignment per listed parameter in list order; characterised by `Integration.RequestParametersMapping` |
| Integration.RequestParametersMapping | terraform/modules/rest-apigw-openapi/scripts/openapi_integration.py:29-33 | the filled `requestParameters` is a dict whose keys are exactly the backend slots of the listed names, each mapping to the caller slot of the same name |
| Integration.RequestParametersNext | terraform/modules/rest-apigw-openapi/scripts/openapi_integration.py:31-32 | one more turn of the loop assigns the next parameter's slot |
| Integration.FillRequestParameters | terraform/modules/rest-apigw-openapi/scripts/openapi_integration.py:29-33 | the loop filling `requestParameters` returns exactly the dict of one assignment per listed parameter, in list order |
| Integration.FixedFields | terraform/modules/rest-apigw-openapi/scripts/openapi_integration.py:20-27 | the dict literal for a given URI, its six fields in their written order; characterised by `Integration.FixedFieldsKeys` and `Integration.FixedFieldsLookup` |
| Integration.FixedFieldsDistinct | terraform/modules/rest-apigw-openapi/scripts/openapi_integration.py:20-27 | the six keys of the dict literal are pairwise different |
| Integration.FixedFieldsKeys | terraform/modules/rest-apigw-openapi/scripts/openapi_integration.py:20-27 | the dict literal is a dict of the six fixed names, without `requestParameters` |
| Integration.FixedFieldsLookup | terraform/modules/rest-apigw-openapi/scripts/openapi_integration.py:20-27 | the dict literal holds `http_proxy`, `ANY`, `when_no_match`, the VPC link stage variable, `VPC_LINK` and the URI, with no `requestParameters` |
| Integration.IntegrationOf | terraform/modules/rest-apigw-openapi/scripts/openapi_integration.py:9-35 | the integration `generate_apigw_integration` returns: the dict literal, then `requestParameters` only when the list is not empty; characterised by `Integration.IntegrationOfIsIntegrationFor` |
| Integration.IntegrationOfIsIntegrationFor | terraform/modules/rest-apigw-openapi/scripts/openapi_integration.py:9-35 | every integration has the five constant fields, a `uri` that is the domain, the optional service prefix, the optional API version and the normalized template in that order, and `requestParameters` if and only if some path parameter is given, mapping exactly those parameters; order and repetition of the list do not matter |
| Integration.GenerateIntegration | terraform/modules/rest-apigw-openapi/scripts/openapi_integration.py:9-35 | the method that appends URI segments and fills `requestParameters` one parameter at a time returns exactly the specified integration |
| PathIntegration.IsPathParam | terraform/modules/rest-apigw-openapi/scripts/openapi_integration.py:43 | the filter `param.get("in") == "path"`, also used at line 51: the parameter is a mapping whose `in` is the string `path` |
| PathIntegration.RenderName | terraform/modules/rest-apigw-openapi/scripts/openapi_integration.py:32 | how the f-string renders a scalar name: `None` for an absent or null name, `True`/`False`, an integer in decimal, a string as is |
| PathIntegration.PythonKey | terraform/modules/rest-apigw-openapi/scripts/openapi_integration.py:51 | the value Python's set compares for a name: an absent name is `None` and a boolean is the integer 1 or 0, so the result is never a boolean |
| PathIntegration.PythonEqualNamesRenderAlike | terraform/modules/rest-apigw-openapi/scripts/openapi_integration.py:51 | for names that are not booleans, two names the set identifies render alike, so deduplicating rendered names keeps the same set of names |
| PathIntegration.BooleanNameMergesWithInteger | terraform/modules/rest-apigw-openapi/scripts/openapi_integration.py:51 | `True` and `1` are one element of a Python set but render differently, which is why boolean names are excluded |
| PathIntegration.PathParamNames | terraform/modules/rest-apigw-openapi/scripts/openapi_integration.py:43 | the names of the parameters located in the path, in list order; characterised by `PathIntegration.PathParamNamesExactly` |
| PathIntegration.PathParamNamesExactly | terraform/modules/rest-apigw-openapi/scripts/openapi_integration.py:43 | a name is collected if and only if some parameter located in the path carries it |
| PathIntegration.DeclaredPathParams | terraform/modules/rest-apigw-openapi/scripts/openapi_integration.py:41-43 | the path parameter names of a mapping's `parameters` entry, none when it has no such entry; the same collection serves the operation at lines 49-51 |
| PathIntegration.Dedup | terraform/modules/rest-apigw-openapi/scripts/openapi_integration.py:51 | `list(set(xs))` holds the same names as `xs`, each name once, and is no longer |
| PathIntegration.NextAcc | terraform/modules/rest-apigw-openapi/scripts/openapi_integration.py:49-51 | the shared list after one entry: at an operation with `parameters`, the set of the old list and the operation's own path parameters, otherwise unchanged; characterised by `PathIntegration.NextAccNames` |
| PathIntegration.NextAccNames | terraform/modules/rest-apigw-openapi/scripts/openapi_integration.py:47-51 | at each entry the shared list gains exactly that operation's own path parameters, and nothing at other entries |
| PathIntegration.IntegrateEntry | terraform/modules/rest-apigw-openapi/scripts/openapi_integration.py:46-53 | the loop body for one entry, given the shared list after that entry: an HTTP-method entry gets its integration written under `x-amazon-apigateway-integration`, any other entry is skipped; characterised by `PathIntegration.IntegrateEntryOperation` |
| PathIntegration.IntegrateEntries | terraform/modules/rest-apigw-openapi/scripts/openapi_integration.py:46-53 | the loop over a Path Item's entries yields one entry per input entry |
| PathIntegration.IntegrateEntriesKeepsOthers | terraform/modules/rest-apigw-openapi/scripts/openapi_integration.py:46-47 | the loop keeps the keys in order and leaves every non-method entry exactly as it was |
| PathIntegration.OperationPathParamsAppend | terraform/modules/rest-apigw-openapi/scripts/openapi_integration.py:49-51 | the names declared up to one more entry are those declared before plus that entry's own |
| PathIntegration.OperationPathParamsMonotone | terraform/modules/rest-apigw-openapi/scripts/openapi_integration.py:46-53 | the names known to later operations include those known to earlier ones |
| PathIntegration.AccAfter | terraform/modules/rest-apigw-openapi/scripts/openapi_integration.py:46-51 | `path_params` once the loop has passed some entries: `NextAcc` applied entry by entry; characterised by `PathIntegration.AccAfterNames` |
| PathIntegration.AccAfterNames | terraform/modules/rest-apigw-openapi/scripts/openapi_integration.py:46-51 | once the loop has passed some entries, the shared list holds the starting names and those declared by every operation among them |
| PathIntegration.IntegrateEntriesAt | terraform/modules/rest-apigw-openapi/scripts/openapi_integration.py:46-53 | entry `i` is processed with the shared list as it stands after entry `i` itself has added its parameters |
| PathIntegration.IntegrateEntryOperation | terraform/modules/rest-apigw-openapi/scripts/openapi_integration.py:53 | an operation keeps every field and its integration key holds an integration for the names in the shared list |
| PathIntegration.IntegrateEntriesOperation | terraform/modules/rest-apigw-openapi/scripts/openapi_integration.py:46-53 | the operation at index `i` is integrated with the starting names plus those of every operation up to and including `i` |
| PathIntegration.IntegratePathItem | terraform/modules/rest-apigw-openapi/scripts/openapi_integration.py:37-55 | `integrate_path` on a Path Item: the entry loop started from the Path Item's own path parameters; characterised by `PathIntegration.IntegratePathItemKeeps` and `PathIntegration.IntegratePathItemOperation` |
| PathIntegration.IntegratePathItemKeeps | terraform/modules/rest-apigw-openapi/scripts/openapi_integration.py:46-47 | `integrate_path` keeps the keys in order and leaves `description`, `parameters` and every other non-method entry unchanged |
| PathIntegration.IntegratePathItemOperation | terraform/modules/rest-apigw-openapi/scripts/openapi_integration.py:38-53 | the k-th operation's integration maps the Path Item's path parameters together with those of every operation up to and including it, and the operation keeps all its other fields |
| PathIntegration.IntegratePath | terraform/modules/rest-apigw-openapi/scripts/openapi_integration.py:37-55 | the method that reassigns the shared list and writes into each operation returns exactly the specified Path Item |
| Document.IntegratePaths | terraform/modules/rest-apigw-openapi/scripts/openapi_integration.py:60-61 | the integrated `paths`, entry by entry; it keeps the number of paths |
| Document.IntegratePathsLookup | terraform/modules/rest-apigw-openapi/scripts/openapi_integration.py:60-61 | `paths` keeps its keys in order, and each path finds `integrate_path` applied to the input's Path Item under it |
| Document.IntegrateOpenapiSpec | terraform/modules/rest-apigw-openapi/scripts/openapi_integration.py:57-65 | `integrate_openapi` on a document: integrated `paths` and the binary media types assigned into a copy; characterised by `Document.IntegrateOpenapiSpecShape` |
| Document.IntegrateOpenapiSpecShape | terraform/modules/rest-apigw-openapi/scripts/openapi_integration.py:57-65 | the result holds the integrated `paths`, binary media types `["multipart/form-data"]`, and every other top-level entry unchanged |
| Document.IntegrateOpenapi | terraform/modules/rest-apigw-openapi/scripts/openapi_integration.py:57-65 | the method looping over the copied `paths` returns exactly the specified document |
| Renaming.PrefixInjective | terraform/modules/rest-apigw-openapi/scripts/openapi_integration.py:85 | different paths get different prefixed paths |
| Renaming.PrefixedHasPrefix | terraform/modules/rest-apigw-openapi/scripts/openapi_integration.py:85 | a prefixed path starts with the prefix |
| Renaming.RenameStep | terraform/modules/rest-apigw-openapi/scripts/openapi_integration.py:86 | one pop-and-insert of the loop; characterised by `Renaming.RenameStepLookup` |
| Renaming.RenameStepLookup | terraform/modules/rest-apigw-openapi/scripts/openapi_integration.py:86 | one pop-and-insert moves the value to the prefixed key, empties the old key and changes no other lookup |
| Renaming.RenameReadyStep | terraform/modules/rest-apigw-openapi/scripts/openapi_integration.py:84-86 | after renaming one key of the snapshot, the remaining snapshot keys are still present and distinct |
| Renaming.KeysRenameReady | terraform/modules/rest-apigw-openapi/scripts/openapi_integration.py:84 | the snapshot `list(d.keys())` lists distinct present keys |
| Renaming.RenameFrom | terraform/modules/rest-apigw-openapi/scripts/openapi_integration.py:84-86 | the loop over the key snapshot, one step per key in snapshot order; characterised by `Renaming.RenameFromPrefixes` and `Renaming.RenameWithoutCollision` |
| Renaming.RenameFromPrefixes | terraform/modules/rest-apigw-openapi/scripts/openapi_integration.py:84-86 | after the loop, whatever the collisions, the dict is still a dict and every key starts with the prefix |
| Renaming.PrefixAllLookup | terraform/modules/rest-apigw-openapi/scripts/openapi_integration.py:85-86 | the prefixed dict has as many entries, the prefixed key of `k` finds what `k` found, and every key carries the prefix |
| Renaming.NoCollisionSameKeys | terraform/modules/rest-apigw-openapi/scripts/openapi_integration.py:79-84 | whether a prefixed path collides depends only on the keys, which integration keeps |
| Renaming.RenameWithoutCollision | terraform/modules/rest-apigw-openapi/scripts/openapi_integration.py:84-86 | when no prefixed path is already a path, the loop yields every pair with its key prefixed, in the original order |
| Assembly.PathsOrEmpty | terraform/modules/rest-apigw-openapi/scripts/openapi_integration.py:84 | `doc.get('paths', {})`, also at lines 97 and 102: the `paths` mapping, or an empty one when the document has none |
| Assembly.PrefixedDocument | terraform/modules/rest-apigw-openapi/scripts/openapi_integration.py:84-86 | the document with the renaming loop applied to its `paths` (unchanged without `paths`); characterised by `Assembly.PrefixedDocumentShape` |
| Assembly.PrefixedDocumentShape | terraform/modules/rest-apigw-openapi/scripts/openapi_integration.py:82-86 | under `bff`, every key of `paths` starts with `/backend-for-frontend`, `paths` stays a dict, and nothing outside `paths` changes |
| Assembly.PrefixedDocumentWithoutCollision | terraform/modules/rest-apigw-openapi/scripts/openapi_integration.py:82-86 | without collisions, the renamed `paths` is the prefixed copy of the old one |
| Assembly.PrefixPathKeys | terraform/modules/rest-apigw-openapi/scripts/openapi_integration.py:95-99 | the pop-and-insert loop over the key snapshot returns exactly the specified renamed document |
| Assembly.RenamedIntegration | terraform/modules/rest-apigw-openapi/scripts/openapi_integration.py:79-86 | the integrated document, then renamed by the `bff` loop when the API is `bff`; the "integrated" side of the merge lemmas |
| Assembly.IntegratedPathsDict | terraform/modules/rest-apigw-openapi/scripts/openapi_integration.py:79 | the integrated document has a `paths` dict holding the integrated Path Items |
| Assembly.SupplementPaths | terraform/modules/rest-apigw-openapi/scripts/openapi_integration.py:95-102 | the supplementary document's `paths`, renamed by the `bff` loop when the API is `bff`, or empty when it has none; the side of the merge that wins |
| Assembly.Assemble | terraform/modules/rest-apigw-openapi/scripts/openapi_integration.py:79-106 | `default_integration` on parsed documents: integrate, prefix under `bff`, merge the optional supplementary `paths`; characterised by `Assembly.AssembleBffPrefixed`, `Assembly.AssembleMerge` and `Assembly.AssembleBffWithoutCollision` |
| Assembly.AssembleBffPrefixed | terraform/modules/rest-apigw-openapi/scripts/openapi_integration.py:82-104 | under `bff`, every key of the final `paths` starts with `/backend-for-frontend`, whether it came from the main or the supplementary document, so no un-prefixed key remains |
| Assembly.AssembleMerge | terraform/modules/rest-apigw-openapi/scripts/openapi_integration.py:100-104 | after the merge, the keys of `paths` are the union of both documents' keys; a supplementary key holds the supplementary value (`Assembly.SupplementPaths`), every other key its value in the integrated and, under `bff`, renamed `paths` (`Assembly.RenamedIntegration`); nothing outside `paths` changes |
| Assembly.AssembleMergeOrder | terraform/modules/rest-apigw-openapi/scripts/openapi_integration.py:100-104 | after the merge, the integrated (and, under `bff`, renamed) paths keep their places and the supplementary paths they lack follow at the bottom, in the supplement's order |
| Assembly.AssembleBffWithoutCollision | terraform/modules/rest-apigw-openapi/scripts/openapi_integration.py:79-86 | under `bff` without a supplement or collisions, `paths` holds each integrated Path Item under its prefixed path, in the original order and with the same count |
| Assembly.DefaultIntegration | terraform/modules/rest-apigw-openapi/scripts/openapi_integration.py:79-106 | integrating, prefixing under `bff` and merging the optional supplementary `paths` returns exactly the specified document |

## Left out

- Command-line handling (`main`, getopt, usage, exit codes) is not modelled.
- Reading and writing files, YAML parsing and dumping, and the JSON printed to standard output are not modelled. The documents arrive parsed, and the supplementary file is `Some(document)` or `None` (for an empty file name).
- `maintenance_integration` is not modelled: it only reads a file and returns its content.
- Serializing the result (`sort_keys`, the round trip through YAML) belongs to the serializer library.
- Documents are values, so the deep copies at lines 58 and 102 are implicit. In-place mutation and aliasing are not modelled: a YAML anchor shared by two operations would be one object in Python and two values here.
- The iteration order of the Python set at line 51 is unspecified. `PathIntegration.Dedup` fixes one order (the last occurrence of each name is kept), and every property is stated on the set of names.
- Malformed inputs are excluded by preconditions. Most of them make the script raise, but not all:
  - a missing `paths` raises;
  - a Path Item, an operation or a parameter that is not a mapping raises, except a Path Item that is a string without `parameters` in it, or a list holding neither `parameters` nor an HTTP-method name, which lines 41-55 pass through unchanged;
  - a `parameters` entry that is not a list raises, except an empty mapping or an empty string, from which lines 43 and 51 collect no name;
  - a path parameter whose `name` is a list or a mapping raises at the `set(...)` of line 51 only when an operation declares `parameters`; otherwise the f-string at line 32 renders it;
  - a path parameter whose `name` is a boolean does not raise (see `PathIntegration.RenderName` below);
  - a `paths` entry that is not a mapping raises when the document is renamed under `bff`. Otherwise it does not always raise, and the model still excludes it. A main document whose `paths` is an empty list or string, without a supplement, goes through lines 60-65 with only the media types added. A supplementary `paths` that is an empty list or string, or a list of key/value pairs, is copied at line 102 and accepted by `dict.update` at line 104.
- Parameters given as `$ref` objects are handled as the code handles them: without an `in` field they contribute no name.
- Numbers are integers, and mapping keys are strings. Floating-point numbers and non-string keys are not modelled.
- PathIntegration.RenderName: path parameters named by a boolean are not modelled. The set at line 51 compares the raw names, where `True == 1` and `False == 0`, and only line 32 renders them, so `True` and `1` together give one `requestParameters` key where rendering first would give two (`PathIntegration.BooleanNameMergesWithInteger`). For the names the model accepts (absent, null, integers and strings), names the set identifies render alike (`PathIntegration.PythonEqualNamesRenderAlike`), so deduplicating the rendered names gives the same keys. Floating-point names are not modelled.
- Renaming.RenameWithoutCollision: the exact result of the `bff` renaming is proved only when no prefixed path is already a path. With collisions, `Renaming.RenameFromPrefixes` proves only that every key carries the prefix and the result is a dict. In that case a value stored under an already-prefixed key can be overwritten.
