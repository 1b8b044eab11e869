/** `integrate_path`: attach an integration to every HTTP-method entry of
    one Path Item, in declaration order, with the path parameters found so
    far. */
module PathIntegration {
  import opened Wrappers
  import opened Json
  import opened Integration

  /** The keys of a Path Item that are operations. */
  const HttpMethods: seq<string> :=
    ["get", "head", "options", "trace", "post", "put", "patch", "delete", "x-amazon-apigateway-any-method"]

  const IntegrationKey := "x-amazon-apigateway-integration"

  /** `param.get("in") == "path"`: a Parameter Object located in the path. */
  predicate IsPathParam(param: Json)
  {
    param.Obj? && Get(param.fields, "in") == Some(Str("path"))
  }

  /** A scalar name, which the f-strings can render: absent or null
      (rendered `None`), a boolean, an integer or a string. */
  predicate ScalarName(name: Option<Json>)
  {
    name.None? || name.value.Null? || name.value.Bool? || name.value.Num? || name.value.Str?
  }

  /** A name the model accepts: a scalar that is not a boolean. The set at
      line 51 compares raw names, where `True == 1` and `False == 0`; once
      booleans are excluded, two names the set identifies render alike. */
  predicate RenderableName(name: Option<Json>)
  {
    ScalarName(name) && !(name.Some? && name.value.Bool?)
  }

  function DigitChar(d: nat): char
    requires d < 10
  {
    "0123456789"[d]
  }

  function Digits(n: nat): string
  {
    if n < 10 then [DigitChar(n)] else Digits(n / 10) + [DigitChar(n % 10)]
  }

  /** How `f"...{name}"` renders `param.get("name")`. */
  function RenderName(name: Option<Json>): string
    requires ScalarName(name)
  {
    match name
    case None => "None"
    case Some(Null) => "None"
    case Some(Bool(b)) => if b then "True" else "False"
    case Some(Num(n)) => if n < 0 then "-" + Digits(-n) else Digits(n)
    case Some(Str(s)) => s
  }

  /** The value Python's `==` and `hash` see for a scalar name: an absent
      name is `None`, and a boolean is the integer 1 or 0. */
  function PythonKey(name: Option<Json>): (r: Json)
    requires ScalarName(name)
    ensures r.Null? <==> name.None? || name.value.Null?
    ensures !r.Bool?
  {
    match name
    case None => Null
    case Some(Bool(b)) => Num(if b then 1 else 0)
    case Some(v) => v
  }

  /** Names the set at line 51 identifies are rendered alike at line 32, so
      deduplicating the rendered names keeps the same set of names. */
  lemma PythonEqualNamesRenderAlike(a: Option<Json>, b: Option<Json>)
    requires RenderableName(a) && RenderableName(b)
    requires PythonKey(a) == PythonKey(b)
    ensures RenderName(a) == RenderName(b)
  {
  }

  /** Why booleans are excluded: `True` and `1` are one element of a Python
      set, yet they render as two different names. */
  lemma BooleanNameMergesWithInteger()
    ensures PythonKey(Some(Bool(true))) == PythonKey(Some(Num(1)))
    ensures RenderName(Some(Bool(true))) != RenderName(Some(Num(1)))
  {
    assert RenderName(Some(Num(1))) == "1";
  }

  /** A parameter the code can read: a literal Parameter Object (not a
      reference), whose name renders when it is a path parameter. */
  predicate ReadableParam(param: Json)
  {
    param.Obj? && (IsPathParam(param) ==> RenderableName(Get(param.fields, "name")))
  }

  predicate ReadableParamList(params: Json)
  {
    params.Arr? && forall i :: 0 <= i < |params.items| ==> ReadableParam(params.items[i])
  }

  /** A mapping whose `parameters` entry, if any, is a list of readable parameters. */
  predicate ReadableParameters(f: Fields)
  {
    match Get(f, "parameters")
    case None => true
    case Some(params) => ReadableParamList(params)
  }

  /** An entry under an HTTP-method key is an Operation mapping. */
  predicate ReadableEntry(e: (string, Json))
  {
    e.0 in HttpMethods ==> e.1.Obj? && ReadableParameters(e.1.fields)
  }

  predicate ReadableOperations(entries: Fields)
  {
    forall i :: 0 <= i < |entries| ==> ReadableEntry(entries[i])
  }

  /** A Path Item `integrate_path` can process without raising. */
  predicate ReadablePathItem(item: Fields)
  {
    ReadableParameters(item) && ReadableOperations(item)
  }

  function ParamName(param: Json): string
    requires ReadableParam(param) && IsPathParam(param)
  {
    RenderName(Get(param.fields, "name"))
  }

  /** `[param.get("name") for param in parameters if param.get("in") == "path"]`,
      each name as it is rendered into the integration. */
  function PathParamNames(params: seq<Json>): seq<string>
    requires forall i :: 0 <= i < |params| ==> ReadableParam(params[i])
  {
    if params == [] then []
    else (if IsPathParam(params[0]) then [ParamName(params[0])] else []) + PathParamNames(params[1..])
  }

  /** Exactly the names of the parameters located in the path are collected. */
  lemma {:induction false} PathParamNamesExactly(params: seq<Json>, n: string)
    requires forall i :: 0 <= i < |params| ==> ReadableParam(params[i])
    ensures n in PathParamNames(params) <==>
            exists i :: 0 <= i < |params| && IsPathParam(params[i]) && ParamName(params[i]) == n
  {
    if params != [] {
      PathParamNamesExactly(params[1..], n);
      if exists i :: 0 <= i < |params| && IsPathParam(params[i]) && ParamName(params[i]) == n {
        var i :| 0 <= i < |params| && IsPathParam(params[i]) && ParamName(params[i]) == n;
        if i > 0 {
          assert params[1..][i - 1] == params[i];
        }
      }
      if exists i :: 0 <= i < |params[1..]| && IsPathParam(params[1..][i]) && ParamName(params[1..][i]) == n {
        var i :| 0 <= i < |params[1..]| && IsPathParam(params[1..][i]) && ParamName(params[1..][i]) == n;
        assert params[i + 1] == params[1..][i];
      }
    }
  }

  /** The path parameter names a mapping declares in its `parameters`; none
      when it has no `parameters` entry. */
  function DeclaredPathParams(f: Fields): seq<string>
    requires ReadableParameters(f)
  {
    match Get(f, "parameters")
    case None => []
    case Some(params) => PathParamNames(params.items)
  }

  /** `list(set(xs))`. The order of a Python set is unspecified; the model
      keeps the last occurrence of each name, and nothing stated below
      depends on the order. */
  function Dedup(xs: seq<string>): (r: seq<string>)
    ensures NameSet(r) == NameSet(xs)
    ensures |r| <= |xs|
    ensures forall i, j :: 0 <= i < j < |r| ==> r[i] != r[j]
  {
    if xs == [] then []
    else
      var rest := Dedup(xs[1..]);
      assert NameSet(xs) == {xs[0]} + NameSet(xs[1..]) by {
        assert xs == [xs[0]] + xs[1..];
      }
      if xs[0] in rest then rest else [xs[0]] + rest
  }

  /** The accumulator after visiting entry `e`: an operation with a
      `parameters` entry unites its own path parameters with those found so far. */
  function NextAcc(acc: seq<string>, e: (string, Json)): seq<string>
    requires ReadableEntry(e)
  {
    if e.0 in HttpMethods && Get(e.1.fields, "parameters").Some? then Dedup(acc + DeclaredPathParams(e.1.fields))
    else acc
  }

  /** The path parameters entry `e` declares, if it is an operation. */
  function EntryPathParams(e: (string, Json)): set<string>
    requires ReadableEntry(e)
  {
    if e.0 in HttpMethods then NameSet(DeclaredPathParams(e.1.fields)) else {}
  }

  /** The accumulator gains exactly the entry's own path parameters. */
  lemma NextAccNames(acc: seq<string>, e: (string, Json))
    requires ReadableEntry(e)
    ensures NameSet(NextAcc(acc, e)) == NameSet(acc) + EntryPathParams(e)
  {
    if e.0 in HttpMethods && Get(e.1.fields, "parameters").Some? {
      assert NameSet(acc + DeclaredPathParams(e.1.fields)) == NameSet(acc) + NameSet(DeclaredPathParams(e.1.fields));
    }
  }

  /** Entry `e` after the loop body, where `acc` already includes its own
      path parameters: an operation gets its integration, anything else is
      left alone. */
  function IntegrateEntry(pathUri: string, e: (string, Json), acc: seq<string>, apiVersion: string, useServicePrefix: bool)
    : (string, Json)
    requires ReadableEntry(e)
  {
    if e.0 in HttpMethods then
      (e.0, Obj(Put(e.1.fields, IntegrationKey, IntegrationOf(pathUri, acc, apiVersion, useServicePrefix))))
    else e
  }

  lemma ReadableSuffix(entries: Fields, n: nat)
    requires ReadableOperations(entries) && n <= |entries|
    ensures ReadableOperations(entries[n..])
  {
    forall i | 0 <= i < |entries[n..]| ensures ReadableEntry(entries[n..][i]) {
      assert entries[n..][i] == entries[n + i];
    }
  }

  lemma ReadablePrefix(entries: Fields, n: nat)
    requires ReadableOperations(entries) && n <= |entries|
    ensures ReadableOperations(entries[..n])
  {
    forall i | 0 <= i < n ensures ReadableEntry(entries[..n][i]) {
      assert entries[..n][i] == entries[i];
    }
  }

  /** The loop of `integrate_path` from some entry on, with the accumulator
      `acc` it has reached there. */
  function IntegrateEntries(pathUri: string, entries: Fields, acc: seq<string>, apiVersion: string, useServicePrefix: bool)
    : (r: Fields)
    requires ReadableOperations(entries)
    ensures |r| == |entries|
    decreases |entries|
  {
    if entries == [] then []
    else
      ReadableSuffix(entries, 1);
      var acc' := NextAcc(acc, entries[0]);
      [IntegrateEntry(pathUri, entries[0], acc', apiVersion, useServicePrefix)]
      + IntegrateEntries(pathUri, entries[1..], acc', apiVersion, useServicePrefix)
  }

  /** The Path Item keeps its keys in their order, and entries that are not
      operations are left exactly as they were. */
  lemma {:induction false} IntegrateEntriesKeepsOthers(pathUri: string, entries: Fields, acc: seq<string>,
                                                       apiVersion: string, useServicePrefix: bool)
    requires ReadableOperations(entries)
    ensures var r := IntegrateEntries(pathUri, entries, acc, apiVersion, useServicePrefix);
      && Keys(r) == Keys(entries)
      && (forall i :: 0 <= i < |r| && entries[i].0 !in HttpMethods ==> r[i] == entries[i])
    decreases |entries|
  {
    if entries != [] {
      var r := IntegrateEntries(pathUri, entries, acc, apiVersion, useServicePrefix);
      ReadableSuffix(entries, 1);
      var acc' := NextAcc(acc, entries[0]);
      var tail := IntegrateEntries(pathUri, entries[1..], acc', apiVersion, useServicePrefix);
      IntegrateEntriesKeepsOthers(pathUri, entries[1..], acc', apiVersion, useServicePrefix);
      assert r[1..] == tail;
      forall i | 1 <= i < |r| && entries[i].0 !in HttpMethods ensures r[i] == entries[i] {
        assert r[i] == tail[i - 1] && entries[i] == entries[1..][i - 1];
      }
    }
  }

  /** `integrate_path` as a whole: the accumulator starts from the Path
      Item's own path parameters. */
  function IntegratePathItem(pathUri: string, item: Fields, apiVersion: string, useServicePrefix: bool): Fields
    requires ReadablePathItem(item)
  {
    IntegrateEntries(pathUri, item, DeclaredPathParams(item), apiVersion, useServicePrefix)
  }

  /** The path parameters declared by the operations among `entries`. */
  function OperationPathParams(entries: Fields): set<string>
    requires ReadableOperations(entries)
    decreases |entries|
  {
    if entries == [] then {}
    else
      ReadableSuffix(entries, 1);
      EntryPathParams(entries[0]) + OperationPathParams(entries[1..])
  }

  /** Declarations further along only add names. */
  lemma {:induction false} OperationPathParamsAppend(entries: Fields, n: nat)
    requires ReadableOperations(entries) && n < |entries|
    ensures ReadableOperations(entries[..n]) && ReadableOperations(entries[..n + 1])
    ensures OperationPathParams(entries[..n + 1]) == OperationPathParams(entries[..n]) + EntryPathParams(entries[n])
    decreases n
  {
    ReadablePrefix(entries, n);
    ReadablePrefix(entries, n + 1);
    if n > 0 {
      ReadableSuffix(entries, 1);
      OperationPathParamsAppend(entries[1..], n - 1);
      var first := EntryPathParams(entries[0]);
      assert entries[..n + 1][1..] == entries[1..][..n];
      assert entries[..n][1..] == entries[1..][..n - 1];
      assert entries[1..][n - 1] == entries[n];
      assert OperationPathParams(entries[..n + 1]) == first + OperationPathParams(entries[1..][..n]);
      assert OperationPathParams(entries[..n]) == first + OperationPathParams(entries[1..][..n - 1]);
    }
  }

  /** The names found so far only grow along a Path Item. */
  lemma {:induction false} OperationPathParamsMonotone(entries: Fields, i: nat, j: nat)
    requires ReadableOperations(entries) && i <= j <= |entries|
    ensures ReadableOperations(entries[..i]) && ReadableOperations(entries[..j])
    ensures OperationPathParams(entries[..i]) <= OperationPathParams(entries[..j])
    decreases j - i
  {
    ReadablePrefix(entries, i);
    ReadablePrefix(entries, j);
    if i < j {
      OperationPathParamsMonotone(entries, i, j - 1);
      OperationPathParamsAppend(entries, j - 1);
      var before := OperationPathParams(entries[..j - 1]);
      assert OperationPathParams(entries[..i]) <= before;
      assert before <= OperationPathParams(entries[..j]);
    }
  }

  /** What an operation looks like after integration: every field it had
      except the integration key is kept, and the integration key holds an
      integration for `names`. */
  ghost predicate IntegratedOperation(op: Json, original: Json, pathUri: string, names: set<string>,
                                      apiVersion: string, useServicePrefix: bool)
  {
    && op.Obj? && original.Obj?
    && (forall k :: k != IntegrationKey ==> Get(op.fields, k) == Get(original.fields, k))
    && Get(op.fields, IntegrationKey).Some?
    && IntegrationFor(Get(op.fields, IntegrationKey).value, pathUri, names, apiVersion, useServicePrefix)
  }

  lemma IntegrateEntryOperation(pathUri: string, e: (string, Json), acc: seq<string>, names: set<string>,
                                apiVersion: string, useServicePrefix: bool)
    requires ReadableEntry(e) && e.0 in HttpMethods && NameSet(acc) == names
    ensures IntegratedOperation(IntegrateEntry(pathUri, e, acc, apiVersion, useServicePrefix).1, e.1,
                                pathUri, names, apiVersion, useServicePrefix)
  {
    IntegrationOfIsIntegrationFor(pathUri, acc, apiVersion, useServicePrefix);
  }

  /** One step of the loop: the first entry, then the rest from the next accumulator. */
  lemma IntegrateEntriesUnfold(pathUri: string, entries: Fields, acc: seq<string>, apiVersion: string, useServicePrefix: bool)
    requires ReadableOperations(entries) && entries != []
    ensures ReadableOperations(entries[1..])
    ensures IntegrateEntries(pathUri, entries, acc, apiVersion, useServicePrefix)
            == [IntegrateEntry(pathUri, entries[0], NextAcc(acc, entries[0]), apiVersion, useServicePrefix)]
               + IntegrateEntries(pathUri, entries[1..], NextAcc(acc, entries[0]), apiVersion, useServicePrefix)
  {
    ReadableSuffix(entries, 1);
  }

  /** The accumulator once the loop has passed `entries`, starting from `acc`. */
  function AccAfter(acc: seq<string>, entries: Fields): seq<string>
    requires ReadableOperations(entries)
    decreases |entries|
  {
    if entries == [] then acc
    else
      ReadableSuffix(entries, 1);
      AccAfter(NextAcc(acc, entries[0]), entries[1..])
  }

  /** Once the loop has passed `entries`, the accumulator holds the names it
      started with and those declared by every operation among `entries`. */
  lemma {:induction false} AccAfterNames(acc: seq<string>, entries: Fields)
    requires ReadableOperations(entries)
    ensures NameSet(AccAfter(acc, entries)) == NameSet(acc) + OperationPathParams(entries)
    decreases |entries|
  {
    if entries != [] {
      ReadableSuffix(entries, 1);
      AccAfterNames(NextAcc(acc, entries[0]), entries[1..]);
      NextAccNames(acc, entries[0]);
    }
  }

  /** Entry `i` is integrated with the accumulator the loop has reached once
      it has passed entry `i` itself. */
  lemma {:induction false} IntegrateEntriesAt(pathUri: string, entries: Fields, acc: seq<string>,
                                              apiVersion: string, useServicePrefix: bool, i: nat)
    requires ReadableOperations(entries) && i < |entries|
    ensures ReadableOperations(entries[..i + 1])
    ensures IntegrateEntries(pathUri, entries, acc, apiVersion, useServicePrefix)[i]
            == IntegrateEntry(pathUri, entries[i], AccAfter(acc, entries[..i + 1]), apiVersion, useServicePrefix)
    decreases i
  {
    ReadablePrefix(entries, i + 1);
    IntegrateEntriesUnfold(pathUri, entries, acc, apiVersion, useServicePrefix);
    var acc' := NextAcc(acc, entries[0]);
    var prefix := entries[..i + 1];
    ReadableSuffix(prefix, 1);
    assert prefix[0] == entries[0];
    assert AccAfter(acc, prefix) == AccAfter(acc', prefix[1..]);
    if i == 0 {
      assert prefix[1..] == [];
    } else {
      IntegrateEntriesAt(pathUri, entries[1..], acc', apiVersion, useServicePrefix, i - 1);
      assert entries[1..][i - 1] == entries[i];
      assert prefix[1..] == entries[1..][..i];
    }
  }

  /** The operation at index `i` keeps all its fields and gains an integration
      whose path parameters are those in `acc` (the Path Item's own) together
      with those of every operation up to and including it. */
  lemma IntegrateEntriesOperation(pathUri: string, entries: Fields, acc: seq<string>,
                                  apiVersion: string, useServicePrefix: bool, i: nat)
    requires ReadableOperations(entries) && i < |entries| && entries[i].0 in HttpMethods
    ensures ReadableOperations(entries[..i + 1])
    ensures IntegratedOperation(IntegrateEntries(pathUri, entries, acc, apiVersion, useServicePrefix)[i].1, entries[i].1,
                                pathUri, NameSet(acc) + OperationPathParams(entries[..i + 1]), apiVersion, useServicePrefix)
  {
    IntegrateEntriesAt(pathUri, entries, acc, apiVersion, useServicePrefix, i);
    AccAfterNames(acc, entries[..i + 1]);
    IntegrateEntryOperation(pathUri, entries[i], AccAfter(acc, entries[..i + 1]),
                            NameSet(acc) + OperationPathParams(entries[..i + 1]), apiVersion, useServicePrefix);
  }

  /** `integrate_path` keeps the Path Item's keys in their order, and its
      entries that are not operations as they were. */
  lemma IntegratePathItemKeeps(pathUri: string, item: Fields, apiVersion: string, useServicePrefix: bool, i: nat)
    requires ReadablePathItem(item) && i < |item|
    ensures Keys(IntegratePathItem(pathUri, item, apiVersion, useServicePrefix)) == Keys(item)
    ensures item[i].0 !in HttpMethods ==> IntegratePathItem(pathUri, item, apiVersion, useServicePrefix)[i] == item[i]
  {
    IntegrateEntriesKeepsOthers(pathUri, item, DeclaredPathParams(item), apiVersion, useServicePrefix);
  }

  /** After `integrate_path`, the operation at index `i` keeps every field
      and gains an integration whose path parameters are the Path Item's
      own together with those declared by the operations up to and
      including it. */
  lemma IntegratePathItemOperation(pathUri: string, item: Fields, apiVersion: string, useServicePrefix: bool, i: nat)
    requires ReadablePathItem(item) && i < |item| && item[i].0 in HttpMethods
    ensures ReadableOperations(item[..i + 1])
    ensures IntegratedOperation(IntegratePathItem(pathUri, item, apiVersion, useServicePrefix)[i].1, item[i].1, pathUri,
                                NameSet(DeclaredPathParams(item)) + OperationPathParams(item[..i + 1]),
                                apiVersion, useServicePrefix)
  {
    IntegrateEntriesOperation(pathUri, item, DeclaredPathParams(item), apiVersion, useServicePrefix, i);
  }

  /** Assigning index `i` extends the finished prefix by one. */
  lemma AssignExtends<T>(s: seq<T>, i: nat, x: T, rest: seq<T>, whole: seq<T>)
    requires i < |s| && s[..i] + ([x] + rest) == whole
    ensures s[i := x][..i + 1] + rest == whole
    ensures s[i := x][i + 1..] == s[i + 1..]
  {
    assert s[i := x][..i + 1] == s[..i] + [x];
  }

  /** Leaving index `i` as it is extends the finished prefix by one as well. */
  lemma KeepExtends<T>(s: seq<T>, i: nat, rest: seq<T>, whole: seq<T>)
    requires i < |s| && s[..i] + ([s[i]] + rest) == whole
    ensures s[..i + 1] + rest == whole
  {
    assert s[..i + 1] == s[..i] + [s[i]];
  }

  /** What the loop of `integrate_path` keeps: entries before `i` are
      final, entries from `i` on are untouched, and finishing from `i` with
      the current list `acc` gives the whole result. */
  ghost predicate PathLoop(pathUri: string, pathData: Fields, r: Fields, i: nat, acc: seq<string>,
                           whole: Fields, apiVersion: string, useServicePrefix: bool)
  {
    && i <= |r| == |pathData|
    && r[i..] == pathData[i..]
    && ReadableOperations(pathData[i..])
    && r[..i] + IntegrateEntries(pathUri, pathData[i..], acc, apiVersion, useServicePrefix) == whole
  }

  /** The entry the loop is at can be read. */
  lemma ReadableAt(pathData: Fields, r: Fields, i: nat)
    requires i < |r| == |pathData| && r[i..] == pathData[i..] && ReadableOperations(pathData[i..])
    ensures ReadableEntry(r[i])
  {
    assert r[i] == pathData[i..][0];
  }

  /** The loop body at an operation: the shared list widens as the code
      widens it, and the entry becomes the integrated operation. */
  lemma OperationStep(pathUri: string, pathData: Fields, r: Fields, i: nat, before: seq<string>, after: seq<string>,
                      integration: Json, whole: Fields, apiVersion: string, useServicePrefix: bool)
    requires PathLoop(pathUri, pathData, r, i, before, whole, apiVersion, useServicePrefix)
    requires i < |r| && r[i].0 in HttpMethods
    requires ReadableEntry(r[i])
    requires after == if Get(r[i].1.fields, "parameters").Some? then Dedup(before + DeclaredPathParams(r[i].1.fields)) else before
    requires integration == IntegrationOf(pathUri, after, apiVersion, useServicePrefix)
    ensures PathLoop(pathUri, pathData, r[i := (r[i].0, Obj(Put(r[i].1.fields, IntegrationKey, integration)))], i + 1,
                     after, whole, apiVersion, useServicePrefix)
  {
    assert r[i] == pathData[i..][0];
    assert pathData[i..][1..] == pathData[i + 1..];
    IntegrateEntriesUnfold(pathUri, pathData[i..], before, apiVersion, useServicePrefix);
    var later := IntegrateEntries(pathUri, pathData[i + 1..], after, apiVersion, useServicePrefix);
    AssignExtends(r, i, (r[i].0, Obj(Put(r[i].1.fields, IntegrationKey, integration))), later, whole);
  }

  /** The loop body at any other entry: nothing changes. */
  lemma OtherStep(pathUri: string, pathData: Fields, r: Fields, i: nat, acc: seq<string>,
                  whole: Fields, apiVersion: string, useServicePrefix: bool)
    requires PathLoop(pathUri, pathData, r, i, acc, whole, apiVersion, useServicePrefix)
    requires i < |r| && r[i].0 !in HttpMethods
    ensures PathLoop(pathUri, pathData, r, i + 1, acc, whole, apiVersion, useServicePrefix)
  {
    assert r[i] == pathData[i..][0];
    assert pathData[i..][1..] == pathData[i + 1..];
    IntegrateEntriesUnfold(pathUri, pathData[i..], acc, apiVersion, useServicePrefix);
    KeepExtends(r, i, IntegrateEntries(pathUri, pathData[i + 1..], acc, apiVersion, useServicePrefix), whole);
  }

  /** When the loop has passed every entry, the result is complete. */
  lemma PathLoopDone(pathUri: string, pathData: Fields, r: Fields, i: nat, acc: seq<string>,
                     whole: Fields, apiVersion: string, useServicePrefix: bool)
    requires PathLoop(pathUri, pathData, r, i, acc, whole, apiVersion, useServicePrefix) && i == |r|
    ensures r == whole
  {
    assert pathData[i..] == [];
    assert r[..i] == r;
  }

  /** `integrate_path`: walks the Path Item in order, widening the shared
      path-parameter list at each operation that declares parameters, and
      assigns the integration into the operation. */
  method IntegratePath(pathUri: string, pathData: Fields, apiVersion: string, useServicePrefix: bool)
    returns (r: Fields)
    requires ReadablePathItem(pathData)
    ensures r == IntegratePathItem(pathUri, pathData, apiVersion, useServicePrefix)
  {
    var pathParams: seq<string> := [];
    match Get(pathData, "parameters") {
      case Some(parameters) =>
        pathParams := PathParamNames(parameters.items);
      case None =>
    }
    ghost var whole := IntegratePathItem(pathUri, pathData, apiVersion, useServicePrefix);
    r := pathData;
    var i := 0;
    while i < |r|
      invariant PathLoop(pathUri, pathData, r, i, pathParams, whole, apiVersion, useServicePrefix)
    {
      var (httpMethod, op) := r[i];
      if httpMethod in HttpMethods {
        ghost var before := pathParams;
        ReadableAt(pathData, r, i);
        if Get(op.fields, "parameters").Some? {
          pathParams := Dedup(pathParams + DeclaredPathParams(op.fields));
        }
        var integration := GenerateIntegration(pathUri, pathParams, apiVersion, useServicePrefix);
        OperationStep(pathUri, pathData, r, i, before, pathParams, integration, whole, apiVersion, useServicePrefix);
        r := r[i := (httpMethod, Obj(Put(op.fields, IntegrationKey, integration)))];
      } else {
        OtherStep(pathUri, pathData, r, i, pathParams, whole, apiVersion, useServicePrefix);
      }
      i := i + 1;
    }
    PathLoopDone(pathUri, pathData, r, i, pathParams, whole, apiVersion, useServicePrefix);
  }
}
