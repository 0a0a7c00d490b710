/**
 * The rules of the code-generation plugin that adds a `bq_` bulk twin to
 * each list-returning async method of the generated client, stated on
 * values: the parts of the Python syntax tree the plugin sources and
 * writes, the pending-imports table, the per-module typename cache, the
 * twin-selection fold over a class body and the placement of the queued
 * imports. `BulkPlugin` runs these rules on a mutable plugin object.
 */
module BulkRules {
  import opened Wrappers
  import opened Text
  import opened Dicts

  // ---------------------------------------------------------------------
  // The syntax tree, as far as the plugin looks at it
  // ---------------------------------------------------------------------

  /** An annotation expression. */
  datatype Expr =
    | Const(value: string)
    | Name(id: string)
    | Subscript(target: Expr, slice: Expr)
    | Tuple(elts: seq<Expr>)
    | OtherExpr

  /** The body of an async method: one written by hand or by the client generator, or a generated bulk body. */
  datatype MethodBody =
    | OriginalBody
    | BulkBody(gqlVar: string, variables: seq<(string, string)>, typenames: seq<(string, string)>)

  /** A class member: an `async def` with its positional argument names and return annotation, or anything else. */
  datatype Member =
    | AsyncDef(name: string, args: seq<string>, retType: Option<Expr>, body: MethodBody)
    | OtherMember

  /** A module-level statement. */
  datatype Stmt =
    | ImportFrom(source: string, names: seq<string>)
    | TypeCheckingIf(body: seq<Stmt>)
    | ClassStmt(className: string, members: seq<Member>)
    | OtherStmt

  /**
   * What `_is_list_return_type` finds for a return annotation that names
   * an edges/node connection class: the annotation of its `node` field and
   * the module the class is imported from.
   */
  datatype Resolution = Resolution(node: Expr, moduleName: string)

  /** A class of a generated module and the literal of its `typename__` field, if any. */
  datatype ClassTypename = ClassTypename(className: string, typename: Option<string>)

  // ---------------------------------------------------------------------
  // Pending imports: module name -> set of (name, under TYPE_CHECKING)
  // ---------------------------------------------------------------------

  type Pending = seq<(string, set<(string, bool)>)>

  /** The names pending for a module. */
  function PendingFor(p: Pending, moduleName: string): set<(string, bool)> {
    Get(p, moduleName).GetOr({})
  }

  /** `_add_import`: the pair joins the module's set, creating the set first if needed. */
  function WithImport(p: Pending, name: string, moduleName: string, underTypeChecking: bool): (r: Pending)
    ensures PendingFor(r, moduleName) == PendingFor(p, moduleName) + {(name, underTypeChecking)}
    ensures forall m :: m != moduleName ==> PendingFor(r, m) == PendingFor(p, m)
    ensures Keys(r) == if HasKey(p, moduleName) then Keys(p) else Keys(p) + [moduleName]
  {
    Set(p, moduleName, PendingFor(p, moduleName) + {(name, underTypeChecking)})
  }

  /** Adding the same import twice has no further effect. */
  lemma AddImportIdempotent(p: Pending, name: string, moduleName: string, flag: bool)
    ensures WithImport(WithImport(p, name, moduleName, flag), name, moduleName, flag) == WithImport(p, name, moduleName, flag)
  {
    var once := WithImport(p, name, moduleName, flag);
    var j := IndexOf(once, moduleName).value;
    assert once[j].1 == PendingFor(once, moduleName);
    assert once[j := (moduleName, PendingFor(once, moduleName))] == once;
  }

  /** The pending table keeps one entry per module. */
  lemma WithImportUnique(p: Pending, name: string, moduleName: string, flag: bool)
    requires UniqueKeys(p)
    ensures UniqueKeys(WithImport(p, name, moduleName, flag))
  {
    SetKeepsUnique(p, moduleName, PendingFor(p, moduleName) + {(name, flag)});
  }

  /** Several imports from one module, in order. */
  function WithImports(p: Pending, names: seq<string>, moduleName: string, underTypeChecking: bool): Pending
    decreases |names|
  {
    if |names| == 0 then p
    else WithImport(WithImports(p, names[..|names| - 1], moduleName, underTypeChecking), names[|names| - 1], moduleName, underTypeChecking)
  }

  /** Queuing several imports adds exactly those pairs to that module's set. */
  lemma {:induction false} WithImportsAdds(p: Pending, names: seq<string>, moduleName: string, flag: bool)
    ensures PendingFor(WithImports(p, names, moduleName, flag), moduleName) ==
      PendingFor(p, moduleName) + set n | n in names :: (n, flag)
    ensures forall m :: m != moduleName ==> PendingFor(WithImports(p, names, moduleName, flag), m) == PendingFor(p, m)
    ensures UniqueKeys(p) ==> UniqueKeys(WithImports(p, names, moduleName, flag))
    decreases |names|
  {
    if |names| > 0 {
      var pre := names[..|names| - 1];
      var last := names[|names| - 1];
      var q := WithImports(p, pre, moduleName, flag);
      WithImportsAdds(p, pre, moduleName, flag);
      assert WithImports(p, names, moduleName, flag) == WithImport(q, last, moduleName, flag);
      if UniqueKeys(p) {
        WithImportUnique(q, last, moduleName, flag);
      }
      SnocPairs(names, flag);
    }
  }

  lemma {:induction false} SnocPairs(names: seq<string>, flag: bool)
    requires |names| > 0
    ensures (set n | n in names :: (n, flag)) == (set n | n in names[..|names| - 1] :: (n, flag)) + {(names[|names| - 1], flag)}
  {
    assert names == names[..|names| - 1] + [names[|names| - 1]];
  }

  /** The string constants among tuple elements. */
  function ConstantsOf(elts: seq<Expr>): seq<string>
    decreases |elts|
  {
    if |elts| == 0 then []
    else ConstantsOf(elts[..|elts| - 1]) + (if elts[|elts| - 1].Const? then [elts[|elts| - 1].value] else [])
  }

  /**
   * `_add_import_to_module`: the names an annotation brings in, namely the
   * subscript's constant or the tuple's constants, or the constant itself.
   */
  function ImportNames(e: Expr): seq<string> {
    match e
    case Subscript(_, Const(v)) => [v]
    case Subscript(_, Tuple(elts)) => ConstantsOf(elts)
    case Const(v) => [v]
    case _ => []
  }

  // ---------------------------------------------------------------------
  // get_typename_to_class_map
  // ---------------------------------------------------------------------

  /** The classes that declare a non-empty typename literal, as (typename, class) pairs. */
  function TypenamePairs(classes: seq<ClassTypename>): (r: seq<(string, string)>)
    ensures forall k :: 0 <= k < |r| ==> r[k].0 != ""
    decreases |classes|
  {
    if |classes| == 0 then []
    else
      var c := classes[|classes| - 1];
      TypenamePairs(classes[..|classes| - 1]) +
        (if c.typename.Some? && c.typename.value != "" then [(c.typename.value, c.className)] else [])
  }

  /** The typename-to-class dict of one module; a later class with the same typename wins. */
  function TypenameMap(classes: seq<ClassTypename>): seq<(string, string)> {
    FromPairs(TypenamePairs(classes))
  }

  /** A typename maps to the last class declaring it and the empty literal maps to nothing. */
  lemma TypenameMapGet(classes: seq<ClassTypename>, t: string)
    ensures Get(TypenameMap(classes), t) == LastValue(TypenamePairs(classes), t)
    ensures t == "" ==> Get(TypenameMap(classes), t) == None
  {
    FromPairsGet(TypenamePairs(classes), t);
  }

  /** The plugin's cache: module name -> typename dict. */
  type Cache = map<string, seq<(string, string)>>

  /**
   * A lookup: the cached dict when there is one; otherwise the dict read
   * from the module, cached, or `{}` uncached when the module cannot be
   * read. `sources` holds what reading each module would give.
   */
  function Lookup(cache: Cache, moduleName: string, sources: map<string, Option<seq<ClassTypename>>>): (seq<(string, string)>, Cache) {
    if moduleName in cache then (cache[moduleName], cache)
    else if moduleName !in sources || sources[moduleName].None? then ([], cache)
    else
      var m := TypenameMap(sources[moduleName].value);
      (m, cache[moduleName := m])
  }

  /** A cached module is answered from the cache, whatever reading it would give now. */
  lemma CachedLookupIgnoresReads(cache: Cache, moduleName: string, sources: map<string, Option<seq<ClassTypename>>>,
                                 sources': map<string, Option<seq<ClassTypename>>>)
    requires moduleName in cache
    ensures Lookup(cache, moduleName, sources) == Lookup(cache, moduleName, sources') == (cache[moduleName], cache)
  {
  }

  /** A module that cannot be read gives `{}` and is not cached, so it is tried again next time. */
  lemma FailedReadNotCached(cache: Cache, moduleName: string, sources: map<string, Option<seq<ClassTypename>>>)
    requires moduleName !in cache && (moduleName !in sources || sources[moduleName].None?)
    ensures Lookup(cache, moduleName, sources) == ([], cache)
    ensures moduleName !in Lookup(cache, moduleName, sources).1
  {
  }

  /** Looking a module up twice gives the same dict as once, and the same cache. */
  lemma LookupTwice(cache: Cache, moduleName: string, sources: map<string, Option<seq<ClassTypename>>>)
    ensures Lookup(Lookup(cache, moduleName, sources).1, moduleName, sources) == Lookup(cache, moduleName, sources)
  {
  }

  // ---------------------------------------------------------------------
  // The generated bulk method
  // ---------------------------------------------------------------------

  /** The argument names `_ignore_args_full` drops from the variables dict. */
  const IgnoredArgs: set<string> := {"self"}

  /** The `variables` dict of a bulk body: each kept argument mapped to the variable of the same name. */
  function VariablesDict(args: seq<string>): (r: seq<(string, string)>)
    ensures forall k :: 0 <= k < |r| ==> r[k].0 == r[k].1 && r[k].0 in args && r[k].0 !in IgnoredArgs
    decreases |args|
  {
    if |args| == 0 then []
    else VariablesDict(args[..|args| - 1]) + (if args[|args| - 1] in IgnoredArgs then [] else [(args[|args| - 1], args[|args| - 1])])
  }

  /** Reference definition: the kept argument names in declaration order. */
  function KeptArgs(args: seq<string>): seq<string>
    decreases |args|
  {
    if |args| == 0 then [] else (if args[0] in IgnoredArgs then [] else [args[0]]) + KeptArgs(args[1..])
  }

  /** The dict's keys are the positional arguments other than `self`, in declaration order. */
  lemma {:induction false} VariablesDictKeys(args: seq<string>)
    ensures Keys(VariablesDict(args)) == KeptArgs(args)
    decreases |args|
  {
    if |args| > 0 {
      var pre := args[..|args| - 1];
      VariablesDictKeys(pre);
      KeptArgsAppend(pre, args[|args| - 1]);
      assert args == pre + [args[|args| - 1]];
    }
  }

  lemma {:induction false} KeptArgsAppend(args: seq<string>, a: string)
    ensures KeptArgs(args + [a]) == KeptArgs(args) + (if a in IgnoredArgs then [] else [a])
    decreases |args|
  {
    if |args| == 0 {
      assert KeptArgs([a]) == (if a in IgnoredArgs then [] else [a]) + KeptArgs([]);
    } else {
      assert (args + [a])[1..] == args[1..] + [a];
      KeptArgsAppend(args[1..], a);
    }
  }

  /** The name of the query constant a bulk body runs. */
  function GqlVarName(methodName: string): (r: string)
    ensures |r| == |methodName| + 4 && r[..|methodName|] == Upper(methodName) && r[|methodName|..] == "_GQL"
  {
    Upper(methodName) + "_GQL"
  }

  /** `AsyncGenerator[T, None]`. */
  function BulkReturns(node: Expr): Expr {
    Subscript(Name("AsyncGenerator"), Tuple([node, Name("None")]))
  }

  // ---------------------------------------------------------------------
  // _enhance_class_with_bulk_methods
  // ---------------------------------------------------------------------

  /** The plugin's mutable state. */
  datatype State = State(pending: Pending, cache: Cache)

  /** The loop state: names taken so far, methods generated, plugin state. */
  datatype Enhancing = Enhancing(existing: set<string>, added: seq<Member>, st: State)

  /** The names of a class body's async methods. */
  function MethodNames(members: seq<Member>): set<string> {
    set k | 0 <= k < |members| && members[k].AsyncDef? :: members[k].name
  }

  /** The dict literal built from the keys of one dict and the values of another, position by position. */
  function ZipDict(keysFrom: seq<(string, string)>, valuesFrom: seq<(string, string)>): (r: seq<(string, string)>)
    ensures |r| <= |keysFrom| && |r| <= |valuesFrom|
    decreases |keysFrom|
  {
    if |keysFrom| == 0 || |valuesFrom| == 0 then []
    else [(keysFrom[0].0, valuesFrom[0].1)] + ZipDict(keysFrom[1..], valuesFrom[1..])
  }

  /** Keys and values taken from the same dict rebuild it. */
  lemma {:induction false} ZipSame(d: seq<(string, string)>)
    ensures ZipDict(d, d) == d
    decreases |d|
  {
    if |d| > 0 {
      ZipSame(d[1..]);
      assert d == [d[0]] + d[1..];
    }
  }

  /**
   * `_generate_bulk_method_body`: the variables dict, and the typename dict
   * built from the keys of one lookup and the values of a second; the two
   * lookups agree, so the dict is the module's typename dict.
   */
  function BulkMethodBody(st: State, m: Member, moduleName: string, sources: map<string, Option<seq<ClassTypename>>>): (r: (MethodBody, State))
    requires m.AsyncDef?
    ensures r.0.BulkBody? && r.0.typenames == Lookup(st.cache, moduleName, sources).0
    ensures r.1 == st.(cache := Lookup(st.cache, moduleName, sources).1)
  {
    var (keysFrom, c1) := Lookup(st.cache, moduleName, sources);
    var (valuesFrom, c2) := Lookup(c1, moduleName, sources);
    LookupTwice(st.cache, moduleName, sources);
    ZipSame(keysFrom);
    (BulkBody(GqlVarName(m.name), VariablesDict(m.args), ZipDict(keysFrom, valuesFrom)), st.(cache := c2))
  }

  /** One iteration over a class member. */
  function EnhanceStep(e: Enhancing, m: Member, resolve: map<Expr, Resolution>, sources: map<string, Option<seq<ClassTypename>>>): Enhancing {
    if !m.AsyncDef? then e
    else if "bq_" + m.name in e.existing then e
    else if StartsWith(m.name, "bq_") then e
    else if m.retType.None? then e
    else if m.retType.value !in resolve then e
    else
      var r := resolve[m.retType.value];
      var st1 := e.st.(pending := WithImports(e.st.pending, ImportNames(r.node), r.moduleName, true));
      var (body, st2) := BulkMethodBody(st1, m, r.moduleName, sources);
      var twin := AsyncDef("bq_" + m.name, m.args, Some(BulkReturns(r.node)), body);
      Enhancing(e.existing + {"bq_" + m.name}, e.added + [twin], st2)
  }

  /** The loop over a class body. */
  function EnhanceFrom(e: Enhancing, members: seq<Member>, resolve: map<Expr, Resolution>, sources: map<string, Option<seq<ClassTypename>>>): Enhancing
    decreases |members|
  {
    if |members| == 0 then e
    else EnhanceStep(EnhanceFrom(e, members[..|members| - 1], resolve, sources), members[|members| - 1], resolve, sources)
  }

  /** `_enhance_class_with_bulk_methods` on a class body, starting from the class's own method names. */
  function Enhance(st: State, members: seq<Member>, resolve: map<Expr, Resolution>, sources: map<string, Option<seq<ClassTypename>>>): Enhancing {
    EnhanceFrom(Enhancing(MethodNames(members), [], st), members, resolve, sources)
  }

  /** Method `m` passes every rule for a twin, judged against the class's own names. */
  predicate Eligible(names: set<string>, m: Member, resolve: map<Expr, Resolution>) {
    m.AsyncDef? && "bq_" + m.name !in names && !StartsWith(m.name, "bq_") &&
    m.retType.Some? && m.retType.value in resolve
  }

  /** `twin` is the bulk twin of `m`, as `_create_bulk_method` builds it. */
  predicate TwinOf(twin: Member, m: Member, resolve: map<Expr, Resolution>)
    requires m.AsyncDef? && m.retType.Some? && m.retType.value in resolve
  {
    twin.AsyncDef? && twin.name == "bq_" + m.name && twin.args == m.args &&
    twin.retType == Some(BulkReturns(resolve[m.retType.value].node)) &&
    twin.body.BulkBody? && twin.body.gqlVar == GqlVarName(m.name) && twin.body.variables == VariablesDict(m.args)
  }

  /** The generated twins of a class have distinct names. */
  predicate DistinctNames(ms: seq<Member>) {
    forall i, j :: 0 <= i < j < |ms| && ms[i].AsyncDef? && ms[j].AsyncDef? ==> ms[i].name != ms[j].name
  }

  /** Twin `k` comes from an eligible method among `members`. */
  ghost predicate TwinFrom(names: set<string>, members: seq<Member>, twin: Member, resolve: map<Expr, Resolution>) {
    exists i :: 0 <= i < |members| && Eligible(names, members[i], resolve) && TwinOf(twin, members[i], resolve)
  }

  /** Some twin generated so far carries name `n`. */
  ghost predicate AddedName(added: seq<Member>, n: string) {
    exists k :: 0 <= k < |added| && added[k].AsyncDef? && added[k].name == n
  }

  /** What the loop keeps true over a prefix of the class body. */
  ghost predicate EnhanceInvariant(names: set<string>, members: seq<Member>, e: Enhancing, resolve: map<Expr, Resolution>) {
    names <= e.existing &&
    (forall k :: 0 <= k < |e.added| ==> e.added[k].AsyncDef? && e.added[k].name in e.existing && e.added[k].name !in names) &&
    (forall k :: 0 <= k < |e.added| ==> TwinFrom(names, members, e.added[k], resolve)) &&
    (forall i :: 0 <= i < |members| && Eligible(names, members[i], resolve) ==> "bq_" + members[i].name in e.existing) &&
    (forall n :: n in e.existing ==> n in names || AddedName(e.added, n)) &&
    DistinctNames(e.added)
  }

  lemma {:induction false} EnhanceKeeps(names: set<string>, members: seq<Member>, resolve: map<Expr, Resolution>,
                                        sources: map<string, Option<seq<ClassTypename>>>, st: State)
    ensures EnhanceInvariant(names, members, EnhanceFrom(Enhancing(names, [], st), members, resolve, sources), resolve)
    decreases |members|
  {
    if |members| > 0 {
      var pre := members[..|members| - 1];
      var m := members[|members| - 1];
      EnhanceKeeps(names, pre, resolve, sources, st);
      var e := EnhanceFrom(Enhancing(names, [], st), pre, resolve, sources);
      StepKeeps(names, pre, m, e, resolve, sources);
      assert members == pre + [m];
    }
  }

  /** One step either changes nothing or adds the twin of an eligible method. */
  lemma {:induction false} StepShape(names: set<string>, m: Member, e: Enhancing, resolve: map<Expr, Resolution>,
                  sources: map<string, Option<seq<ClassTypename>>>)
    requires names <= e.existing
    ensures var e' := EnhanceStep(e, m, resolve, sources);
      (e' == e && (Eligible(names, m, resolve) ==> "bq_" + m.name in e.existing)) ||
      (Eligible(names, m, resolve) && "bq_" + m.name !in e.existing &&
       e'.existing == e.existing + {"bq_" + m.name} &&
       |e'.added| == |e.added| + 1 && e'.added[..|e.added|] == e.added && TwinOf(e'.added[|e.added|], m, resolve))
  {
    var e' := EnhanceStep(e, m, resolve, sources);
    if e' != e {
      assert (e.added + [e'.added[|e.added|]])[..|e.added|] == e.added;
    }
  }

  lemma {:induction false} StepKeeps(names: set<string>, pre: seq<Member>, m: Member, e: Enhancing, resolve: map<Expr, Resolution>,
                                     sources: map<string, Option<seq<ClassTypename>>>)
    requires EnhanceInvariant(names, pre, e, resolve)
    ensures EnhanceInvariant(names, pre + [m], EnhanceStep(e, m, resolve, sources), resolve)
  {
    var e' := EnhanceStep(e, m, resolve, sources);
    StepShape(names, m, e, resolve, sources);
    if e' == e {
      SkipKeeps(names, pre, m, e, resolve);
    } else {
      var twin := e'.added[|e.added|];
      assert e'.added == e.added + [twin] by {
        assert e'.added == e'.added[..|e.added|] + [twin];
      }
      AddKeeps(names, pre, m, e, twin, e'.st, resolve);
    }
  }

  /** A member that gets no twin keeps the invariant. */
  lemma {:induction false} SkipKeeps(names: set<string>, pre: seq<Member>, m: Member, e: Enhancing, resolve: map<Expr, Resolution>)
    requires EnhanceInvariant(names, pre, e, resolve)
    requires Eligible(names, m, resolve) ==> "bq_" + m.name in e.existing
    ensures EnhanceInvariant(names, pre + [m], e, resolve)
  {
    var members := pre + [m];
    forall k | 0 <= k < |e.added|
      ensures TwinFrom(names, members, e.added[k], resolve)
    {
      assert TwinFrom(names, pre, e.added[k], resolve);
      var i :| 0 <= i < |pre| && Eligible(names, pre[i], resolve) && TwinOf(e.added[k], pre[i], resolve);
      assert members[i] == pre[i];
    }
    forall i | 0 <= i < |members| && Eligible(names, members[i], resolve)
      ensures "bq_" + members[i].name in e.existing
    {
      if i < |pre| {
        assert members[i] == pre[i];
      } else {
        assert members[i] == m;
      }
    }
  }

  /** A member that gets its twin keeps the invariant. */
  lemma {:induction false} AddKeeps(names: set<string>, pre: seq<Member>, m: Member, e: Enhancing, twin: Member, st: State,
                                    resolve: map<Expr, Resolution>)
    requires EnhanceInvariant(names, pre, e, resolve)
    requires Eligible(names, m, resolve) && "bq_" + m.name !in e.existing && TwinOf(twin, m, resolve)
    ensures EnhanceInvariant(names, pre + [m], Enhancing(e.existing + {"bq_" + m.name}, e.added + [twin], st), resolve)
  {
    var members := pre + [m];
    var e' := Enhancing(e.existing + {"bq_" + m.name}, e.added + [twin], st);
    AddKeepsTwins(names, pre, m, e, twin, st, resolve);
    forall i | 0 <= i < |members| && Eligible(names, members[i], resolve)
      ensures "bq_" + members[i].name in e'.existing
    {
      if i < |pre| {
        assert members[i] == pre[i];
      }
    }
    AddKeepsNames(names, e, twin, st);
  }

  lemma {:induction false} AddKeepsTwins(names: set<string>, pre: seq<Member>, m: Member, e: Enhancing, twin: Member, st: State,
                                         resolve: map<Expr, Resolution>)
    requires EnhanceInvariant(names, pre, e, resolve)
    requires Eligible(names, m, resolve) && TwinOf(twin, m, resolve)
    ensures forall k :: 0 <= k < |e.added + [twin]| ==> TwinFrom(names, pre + [m], (e.added + [twin])[k], resolve)
  {
    var members := pre + [m];
    var added := e.added + [twin];
    forall k | 0 <= k < |added|
      ensures TwinFrom(names, members, added[k], resolve)
    {
      if k < |e.added| {
        assert added[k] == e.added[k];
        assert TwinFrom(names, pre, e.added[k], resolve);
        var i :| 0 <= i < |pre| && Eligible(names, pre[i], resolve) && TwinOf(e.added[k], pre[i], resolve);
        assert members[i] == pre[i];
      } else {
        assert members[|pre|] == m;
      }
    }
  }

  lemma {:induction false} AddKeepsNames(names: set<string>, e: Enhancing, twin: Member, st: State)
    requires names <= e.existing
    requires forall k :: 0 <= k < |e.added| ==> e.added[k].AsyncDef? && e.added[k].name in e.existing && e.added[k].name !in names
    requires forall n :: n in e.existing ==> n in names || AddedName(e.added, n)
    requires DistinctNames(e.added)
    requires twin.AsyncDef? && twin.name !in e.existing
    ensures var e' := Enhancing(e.existing + {twin.name}, e.added + [twin], st);
      names <= e'.existing &&
      (forall k :: 0 <= k < |e'.added| ==> e'.added[k].AsyncDef? && e'.added[k].name in e'.existing && e'.added[k].name !in names) &&
      (forall n :: n in e'.existing ==> n in names || AddedName(e'.added, n)) &&
      DistinctNames(e'.added)
  {
    var added := e.added + [twin];
    var k := |e.added|;
    forall n | n in e.existing + {twin.name}
      ensures n in names || AddedName(added, n)
    {
      if n == twin.name {
        assert added[k].name == n;
      } else if n !in names {
        var j :| 0 <= j < |e.added| && e.added[j].AsyncDef? && e.added[j].name == n;
        assert added[j] == e.added[j];
      }
    }
    forall i, j | 0 <= i < j < |added| && added[i].AsyncDef? && added[j].AsyncDef?
      ensures added[i].name != added[j].name
    {
      if j == k {
        assert added[i] == e.added[i];
      } else {
        assert added[i] == e.added[i] && added[j] == e.added[j];
      }
    }
  }

  lemma {:induction false} EnhanceExistingGrows(names: set<string>, members: seq<Member>, resolve: map<Expr, Resolution>,
                                                sources: map<string, Option<seq<ClassTypename>>>, st: State)
    ensures names <= EnhanceFrom(Enhancing(names, [], st), members, resolve, sources).existing
    decreases |members|
  {
    if |members| > 0 {
      EnhanceExistingGrows(names, members[..|members| - 1], resolve, sources, st);
    }
  }

  /**
   * The twins of a class: each is the twin of an eligible method of the
   * class, none takes a name the class already has, no two share a name,
   * and every eligible method has a twin.
   */
  lemma TwinRule(st: State, members: seq<Member>, resolve: map<Expr, Resolution>, sources: map<string, Option<seq<ClassTypename>>>)
    ensures var e := Enhance(st, members, resolve, sources);
      (forall k :: 0 <= k < |e.added| ==>
        e.added[k].AsyncDef? && e.added[k].name !in MethodNames(members) &&
        exists i :: 0 <= i < |members| && Eligible(MethodNames(members), members[i], resolve) &&
          TwinOf(e.added[k], members[i], resolve)) &&
      DistinctNames(e.added) &&
      (forall i :: 0 <= i < |members| && Eligible(MethodNames(members), members[i], resolve) ==>
        exists k :: 0 <= k < |e.added| && e.added[k].AsyncDef? && e.added[k].name == "bq_" + members[i].name)
  {
    var names := MethodNames(members);
    EnhanceKeeps(names, members, resolve, sources, st);
    var e := Enhance(st, members, resolve, sources);
    forall i | 0 <= i < |members| && Eligible(names, members[i], resolve)
      ensures exists k :: 0 <= k < |e.added| && e.added[k].AsyncDef? && e.added[k].name == "bq_" + members[i].name
    {
      assert "bq_" + members[i].name in e.existing;
    }
  }

  /** A class whose methods all return nothing gets no twin, and the plugin state is untouched. */
  lemma NoAnnotationNoTwin(st: State, members: seq<Member>, resolve: map<Expr, Resolution>, sources: map<string, Option<seq<ClassTypename>>>)
    requires forall i :: 0 <= i < |members| ==> !(members[i].AsyncDef? && members[i].retType.Some?)
    ensures Enhance(st, members, resolve, sources).added == [] && Enhance(st, members, resolve, sources).st == st
  {
    NoAnnotationFrom(MethodNames(members), st, members, resolve, sources);
  }

  lemma {:induction false} NoAnnotationFrom(names: set<string>, st: State, members: seq<Member>, resolve: map<Expr, Resolution>,
                                            sources: map<string, Option<seq<ClassTypename>>>)
    requires forall i :: 0 <= i < |members| ==> !(members[i].AsyncDef? && members[i].retType.Some?)
    ensures EnhanceFrom(Enhancing(names, [], st), members, resolve, sources) == Enhancing(names, [], st)
    decreases |members|
  {
    if |members| > 0 {
      NoAnnotationFrom(names, st, members[..|members| - 1], resolve, sources);
    }
  }

  // ---------------------------------------------------------------------
  // generate_client_module: every top-level class gets its twins appended
  // ---------------------------------------------------------------------

  function EnhanceModule(st: State, body: seq<Stmt>, resolve: map<Expr, Resolution>, sources: map<string, Option<seq<ClassTypename>>>): (seq<Stmt>, State)
    decreases |body|
  {
    if |body| == 0 then ([], st)
    else
      var (done, st1) := EnhanceModule(st, body[..|body| - 1], resolve, sources);
      var s := body[|body| - 1];
      if s.ClassStmt? then
        var e := Enhance(st1, s.members, resolve, sources);
        (done + [ClassStmt(s.className, s.members + e.added)], e.st)
      else (done + [s], st1)
  }

  /**
   * Enhancing a module keeps every statement in place: statements other
   * than classes are unchanged and each class keeps its own members, in
   * order, followed by exactly the twins `Enhance` gives its methods in the
   * plugin state the earlier classes left behind.
   */
  lemma {:induction false} EnhanceModuleShape(st: State, body: seq<Stmt>, resolve: map<Expr, Resolution>,
                                              sources: map<string, Option<seq<ClassTypename>>>)
    ensures var b := EnhanceModule(st, body, resolve, sources).0;
      |b| == |body| &&
      forall k :: 0 <= k < |body| ==>
        if body[k].ClassStmt? then
          b[k] == ClassStmt(body[k].className,
            body[k].members + Enhance(EnhanceModule(st, body[..k], resolve, sources).1, body[k].members, resolve, sources).added)
        else b[k] == body[k]
    decreases |body|
  {
    if |body| > 0 {
      var pre := body[..|body| - 1];
      EnhanceModuleShape(st, pre, resolve, sources);
      forall k | 0 <= k < |pre| ensures pre[..k] == body[..k] && pre[k] == body[k] {
      }
    }
  }

  // ---------------------------------------------------------------------
  // _add_necessary_imports
  // ---------------------------------------------------------------------

  /** Some top-level `from module import ..., name, ...` exists. */
  predicate Imports(body: seq<Stmt>, moduleName: string, name: string) {
    exists k :: 0 <= k < |body| && body[k].ImportFrom? && body[k].source == moduleName && name in body[k].names
  }

  /** The imports the generated bulk bodies need, queued when the module lacks them. */
  function NecessaryImports(p: Pending, body: seq<Stmt>): Pending {
    var p1 := if Imports(body, "typing", "AsyncGenerator") then p else WithImport(p, "AsyncGenerator", "typing", false);
    if Imports(body, ".enums", "BulkOperationStatus") then p1
    else WithImport(WithImport(p1, "BulkOperationStatus", ".enums", false), "BulkOperationNodeBulkOperation", ".bulk_operation", false)
  }

  /**
   * `AsyncGenerator` from `typing` is queued when not imported, and
   * `BulkOperationStatus` (from `.enums`) and `BulkOperationNodeBulkOperation`
   * (from `.bulk_operation`) together when `BulkOperationStatus` is not
   * imported from `.enums`; nothing else is queued under these modules.
   */
  lemma NecessaryImportsQueue(p: Pending, body: seq<Stmt>)
    ensures var n := NecessaryImports(p, body);
      PendingFor(n, "typing") ==
        PendingFor(p, "typing") + if Imports(body, "typing", "AsyncGenerator") then {} else {("AsyncGenerator", false)}
    ensures var n := NecessaryImports(p, body);
      PendingFor(n, ".enums") ==
        PendingFor(p, ".enums") + if Imports(body, ".enums", "BulkOperationStatus") then {} else {("BulkOperationStatus", false)}
    ensures var n := NecessaryImports(p, body);
      PendingFor(n, ".bulk_operation") ==
        PendingFor(p, ".bulk_operation") +
        if Imports(body, ".enums", "BulkOperationStatus") then {} else {("BulkOperationNodeBulkOperation", false)}
  {
    NecessaryImportsSteps(p, body);
  }

  /**
   * A pair already queued leaves its module's entry as it was, a module
   * importing both names is left alone, no other module's entry changes, and
   * the modules already in the table keep their places.
   */
  lemma NecessaryImportsKeep(p: Pending, body: seq<Stmt>)
    ensures ("AsyncGenerator", false) in PendingFor(p, "typing") ==>
      PendingFor(NecessaryImports(p, body), "typing") == PendingFor(p, "typing")
    ensures Imports(body, "typing", "AsyncGenerator") && Imports(body, ".enums", "BulkOperationStatus") ==>
      NecessaryImports(p, body) == p
    ensures forall m :: m !in {"typing", ".enums", ".bulk_operation"} ==> PendingFor(NecessaryImports(p, body), m) == PendingFor(p, m)
    ensures Keys(p) <= Keys(NecessaryImports(p, body))
  {
    NecessaryImportsSteps(p, body);
  }

  lemma {:induction false} NecessaryImportsSteps(p: Pending, body: seq<Stmt>)
    ensures var n := NecessaryImports(p, body);
      var hasGen := Imports(body, "typing", "AsyncGenerator");
      var hasStatus := Imports(body, ".enums", "BulkOperationStatus");
      PendingFor(n, "typing") == PendingFor(p, "typing") + (if hasGen then {} else {("AsyncGenerator", false)}) &&
      PendingFor(n, ".enums") == PendingFor(p, ".enums") + (if hasStatus then {} else {("BulkOperationStatus", false)}) &&
      PendingFor(n, ".bulk_operation") ==
        PendingFor(p, ".bulk_operation") + (if hasStatus then {} else {("BulkOperationNodeBulkOperation", false)}) &&
      (hasGen && hasStatus ==> n == p) &&
      (forall m :: m !in {"typing", ".enums", ".bulk_operation"} ==> PendingFor(n, m) == PendingFor(p, m)) &&
      Keys(p) <= Keys(n)
  {
    var hasGen := Imports(body, "typing", "AsyncGenerator");
    var hasStatus := Imports(body, ".enums", "BulkOperationStatus");
    var p1 := if hasGen then p else WithImport(p, "AsyncGenerator", "typing", false);
    TypingQueued(p, hasGen, p1);
    if !hasStatus {
      var p2 := WithImport(p1, "BulkOperationStatus", ".enums", false);
      var p3 := WithImport(p2, "BulkOperationNodeBulkOperation", ".bulk_operation", false);
      assert NecessaryImports(p, body) == p3;
      StatusQueued(p, p1, p2, p3);
    } else {
      assert NecessaryImports(p, body) == p1;
    }
  }

  lemma {:induction false} TypingQueued(p: Pending, hasGen: bool, p1: Pending)
    requires p1 == if hasGen then p else WithImport(p, "AsyncGenerator", "typing", false)
    ensures PendingFor(p1, "typing") == PendingFor(p, "typing") + if hasGen then {} else {("AsyncGenerator", false)}
    ensures forall m :: m != "typing" ==> PendingFor(p1, m) == PendingFor(p, m)
    ensures Keys(p) <= Keys(p1)
  {
  }

  lemma {:induction false} StatusQueued(p: Pending, p1: Pending, p2: Pending, p3: Pending)
    requires forall m :: m != "typing" ==> PendingFor(p1, m) == PendingFor(p, m)
    requires Keys(p) <= Keys(p1)
    requires p2 == WithImport(p1, "BulkOperationStatus", ".enums", false)
    requires p3 == WithImport(p2, "BulkOperationNodeBulkOperation", ".bulk_operation", false)
    ensures PendingFor(p3, "typing") == PendingFor(p1, "typing")
    ensures PendingFor(p3, ".enums") == PendingFor(p, ".enums") + {("BulkOperationStatus", false)}
    ensures PendingFor(p3, ".bulk_operation") == PendingFor(p, ".bulk_operation") + {("BulkOperationNodeBulkOperation", false)}
    ensures forall m :: m !in {"typing", ".enums", ".bulk_operation"} ==> PendingFor(p3, m) == PendingFor(p, m)
    ensures Keys(p) <= Keys(p3)
  {
    StatusEntries(p, p1, p2, p3);
    OthersUnchanged(p, p1, p2, p3);
    KeysGrow(p, p1, p2, p3);
  }

  lemma {:induction false} StatusEntries(p: Pending, p1: Pending, p2: Pending, p3: Pending)
    requires forall m :: m != "typing" ==> PendingFor(p1, m) == PendingFor(p, m)
    requires p2 == WithImport(p1, "BulkOperationStatus", ".enums", false)
    requires p3 == WithImport(p2, "BulkOperationNodeBulkOperation", ".bulk_operation", false)
    ensures PendingFor(p3, "typing") == PendingFor(p1, "typing")
    ensures PendingFor(p3, ".enums") == PendingFor(p, ".enums") + {("BulkOperationStatus", false)}
    ensures PendingFor(p3, ".bulk_operation") == PendingFor(p, ".bulk_operation") + {("BulkOperationNodeBulkOperation", false)}
  {
    assert PendingFor(p3, ".enums") == PendingFor(p2, ".enums");
    assert PendingFor(p2, ".bulk_operation") == PendingFor(p1, ".bulk_operation") == PendingFor(p, ".bulk_operation");
  }

  lemma {:induction false} KeysGrow(p: Pending, p1: Pending, p2: Pending, p3: Pending)
    requires Keys(p) <= Keys(p1)
    requires p2 == WithImport(p1, "BulkOperationStatus", ".enums", false)
    requires p3 == WithImport(p2, "BulkOperationNodeBulkOperation", ".bulk_operation", false)
    ensures Keys(p) <= Keys(p3)
  {
  }

  lemma {:induction false} OthersUnchanged(p: Pending, p1: Pending, p2: Pending, p3: Pending)
    requires forall m :: m != "typing" ==> PendingFor(p1, m) == PendingFor(p, m)
    requires forall m :: m != ".enums" ==> PendingFor(p2, m) == PendingFor(p1, m)
    requires forall m :: m != ".bulk_operation" ==> PendingFor(p3, m) == PendingFor(p2, m)
    ensures forall m :: m !in {"typing", ".enums", ".bulk_operation"} ==> PendingFor(p3, m) == PendingFor(p, m)
  {
  }

  // ---------------------------------------------------------------------
  // _flush_pending_imports
  // ---------------------------------------------------------------------

  /** Position of the first top-level `if TYPE_CHECKING:` block. */
  function FirstTypeChecking(body: seq<Stmt>, i: nat): (r: Option<nat>)
    requires i <= |body|
    ensures r.Some? ==> i <= r.value < |body| && body[r.value].TypeCheckingIf?
    ensures r.Some? ==> forall k :: i <= k < r.value ==> !body[k].TypeCheckingIf?
    ensures r.None? ==> forall k :: i <= k < |body| ==> !body[k].TypeCheckingIf?
    decreases |body| - i
  {
    if i == |body| then None
    else if body[i].TypeCheckingIf? then Some(i)
    else FirstTypeChecking(body, i + 1)
  }

  /** One queued import: module, name and flag. */
  type Queued = (string, (string, bool))

  /** The import statement of a queued pair. */
  function ImportOf(q: Queued): Stmt {
    ImportFrom(q.0, [q.1.0])
  }

  /** A queued pair goes into the `TYPE_CHECKING` block: there is one and the flag is set. */
  predicate Inside(tc: Option<nat>, q: Queued) {
    tc.Some? && q.1.1
  }

  /** How many of the emitted imports went to the front of the module. */
  function OutsideCount(tc: Option<nat>, order: seq<Queued>): nat
    decreases |order|
  {
    if |order| == 0 then 0
    else OutsideCount(tc, order[..|order| - 1]) + (if Inside(tc, order[|order| - 1]) then 0 else 1)
  }

  /** Appends a statement to the block at `i`, if a `TYPE_CHECKING` block is there. */
  function AppendToBlock(body: seq<Stmt>, i: nat, s: Stmt): (r: seq<Stmt>)
    ensures |r| == |body|
  {
    if i < |body| && body[i].TypeCheckingIf? then body[i := TypeCheckingIf(body[i].body + [s])] else body
  }

  /**
   * The module after emitting the queued pairs in `order`, one statement
   * each: appended to the block when `Inside`, else inserted at the front,
   * which moves the block one place down.
   */
  function FlushWith(body: seq<Stmt>, tc: Option<nat>, order: seq<Queued>): seq<Stmt>
    decreases |order|
  {
    if |order| == 0 then body
    else
      var pre := order[..|order| - 1];
      var q := order[|order| - 1];
      var prev := FlushWith(body, tc, pre);
      if Inside(tc, q) then AppendToBlock(prev, tc.value + OutsideCount(tc, pre), ImportOf(q))
      else [ImportOf(q)] + prev
  }

  /** The statements of the pairs that go to the front, in emission order. */
  function OutsideImports(tc: Option<nat>, order: seq<Queued>): (r: seq<Stmt>)
    ensures |r| == OutsideCount(tc, order)
    decreases |order|
  {
    if |order| == 0 then []
    else OutsideImports(tc, order[..|order| - 1]) + (if Inside(tc, order[|order| - 1]) then [] else [ImportOf(order[|order| - 1])])
  }

  /** The statements of the pairs that go into the block, in emission order. */
  function InsideImports(tc: Option<nat>, order: seq<Queued>): seq<Stmt>
    decreases |order|
  {
    if |order| == 0 then []
    else InsideImports(tc, order[..|order| - 1]) + (if Inside(tc, order[|order| - 1]) then [ImportOf(order[|order| - 1])] else [])
  }

  function Reverse<T>(s: seq<T>): (r: seq<T>)
    ensures |r| == |s|
    decreases |s|
  {
    if |s| == 0 then [] else [s[|s| - 1]] + Reverse(s[..|s| - 1])
  }

  /** Element `k` of the reversal is element `|s| - 1 - k` of the original. */
  lemma {:induction false} ReverseAt<T>(s: seq<T>, k: nat)
    requires k < |s|
    ensures Reverse(s)[k] == s[|s| - 1 - k]
    decreases |s|
  {
    if k > 0 {
      ReverseAt(s[..|s| - 1], k - 1);
    }
  }

  /** The module with `extra` appended to the block at `tc`, if any. */
  function ExtendBlock(body: seq<Stmt>, tc: Option<nat>, extra: seq<Stmt>): seq<Stmt> {
    if tc.Some? && tc.value < |body| && body[tc.value].TypeCheckingIf? then
      body[tc.value := TypeCheckingIf(body[tc.value].body + extra)]
    else body
  }

  /**
   * Closed form of the flush: the front imports in reverse emission order,
   * then the original module with the block's imports appended to it in
   * emission order. Nothing else changes.
   */
  lemma {:induction false} FlushShape(body: seq<Stmt>, tc: Option<nat>, order: seq<Queued>)
    requires tc.Some? ==> tc.value < |body| && body[tc.value].TypeCheckingIf?
    ensures FlushWith(body, tc, order) == Reverse(OutsideImports(tc, order)) + ExtendBlock(body, tc, InsideImports(tc, order))
    decreases |order|
  {
    if |order| == 0 {
      if tc.Some? {
        assert body[tc.value].body + [] == body[tc.value].body;
        assert body[tc.value := body[tc.value]] == body;
      }
    } else {
      var pre := order[..|order| - 1];
      FlushShape(body, tc, pre);
      if Inside(tc, order[|order| - 1]) {
        FlushInsideStep(body, tc, order);
      } else {
        FlushOutsideStep(body, tc, order);
      }
    }
  }

  lemma {:induction false} FlushInsideStep(body: seq<Stmt>, tc: Option<nat>, order: seq<Queued>)
    requires tc.Some? && tc.value < |body| && body[tc.value].TypeCheckingIf?
    requires |order| > 0 && Inside(tc, order[|order| - 1])
    requires FlushWith(body, tc, order[..|order| - 1]) ==
      Reverse(OutsideImports(tc, order[..|order| - 1])) + ExtendBlock(body, tc, InsideImports(tc, order[..|order| - 1]))
    ensures FlushWith(body, tc, order) == Reverse(OutsideImports(tc, order)) + ExtendBlock(body, tc, InsideImports(tc, order))
  {
    var pre := order[..|order| - 1];
    var x := ImportOf(order[|order| - 1]);
    var front := Reverse(OutsideImports(tc, pre));
    var ins := InsideImports(tc, pre);
    var t := tc.value;
    var old_ := body[t].body;
    var rest := body[t := TypeCheckingIf(old_ + ins)];
    var blk := TypeCheckingIf(old_ + ins + [x]);
    InsideSplit(tc, order);
    assert |front| == OutsideCount(tc, pre);
    assert ExtendBlock(body, tc, ins) == rest;
    assert FlushWith(body, tc, order) == AppendToBlock(front + rest, t + |front|, x);
    UpdateInConcat(front, rest, t, blk);
    assert old_ + (ins + [x]) == old_ + ins + [x];
    assert rest[t := blk] == body[t := blk];
  }

  /** The last pair goes into the block: the block's imports grow by it, the front imports do not. */
  lemma {:induction false} InsideSplit(tc: Option<nat>, order: seq<Queued>)
    requires |order| > 0 && Inside(tc, order[|order| - 1])
    ensures OutsideImports(tc, order) == OutsideImports(tc, order[..|order| - 1])
    ensures InsideImports(tc, order) == InsideImports(tc, order[..|order| - 1]) + [ImportOf(order[|order| - 1])]
  {
    assert OutsideImports(tc, order[..|order| - 1]) + [] == OutsideImports(tc, order[..|order| - 1]);
  }

  lemma {:induction false} UpdateInConcat<T>(a: seq<T>, b: seq<T>, j: nat, x: T)
    requires j < |b|
    ensures (a + b)[|a| + j] == b[j]
    ensures (a + b)[|a| + j := x] == a + b[j := x]
  {
  }

  lemma {:induction false} FlushOutsideStep(body: seq<Stmt>, tc: Option<nat>, order: seq<Queued>)
    requires |order| > 0 && !Inside(tc, order[|order| - 1])
    requires FlushWith(body, tc, order[..|order| - 1]) ==
      Reverse(OutsideImports(tc, order[..|order| - 1])) + ExtendBlock(body, tc, InsideImports(tc, order[..|order| - 1]))
    ensures FlushWith(body, tc, order) == Reverse(OutsideImports(tc, order)) + ExtendBlock(body, tc, InsideImports(tc, order))
  {
    var pre := order[..|order| - 1];
    var x := ImportOf(order[|order| - 1]);
    var out := OutsideImports(tc, pre);
    var rest := ExtendBlock(body, tc, InsideImports(tc, pre));
    calc {
      FlushWith(body, tc, order);
      [x] + FlushWith(body, tc, pre);
      [x] + (Reverse(out) + rest);
      { assert [x] + (Reverse(out) + rest) == ([x] + Reverse(out)) + rest; }
      ([x] + Reverse(out)) + rest;
      { ReverseSnoc(out, x); }
      Reverse(out + [x]) + rest;
      { OutsideSplit(tc, order); }
      Reverse(OutsideImports(tc, order)) + ExtendBlock(body, tc, InsideImports(tc, order));
    }
  }

  /** The last pair goes in front: the front imports grow by it, the block's do not. */
  lemma {:induction false} OutsideSplit(tc: Option<nat>, order: seq<Queued>)
    requires |order| > 0 && !Inside(tc, order[|order| - 1])
    ensures OutsideImports(tc, order) == OutsideImports(tc, order[..|order| - 1]) + [ImportOf(order[|order| - 1])]
    ensures InsideImports(tc, order) == InsideImports(tc, order[..|order| - 1])
  {
    assert InsideImports(tc, order[..|order| - 1]) + [] == InsideImports(tc, order[..|order| - 1]);
  }

  lemma ReverseSnoc<T>(s: seq<T>, x: T)
    ensures Reverse(s + [x]) == [x] + Reverse(s)
  {
    assert (s + [x])[..|s|] == s;
  }

  /** Without a `TYPE_CHECKING` block every import goes to the front: one statement per emitted pair. */
  lemma {:induction false} FlushWithoutBlock(body: seq<Stmt>, order: seq<Queued>)
    ensures FlushWith(body, None, order) == Reverse(seq(|order|, k requires 0 <= k < |order| => ImportOf(order[k]))) + body
  {
    FlushShape(body, None, order);
    AllOutside(order);
    NoneInside(order);
  }

  lemma {:induction false} AllOutside(order: seq<Queued>)
    ensures OutsideImports(None, order) == seq(|order|, k requires 0 <= k < |order| => ImportOf(order[k]))
    decreases |order|
  {
    if |order| > 0 {
      AllOutside(order[..|order| - 1]);
    }
  }

  lemma {:induction false} NoneInside(order: seq<Queued>)
    ensures InsideImports(None, order) == []
    decreases |order|
  {
    if |order| > 0 {
      NoneInside(order[..|order| - 1]);
    }
  }

  /** The pair `q` is pending. */
  predicate IsPending(p: Pending, q: Queued) {
    HasKey(p, q.0) && q.1 in PendingFor(p, q.0)
  }

  /** `order` holds exactly the pending pairs. */
  ghost predicate Covers(order: seq<Queued>, p: Pending) {
    forall q :: q in order <==> IsPending(p, q)
  }

  /** No pair is emitted twice. */
  predicate Distinct(order: seq<Queued>) {
    forall i, j :: 0 <= i < j < |order| ==> order[i] != order[j]
  }

  /** `order` lists every pending pair exactly once. */
  ghost predicate IsOrderOf(order: seq<Queued>, p: Pending) {
    Covers(order, p) && Distinct(order)
  }

  /** Position of a module in the pending table (a dict, in insertion order); an absent module ranks last. */
  function ModuleRank(p: Pending, moduleName: string): nat {
    IndexOf(p, moduleName).GetOr(|p|)
  }

  /** The pairs come module by module, in the order the table holds the modules. */
  ghost predicate ModuleGrouped(order: seq<Queued>, p: Pending) {
    forall i, j :: 0 <= i < j < |order| ==> ModuleRank(p, order[i].0) <= ModuleRank(p, order[j].0)
  }
}
