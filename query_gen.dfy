/**
 * The query generator: for a root field of the schema, the selection set
 * it selects (pruning connections' `nodes`, excluded and deprecated
 * fields, fields past the depth limit and back-references between listed
 * types) and the variables its arguments are bound to, then the whole
 * operation, and the driver's choice of root fields.
 *
 * The source recurses on the schema without a bound: a cycle through
 * fields named `edges`, `node` or `pageInfo`, which do not deepen the
 * selection, would recurse forever. The model threads a `fuel` count
 * through the recursion and selects nothing once it runs out.
 */
module QueryGen {
  import opened Wrappers
  import opened Text
  import opened Dicts
  import opened Schema
  import opened QueryIndex

  /** An argument of a selected field, passed as a variable. */
  datatype Argument = Argument(name: string, variable: string)

  /** A selection: a field with its arguments and sub-selection, or an inline fragment on an object type. */
  datatype Selection =
    | FieldNode(name: string, arguments: seq<Argument>, selections: seq<Selection>)
    | InlineFragment(typeCondition: string, selections: seq<Selection>)

  /** A variable definition: its type and default value. */
  datatype VarDef = VarDef(typ: TypeRef, default: Option<ValueNode>)

  /** The shared `variables` dict, in insertion order. */
  type Variables = seq<(string, VarDef)>

  /** Everything the generator reads besides the field: the tables of `QueryIndex` and the schema. */
  datatype Context = Context(
    queryName: string,
    maxDepth: int,
    doc: Document,
    lrq: seq<(string, string)>,
    byType: seq<(string, ByType)>,
    refs: map<string, set<string>>,
    hardcoded: map<string, ValueNode>,
    scalars: set<string>,
    enums: set<string>,
    excluded: seq<string>)

  // ---------------------------------------------------------------------
  // Binding arguments to variables
  // ---------------------------------------------------------------------

  /** Argument `a` of field `f` is passed as variable `f_a`. */
  function VariableName(fieldName: string, argName: string): string {
    fieldName + "_" + argName
  }

  /** `hardcoded_defaults.get(arg.name, arg.default_value)`. */
  function DefaultFor(hardcoded: map<string, ValueNode>, a: ArgDef): Option<ValueNode> {
    if a.name in hardcoded then Some(hardcoded[a.name]) else a.default
  }

  /** The argument list of a selected field: each argument passed as its variable. */
  function ArgumentsFor(fieldName: string, args: seq<ArgDef>): (r: seq<Argument>)
    ensures |r| == |args|
    ensures forall i :: 0 <= i < |args| ==> r[i] == Argument(args[i].name, VariableName(fieldName, args[i].name))
    decreases |args|
  {
    if |args| == 0 then [] else [Argument(args[0].name, VariableName(fieldName, args[0].name))] + ArgumentsFor(fieldName, args[1..])
  }

  /** Defines a variable unless one of that name exists already. */
  function Declare(vars: Variables, name: string, def: VarDef): Variables {
    if HasKey(vars, name) then vars else vars + [(name, def)]
  }

  /** The variables after binding every argument of a field, in order. */
  function Declared(vars: Variables, fieldName: string, hardcoded: map<string, ValueNode>, args: seq<ArgDef>): Variables
    decreases |args|
  {
    if |args| == 0 then vars
    else
      var a := args[0];
      Declared(Declare(vars, VariableName(fieldName, a.name), VarDef(a.typ, DefaultFor(hardcoded, a))), fieldName, hardcoded, args[1..])
  }

  /**
   * Binding only appends, keeps the names unique, and leaves every
   * argument's variable defined.
   */
  lemma {:induction false} DeclaredKeeps(vars: Variables, fieldName: string, hardcoded: map<string, ValueNode>, args: seq<ArgDef>)
    ensures vars <= Declared(vars, fieldName, hardcoded, args)
    ensures UniqueKeys(vars) ==> UniqueKeys(Declared(vars, fieldName, hardcoded, args))
    ensures forall i :: 0 <= i < |args| ==> HasKey(Declared(vars, fieldName, hardcoded, args), VariableName(fieldName, args[i].name))
    decreases |args|
  {
    if |args| > 0 {
      var a := args[0];
      var name := VariableName(fieldName, a.name);
      var next := Declare(vars, name, VarDef(a.typ, DefaultFor(hardcoded, a)));
      DeclaredKeeps(next, fieldName, hardcoded, args[1..]);
      var r := Declared(vars, fieldName, hardcoded, args);
      if !HasKey(vars, name) {
        IndexAfterAppend(vars, name, VarDef(a.typ, DefaultFor(hardcoded, a)), name);
        if UniqueKeys(vars) {
          forall i, j | 0 <= i < j < |next| ensures next[i].0 != next[j].0 {
            if j == |vars| {
              assert vars[i].0 != name;
            }
          }
        }
      }
      assert HasKey(next, name);
      PrefixKeeps(next, r, name);
      forall i | 0 <= i < |args| ensures HasKey(r, VariableName(fieldName, args[i].name)) {
        if i > 0 {
          assert args[i] == args[1..][i - 1];
        }
      }
    }
  }

  /** A variable defined before the binding keeps its definition: the first definition wins. */
  lemma FirstDefinitionWins(vars: Variables, fieldName: string, hardcoded: map<string, ValueNode>, args: seq<ArgDef>, name: string)
    requires HasKey(vars, name)
    ensures Get(Declared(vars, fieldName, hardcoded, args), name) == Get(vars, name)
  {
    DeclaredKeeps(vars, fieldName, hardcoded, args);
    PrefixKeeps(vars, Declared(vars, fieldName, hardcoded, args), name);
  }

  /**
   * A new variable takes the type of the first argument bound to it and
   * the hardcoded default for that argument's name before the schema's.
   */
  lemma {:induction false} NewVariableDefinition(vars: Variables, fieldName: string, hardcoded: map<string, ValueNode>, args: seq<ArgDef>, i: nat)
    requires i < |args| && !HasKey(vars, VariableName(fieldName, args[i].name))
    requires forall m :: 0 <= m < i ==> args[m].name != args[i].name
    ensures Get(Declared(vars, fieldName, hardcoded, args), VariableName(fieldName, args[i].name)) ==
      Some(VarDef(args[i].typ, DefaultFor(hardcoded, args[i])))
    decreases i
  {
    var a := args[0];
    var name := VariableName(fieldName, args[i].name);
    var def := VarDef(a.typ, DefaultFor(hardcoded, a));
    var next := Declare(vars, VariableName(fieldName, a.name), def);
    if i == 0 {
      IndexAfterAppend(vars, name, def, name);
      FirstDefinitionWins(next, fieldName, hardcoded, args[1..], name);
    } else {
      assert args[1..][i - 1] == args[i];
      assert VariableName(fieldName, a.name) != name by {
        assert a.name != args[i].name;
        assert VariableName(fieldName, a.name)[|fieldName| + 1..] == a.name;
        assert name[|fieldName| + 1..] == args[i].name;
      }
      if !HasKey(vars, VariableName(fieldName, a.name)) {
        IndexAfterAppend(vars, VariableName(fieldName, a.name), def, name);
      }
      NewVariableDefinition(next, fieldName, hardcoded, args[1..], i - 1);
    }
  }

  /** With the driver's defaults, a `first` argument defaults to 250 and any other keeps the schema's default. */
  lemma DriverDefaults(a: ArgDef)
    ensures DefaultFor(HardcodedDefaults, a) == if a.name == "first" then Some(IntValue("250")) else a.default
  {
  }

  /** The argument loop of a selected field. */
  method BindArguments(fieldName: string, args: seq<ArgDef>, hardcoded: map<string, ValueNode>, vars: Variables)
    returns (arguments: seq<Argument>, vars': Variables)
    ensures arguments == ArgumentsFor(fieldName, args)
    ensures vars' == Declared(vars, fieldName, hardcoded, args)
  {
    arguments := [];
    vars' := vars;
    for i := 0 to |args|
      invariant arguments == ArgumentsFor(fieldName, args[..i])
      invariant Declared(vars', fieldName, hardcoded, args[i..]) == Declared(vars, fieldName, hardcoded, args)
    {
      var a := args[i];
      var name := VariableName(fieldName, a.name);
      assert args[i..][1..] == args[i + 1..];
      if !HasKey(vars', name) {
        vars' := vars' + [(name, VarDef(a.typ, DefaultFor(hardcoded, a)))];
      }
      arguments := arguments + [Argument(a.name, name)];
      assert args[..i + 1] == args[..i] + [a];
      ArgumentsAppend(fieldName, args[..i], a);
    }
    assert args[..|args|] == args;
  }

  lemma {:induction false} ArgumentsAppend(fieldName: string, args: seq<ArgDef>, a: ArgDef)
    ensures ArgumentsFor(fieldName, args + [a]) == ArgumentsFor(fieldName, args) + [Argument(a.name, VariableName(fieldName, a.name))]
  {
  }

  // ---------------------------------------------------------------------
  // Properties of selection sets
  // ---------------------------------------------------------------------

  /** Each argument of a selected field `f` is passed as its variable `f_a`, which is defined. */
  predicate SelectionBound(s: Selection, vars: Variables)
    decreases s, 0
  {
    match s
    case FieldNode(n, args, ch) =>
      (forall a :: a in args ==> a.variable == VariableName(n, a.name) && HasKey(vars, a.variable)) &&
      AllBound(ch, vars)
    case InlineFragment(_, ch) => AllBound(ch, vars)
  }

  predicate AllBound(sel: seq<Selection>, vars: Variables)
    decreases sel, 1
  {
    forall k :: 0 <= k < |sel| ==> SelectionBound(sel[k], vars)
  }

  /** Fields named `edges`, `node` or `pageInfo` stay at their parent's depth; others go one deeper. */
  function NewDepth(name: string, depth: int): int {
    if name in {"edges", "node", "pageInfo"} then depth else depth + 1
  }

  /** No selected field lies deeper than the limit. */
  predicate SelectionDepthOK(s: Selection, depth: int, maxDepth: int)
    decreases s, 0
  {
    match s
    case FieldNode(n, _, ch) => NewDepth(n, depth) <= maxDepth && DepthOK(ch, NewDepth(n, depth), maxDepth)
    case InlineFragment(_, ch) => DepthOK(ch, depth, maxDepth)
  }

  predicate DepthOK(sel: seq<Selection>, depth: int, maxDepth: int)
    decreases sel, 1
  {
    forall k :: 0 <= k < |sel| ==> SelectionDepthOK(sel[k], depth, maxDepth)
  }

  predicate IsField(s: Selection, name: string) {
    s.FieldNode? && s.name == name
  }

  predicate HasEdgesField(sel: seq<Selection>) {
    exists k :: 0 <= k < |sel| && IsField(sel[k], "edges")
  }

  /** Beside an `edges` field there is no `nodes` field. */
  predicate NoNodesBesideEdges(sel: seq<Selection>) {
    HasEdgesField(sel) ==> forall k :: 0 <= k < |sel| ==> !IsField(sel[k], "nodes")
  }

  /** The selections without the fields named `nodes`, in order. */
  function WithoutNodesFields(sel: seq<Selection>): (r: seq<Selection>)
    ensures forall k :: 0 <= k < |r| ==> !IsField(r[k], "nodes")
    ensures forall s :: s in r <==> s in sel && !IsField(s, "nodes")
    decreases |sel|
  {
    if |sel| == 0 then []
    else
      var s := sel[|sel| - 1];
      var pre := sel[..|sel| - 1];
      assert sel == pre + [s];
      WithoutNodesFields(pre) + (if IsField(s, "nodes") then [] else [s])
  }

  /** Every binding stays valid when variables are appended. */
  lemma {:induction false} AllBoundGrows(sel: seq<Selection>, vars: Variables, vars': Variables)
    requires vars <= vars' && AllBound(sel, vars)
    ensures AllBound(sel, vars')
    decreases sel, 1
  {
    forall k | 0 <= k < |sel| ensures SelectionBound(sel[k], vars') {
      SelectionBoundGrows(sel[k], vars, vars');
    }
  }

  lemma {:induction false} SelectionBoundGrows(s: Selection, vars: Variables, vars': Variables)
    requires vars <= vars' && SelectionBound(s, vars)
    ensures SelectionBound(s, vars')
    decreases s, 0
  {
    match s
    case FieldNode(n, args, ch) =>
      forall a | a in args ensures HasKey(vars', a.variable) {
        PrefixKeeps(vars, vars', a.variable);
      }
      AllBoundGrows(ch, vars, vars');
    case InlineFragment(_, ch) =>
      AllBoundGrows(ch, vars, vars');
  }

  // ---------------------------------------------------------------------
  // generate_query_ast
  // ---------------------------------------------------------------------

  /** The object type a field lists, through its connection's `nodes`. */
  function Ultimate(ctx: Context, f: FieldDef): string {
    FindUltimateObject(GetFieldTypeName(f.typ), ctx.doc)
  }

  /** The listed type refers directly to the type the current query lists. */
  predicate BackReference(ctx: Context, ultimate: string) {
    HasKey(ctx.byType, ultimate) && ultimate in ctx.refs &&
    Get(ctx.lrq, ctx.queryName).Some? && Get(ctx.lrq, ctx.queryName).value in ctx.refs[ultimate]
  }

  /** The cases in which a field selects nothing. */
  predicate Pruned(ctx: Context, f: FieldDef, depth: int) {
    f.name in {"nodes", "metafield", "metafieldsByIdentifiers"} ||
    Ultimate(ctx, f) in ctx.excluded ||
    depth > ctx.maxDepth ||
    IsDeprecated(f) ||
    BackReference(ctx, Ultimate(ctx, f))
  }

  /** Below the root, a listed type (other than `Metafield`) keeps only its `ID` fields. */
  predicate ListedParentRule(ctx: Context, parentType: string, depth: int, sub: FieldDef) {
    parentType != "Metafield" && HasKey(ctx.byType, parentType) && depth != 0 && GetFieldTypeName(sub.typ) != "ID"
  }

  /** Selection `s` is kept for sub-field `f`: every rule that would drop it fails. */
  predicate Kept(ctx: Context, parentType: string, depth: int, f: FieldDef, s: Selection) {
    s.FieldNode? && s.name == f.name && !IsDeprecated(f) &&
    NewDepth(f.name, depth) <= ctx.maxDepth &&
    (s.selections != [] || IsCoreType(GetFieldTypeName(f.typ), ctx.scalars, ctx.enums)) &&
    !ListedParentRule(ctx, parentType, depth, f) &&
    s.arguments == ArgumentsFor(f.name, f.args)
  }

  /** Selection `s` is kept for one of the sub-fields `fields`. */
  predicate KeptFrom(ctx: Context, parentType: string, depth: int, fields: seq<FieldDef>, s: Selection) {
    exists m :: 0 <= m < |fields| && Kept(ctx, parentType, depth, fields[m], s)
  }

  /** Selection `s` is a non-empty inline fragment on an object type implementing `typeName`. */
  predicate FragmentOf(doc: Document, typeName: string, s: Selection) {
    s.InlineFragment? && s.selections != [] &&
    exists o: nat :: o < |doc| && Implements(doc, o, typeName) && s.typeCondition == doc[o].name
  }

  /** The first object definition with the given name. */
  function FirstObjectNamed(doc: Document, name: string, i: nat): (r: Option<nat>)
    requires i <= |doc|
    ensures r.Some? ==> i <= r.value < |doc| && doc[r.value].ObjectDef? && doc[r.value].name == name
    ensures r.Some? ==> forall m :: i <= m < r.value ==> !(doc[m].ObjectDef? && doc[m].name == name)
    ensures r.None? ==> forall m :: i <= m < |doc| ==> !(doc[m].ObjectDef? && doc[m].name == name)
    decreases |doc| - i
  {
    if i == |doc| then None
    else if doc[i].ObjectDef? && doc[i].name == name then Some(i)
    else FirstObjectNamed(doc, name, i + 1)
  }

  /** Object definition `o` implements the interface `name`. */
  predicate Implements(doc: Document, o: nat, name: string) {
    o < |doc| && doc[o].ObjectDef? && name in doc[o].interfaces
  }

  // ---------------------------------------------------------------------
  // generate_query_ast as functions: the specification of the methods
  // ---------------------------------------------------------------------

  /** The selection set `generate_query_ast` builds for `field` at `depth`, and the variables after it. */
  function Gen(ctx: Context, field: FieldDef, depth: int, fuel: nat, vars: Variables): (seq<Selection>, Variables)
    decreases fuel, 0, 0
  {
    if fuel == 0 || Pruned(ctx, field, depth) then ([], vars)
    else
      var (sel, vars') := Branch(ctx, field, depth, fuel - 1, vars);
      (if HasEdgesField(sel) then WithoutNodesFields(sel) else sel, vars')
  }

  /** The object branch (the first object definition named after the field's type) or else the interface branch. */
  function Branch(ctx: Context, field: FieldDef, depth: int, fuel: nat, vars: Variables): (seq<Selection>, Variables)
    decreases fuel, 4, 0
  {
    var typeName := GetFieldTypeName(field.typ);
    match FirstObjectNamed(ctx.doc, typeName, 0)
    case Some(i) => SelectFrom(ctx, typeName, ctx.doc[i].fields, depth, fuel, vars)
    case None => Fragments(ctx, typeName, depth, fuel, |ctx.doc|, vars)
  }

  /** The loop over `fields`: each sub-field's selection set is generated, then the field is kept or dropped. */
  function SelectFrom(ctx: Context, parentType: string, fields: seq<FieldDef>, depth: int, fuel: nat, vars: Variables)
    : (seq<Selection>, Variables)
    decreases fuel, 1, |fields|
  {
    if |fields| == 0 then ([], vars)
    else
      var (sels, v) := SelectFrom(ctx, parentType, fields[..|fields| - 1], depth, fuel, vars);
      var f := fields[|fields| - 1];
      if IsDeprecated(f) then (sels, v)
      else
        var (sub, v') := Gen(ctx, f, NewDepth(f.name, depth), fuel, v);
        if Dropped(ctx, parentType, depth, f, sub) then (sels, v')
        else (sels + [FieldNode(f.name, ArgumentsFor(f.name, f.args), sub)], Declared(v', f.name, ctx.hardcoded, f.args))
  }

  /** The three `continue`s after a sub-field's selection set is generated. */
  predicate Dropped(ctx: Context, parentType: string, depth: int, f: FieldDef, sub: seq<Selection>) {
    (sub == [] && !IsCoreType(GetFieldTypeName(f.typ), ctx.scalars, ctx.enums)) ||
    NewDepth(f.name, depth) > ctx.maxDepth ||
    ListedParentRule(ctx, parentType, depth, f)
  }

  /** The fragments for one interface definition: one per implementing object among the first `n` definitions. */
  function Inner(ctx: Context, typeName: string, depth: int, fuel: nat, n: nat, vars: Variables): (seq<Selection>, Variables)
    requires n <= |ctx.doc|
    decreases fuel, 2, n
  {
    if n == 0 then ([], vars)
    else
      var (sels, v) := Inner(ctx, typeName, depth, fuel, n - 1, vars);
      var o := ctx.doc[n - 1];
      if o.ObjectDef? && typeName in o.interfaces then
        var (fragment, v') := SelectFrom(ctx, typeName, o.fields, depth, fuel, v);
        (if fragment != [] then sels + [InlineFragment(o.name, fragment)] else sels, v')
      else (sels, v)
  }

  /** The interface branch over the first `n` definitions: `Inner` once per interface definition named `typeName`. */
  function Fragments(ctx: Context, typeName: string, depth: int, fuel: nat, n: nat, vars: Variables): (seq<Selection>, Variables)
    requires n <= |ctx.doc|
    decreases fuel, 3, n
  {
    if n == 0 then ([], vars)
    else
      var (sels, v) := Fragments(ctx, typeName, depth, fuel, n - 1, vars);
      if ctx.doc[n - 1].InterfaceDef? && ctx.doc[n - 1].name == typeName then
        var (more, v') := Inner(ctx, typeName, depth, fuel, |ctx.doc|, v);
        (sels + more, v')
      else (sels, v)
  }

  /**
   * `generate_query_ast`: the selection set of `field` at `depth`, and the
   * shared variables after it.
   */
  method GenerateQueryAst(ctx: Context, field: FieldDef, depth: int, fuel: nat, vars: Variables)
    returns (sel: seq<Selection>, vars': Variables)
    ensures (sel, vars') == Gen(ctx, field, depth, fuel, vars)
    ensures Pruned(ctx, field, depth) ==> sel == [] && vars' == vars
    ensures vars <= vars'
    ensures UniqueKeys(vars) ==> UniqueKeys(vars')
    ensures AllBound(sel, vars')
    ensures DepthOK(sel, depth, ctx.maxDepth)
    ensures NoNodesBesideEdges(sel)
    ensures
      var typeName := GetFieldTypeName(field.typ);
      match FirstObjectNamed(ctx.doc, typeName, 0)
      case Some(i) => forall k :: 0 <= k < |sel| ==> KeptFrom(ctx, typeName, depth, ctx.doc[i].fields, sel[k])
      case None => forall k :: 0 <= k < |sel| ==> FragmentOf(ctx.doc, typeName, sel[k])
    decreases fuel, 0
  {
    if fuel == 0 || Pruned(ctx, field, depth) {
      return [], vars;
    }
    var typeName := GetFieldTypeName(field.typ);
    var first := FirstObjectNamed(ctx.doc, typeName, 0);
    if first.Some? {
      sel, vars' := SelectSubFields(ctx, typeName, ctx.doc[first.value].fields, depth, fuel - 1, vars);
    } else {
      var found;
      sel, vars', found := InterfaceFragments(ctx, typeName, depth, fuel - 1, vars);
      if !found {
        return [], vars;
      }
    }
    assert (sel, vars') == Branch(ctx, field, depth, fuel - 1, vars);
    if HasEdgesField(sel) {
      WithoutNodesKeeps(ctx, typeName, depth, sel, vars');
      sel := WithoutNodesFields(sel);
    }
  }

  /** Dropping the `nodes` fields keeps every per-selection fact of `generate_query_ast`'s result. */
  lemma WithoutNodesKeeps(ctx: Context, typeName: string, depth: int, all: seq<Selection>, vars: Variables)
    requires AllBound(all, vars) && DepthOK(all, depth, ctx.maxDepth)
    requires match FirstObjectNamed(ctx.doc, typeName, 0)
      case Some(i) => forall k :: 0 <= k < |all| ==> KeptFrom(ctx, typeName, depth, ctx.doc[i].fields, all[k])
      case None => forall k :: 0 <= k < |all| ==> FragmentOf(ctx.doc, typeName, all[k])
    ensures var sel := WithoutNodesFields(all);
      AllBound(sel, vars) && DepthOK(sel, depth, ctx.maxDepth) &&
      match FirstObjectNamed(ctx.doc, typeName, 0)
      case Some(i) => forall k :: 0 <= k < |sel| ==> KeptFrom(ctx, typeName, depth, ctx.doc[i].fields, sel[k])
      case None => forall k :: 0 <= k < |sel| ==> FragmentOf(ctx.doc, typeName, sel[k])
  {
    var sel := WithoutNodesFields(all);
    forall k | 0 <= k < |sel| ensures exists m :: 0 <= m < |all| && all[m] == sel[k] {
      assert sel[k] in sel;
      assert sel[k] in all;
    }
  }

  /**
   * The loop over a definition's fields: the selections kept, in field
   * order, and the variables after them. Variables bound while generating
   * a sub-field's selection stay defined even when the sub-field is then
   * dropped.
   */
  method SelectSubFields(ctx: Context, parentType: string, fields: seq<FieldDef>, depth: int, fuel: nat, vars: Variables)
    returns (sels: seq<Selection>, vars': Variables)
    ensures vars <= vars'
    ensures UniqueKeys(vars) ==> UniqueKeys(vars')
    ensures AllBound(sels, vars')
    ensures DepthOK(sels, depth, ctx.maxDepth)
    ensures forall k :: 0 <= k < |sels| ==> KeptFrom(ctx, parentType, depth, fields, sels[k])
    ensures (sels, vars') == SelectFrom(ctx, parentType, fields, depth, fuel, vars)
    decreases fuel, 1
  {
    sels := [];
    vars' := vars;
    for j := 0 to |fields|
      invariant (sels, vars') == SelectFrom(ctx, parentType, fields[..j], depth, fuel, vars)
      invariant vars <= vars'
      invariant UniqueKeys(vars) ==> UniqueKeys(vars')
      invariant AllBound(sels, vars')
      invariant DepthOK(sels, depth, ctx.maxDepth)
      invariant forall k :: 0 <= k < |sels| ==> KeptFrom(ctx, parentType, depth, fields, sels[k])
    {
      var f := fields[j];
      assert fields[..j + 1][..j] == fields[..j] && fields[..j + 1][j] == f;
      if IsDeprecated(f) {
        continue;
      }
      var newDepth := NewDepth(f.name, depth);
      var sub, afterSub := GenerateQueryAst(ctx, f, newDepth, fuel, vars');
      AllBoundGrows(sels, vars', afterSub);
      vars' := afterSub;
      if sub == [] && !IsCoreType(GetFieldTypeName(f.typ), ctx.scalars, ctx.enums) {
        continue;
      }
      if newDepth > ctx.maxDepth {
        continue;
      }
      if ListedParentRule(ctx, parentType, depth, f) {
        continue;
      }
      var arguments, afterArgs := BindArguments(f.name, f.args, ctx.hardcoded, vars');
      DeclaredKeeps(vars', f.name, ctx.hardcoded, f.args);
      AllBoundGrows(sels, vars', afterArgs);
      AllBoundGrows(sub, vars', afterArgs);
      vars' := afterArgs;
      var node := FieldNode(f.name, arguments, sub);
      assert SelectionBound(node, vars') by {
        forall a | a in arguments ensures a.variable == VariableName(f.name, a.name) && HasKey(vars', a.variable) {
          var i :| 0 <= i < |arguments| && arguments[i] == a;
        }
      }
      assert Kept(ctx, parentType, depth, fields[j], node);
      assert SelectionDepthOK(node, depth, ctx.maxDepth);
      AppendKept(ctx, parentType, depth, fields, j, sels, node, vars');
      sels := sels + [node];
    }
    assert fields[..|fields|] == fields;
  }

  /** A kept, bound selection within the depth limit extends the loop's selections. */
  lemma {:induction false} AppendKept(ctx: Context, parentType: string, depth: int, fields: seq<FieldDef>, j: nat,
                                      sels: seq<Selection>, node: Selection, vars: Variables)
    requires j < |fields| && Kept(ctx, parentType, depth, fields[j], node)
    requires SelectionBound(node, vars) && SelectionDepthOK(node, depth, ctx.maxDepth)
    requires AllBound(sels, vars) && DepthOK(sels, depth, ctx.maxDepth)
    requires forall k :: 0 <= k < |sels| ==> KeptFrom(ctx, parentType, depth, fields, sels[k])
    ensures AllBound(sels + [node], vars) && DepthOK(sels + [node], depth, ctx.maxDepth)
    ensures forall k :: 0 <= k < |sels + [node]| ==> KeptFrom(ctx, parentType, depth, fields, (sels + [node])[k])
  {
    var s' := sels + [node];
    assert forall k :: 0 <= k < |sels| ==> s'[k] == sels[k];
    assert s'[|sels|] == node;
  }

  /** What the interface branch's loops keep: the variables grow, stay bound and unique, and every selection is a fragment. */
  ghost predicate FragmentsSoFar(ctx: Context, typeName: string, depth: int, vars: Variables, sels: seq<Selection>, vars': Variables) {
    vars <= vars' && (UniqueKeys(vars) ==> UniqueKeys(vars')) &&
    AllBound(sels, vars') && DepthOK(sels, depth, ctx.maxDepth) &&
    forall k :: 0 <= k < |sels| ==> FragmentOf(ctx.doc, typeName, sels[k])
  }

  /**
   * The interface branch: for every interface definition named `typeName`,
   * an inline fragment per implementing object type whose fields select
   * something. `found` tells whether any such interface exists.
   */
  method InterfaceFragments(ctx: Context, typeName: string, depth: int, fuel: nat, vars: Variables)
    returns (sels: seq<Selection>, vars': Variables, found: bool)
    ensures (sels, vars') == Fragments(ctx, typeName, depth, fuel, |ctx.doc|, vars)
    ensures found <==> exists d :: 0 <= d < |ctx.doc| && ctx.doc[d].InterfaceDef? && ctx.doc[d].name == typeName
    ensures !found ==> sels == [] && vars' == vars
    ensures vars <= vars'
    ensures UniqueKeys(vars) ==> UniqueKeys(vars')
    ensures AllBound(sels, vars')
    ensures DepthOK(sels, depth, ctx.maxDepth)
    ensures forall k :: 0 <= k < |sels| ==> FragmentOf(ctx.doc, typeName, sels[k])
    decreases fuel, 2
  {
    sels := [];
    vars' := vars;
    found := false;
    for d := 0 to |ctx.doc|
      invariant (sels, vars') == Fragments(ctx, typeName, depth, fuel, d, vars)
      invariant found <==> exists m :: 0 <= m < d && ctx.doc[m].InterfaceDef? && ctx.doc[m].name == typeName
      invariant !found ==> sels == [] && vars' == vars
      invariant FragmentsSoFar(ctx, typeName, depth, vars, sels, vars')
    {
      if ctx.doc[d].InterfaceDef? && ctx.doc[d].name == typeName {
        found := true;
        ghost var before, varsBefore := sels, vars';
        assert before + [] == before;
        for o := 0 to |ctx.doc|
          invariant (sels, vars') == (before + Inner(ctx, typeName, depth, fuel, o, varsBefore).0, Inner(ctx, typeName, depth, fuel, o, varsBefore).1)
          invariant FragmentsSoFar(ctx, typeName, depth, vars, sels, vars')
        {
          ghost var prev := Inner(ctx, typeName, depth, fuel, o, varsBefore).0;
          if ctx.doc[o].ObjectDef? && typeName in ctx.doc[o].interfaces {
            var fragment, afterFragment := SelectSubFields(ctx, typeName, ctx.doc[o].fields, depth, fuel, vars');
            AllBoundGrows(sels, vars', afterFragment);
            vars' := afterFragment;
            if fragment != [] {
              assert Implements(ctx.doc, o, typeName);
              assert FragmentOf(ctx.doc, typeName, InlineFragment(ctx.doc[o].name, fragment));
              sels := sels + [InlineFragment(ctx.doc[o].name, fragment)];
              assert sels == before + (prev + [InlineFragment(ctx.doc[o].name, fragment)]);
            }
          }
        }
      }
    }
  }

  // ---------------------------------------------------------------------
  // Completeness: what the loops keep, in order
  // ---------------------------------------------------------------------

  /** The variables the loop over `fields` holds when it reaches field `j`. */
  function VarsAt(ctx: Context, parentType: string, fields: seq<FieldDef>, depth: int, fuel: nat, vars: Variables, j: nat): Variables
    requires j <= |fields|
  {
    SelectFrom(ctx, parentType, fields[..j], depth, fuel, vars).1
  }

  /** The selection set generated for field `j` of the loop. */
  function SubAt(ctx: Context, parentType: string, fields: seq<FieldDef>, depth: int, fuel: nat, vars: Variables, j: nat): seq<Selection>
    requires j < |fields|
  {
    Gen(ctx, fields[j], NewDepth(fields[j].name, depth), fuel, VarsAt(ctx, parentType, fields, depth, fuel, vars, j)).0
  }

  /** Field `j` is kept: it is not deprecated and none of the `continue`s applies to its selection set. */
  predicate KeptAt(ctx: Context, parentType: string, fields: seq<FieldDef>, depth: int, fuel: nat, vars: Variables, j: nat)
    requires j < |fields|
  {
    !IsDeprecated(fields[j]) && !Dropped(ctx, parentType, depth, fields[j], SubAt(ctx, parentType, fields, depth, fuel, vars, j))
  }

  /** How many of the first `j` fields are kept. */
  function KeptBefore(ctx: Context, parentType: string, fields: seq<FieldDef>, depth: int, fuel: nat, vars: Variables, j: nat): nat
    requires j <= |fields|
    decreases j
  {
    if j == 0 then 0
    else KeptBefore(ctx, parentType, fields, depth, fuel, vars, j - 1) + (if KeptAt(ctx, parentType, fields, depth, fuel, vars, j - 1) then 1 else 0)
  }

  /**
   * The loop selects exactly the kept fields, in field order: the field
   * node for kept field `j`, with its arguments and its own selection set,
   * sits at position `KeptBefore(j)`, and there is nothing else.
   */
  lemma {:induction false} SelectFromComplete(ctx: Context, parentType: string, fields: seq<FieldDef>, depth: int, fuel: nat,
                                              vars: Variables, n: nat)
    requires n <= |fields|
    ensures var sels := SelectFrom(ctx, parentType, fields[..n], depth, fuel, vars).0;
      |sels| == KeptBefore(ctx, parentType, fields, depth, fuel, vars, n) &&
      forall j :: 0 <= j < n && KeptAt(ctx, parentType, fields, depth, fuel, vars, j) ==>
        KeptBefore(ctx, parentType, fields, depth, fuel, vars, j) < |sels| &&
        sels[KeptBefore(ctx, parentType, fields, depth, fuel, vars, j)] ==
          FieldNode(fields[j].name, ArgumentsFor(fields[j].name, fields[j].args), SubAt(ctx, parentType, fields, depth, fuel, vars, j))
    decreases n
  {
    if n > 0 {
      var m := n - 1;
      SelectFromComplete(ctx, parentType, fields, depth, fuel, vars, m);
      SelectFromStep(ctx, parentType, fields, depth, fuel, vars, m);
      var pre := SelectFrom(ctx, parentType, fields[..m], depth, fuel, vars).0;
      var sels := SelectFrom(ctx, parentType, fields[..n], depth, fuel, vars).0;
      var kept := KeptAt(ctx, parentType, fields, depth, fuel, vars, m);
      assert KeptBefore(ctx, parentType, fields, depth, fuel, vars, n) ==
        KeptBefore(ctx, parentType, fields, depth, fuel, vars, m) + (if kept then 1 else 0);
      assert pre <= sels;
      forall j | 0 <= j < n && KeptAt(ctx, parentType, fields, depth, fuel, vars, j)
        ensures KeptBefore(ctx, parentType, fields, depth, fuel, vars, j) < |sels| &&
          sels[KeptBefore(ctx, parentType, fields, depth, fuel, vars, j)] ==
            FieldNode(fields[j].name, ArgumentsFor(fields[j].name, fields[j].args), SubAt(ctx, parentType, fields, depth, fuel, vars, j))
      {
        if j < m {
          assert sels[KeptBefore(ctx, parentType, fields, depth, fuel, vars, j)] == pre[KeptBefore(ctx, parentType, fields, depth, fuel, vars, j)];
        }
      }
    }
  }

  /** One step of the loop over `fields`: field `m` adds its node exactly when it is kept. */
  lemma SelectFromStep(ctx: Context, parentType: string, fields: seq<FieldDef>, depth: int, fuel: nat, vars: Variables, m: nat)
    requires m < |fields|
    ensures SelectFrom(ctx, parentType, fields[..m + 1], depth, fuel, vars).0 ==
      SelectFrom(ctx, parentType, fields[..m], depth, fuel, vars).0 +
      (if KeptAt(ctx, parentType, fields, depth, fuel, vars, m)
       then [FieldNode(fields[m].name, ArgumentsFor(fields[m].name, fields[m].args), SubAt(ctx, parentType, fields, depth, fuel, vars, m))]
       else [])
  {
    assert fields[..m + 1][..m] == fields[..m] && fields[..m + 1][m] == fields[m];
  }

  /**
   * `generate_query_ast` on an object type selects every kept sub-field
   * other than `nodes` (which goes only when an `edges` sits beside it),
   * with its arguments and its own selection set.
   */
  lemma {:induction false} GenComplete(ctx: Context, field: FieldDef, depth: int, fuel: nat, vars: Variables, i: nat, j: nat)
    requires fuel > 0 && !Pruned(ctx, field, depth)
    requires FirstObjectNamed(ctx.doc, GetFieldTypeName(field.typ), 0) == Some(i)
    requires j < |ctx.doc[i].fields| && ctx.doc[i].fields[j].name != "nodes"
    requires KeptAt(ctx, GetFieldTypeName(field.typ), ctx.doc[i].fields, depth, fuel - 1, vars, j)
    ensures var fields := ctx.doc[i].fields;
      FieldNode(fields[j].name, ArgumentsFor(fields[j].name, fields[j].args),
                SubAt(ctx, GetFieldTypeName(field.typ), fields, depth, fuel - 1, vars, j)) in Gen(ctx, field, depth, fuel, vars).0
  {
    var typeName := GetFieldTypeName(field.typ);
    var fields := ctx.doc[i].fields;
    KeptSelected(ctx, typeName, fields, depth, fuel - 1, vars, j);
    var sel := SelectFrom(ctx, typeName, fields, depth, fuel - 1, vars).0;
    assert Branch(ctx, field, depth, fuel - 1, vars).0 == sel;
    var node := FieldNode(fields[j].name, ArgumentsFor(fields[j].name, fields[j].args), SubAt(ctx, typeName, fields, depth, fuel - 1, vars, j));
    assert !IsField(node, "nodes");
  }

  /** A kept field's node is among the loop's selections. */
  lemma KeptSelected(ctx: Context, parentType: string, fields: seq<FieldDef>, depth: int, fuel: nat, vars: Variables, j: nat)
    requires j < |fields| && KeptAt(ctx, parentType, fields, depth, fuel, vars, j)
    ensures FieldNode(fields[j].name, ArgumentsFor(fields[j].name, fields[j].args), SubAt(ctx, parentType, fields, depth, fuel, vars, j))
      in SelectFrom(ctx, parentType, fields, depth, fuel, vars).0
  {
    SelectFromComplete(ctx, parentType, fields, depth, fuel, vars, |fields|);
    assert fields[..|fields|] == fields;
  }

  /** A kept field comes before every later one: `KeptBefore` strictly increases past it. */
  lemma {:induction false} KeptInOrder(ctx: Context, parentType: string, fields: seq<FieldDef>, depth: int, fuel: nat,
                                       vars: Variables, j: nat, n: nat)
    requires j < n <= |fields| && KeptAt(ctx, parentType, fields, depth, fuel, vars, j)
    ensures KeptBefore(ctx, parentType, fields, depth, fuel, vars, j) < KeptBefore(ctx, parentType, fields, depth, fuel, vars, n)
    decreases n
  {
    if n > j + 1 {
      KeptInOrder(ctx, parentType, fields, depth, fuel, vars, j, n - 1);
    }
  }

  /** The variables the fragment loop holds when it reaches definition `o`. */
  function VarsInner(ctx: Context, typeName: string, depth: int, fuel: nat, vars: Variables, o: nat): Variables
    requires o <= |ctx.doc|
  {
    Inner(ctx, typeName, depth, fuel, o, vars).1
  }

  /** Definition `o` is an object type implementing `typeName`. */
  predicate ImplementsAt(ctx: Context, typeName: string, o: nat)
    requires o < |ctx.doc|
  {
    ctx.doc[o].ObjectDef? && typeName in ctx.doc[o].interfaces
  }

  /** The selections generated for the fields of implementing object `o`. */
  function FragmentAt(ctx: Context, typeName: string, depth: int, fuel: nat, vars: Variables, o: nat): seq<Selection>
    requires o < |ctx.doc| && ImplementsAt(ctx, typeName, o)
  {
    SelectFrom(ctx, typeName, ctx.doc[o].fields, depth, fuel, VarsInner(ctx, typeName, depth, fuel, vars, o)).0
  }

  /** Definition `o` contributes a fragment: it implements `typeName` and its fields select something. */
  predicate FragmentKept(ctx: Context, typeName: string, depth: int, fuel: nat, vars: Variables, o: nat)
    requires o < |ctx.doc|
  {
    ImplementsAt(ctx, typeName, o) && FragmentAt(ctx, typeName, depth, fuel, vars, o) != []
  }

  function FragmentsBefore(ctx: Context, typeName: string, depth: int, fuel: nat, vars: Variables, o: nat): nat
    requires o <= |ctx.doc|
    decreases o
  {
    if o == 0 then 0
    else FragmentsBefore(ctx, typeName, depth, fuel, vars, o - 1) + (if FragmentKept(ctx, typeName, depth, fuel, vars, o - 1) then 1 else 0)
  }

  /**
   * One interface yields exactly one inline fragment per implementing
   * object type whose selection is non-empty, in document order, each
   * holding that selection.
   */
  lemma {:induction false} InnerComplete(ctx: Context, typeName: string, depth: int, fuel: nat, vars: Variables, n: nat)
    requires n <= |ctx.doc|
    ensures var sels := Inner(ctx, typeName, depth, fuel, n, vars).0;
      |sels| == FragmentsBefore(ctx, typeName, depth, fuel, vars, n) &&
      forall o :: 0 <= o < n && FragmentKept(ctx, typeName, depth, fuel, vars, o) ==>
        FragmentsBefore(ctx, typeName, depth, fuel, vars, o) < |sels| &&
        sels[FragmentsBefore(ctx, typeName, depth, fuel, vars, o)] ==
          InlineFragment(ctx.doc[o].name, FragmentAt(ctx, typeName, depth, fuel, vars, o))
    decreases n
  {
    if n > 0 {
      var m := n - 1;
      InnerComplete(ctx, typeName, depth, fuel, vars, m);
      var pre := Inner(ctx, typeName, depth, fuel, m, vars).0;
      var sels := Inner(ctx, typeName, depth, fuel, n, vars).0;
      assert pre <= sels;
      forall o | 0 <= o < m && FragmentKept(ctx, typeName, depth, fuel, vars, o)
        ensures sels[FragmentsBefore(ctx, typeName, depth, fuel, vars, o)] == pre[FragmentsBefore(ctx, typeName, depth, fuel, vars, o)]
      {
      }
    }
  }

  /** With a single interface definition of that name, the interface branch is that interface's fragments. */
  lemma {:induction false} SingleInterfaceFragments(ctx: Context, typeName: string, depth: int, fuel: nat, vars: Variables, d: nat, n: nat)
    requires d < n <= |ctx.doc| && ctx.doc[d].InterfaceDef? && ctx.doc[d].name == typeName
    requires forall m :: 0 <= m < |ctx.doc| && m != d ==> !(ctx.doc[m].InterfaceDef? && ctx.doc[m].name == typeName)
    ensures Fragments(ctx, typeName, depth, fuel, n, vars) == Inner(ctx, typeName, depth, fuel, |ctx.doc|, vars)
    decreases n
  {
    if n == d + 1 {
      NoInterfaceBefore(ctx, typeName, depth, fuel, vars, d);
      assert [] + Inner(ctx, typeName, depth, fuel, |ctx.doc|, vars).0 == Inner(ctx, typeName, depth, fuel, |ctx.doc|, vars).0;
    } else {
      SingleInterfaceFragments(ctx, typeName, depth, fuel, vars, d, n - 1);
    }
  }

  /** Before any interface definition of that name, the interface branch has selected nothing. */
  lemma {:induction false} NoInterfaceBefore(ctx: Context, typeName: string, depth: int, fuel: nat, vars: Variables, n: nat)
    requires n <= |ctx.doc|
    requires forall m :: 0 <= m < n ==> !(ctx.doc[m].InterfaceDef? && ctx.doc[m].name == typeName)
    ensures Fragments(ctx, typeName, depth, fuel, n, vars) == ([], vars)
    decreases n
  {
    if n > 0 {
      NoInterfaceBefore(ctx, typeName, depth, fuel, vars, n - 1);
    }
  }

  // ---------------------------------------------------------------------
  // generate_query_with_variables_ast and the driver
  // ---------------------------------------------------------------------

  /** A named query operation with its variable definitions and selection set. */
  datatype Operation = Operation(name: string, variables: Variables, selections: seq<Selection>)

  /**
   * `generate_query_with_variables_ast`: the query named after the root
   * field, selecting that one field with its arguments, over the
   * variables collected on the way.
   */
  method GenerateQueryWithVariablesAst(ctx: Context, field: FieldDef, depth: int, fuel: nat) returns (op: Operation)
    ensures op == OperationFor(ctx, field, depth, fuel)
    ensures op.name == field.name
    ensures |op.selections| == 1 && op.selections[0].FieldNode? && op.selections[0].name == field.name
    ensures op.selections[0].arguments == ArgumentsFor(field.name, field.args)
    ensures DepthOK(op.selections[0].selections, depth, ctx.maxDepth)
    ensures UniqueKeys(op.variables)
    ensures AllBound(op.selections, op.variables)
    ensures Pruned(ctx, field, depth) ==>
      op.selections[0].selections == [] && op.variables == Declared([], field.name, ctx.hardcoded, field.args)
  {
    var sel, vars := GenerateQueryAst(ctx, field, depth, fuel, []);
    var arguments, allVars := BindArguments(field.name, field.args, ctx.hardcoded, vars);
    DeclaredKeeps(vars, field.name, ctx.hardcoded, field.args);
    AllBoundGrows(sel, vars, allVars);
    var root := FieldNode(field.name, arguments, sel);
    assert SelectionBound(root, allVars) by {
      forall a | a in arguments ensures a.variable == VariableName(field.name, a.name) && HasKey(allVars, a.variable) {
        var i :| 0 <= i < |arguments| && arguments[i] == a;
      }
    }
    op := Operation(field.name, allVars, [root]);
  }

  /**
   * The operation `generate_query_with_variables_ast` builds: the selection
   * set `generate_query_ast` computes from no variables, under the root
   * field with its arguments, over those variables extended by the root's
   * own.
   */
  function OperationFor(ctx: Context, field: FieldDef, depth: int, fuel: nat): Operation {
    var (sel, vars) := Gen(ctx, field, depth, fuel, []);
    Operation(field.name, Declared(vars, field.name, ctx.hardcoded, field.args),
              [FieldNode(field.name, ArgumentsFor(field.name, field.args), sel)])
  }

  /**
   * The operation for a root field of object type selects every kept
   * sub-field other than `nodes`, with its arguments and its own selection
   * set.
   */
  lemma OperationComplete(ctx: Context, field: FieldDef, depth: int, fuel: nat, i: nat, j: nat)
    requires fuel > 0 && !Pruned(ctx, field, depth)
    requires FirstObjectNamed(ctx.doc, GetFieldTypeName(field.typ), 0) == Some(i)
    requires j < |ctx.doc[i].fields| && ctx.doc[i].fields[j].name != "nodes"
    requires KeptAt(ctx, GetFieldTypeName(field.typ), ctx.doc[i].fields, depth, fuel - 1, [], j)
    ensures var fields := ctx.doc[i].fields;
      var op := OperationFor(ctx, field, depth, fuel);
      op.name == field.name && |op.selections| == 1 &&
      FieldNode(fields[j].name, ArgumentsFor(fields[j].name, fields[j].args),
                SubAt(ctx, GetFieldTypeName(field.typ), fields, depth, fuel - 1, [], j)) in op.selections[0].selections
  {
    GenComplete(ctx, field, depth, fuel, [], i, j);
  }

  /** The driver's default choice: the `QueryRoot` fields, except `node` and `nodes`. */
  const DefaultInclude: seq<string> := ["QueryRoot"]
  const DefaultExcludedQueries: seq<string> := ["node", "nodes"]

  /** A root field for which a query is generated. */
  predicate QuerySelected(f: FieldDef, included: seq<string>, excluded: seq<string>) {
    !IsDeprecated(f) &&
    (|included| == 0 || f.name in included) &&
    (|excluded| == 0 || f.name !in excluded)
  }

  function SelectedIn(fields: seq<FieldDef>, included: seq<string>, excluded: seq<string>): seq<FieldDef>
    decreases |fields|
  {
    if |fields| == 0 then []
    else
      var f := fields[|fields| - 1];
      SelectedIn(fields[..|fields| - 1], included, excluded) + (if QuerySelected(f, included, excluded) then [f] else [])
  }

  /** The selected fields of the object definitions named in `roots`, in document order. */
  function SelectedFields(defs: seq<Definition>, roots: seq<string>, included: seq<string>, excluded: seq<string>): seq<FieldDef>
    decreases |defs|
  {
    if |defs| == 0 then []
    else
      var d := defs[|defs| - 1];
      SelectedFields(defs[..|defs| - 1], roots, included, excluded) +
        (if d.ObjectDef? && d.name in roots then SelectedIn(d.fields, included, excluded) else [])
  }

  /** A field of a root object definition. */
  ghost predicate RootField(defs: seq<Definition>, roots: seq<string>, f: FieldDef) {
    exists d :: 0 <= d < |defs| && defs[d].ObjectDef? && defs[d].name in roots && f in defs[d].fields
  }

  /**
   * A field is selected exactly when it is a field of an object definition
   * named in `roots` that is not deprecated and passes the name filters.
   */
  lemma {:induction false} SelectedFieldsQualify(defs: seq<Definition>, roots: seq<string>, included: seq<string>, excluded: seq<string>)
    ensures forall f :: f in SelectedFields(defs, roots, included, excluded) <==>
      RootField(defs, roots, f) && QuerySelected(f, included, excluded)
    decreases |defs|
  {
    if |defs| > 0 {
      var pre := defs[..|defs| - 1];
      var d := defs[|defs| - 1];
      SelectedFieldsQualify(pre, roots, included, excluded);
      if d.ObjectDef? {
        SelectedInQualify(d.fields, included, excluded);
      }
      forall f ensures RootField(defs, roots, f) <==> RootField(pre, roots, f) || (d.ObjectDef? && d.name in roots && f in d.fields) {
        if RootField(defs, roots, f) {
          var k :| 0 <= k < |defs| && defs[k].ObjectDef? && defs[k].name in roots && f in defs[k].fields;
          if k < |pre| {
            assert pre[k] == defs[k];
          }
        }
        if RootField(pre, roots, f) {
          var k :| 0 <= k < |pre| && pre[k].ObjectDef? && pre[k].name in roots && f in pre[k].fields;
          assert defs[k] == pre[k];
        }
      }
    }
  }

  /** A field of `fields` is selected exactly when it is not deprecated and passes the name filters. */
  lemma {:induction false} SelectedInQualify(fields: seq<FieldDef>, included: seq<string>, excluded: seq<string>)
    ensures forall f :: f in SelectedIn(fields, included, excluded) <==> f in fields && QuerySelected(f, included, excluded)
    decreases |fields|
  {
    if |fields| > 0 {
      var pre := fields[..|fields| - 1];
      SelectedInQualify(pre, included, excluded);
      assert fields == pre + [fields[|fields| - 1]];
    }
  }

  /** What the driver promises of each generated operation. */
  predicate GeneratedFor(op: Operation, name: string) {
    op.name == name && |op.selections| == 1 && op.selections[0].FieldNode? &&
    UniqueKeys(op.variables) && AllBound(op.selections, op.variables) &&
    DepthOK(op.selections[0].selections, 0, MaxDepth)
  }

  /**
   * `generate_queries` without the schema loading and file writes: the
   * tables, then one operation per selected root field, generated from
   * depth 0 with the driver's constants.
   */
  /** The tables and constants `generate_queries` passes to every query it generates. */
  function DriverContext(doc: Document): Context {
    var lrq := FromPairs(RootEntries(doc, doc));
    var byType := Invert(lrq);
    Context("", MaxDepth, doc, lrq, byType, ReferenceTable(doc, byType), HardcodedDefaults, ScalarTypes(doc), EnumTypes(doc), ExcludedTypeNames)
  }

  method GenerateQueries(doc: Document, roots: seq<string>, included: seq<string>, excluded: seq<string>, fuel: nat)
    returns (ops: seq<Operation>)
    ensures |ops| == |SelectedFields(doc, roots, included, excluded)|
    ensures forall k :: 0 <= k < |ops| ==> GeneratedFor(ops[k], SelectedFields(doc, roots, included, excluded)[k].name)
    ensures forall k :: 0 <= k < |ops| ==>
      var f := SelectedFields(doc, roots, included, excluded)[k];
      ops[k] == OperationFor(DriverContext(doc).(queryName := f.name), f, 0, fuel)
  {
    var lrq := ListReturningQueries(doc);
    var byType := InvertByType(lrq);
    var refs := DirectObjectReferences(doc, byType);
    var base := Context("", MaxDepth, doc, lrq, byType, refs, HardcodedDefaults, ScalarTypes(doc), EnumTypes(doc), ExcludedTypeNames);
    assert base == DriverContext(doc);
    ops := GenerateEach(base, SelectedFields(doc, roots, included, excluded), fuel);
  }

  /** The driver's loop: one operation per root field, each named after its query. */
  method GenerateEach(base: Context, fields: seq<FieldDef>, fuel: nat) returns (ops: seq<Operation>)
    requires base.maxDepth == MaxDepth
    ensures |ops| == |fields|
    ensures forall k :: 0 <= k < |ops| ==> GeneratedFor(ops[k], fields[k].name)
    ensures forall k :: 0 <= k < |ops| ==> ops[k] == OperationFor(base.(queryName := fields[k].name), fields[k], 0, fuel)
  {
    ops := [];
    for k := 0 to |fields|
      invariant |ops| == k
      invariant forall m :: 0 <= m < k ==> GeneratedFor(ops[m], fields[m].name)
      invariant forall m :: 0 <= m < k ==> ops[m] == OperationFor(base.(queryName := fields[m].name), fields[m], 0, fuel)
    {
      var op := GenerateQueryWithVariablesAst(base.(queryName := fields[k].name), fields[k], 0, fuel);
      assert GeneratedFor(op, fields[k].name);
      ops := ops + [op];
    }
  }
}
