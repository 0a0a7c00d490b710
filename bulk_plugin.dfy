/**
 * The code-generation plugin as an object: its pending-imports table and
 * its typename cache are fields, and each of its methods updates them as
 * the rules in `BulkRules` say. The module being generated is passed in
 * and returned as a value.
 */
module BulkPlugin {
  import opened Wrappers
  import opened Text
  import opened Dicts
  import opened BulkRules

  class BulkQueriesPlugin {
    /** module name -> set of (name, under TYPE_CHECKING) still to be written out */
    var pendingImports: Pending
    /** module name -> typename dict read from that module */
    var typenameCache: Cache

    /** The pending table has one entry per module. */
    ghost predicate Valid()
      reads this
    {
      UniqueKeys(pendingImports)
    }

    /** The fields as a `State` value. */
    function Snapshot(): State
      reads this
    {
      State(pendingImports, typenameCache)
    }

    constructor()
      ensures Valid() && pendingImports == [] && typenameCache == map[]
    {
      pendingImports := [];
      typenameCache := map[];
    }

    /** `_add_import`. */
    method AddImport(name: string, moduleName: string, underTypeChecking: bool)
      modifies this
      requires Valid()
      ensures Valid()
      ensures pendingImports == WithImport(old(pendingImports), name, moduleName, underTypeChecking)
      ensures typenameCache == old(typenameCache)
    {
      WithImportUnique(pendingImports, name, moduleName, underTypeChecking);
      pendingImports := Set(pendingImports, moduleName, PendingFor(pendingImports, moduleName) + {(name, underTypeChecking)});
    }

    /** `_add_import_to_module`: queues the names an annotation refers to, under `TYPE_CHECKING`. */
    method AddImportToModule(annotation: Expr, moduleName: string)
      modifies this
      requires Valid()
      ensures Valid()
      ensures pendingImports == WithImports(old(pendingImports), ImportNames(annotation), moduleName, true)
      ensures typenameCache == old(typenameCache)
    {
      match annotation {
        case Subscript(_, Const(v)) =>
          AddImport(v, moduleName, true);
          assert [v][..0] == [];
        case Subscript(_, Tuple(elts)) =>
          for i := 0 to |elts|
            invariant Valid() && typenameCache == old(typenameCache)
            invariant pendingImports == WithImports(old(pendingImports), ConstantsOf(elts[..i]), moduleName, true)
          {
            assert elts[..i + 1][..i] == elts[..i];
            var names := ConstantsOf(elts[..i]);
            if elts[i].Const? {
              AddImport(elts[i].value, moduleName, true);
              assert (names + [elts[i].value])[..|names|] == names;
            } else {
              assert names + [] == names;
            }
          }
          assert elts[..|elts|] == elts;
        case Const(v) =>
          AddImport(v, moduleName, true);
          assert [v][..0] == [];
        case _ =>
      }
    }

    /** `get_typename_to_class_map`, with `sources` giving what reading each module yields. */
    method GetTypenameToClassMap(moduleName: string, sources: map<string, Option<seq<ClassTypename>>>) returns (m: seq<(string, string)>)
      modifies this
      requires Valid()
      ensures Valid()
      ensures (m, typenameCache) == Lookup(old(typenameCache), moduleName, sources)
      ensures pendingImports == old(pendingImports)
    {
      if moduleName in typenameCache {
        return typenameCache[moduleName];
      }
      if moduleName !in sources || sources[moduleName].None? {
        return [];
      }
      var classes := sources[moduleName].value;
      m := [];
      for i := 0 to |classes|
        invariant pendingImports == old(pendingImports) && typenameCache == old(typenameCache)
        invariant m == FromPairs(TypenamePairs(classes[..i]))
      {
        assert classes[..i + 1][..i] == classes[..i];
        var pairs := TypenamePairs(classes[..i]);
        var c := classes[i];
        if c.typename.Some? && c.typename.value != "" {
          FromPairsSnoc(pairs, (c.typename.value, c.className));
          m := Set(m, c.typename.value, c.className);
        } else {
          assert pairs + [] == pairs;
        }
      }
      assert classes[..|classes|] == classes;
      typenameCache := typenameCache[moduleName := m];
    }

    /**
     * `_is_list_return_type`: `resolve` stands for the search through the
     * generated modules; a hit queues the node annotation's imports.
     */
    method IsListReturnType(annotation: Expr, resolve: map<Expr, Resolution>) returns (r: Option<Resolution>)
      modifies this
      requires Valid()
      ensures Valid()
      ensures r == if annotation in resolve then Some(resolve[annotation]) else None
      ensures pendingImports ==
        if annotation in resolve then WithImports(old(pendingImports), ImportNames(resolve[annotation].node), resolve[annotation].moduleName, true)
        else old(pendingImports)
      ensures typenameCache == old(typenameCache)
    {
      if annotation !in resolve {
        return None;
      }
      var found := resolve[annotation];
      AddImportToModule(found.node, found.moduleName);
      return Some(found);
    }

    /** `_generate_bulk_method_body`. */
    method GenerateBulkMethodBody(m: Member, moduleName: string, sources: map<string, Option<seq<ClassTypename>>>) returns (body: MethodBody)
      modifies this
      requires Valid() && m.AsyncDef?
      ensures Valid()
      ensures (body, Snapshot()) == BulkMethodBody(old(Snapshot()), m, moduleName, sources)
    {
      var keysFrom := GetTypenameToClassMap(moduleName, sources);
      var valuesFrom := GetTypenameToClassMap(moduleName, sources);
      body := BulkBody(GqlVarName(m.name), VariablesDict(m.args), ZipDict(keysFrom, valuesFrom));
    }

    /** `_create_bulk_method`: a `bq_` method with the same arguments, yielding the node type. */
    method CreateBulkMethod(m: Member, node: Expr, moduleName: string, sources: map<string, Option<seq<ClassTypename>>>) returns (twin: Member)
      modifies this
      requires Valid() && m.AsyncDef?
      ensures Valid()
      ensures var (body, st) := BulkMethodBody(old(Snapshot()), m, moduleName, sources);
        twin == AsyncDef("bq_" + m.name, m.args, Some(BulkReturns(node)), body) && Snapshot() == st
    {
      var body := GenerateBulkMethodBody(m, moduleName, sources);
      twin := AsyncDef("bq_" + m.name, m.args, Some(BulkReturns(node)), body);
    }

    /** `_enhance_class_with_bulk_methods`: the twins for one class body, in member order. */
    method EnhanceClassWithBulkMethods(members: seq<Member>, resolve: map<Expr, Resolution>,
                                       sources: map<string, Option<seq<ClassTypename>>>) returns (newMethods: seq<Member>)
      modifies this
      requires Valid()
      ensures Valid()
      ensures var e := Enhance(old(Snapshot()), members, resolve, sources);
        newMethods == e.added && Snapshot() == e.st
    {
      var existing := MethodNames(members);
      newMethods := [];
      for i := 0 to |members|
        invariant Valid()
        invariant Enhancing(existing, newMethods, Snapshot()) ==
          EnhanceFrom(Enhancing(MethodNames(members), [], old(Snapshot())), members[..i], resolve, sources)
      {
        assert members[..i + 1][..i] == members[..i];
        var m := members[i];
        if !m.AsyncDef? {
          continue;
        }
        var bulkName := "bq_" + m.name;
        if bulkName in existing {
          continue;
        }
        if StartsWith(m.name, "bq_") {
          continue;
        }
        if m.retType.None? {
          continue;
        }
        var ret := IsListReturnType(m.retType.value, resolve);
        if ret.None? {
          continue;
        }
        var twin := CreateBulkMethod(m, ret.value.node, ret.value.moduleName, sources);
        newMethods := newMethods + [twin];
        existing := existing + {bulkName};
      }
      assert members[..|members|] == members;
    }

    /** `_add_necessary_imports`. */
    method AddNecessaryImports(body: seq<Stmt>)
      modifies this
      requires Valid()
      ensures Valid()
      ensures pendingImports == NecessaryImports(old(pendingImports), body)
      ensures typenameCache == old(typenameCache)
    {
      if !Imports(body, "typing", "AsyncGenerator") {
        AddImport("AsyncGenerator", "typing", false);
      }
      if !Imports(body, ".enums", "BulkOperationStatus") {
        AddImport("BulkOperationStatus", ".enums", false);
        AddImport("BulkOperationNodeBulkOperation", ".bulk_operation", false);
      }
    }

    /**
     * `_flush_pending_imports`: one `from m import n` per pending pair, in
     * the order `order`, then the table is emptied. The modules come in the
     * table's insertion order; the names within one module come in the
     * unspecified iteration order of their set.
     */
    method FlushPendingImports(body: seq<Stmt>) returns (body': seq<Stmt>, ghost order: seq<Queued>)
      modifies this
      requires Valid()
      ensures Valid()
      ensures pendingImports == [] && typenameCache == old(typenameCache)
      ensures IsOrderOf(order, old(pendingImports)) && ModuleGrouped(order, old(pendingImports))
      ensures body' == FlushWith(body, FirstTypeChecking(body, 0), order)
    {
      var pending := pendingImports;
      var tc := FirstTypeChecking(body, 0);
      var blockAt := tc;
      body' := body;
      order := [];
      assert pending[..0] == [];
      for i := 0 to |pending|
        invariant pendingImports == pending && typenameCache == old(typenameCache)
        invariant FlushProgress(body, tc, pending, i, order, body', blockAt)
      {
        body', blockAt, order := EmitModule(body, tc, pending, i, body', blockAt, order);
      }
      assert pending[..|pending|] == pending;
      pendingImports := [];
    }

    /** `generate_client_module`: twins appended to every top-level class, then the imports written out. */
    method GenerateClientModule(body: seq<Stmt>, resolve: map<Expr, Resolution>,
                                sources: map<string, Option<seq<ClassTypename>>>) returns (body': seq<Stmt>, ghost order: seq<Queued>)
      modifies this
      requires Valid()
      ensures Valid()
      ensures var (enhanced, st) := EnhanceModule(old(Snapshot()), body, resolve, sources);
        pendingImports == [] && typenameCache == st.cache &&
        IsOrderOf(order, NecessaryImports(st.pending, enhanced)) && ModuleGrouped(order, NecessaryImports(st.pending, enhanced)) &&
        body' == FlushWith(enhanced, FirstTypeChecking(enhanced, 0), order)
    {
      var enhanced := [];
      for i := 0 to |body|
        invariant Valid()
        invariant (enhanced, Snapshot()) == EnhanceModule(old(Snapshot()), body[..i], resolve, sources)
      {
        assert body[..i + 1][..i] == body[..i];
        var s := body[i];
        if s.ClassStmt? {
          var newMethods := EnhanceClassWithBulkMethods(s.members, resolve, sources);
          enhanced := enhanced + [ClassStmt(s.className, s.members + newMethods)];
        } else {
          enhanced := enhanced + [s];
        }
      }
      assert body[..|body|] == body;
      AddNecessaryImports(enhanced);
      body', order := FlushPendingImports(enhanced);
    }
  }

  /**
   * After the first `i` modules of the table: `current` is `body` with their
   * pairs emitted in `order`, each pair once, module by module.
   */
  ghost predicate FlushProgress(body: seq<Stmt>, tc: Option<nat>, pending: Pending, i: nat, order: seq<Queued>,
                                current: seq<Stmt>, blockAt: Option<nat>) {
    UniqueKeys(pending) && i <= |pending| &&
    FlushedAs(body, tc, order, current, blockAt) && Covers(order, pending[..i]) && Distinct(order) &&
    ModuleGrouped(order, pending) && RanksBelow(order, pending, i)
  }

  /**
   * The inner loop of `_flush_pending_imports` for module `i`: one statement
   * per pair pending for it, appended after every pair of the earlier modules.
   */
  method EmitModule(body: seq<Stmt>, tc: Option<nat>, pending: Pending, i: nat,
                    bodyIn: seq<Stmt>, blockAtIn: Option<nat>, ghost orderIn: seq<Queued>)
    returns (body': seq<Stmt>, blockAt: Option<nat>, ghost order: seq<Queued>)
    requires i < |pending| && FlushProgress(body, tc, pending, i, orderIn, bodyIn, blockAtIn)
    ensures FlushProgress(body, tc, pending, i + 1, order, body', blockAt)
    ensures orderIn <= order && forall k :: |orderIn| <= k < |order| ==> order[k].0 == pending[i].0
  {
    var moduleName, names := pending[i].0, pending[i].1;
    ghost var done := pending[..i];
    FlushOpen(pending, i, orderIn);
    body', blockAt, order := bodyIn, blockAtIn, orderIn;
    var remaining := names;
    while remaining != {}
      invariant remaining <= names
      invariant orderIn <= order && forall k :: |orderIn| <= k < |order| ==> order[k].0 == moduleName
      invariant FlushedAs(body, tc, order, body', blockAt)
      invariant EmittedSoFar(order, done, moduleName, names - remaining)
      decreases remaining
    {
      var pair :| pair in remaining;
      var q := (moduleName, pair);
      EmitOneMore(order, done, moduleName, names - remaining, pair);
      assert names - (remaining - {pair}) == (names - remaining) + {pair};
      remaining := remaining - {pair};
      body', blockAt := EmitPair(body, tc, order, q, body', blockAt);
      order := order + [q];
    }
    assert names - remaining == names;
    FlushClose(pending, i, orderIn, order);
  }

  /** What the inner loop needs of the modules before `i`: none of their pairs is for module `i`. */
  lemma {:induction false} FlushOpen(pending: Pending, i: nat, orderIn: seq<Queued>)
    requires UniqueKeys(pending) && i < |pending| && Covers(orderIn, pending[..i]) && Distinct(orderIn)
    ensures EmittedSoFar(orderIn, pending[..i], pending[i].0, {})
    ensures forall q :: IsPending(pending[..i], q) ==> q.0 != pending[i].0
  {
    PendingPrefix(pending, i);
  }

  /** Once module `i`'s pairs are all sent, the first `i + 1` modules are covered, still grouped by module. */
  lemma {:induction false} FlushClose(pending: Pending, i: nat, orderIn: seq<Queued>, order: seq<Queued>)
    requires UniqueKeys(pending) && i < |pending|
    requires ModuleGrouped(orderIn, pending) && RanksBelow(orderIn, pending, i)
    requires orderIn <= order && forall k :: |orderIn| <= k < |order| ==> order[k].0 == pending[i].0
    requires EmittedSoFar(order, pending[..i], pending[i].0, pending[i].1)
    ensures Covers(order, pending[..i + 1]) && Distinct(order)
    ensures ModuleGrouped(order, pending) && RanksBelow(order, pending, i + 1)
  {
    PendingPrefix(pending, i);
    GroupedStep(pending, i, orderIn, order);
  }

  /** Every pair emitted so far belongs to one of the first `i` modules of the table. */
  ghost predicate RanksBelow(order: seq<Queued>, p: Pending, i: nat) {
    forall k :: 0 <= k < |order| ==> ModuleRank(p, order[k].0) < i
  }

  /** Appending the pairs of module `i` keeps the order grouped by module. */
  lemma {:induction false} GroupedStep(p: Pending, i: nat, orderIn: seq<Queued>, order: seq<Queued>)
    requires UniqueKeys(p) && i < |p|
    requires ModuleGrouped(orderIn, p) && RanksBelow(orderIn, p, i)
    requires orderIn <= order && forall k :: |orderIn| <= k < |order| ==> order[k].0 == p[i].0
    ensures ModuleGrouped(order, p) && RanksBelow(order, p, i + 1)
  {
    assert ModuleRank(p, p[i].0) == i by {
      var r := IndexOf(p, p[i].0);
      assert r.Some?;
      assert r.value == i;
    }
    forall k | 0 <= k < |orderIn| ensures order[k] == orderIn[k] && ModuleRank(p, order[k].0) < i {
    }
  }

  /** The inner loop's order: the pairs of earlier modules and the pairs `sent` of this one, each once. */
  ghost predicate EmittedSoFar(order: seq<Queued>, done: Pending, moduleName: string, sent: set<(string, bool)>) {
    (forall q :: q in order <==> IsPending(done, q) || (q.0 == moduleName && q.1 in sent)) && Distinct(order)
  }

  /** One more pair of this module, not yet sent, keeps the order distinct and complete. */
  lemma {:induction false} EmitOneMore(order: seq<Queued>, done: Pending, moduleName: string, sent: set<(string, bool)>, pair: (string, bool))
    requires EmittedSoFar(order, done, moduleName, sent) && pair !in sent
    requires forall q :: IsPending(done, q) ==> q.0 != moduleName
    ensures (moduleName, pair) !in order
    ensures EmittedSoFar(order + [(moduleName, pair)], done, moduleName, sent + {pair})
  {
    var q := (moduleName, pair);
    var order' := order + [q];
    assert forall i :: 0 <= i < |order| ==> order'[i] == order[i];
    forall i, j | 0 <= i < j < |order'| ensures order'[i] != order'[j] {
      if j == |order| {
        assert order'[i] in order;
      }
    }
  }

  /** Emitting one more pair. */
  lemma FlushWithSnoc(body: seq<Stmt>, tc: Option<nat>, order: seq<Queued>, q: Queued)
    ensures OutsideCount(tc, order + [q]) == OutsideCount(tc, order) + (if Inside(tc, q) then 0 else 1)
    ensures FlushWith(body, tc, order + [q]) ==
      if Inside(tc, q) then AppendToBlock(FlushWith(body, tc, order), tc.value + OutsideCount(tc, order), ImportOf(q))
      else [ImportOf(q)] + FlushWith(body, tc, order)
  {
    assert (order + [q])[..|order|] == order;
  }

  /**
   * `current` is the module after emitting `order`, and `blockAt` is where
   * its `TYPE_CHECKING` block now starts.
   */
  ghost predicate FlushedAs(body: seq<Stmt>, tc: Option<nat>, order: seq<Queued>, current: seq<Stmt>, blockAt: Option<nat>) {
    current == FlushWith(body, tc, order) &&
    blockAt == if tc.Some? then Some(tc.value + OutsideCount(tc, order)) else None
  }

  /**
   * One pair of the inner loop: `from m import n` goes to the end of the
   * `TYPE_CHECKING` block when the flag is set and the block exists, else to
   * the front of the module, which moves the block down by one.
   */
  method EmitPair(ghost body: seq<Stmt>, ghost tc: Option<nat>, ghost order: seq<Queued>, q: Queued,
                  bodyIn: seq<Stmt>, blockAtIn: Option<nat>) returns (body': seq<Stmt>, blockAt: Option<nat>)
    requires FlushedAs(body, tc, order, bodyIn, blockAtIn)
    ensures FlushedAs(body, tc, order + [q], body', blockAt)
  {
    FlushWithSnoc(body, tc, order, q);
    var stmt := ImportFrom(q.0, [q.1.0]);
    if blockAtIn.Some? && q.1.1 {
      body', blockAt := AppendToBlock(bodyIn, blockAtIn.value, stmt), blockAtIn;
    } else {
      body' := [stmt] + bodyIn;
      blockAt := if blockAtIn.Some? then Some(blockAtIn.value + 1) else None;
    }
  }

  /** The pending pairs of a prefix of the table, one module more. */
  lemma {:induction false} PendingPrefix(p: Pending, i: nat)
    requires UniqueKeys(p) && i < |p|
    ensures forall q :: IsPending(p[..i + 1], q) <==> IsPending(p[..i], q) || (q.0 == p[i].0 && q.1 in p[i].1)
    ensures forall q :: IsPending(p[..i], q) ==> q.0 != p[i].0
  {
    var pre := p[..i];
    var ext := p[..i + 1];
    assert ext == pre + [p[i]];
    assert !HasKey(pre, p[i].0) by {
      forall j | 0 <= j < |pre| ensures pre[j].0 != p[i].0 {
        assert pre[j] == p[j];
      }
    }
    forall k
      ensures Get(ext, k) == if k == p[i].0 then Some(p[i].1) else Get(pre, k)
    {
      IndexAfterAppend(pre, p[i].0, p[i].1, k);
    }
  }

  /** The typename cache is filled at most once per module: once cached, a module's dict never changes. */
  lemma CacheStable(st: State, m: Member, moduleName: string, other: string, sources: map<string, Option<seq<ClassTypename>>>)
    requires m.AsyncDef? && other in st.cache
    ensures var c := BulkMethodBody(st, m, moduleName, sources).1.cache; other in c && c[other] == st.cache[other]
  {
  }
}
