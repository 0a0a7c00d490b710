/**
 * The tables the query generator's driver builds from the schema before
 * generating any query: which root queries return lists and of what
 * object type, the inversion of that table by type, and the object types
 * each listed type refers to directly. The generator uses them to prune
 * back-references from one listed type to another.
 */
module QueryIndex {
  import opened Wrappers
  import opened Text
  import opened Dicts
  import opened Schema

  /** The depth limit the driver passes to the generator. */
  const MaxDepth := 2

  /** Object types the generator never descends into. */
  const ExcludedTypeNames: seq<string> := ["StoreCreditAccount", "Market"]

  /** Argument defaults that take precedence over the schema's: `first` is 250. */
  const HardcodedDefaults: map<string, ValueNode> := map["first" := IntValue("250")]

  // ---------------------------------------------------------------------
  // list_returning_queries
  // ---------------------------------------------------------------------

  /** A root field that enters the table. */
  predicate ListsFromRoot(f: FieldDef) {
    !IsDeprecated(f) && ReturnsAList(f)
  }

  /** The table entry for a root field: its name and the object type it lists. */
  function Entry(doc: Document, f: FieldDef): (string, string) {
    (f.name, FindUltimateObject(GetFieldTypeName(f.typ), doc))
  }

  /** The entries of one definition's fields, in field order. */
  function FieldEntries(doc: Document, fields: seq<FieldDef>): seq<(string, string)>
    decreases |fields|
  {
    if |fields| == 0 then []
    else
      var f := fields[|fields| - 1];
      FieldEntries(doc, fields[..|fields| - 1]) + (if ListsFromRoot(f) then [Entry(doc, f)] else [])
  }

  /** The entries of every `QueryRoot` object definition among `defs`, in document order. */
  function RootEntries(doc: Document, defs: seq<Definition>): seq<(string, string)>
    decreases |defs|
  {
    if |defs| == 0 then []
    else
      var d := defs[|defs| - 1];
      RootEntries(doc, defs[..|defs| - 1]) +
        (if d.ObjectDef? && d.name == "QueryRoot" then FieldEntries(doc, d.fields) else [])
  }

  /** Field `j` of definition `i` is a list-returning root query. */
  predicate RootListField(doc: Document, i: nat, j: nat) {
    i < |doc| && doc[i].ObjectDef? && doc[i].name == "QueryRoot" &&
    j < |doc[i].fields| && ListsFromRoot(doc[i].fields[j])
  }

  /** Entry `e` comes from field `j` of definition `i`. */
  predicate EntryAt(doc: Document, i: nat, j: nat, e: (string, string)) {
    RootListField(doc, i, j) && e == Entry(doc, doc[i].fields[j])
  }

  /** `list_returning_queries`: query name to listed object type, later fields overwriting. */
  method ListReturningQueries(doc: Document) returns (lrq: seq<(string, string)>)
    ensures lrq == FromPairs(RootEntries(doc, doc))
  {
    lrq := [];
    for i := 0 to |doc|
      invariant lrq == FromPairs(RootEntries(doc, doc[..i]))
    {
      RootEntriesNext(doc, i);
      if doc[i].ObjectDef? && doc[i].name == "QueryRoot" {
        lrq := AddRootFields(doc, doc[i].fields, lrq, RootEntries(doc, doc[..i]));
      }
    }
    assert doc[..|doc|] == doc;
  }

  lemma {:induction false} RootEntriesNext(doc: Document, i: nat)
    requires i < |doc|
    ensures doc[i].ObjectDef? && doc[i].name == "QueryRoot" ==>
      RootEntries(doc, doc[..i + 1]) == RootEntries(doc, doc[..i]) + FieldEntries(doc, doc[i].fields)
    ensures !(doc[i].ObjectDef? && doc[i].name == "QueryRoot") ==> RootEntries(doc, doc[..i + 1]) == RootEntries(doc, doc[..i])
  {
    assert doc[..i + 1][..i] == doc[..i] && doc[..i + 1][i] == doc[i];
  }

  /** The inner loop: enters each list-returning field of one `QueryRoot` definition. */
  method AddRootFields(doc: Document, fields: seq<FieldDef>, lrq: seq<(string, string)>, ghost before: seq<(string, string)>)
    returns (lrq': seq<(string, string)>)
    requires lrq == FromPairs(before)
    ensures lrq' == FromPairs(before + FieldEntries(doc, fields))
  {
    lrq' := lrq;
    assert before + FieldEntries(doc, fields[..0]) == before;
    for j := 0 to |fields|
      invariant lrq' == FromPairs(before + FieldEntries(doc, fields[..j]))
    {
      ghost var done := before + FieldEntries(doc, fields[..j]);
      FieldEntriesNext(doc, before, fields, j);
      if ListsFromRoot(fields[j]) {
        var e := Entry(doc, fields[j]);
        FromPairsSnoc(done, e);
        lrq' := Set(lrq', e.0, e.1);
      }
    }
    assert fields[..|fields|] == fields;
  }

  lemma {:induction false} FieldEntriesNext(doc: Document, before: seq<(string, string)>, fields: seq<FieldDef>, j: nat)
    requires j < |fields|
    ensures ListsFromRoot(fields[j]) ==>
      before + FieldEntries(doc, fields[..j + 1]) == before + FieldEntries(doc, fields[..j]) + [Entry(doc, fields[j])]
    ensures !ListsFromRoot(fields[j]) ==> before + FieldEntries(doc, fields[..j + 1]) == before + FieldEntries(doc, fields[..j])
  {
    assert fields[..j + 1][..j] == fields[..j] && fields[..j + 1][j] == fields[j];
  }

  /** The entries of a field list are exactly its list-returning fields' entries. */
  lemma {:induction false} FieldEntriesAre(doc: Document, fields: seq<FieldDef>, e: (string, string))
    ensures e in FieldEntries(doc, fields) <==>
      exists j :: 0 <= j < |fields| && ListsFromRoot(fields[j]) && e == Entry(doc, fields[j])
    decreases |fields|
  {
    if |fields| > 0 {
      var pre := fields[..|fields| - 1];
      FieldEntriesAre(doc, pre, e);
      assert forall j :: 0 <= j < |pre| ==> pre[j] == fields[j];
    }
  }

  /** The root entries are exactly the list-returning `QueryRoot` fields' entries. */
  lemma {:induction false} RootEntriesAre(doc: Document, defs: seq<Definition>, e: (string, string))
    requires defs <= doc
    ensures e in RootEntries(doc, defs) <==> exists i: nat, j: nat :: i < |defs| && EntryAt(doc, i, j, e)
  {
    if e in RootEntries(doc, defs) {
      RootEntriesSound(doc, defs, e);
    }
    if exists i: nat, j: nat :: i < |defs| && EntryAt(doc, i, j, e) {
      var i: nat, j: nat :| i < |defs| && EntryAt(doc, i, j, e);
      RootEntriesComplete(doc, defs, e, i, j);
    }
  }

  lemma {:induction false} RootEntriesSound(doc: Document, defs: seq<Definition>, e: (string, string))
    requires defs <= doc && e in RootEntries(doc, defs)
    ensures exists i: nat, j: nat :: i < |defs| && EntryAt(doc, i, j, e)
    decreases |defs|
  {
    var n := |defs| - 1;
    var d := defs[n];
    var pre := defs[..n];
    var tail := if d.ObjectDef? && d.name == "QueryRoot" then FieldEntries(doc, d.fields) else [];
    assert RootEntries(doc, defs) == RootEntries(doc, pre) + tail;
    if e in tail {
      FieldEntriesAre(doc, d.fields, e);
      var j :| 0 <= j < |d.fields| && ListsFromRoot(d.fields[j]) && e == Entry(doc, d.fields[j]);
      assert d == doc[n];
      assert EntryAt(doc, n, j, e);
    } else {
      RootEntriesSound(doc, pre, e);
      var i: nat, j: nat :| i < |pre| && EntryAt(doc, i, j, e);
      assert i < |defs|;
    }
  }

  lemma {:induction false} RootEntriesComplete(doc: Document, defs: seq<Definition>, e: (string, string), i: nat, j: nat)
    requires defs <= doc && i < |defs| && EntryAt(doc, i, j, e)
    ensures e in RootEntries(doc, defs)
    decreases |defs|
  {
    var n := |defs| - 1;
    var d := defs[n];
    var pre := defs[..n];
    var tail := if d.ObjectDef? && d.name == "QueryRoot" then FieldEntries(doc, d.fields) else [];
    assert RootEntries(doc, defs) == RootEntries(doc, pre) + tail;
    if i == n {
      assert d == doc[n];
      FieldEntriesAre(doc, d.fields, e);
      assert e in tail;
    } else {
      RootEntriesComplete(doc, pre, e, i, j);
    }
  }

  /**
   * A query name is in `list_returning_queries` exactly when some
   * non-deprecated `QueryRoot` field of that name returns a list.
   */
  lemma ListReturningQuery(doc: Document, q: string)
    ensures HasKey(FromPairs(RootEntries(doc, doc)), q) <==>
      exists i: nat, j: nat :: RootListField(doc, i, j) && doc[i].fields[j].name == q
  {
    var ps := RootEntries(doc, doc);
    FromPairsGet(ps, q);
    if exists i: nat, j: nat :: RootListField(doc, i, j) && doc[i].fields[j].name == q {
      var i: nat, j: nat :| RootListField(doc, i, j) && doc[i].fields[j].name == q;
      assert EntryAt(doc, i, j, Entry(doc, doc[i].fields[j]));
      RootEntriesAre(doc, doc, Entry(doc, doc[i].fields[j]));
      var k :| 0 <= k < |ps| && ps[k] == Entry(doc, doc[i].fields[j]);
      assert ps[k].0 == q;
    }
    if HasKey(FromPairs(ps), q) {
      ListedValue(doc, q);
    }
  }

  /** The value stored for a query is the object type that a root field of that name lists. */
  lemma ListedValue(doc: Document, q: string)
    requires HasKey(FromPairs(RootEntries(doc, doc)), q)
    ensures exists i: nat, j: nat :: EntryAt(doc, i, j, (q, Get(FromPairs(RootEntries(doc, doc)), q).value))
  {
    var ps := RootEntries(doc, doc);
    FromPairsGet(ps, q);
    var t := LastValue(ps, q).value;
    var k :| 0 <= k < |ps| && ps[k] == (q, t) && forall m :: k < m < |ps| ==> ps[m].0 != q;
    RootEntriesAre(doc, doc, ps[k]);
    assert doc[..] == doc;
  }

  // ---------------------------------------------------------------------
  // list_returning_queries_by_type
  // ---------------------------------------------------------------------

  /** A by-type value: one query name (a `str`) or several (a `list`). */
  datatype ByType = Single(query: string) | Many(queries: seq<string>)

  /** The value after adding `query` to what is stored: a name, then a list, then a longer list. */
  function Added(stored: Option<ByType>, query: string): ByType {
    match stored
    case None => Single(query)
    case Some(Single(q)) => Many([q, query])
    case Some(Many(qs)) => Many(qs + [query])
  }

  /** One step of the inversion: record that `query` lists `typeName`. */
  function AddQuery(acc: seq<(string, ByType)>, query: string, typeName: string): seq<(string, ByType)> {
    Set(acc, typeName, Added(Get(acc, typeName), query))
  }

  /** The inversion over the table's items, in insertion order. */
  function Invert(lrq: seq<(string, string)>): seq<(string, ByType)>
    decreases |lrq|
  {
    if |lrq| == 0 then []
    else AddQuery(Invert(lrq[..|lrq| - 1]), lrq[|lrq| - 1].0, lrq[|lrq| - 1].1)
  }

  /** `list_returning_queries_by_type`, built by one pass over the items. */
  method InvertByType(lrq: seq<(string, string)>) returns (byType: seq<(string, ByType)>)
    ensures byType == Invert(lrq)
  {
    byType := [];
    for i := 0 to |lrq|
      invariant byType == Invert(lrq[..i])
    {
      assert lrq[..i + 1][..i] == lrq[..i];
      var (key, value) := lrq[i];
      byType := Set(byType, value, Added(Get(byType, value), key));
    }
    assert lrq[..|lrq|] == lrq;
  }

  /** Reference definition: the queries listing `typeName`, in insertion order. */
  function QueriesFor(lrq: seq<(string, string)>, typeName: string): seq<string>
    decreases |lrq|
  {
    if |lrq| == 0 then []
    else
      QueriesFor(lrq[..|lrq| - 1], typeName) +
        (if lrq[|lrq| - 1].1 == typeName then [lrq[|lrq| - 1].0] else [])
  }

  /** How a list of query names is stored: absent, one name, or the list itself. */
  function Grouped(qs: seq<string>): Option<ByType> {
    if |qs| == 0 then None else if |qs| == 1 then Some(Single(qs[0])) else Some(Many(qs))
  }

  /**
   * A type listed by no query is absent, by one query maps to that query's
   * name, and by several maps to the list of their names in insertion order.
   */
  lemma {:induction false} InvertGroups(lrq: seq<(string, string)>, typeName: string)
    ensures Get(Invert(lrq), typeName) == Grouped(QueriesFor(lrq, typeName))
    decreases |lrq|
  {
    if |lrq| > 0 {
      var pre := lrq[..|lrq| - 1];
      var (key, value) := lrq[|lrq| - 1];
      InvertGroups(pre, typeName);
      assert Invert(lrq) == AddQuery(Invert(pre), key, value);
      AddQueryGet(Invert(pre), key, value, typeName);
      var qs := QueriesFor(pre, typeName);
      if value == typeName {
        assert QueriesFor(lrq, typeName) == qs + [key];
        GroupedAppend(qs, key);
      } else {
        assert QueriesFor(lrq, typeName) == qs + [] == qs;
      }
    }
  }

  lemma AddQueryGet(acc: seq<(string, ByType)>, query: string, typeName: string, t: string)
    ensures Get(AddQuery(acc, query, typeName), t) ==
      if t == typeName then Some(Added(Get(acc, typeName), query)) else Get(acc, t)
  {
  }

  /** One more query name turns the stored value into its successor. */
  lemma GroupedAppend(qs: seq<string>, key: string)
    ensures Grouped(qs + [key]) == Some(Added(Grouped(qs), key))
  {
    if |qs| == 1 {
      assert qs + [key] == [qs[0], key];
    }
  }

  /** The inversion never repeats a type. */
  lemma {:induction false} InvertUnique(lrq: seq<(string, string)>)
    ensures UniqueKeys(Invert(lrq))
    decreases |lrq|
  {
    if |lrq| > 0 {
      var pre := lrq[..|lrq| - 1];
      var (key, value) := lrq[|lrq| - 1];
      InvertUnique(pre);
      var acc := Invert(pre);
      SetKeepsUnique(acc, value, Added(Get(acc, value), key));
    }
  }

  // ---------------------------------------------------------------------
  // direct_object_references
  // ---------------------------------------------------------------------

  /** Listed types that a field of the object type `key` has as its unwrapped type. */
  function ObjectRefs(doc: Document, byType: seq<(string, ByType)>, key: string): set<string> {
    set d, f | d in doc && d.ObjectDef? && d.name == key && f in d.fields && HasKey(byType, GetFieldTypeName(f.typ))
      :: GetFieldTypeName(f.typ)
  }

  /** The CamelCase values of the `MetafieldOwnerType` enum. */
  function OwnerTypeRefs(doc: Document): set<string> {
    set d, v | d in doc && d.EnumDef? && d.name == "MetafieldOwnerType" && v in d.values :: FormatEnum(v)
  }

  /** The direct references of a listed type; `MetafieldDefinition` also refers to every owner type. */
  function References(doc: Document, byType: seq<(string, ByType)>, key: string): set<string> {
    ObjectRefs(doc, byType, key) + (if key == "MetafieldDefinition" then OwnerTypeRefs(doc) else {})
  }

  /** The table `direct_object_references` builds: each listed type with some references, mapped to them. */
  function ReferenceTable(doc: Document, byType: seq<(string, ByType)>): map<string, set<string>> {
    map k | k in (set m | 0 <= m < |byType| :: byType[m].0) && References(doc, byType, k) != {} :: References(doc, byType, k)
  }

  /**
   * `direct_object_references`: for each listed type in by-type order, its
   * direct references, stored only when there are some.
   */
  method DirectObjectReferences(doc: Document, byType: seq<(string, ByType)>) returns (refs: map<string, set<string>>)
    ensures forall k :: k in refs <==> HasKey(byType, k) && References(doc, byType, k) != {}
    ensures forall k :: k in refs ==> refs[k] == References(doc, byType, k)
    ensures refs == ReferenceTable(doc, byType)
  {
    refs := map[];
    for i := 0 to |byType|
      invariant RefsUpTo(doc, byType, refs, i)
    {
      var key := byType[i].0;
      var direct := References(doc, byType, key);
      ghost var before := refs;
      if direct != {} {
        refs := refs[key := direct];
      }
      RefsStep(doc, byType, before, i, refs);
    }
    forall k ensures HasKey(byType, k) <==> exists m :: 0 <= m < |byType| && byType[m].0 == k {
      HasKeyExists(byType, k);
    }
    assert refs.Keys == ReferenceTable(doc, byType).Keys;
  }

  /** The loop's table after the first `i` by-type entries. */
  ghost predicate RefsUpTo(doc: Document, byType: seq<(string, ByType)>, refs: map<string, set<string>>, i: nat) {
    (forall k :: k in refs <==> (exists m :: 0 <= m < i && m < |byType| && byType[m].0 == k) && References(doc, byType, k) != {}) &&
    (forall k :: k in refs ==> refs[k] == References(doc, byType, k))
  }

  lemma {:induction false} RefsStep(doc: Document, byType: seq<(string, ByType)>, refs: map<string, set<string>>, i: nat, refs': map<string, set<string>>)
    requires i < |byType| && RefsUpTo(doc, byType, refs, i)
    requires refs' == if References(doc, byType, byType[i].0) != {} then refs[byType[i].0 := References(doc, byType, byType[i].0)] else refs
    ensures RefsUpTo(doc, byType, refs', i + 1)
  {
    forall k ensures k in refs' <==> (exists m :: 0 <= m < i + 1 && m < |byType| && byType[m].0 == k) && References(doc, byType, k) != {} {
      if k != byType[i].0 {
        if exists m :: 0 <= m < i + 1 && m < |byType| && byType[m].0 == k {
          var m :| 0 <= m < i + 1 && m < |byType| && byType[m].0 == k;
          assert m < i;
        }
      }
    }
  }

  lemma HasKeyExists(byType: seq<(string, ByType)>, k: string)
    ensures HasKey(byType, k) <==> exists m :: 0 <= m < |byType| && byType[m].0 == k
  {
    if exists m :: 0 <= m < |byType| && byType[m].0 == k {
      var m :| 0 <= m < |byType| && byType[m].0 == k;
      assert IndexOf(byType, k).Some?;
    }
  }

  /** Apart from the owner types of `MetafieldDefinition`, a listed type refers only to listed types. */
  lemma RefsAreListed(doc: Document, byType: seq<(string, ByType)>, key: string, n: string)
    requires n in References(doc, byType, key) && n !in OwnerTypeRefs(doc)
    ensures HasKey(byType, n)
  {
  }

  /** Owner-type references carry no underscore. */
  lemma OwnerRefsHaveNoUnderscore(doc: Document, n: string)
    requires n in OwnerTypeRefs(doc)
    ensures '_' !in n
  {
    var d, v :| d in doc && d.EnumDef? && d.name == "MetafieldOwnerType" && v in d.values && n == FormatEnum(v);
  }
}
