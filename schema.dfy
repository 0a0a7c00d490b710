/**
 * The GraphQL schema document the query generator walks, and the small
 * helpers it uses on it: unwrapping type references, finding the object a
 * connection lists, deciding whether a field returns a list, whether a
 * type is a leaf the generator may select without sub-fields, and the
 * CamelCase rendering of an enum value.
 */
module Schema {
  import opened Wrappers
  import opened Text

  /** A type reference: a named type, possibly wrapped in `!` and `[...]`. */
  datatype TypeRef = Named(name: string) | NonNull(of: TypeRef) | ListOf(of: TypeRef)

  /** A literal value node, as a default value of an argument. */
  datatype ValueNode =
    | IntValue(digits: string)
    | StringValue(s: string)
    | EnumValue(v: string)
    | BooleanValue(b: bool)
    | NullValue

  datatype ArgDef = ArgDef(name: string, typ: TypeRef, default: Option<ValueNode>)

  /** A field definition; `directives` are the names of its directives. */
  datatype FieldDef = FieldDef(name: string, typ: TypeRef, args: seq<ArgDef>, directives: seq<string>)

  /** The definitions of a parsed schema document that the generator looks at. */
  datatype Definition =
    | ObjectDef(name: string, fields: seq<FieldDef>, interfaces: seq<string>)
    | InterfaceDef(name: string, fields: seq<FieldDef>)
    | EnumDef(name: string, values: seq<string>)
    | ScalarDef(name: string)
    | OtherDef(name: string)

  type Document = seq<Definition>

  /** `is_deprecated`: the field carries a `@deprecated` directive. */
  function IsDeprecated(f: FieldDef): (r: bool)
    ensures r <==> exists k :: 0 <= k < |f.directives| && f.directives[k] == "deprecated"
  {
    "deprecated" in f.directives
  }

  // ---------------------------------------------------------------------
  // Unwrapping type references
  // ---------------------------------------------------------------------

  /** The two wrappers a type reference can carry. */
  datatype Wrapper = NonNullWrapper | ListWrapper

  /** Puts the wrappers, outermost first, around a type. */
  function Wrap(ws: seq<Wrapper>, t: TypeRef): TypeRef
    decreases |ws|
  {
    if |ws| == 0 then t
    else if ws[0] == NonNullWrapper then NonNull(Wrap(ws[1..], t))
    else ListOf(Wrap(ws[1..], t))
  }

  /** The wrappers around the named type, outermost first. */
  function WrappersOf(t: TypeRef): seq<Wrapper> {
    match t
    case Named(_) => []
    case NonNull(u) => [NonNullWrapper] + WrappersOf(u)
    case ListOf(u) => [ListWrapper] + WrappersOf(u)
  }

  /** `get_field_type`: strips every NonNull and List wrapper. */
  function GetFieldType(t: TypeRef): (r: TypeRef)
    ensures r.Named?
  {
    match t
    case Named(_) => t
    case NonNull(u) => GetFieldType(u)
    case ListOf(u) => GetFieldType(u)
  }

  /**
   * `get_field_type_name` and `get_ultimate_object`, which are the same
   * function: the name of the innermost named type. (Their `""` result for
   * a reference that does not end in a named type cannot arise here,
   * since every `TypeRef` ends in one.)
   */
  function GetFieldTypeName(t: TypeRef): (r: string)
    ensures exists ws :: t == Wrap(ws, Named(r))
    ensures forall ws, n :: t == Wrap(ws, Named(n)) ==> n == r
  {
    UnwrapDecomposes(t);
    WrappedNameUnique(t);
    GetFieldType(t).name
  }

  /** A type reference wraps at most one named type. */
  lemma WrappedNameUnique(t: TypeRef)
    ensures forall ws, n :: t == Wrap(ws, Named(n)) ==> GetFieldType(t) == Named(n)
  {
    forall ws, n | t == Wrap(ws, Named(n)) ensures GetFieldType(t) == Named(n) {
      UnwrapRemovesWrappers(ws, n);
    }
  }

  /** Every type reference is its wrappers around its named type. */
  lemma {:induction false} UnwrapDecomposes(t: TypeRef)
    ensures Wrap(WrappersOf(t), GetFieldType(t)) == t
  {
    match t
    case Named(_) =>
    case NonNull(u) =>
      UnwrapDecomposes(u);
      assert ([NonNullWrapper] + WrappersOf(u))[1..] == WrappersOf(u);
    case ListOf(u) =>
      UnwrapDecomposes(u);
      assert ([ListWrapper] + WrappersOf(u))[1..] == WrappersOf(u);
  }

  /** Unwrapping removes exactly the wrappers put around a named type. */
  lemma {:induction false} UnwrapRemovesWrappers(ws: seq<Wrapper>, n: string)
    ensures GetFieldType(Wrap(ws, Named(n))) == Named(n)
    ensures WrappersOf(Wrap(ws, Named(n))) == ws
    decreases |ws|
  {
    if |ws| > 0 {
      UnwrapRemovesWrappers(ws[1..], n);
      assert [ws[0]] + ws[1..] == ws;
    }
  }

  // ---------------------------------------------------------------------
  // find_ultimate_object
  // ---------------------------------------------------------------------

  /** The object type `typeName` has a field named `nodes` at position `j` of definition `i`. */
  predicate NodesFieldAt(doc: Document, typeName: string, i: nat, j: nat) {
    i < |doc| && doc[i].ObjectDef? && doc[i].name == typeName &&
    j < |doc[i].fields| && doc[i].fields[j].name == "nodes"
  }

  /** First `nodes` field of a field list, from position `j` on. */
  function FirstNodesIn(fields: seq<FieldDef>, j: nat): (r: Option<nat>)
    requires j <= |fields|
    ensures r.Some? ==> j <= r.value < |fields| && fields[r.value].name == "nodes"
    ensures r.Some? ==> forall m :: j <= m < r.value ==> fields[m].name != "nodes"
    ensures r.None? ==> forall m :: j <= m < |fields| ==> fields[m].name != "nodes"
    decreases |fields| - j
  {
    if j == |fields| then None
    else if fields[j].name == "nodes" then Some(j)
    else FirstNodesIn(fields, j + 1)
  }

  /**
   * The first definition, from position `i` on, that is the object type
   * `typeName` and has a `nodes` field, with the first such field.
   */
  function FirstNodesField(doc: Document, typeName: string, i: nat): (r: Option<(nat, nat)>)
    requires i <= |doc|
    ensures r.Some? ==> i <= r.value.0 && NodesFieldAt(doc, typeName, r.value.0, r.value.1)
    ensures r.Some? ==> forall m :: 0 <= m < r.value.1 ==> !NodesFieldAt(doc, typeName, r.value.0, m)
    ensures r.Some? ==> forall k, m :: i <= k < r.value.0 ==> !NodesFieldAt(doc, typeName, k, m)
    ensures r.None? ==> forall k, m :: i <= k < |doc| ==> !NodesFieldAt(doc, typeName, k, m)
    decreases |doc| - i
  {
    if i == |doc| then None
    else if doc[i].ObjectDef? && doc[i].name == typeName && FirstNodesIn(doc[i].fields, 0).Some? then
      Some((i, FirstNodesIn(doc[i].fields, 0).value))
    else FirstNodesField(doc, typeName, i + 1)
  }

  /**
   * `find_ultimate_object`: the type listed by the `nodes` field of the
   * named object type, or the name itself. The branch that tests an
   * unwrapped type reference for being an object definition never holds,
   * so only the `nodes` rule is reachable.
   */
  function FindUltimateObject(typeName: string, doc: Document): (r: string)
    ensures FirstNodesField(doc, typeName, 0).None? ==> r == typeName
    ensures FirstNodesField(doc, typeName, 0).Some? ==>
      var (i, j) := FirstNodesField(doc, typeName, 0).value;
      r == GetFieldTypeName(doc[i].fields[j].typ)
  {
    match FirstNodesField(doc, typeName, 0)
    case None => typeName
    case Some((i, j)) => GetFieldTypeName(doc[i].fields[j].typ)
  }

  /** A type without a `nodes` field is its own ultimate object. */
  lemma NoNodesFieldIsUltimate(typeName: string, doc: Document)
    requires forall i, j :: !NodesFieldAt(doc, typeName, i, j)
    ensures FindUltimateObject(typeName, doc) == typeName
  {
  }

  /** A connection type `ProductConnection { nodes: [Product!]! }` lists `Product`. */
  lemma {:induction false} ConnectionListsItsNodes(conn: string, item: string, fields: seq<FieldDef>, rest: Document)
    requires |fields| > 0 && fields[0].name == "nodes" && fields[0].typ == NonNull(ListOf(NonNull(Named(item))))
    ensures FindUltimateObject(conn, [ObjectDef(conn, fields, [])] + rest) == item
  {
    var doc := [ObjectDef(conn, fields, [])] + rest;
    assert doc[0] == ObjectDef(conn, fields, []);
    assert FirstNodesIn(fields, 0) == Some(0);
    UnwrapRemovesWrappers([NonNullWrapper, ListWrapper, NonNullWrapper], item);
    assert fields[0].typ == Wrap([NonNullWrapper, ListWrapper, NonNullWrapper], Named(item));
    assert FirstNodesField(doc, conn, 0) == Some((0, 0));
  }

  // ---------------------------------------------------------------------
  // returns_a_list and is_core_type
  // ---------------------------------------------------------------------

  /** `returns_a_list`: a connection under any wrappers, or a list as the outermost wrapper. */
  function ReturnsAList(f: FieldDef): (r: bool)
    ensures r <==> f.typ.ListOf? || exists ws, n :: f.typ == Wrap(ws, Named(n)) && EndsWith(n, "Connection")
  {
    var n := GetFieldTypeName(f.typ);
    UnwrapDecomposes(f.typ);
    assert f.typ == Wrap(WrappersOf(f.typ), Named(n));
    EndsWith(n, "Connection") || f.typ.ListOf?
  }

  /** A list counts only as the outermost wrapper: `[T]` and `[T]!` differ. */
  lemma ListMustBeOutermost(f: FieldDef, n: string)
    requires !EndsWith(n, "Connection")
    ensures ReturnsAList(f.(typ := ListOf(NonNull(Named(n)))))
    ensures !ReturnsAList(f.(typ := NonNull(ListOf(NonNull(Named(n))))))
  {
    UnwrapRemovesWrappers([NonNullWrapper, ListWrapper, NonNullWrapper], n);
    assert NonNull(ListOf(NonNull(Named(n)))) == Wrap([NonNullWrapper, ListWrapper, NonNullWrapper], Named(n));
  }

  /** A connection type returns a list whatever wraps it. */
  lemma {:induction false} ConnectionUnderAnyWrappers(f: FieldDef, ws: seq<Wrapper>, n: string)
    requires EndsWith(n, "Connection")
    ensures ReturnsAList(f.(typ := Wrap(ws, Named(n))))
  {
    UnwrapRemovesWrappers(ws, n);
  }

  /** The built-in leaf types. */
  const CoreTypes: set<string> := {"String", "Int", "Float", "Boolean", "ID", "DateTime", "UnsignedInt64"}

  /** Names of the schema's scalar definitions. */
  function ScalarTypes(doc: Document): set<string> {
    set d | d in doc && d.ScalarDef? :: d.name
  }

  /** Names of the schema's enum definitions. */
  function EnumTypes(doc: Document): set<string> {
    set d | d in doc && d.EnumDef? :: d.name
  }

  /** `is_core_type`. */
  function IsCoreType(typeName: string, scalars: set<string>, enums: set<string>): (r: bool)
    ensures typeName in {"String", "Int", "Float", "Boolean", "ID", "DateTime", "UnsignedInt64"} ==> r
    ensures r ==> typeName in CoreTypes || typeName in scalars || typeName in enums
  {
    typeName in CoreTypes || typeName in scalars || typeName in enums
  }

  /** With the schema's own scalars and enums: a built-in, or a scalar or enum the document defines. */
  lemma CoreTypeOfDocument(typeName: string, doc: Document)
    ensures IsCoreType(typeName, ScalarTypes(doc), EnumTypes(doc)) <==>
      typeName in CoreTypes ||
      exists i :: 0 <= i < |doc| && (doc[i].ScalarDef? || doc[i].EnumDef?) && doc[i].name == typeName
  {
    if exists i :: 0 <= i < |doc| && (doc[i].ScalarDef? || doc[i].EnumDef?) && doc[i].name == typeName {
      var i :| 0 <= i < |doc| && (doc[i].ScalarDef? || doc[i].EnumDef?) && doc[i].name == typeName;
      assert doc[i] in doc;
    }
  }

  // ---------------------------------------------------------------------
  // ''.join(word.capitalize() for word in value.split('_'))
  // ---------------------------------------------------------------------

  /** `s.split(sep)`: the pieces between separators, empty ones included. */
  function SplitOn(s: string, sep: char): (r: seq<string>)
    ensures |r| >= 1
    ensures forall k :: 0 <= k < |r| ==> sep !in r[k]
    ensures Join([sep], r) == s
    decreases |s|
  {
    if |s| == 0 then [""]
    else if s[0] == sep then
      var rest := SplitOn(s[1..], sep);
      assert ([""] + rest)[1..] == rest;
      [""] + rest
    else
      var rest := SplitOn(s[1..], sep);
      var r := [[s[0]] + rest[0]] + rest[1..];
      assert |rest| > 1 ==> r[1..] == rest[1..] && Join([sep], rest) == rest[0] + [sep] + Join([sep], rest[1..]);
      assert s == [s[0]] + s[1..];
      r
  }

  /** `word.capitalize()`: first character upper case, the rest lower case. */
  function Capitalize(w: string): (r: string)
    ensures |r| == |w|
    ensures |w| > 0 ==> r[0] == ToUpper(w[0]) && r[1..] == Lower(w[1..])
  {
    if |w| == 0 then "" else [ToUpper(w[0])] + Lower(w[1..])
  }

  function Concat(parts: seq<string>): string
    decreases |parts|
  {
    if |parts| == 0 then "" else parts[0] + Concat(parts[1..])
  }

  /**
   * The enum value rendered in CamelCase, as the generator compares it with
   * type names. Formatting only drops the underscores and changes letter
   * case: ignoring case, the result is the value without its underscores,
   * and no underscore is left.
   */
  function FormatEnum(v: string): (r: string)
    ensures Lower(r) == Lower(Without(v, '_'))
    ensures '_' !in r
  {
    var words := SplitOn(v, '_');
    var caps := seq(|words|, k requires 0 <= k < |words| => Capitalize(words[k]));
    LowerConcatCapitalized(words, caps);
    WithoutJoin(words);
    CapitalizedFree(words, caps);
    ConcatFree(caps);
    Concat(caps)
  }

  /** The text with every occurrence of `c` removed. */
  function Without(s: string, c: char): string
    decreases |s|
  {
    if |s| == 0 then "" else (if s[0] == c then "" else [s[0]]) + Without(s[1..], c)
  }

  lemma {:induction false} LowerConcatCapitalized(words: seq<string>, caps: seq<string>)
    requires |caps| == |words| && forall k :: 0 <= k < |words| ==> caps[k] == Capitalize(words[k])
    ensures Lower(Concat(caps)) == Lower(Concat(words))
    decreases |words|
  {
    if |words| > 0 {
      LowerConcatCapitalized(words[1..], caps[1..]);
      LowerAppend(caps[0], Concat(caps[1..]));
      LowerAppend(words[0], Concat(words[1..]));
      assert Lower(caps[0]) == Lower(words[0]);
    }
  }

  lemma LowerAppend(a: string, b: string)
    ensures Lower(a + b) == Lower(a) + Lower(b)
  {
  }

  /** Removing the separator from the joined pieces concatenates them. */
  lemma {:induction false} WithoutJoin(parts: seq<string>)
    requires |parts| >= 1 && forall k :: 0 <= k < |parts| ==> '_' !in parts[k]
    ensures Without(Join("_", parts), '_') == Concat(parts)
    decreases |parts|
  {
    WithoutFree(parts[0]);
    if |parts| == 1 {
      assert Concat(parts[1..]) == "";
    } else {
      var j := Join("_", parts[1..]);
      WithoutJoin(parts[1..]);
      assert Join("_", parts) == parts[0] + "_" + j;
      WithoutSeparator(parts[0], j);
    }
  }

  lemma {:induction false} WithoutSeparator(a: string, b: string)
    ensures Without(a + "_" + b, '_') == Without(a, '_') + Without(b, '_')
  {
    assert a + "_" + b == a + ("_" + b);
    WithoutAppend(a, "_" + b);
    WithoutAppend("_", b);
    assert Without("_", '_') == "";
  }

  lemma {:induction false} WithoutFree(s: string)
    requires '_' !in s
    ensures Without(s, '_') == s
    decreases |s|
  {
    if |s| > 0 {
      WithoutFree(s[1..]);
    }
  }

  lemma {:induction false} WithoutAppend(a: string, b: string)
    ensures Without(a + b, '_') == Without(a, '_') + Without(b, '_')
    decreases |a|
  {
    if |a| > 0 {
      assert (a + b)[1..] == a[1..] + b;
      WithoutAppend(a[1..], b);
    } else {
      assert a + b == b;
    }
  }

  /** Capitalizing underscore-free words leaves them underscore-free. */
  lemma CapitalizedFree(words: seq<string>, caps: seq<string>)
    requires |caps| == |words| && forall k :: 0 <= k < |words| ==> '_' !in words[k] && caps[k] == Capitalize(words[k])
    ensures forall k :: 0 <= k < |caps| ==> '_' !in caps[k]
  {
    forall k | 0 <= k < |caps| ensures '_' !in caps[k] {
      CapitalizeKeepsUnderscores(words[k]);
    }
  }

  lemma CapitalizeKeepsUnderscores(w: string)
    requires '_' !in w
    ensures '_' !in Capitalize(w)
  {
    var r := Capitalize(w);
    forall m | 0 <= m < |r| ensures r[m] != '_' {
      assert w[m] != '_';
      if m > 0 {
        assert r[m] == Lower(w[1..])[m - 1] == ToLower(w[m]);
      }
    }
  }

  lemma {:induction false} ConcatFree(parts: seq<string>)
    requires forall k :: 0 <= k < |parts| ==> '_' !in parts[k]
    ensures '_' !in Concat(parts)
    decreases |parts|
  {
    if |parts| > 0 {
      ConcatFree(parts[1..]);
    }
  }

  /** `PRODUCT_VARIANT` is formatted as `ProductVariant`. */
  lemma FormatEnumExample(a: string, b: string)
    requires a == "PRODUCT" && b == "VARIANT"
    ensures FormatEnum(a + "_" + b) == "Product" + "Variant"
  {
    SplitOnFree(b, '_');
    SplitOnAfter(a, b, '_');
    var words := SplitOn(a + "_" + b, '_');
    assert words == [a, b];
    CapitalizeExample(a, b);
    var caps := seq(|words|, k requires 0 <= k < |words| => Capitalize(words[k]));
    assert caps == ["Product", "Variant"];
    ConcatPair("Product", "Variant");
  }

  lemma {:induction false} CapitalizeExample(a: string, b: string)
    requires a == "PRODUCT" && b == "VARIANT"
    ensures Capitalize(a) == "Product" && Capitalize(b) == "Variant"
  {
    assert Lower(a[1..]) == "roduct";
    assert Lower(b[1..]) == "ariant";
  }

  lemma {:induction false} ConcatPair(x: string, y: string)
    ensures Concat([x, y]) == x + y
  {
    assert [x, y][1..] == [y];
    assert [y][1..] == [];
    assert Concat([y]) == y + "" == y;
  }

  /** Text without the separator is a single piece. */
  lemma {:induction false} SplitOnFree(s: string, sep: char)
    requires sep !in s
    ensures SplitOn(s, sep) == [s]
    decreases |s|
  {
    if |s| > 0 {
      SplitOnFree(s[1..], sep);
      assert s == [s[0]] + s[1..];
    }
  }

  /** The piece before the first separator comes first. */
  lemma {:induction false} SplitOnAfter(a: string, rest: string, sep: char)
    requires sep !in a
    ensures SplitOn(a + [sep] + rest, sep) == [a] + SplitOn(rest, sep)
    decreases |a|
  {
    var s := a + [sep] + rest;
    if |a| == 0 {
      assert s[1..] == rest;
    } else {
      assert s[1..] == a[1..] + [sep] + rest;
      SplitOnAfter(a[1..], rest, sep);
      assert a == [a[0]] + a[1..];
    }
  }
}
