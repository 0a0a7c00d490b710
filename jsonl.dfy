/**
 * The bulk-export assembler `get_jsonl`. A bulk operation's JSONL file
 * lists each top-level object on its own line, followed by the lines of
 * its connection children, each carrying `__parentId`. The assembler keeps
 * the latest top-level object in `parent_objects`, appends every child as
 * `{"node": child}` to the `edges` list of the field that
 * `missing_fields[__typename]` names, and emits the held object when the
 * next top-level line arrives and once more at the end of the stream.
 *
 * The declared result shape (read from `return_type`) is a parameter, and
 * `classOf` replaces the dynamic import of the generated model classes.
 */
module Jsonl {
  import opened Wrappers
  import opened Json
  import opened Dicts

  /** A field of the declared result shape: its key (alias or name) and, for a connection, its node's `__typename`. */
  datatype ShapeField = Connection(key: string, nodeTypename: string) | Plain(key: string)
  type Shape = seq<ShapeField>

  /** An emitted object: the model class it is validated as, and its fields. */
  datatype Record = Record(className: string, fields: Fields)

  /** The exceptions that end the stream. */
  datatype JsonlError =
    | ReturnTypeUnbound          // NameError: `return_type` is not bound
    | ParentWithoutTypename      // KeyError: held object has no `__typename`
    | NoClassFor                 // KeyError: `typename_to_class_map` lacks the typename
    | NotAConnection(key: string) // introspection of an absent non-connection field fails
    | LineWithoutId              // KeyError: top-level line has no `id`
    | ChildWithoutTypename       // KeyError: child of a held parent has no `__typename`
    | NoEdgesList(key: string)   // the parent's field is not a dict with an `edges` list

  /** The generator's local state: `parent_objects`, `last_parent_id`, `missing_fields`, what was yielded, and the exception if one escaped. */
  datatype Assembly = Assembly(
    parents: map<Json, Fields>,
    last: Option<Json>,
    missing: map<string, string>,
    out: seq<Record>,
    err: Option<JsonlError>)

  const Start: Assembly := Assembly(map[], None, map[], [], None)

  /** The placeholder `{"edges": []}`. */
  const EmptyConnection: Json := JObj([("edges", JArr([]))])

  // ---------------------------------------------------------------------
  // Specification of one line
  // ---------------------------------------------------------------------

  /** The new parent being built and `missing_fields`, or the key whose introspection failed. */
  datatype Built = Built(parent: Fields, missing: map<string, string>) | BuildFailed(key: string)

  /** One iteration over the shape's fields: a placeholder for an absent connection key. */
  function AddPlaceholder(f: ShapeField, p: Fields, m: map<string, string>): Built {
    if HasKey(p, f.key) then Built(p, m)
    else match f
      case Plain(k) => BuildFailed(k)
      case Connection(k, t) => Built(Set(p, k, EmptyConnection), if t != "" then m[t := k] else m)
  }

  /** `new_parent` after the loop over the shape's fields. */
  function NewParent(shape: Shape, line: Fields, m: map<string, string>): Built
    decreases |shape|
  {
    if |shape| == 0 then Built(line, m)
    else match NewParent(shape[..|shape| - 1], line, m)
      case BuildFailed(k) => BuildFailed(k)
      case Built(p, m') => AddPlaceholder(shape[|shape| - 1], p, m')
  }

  /** Yields the held parent, if any, as an instance of its class. */
  function Emit(classOf: map<string, string>, st: Assembly): Assembly {
    if st.last.Some? && st.last.value in st.parents then
      var p := st.parents[st.last.value];
      match Get(p, "__typename")
      case None => st.(err := Some(ParentWithoutTypename))
      case Some(t) =>
        if t.JStr? && t.s in classOf then st.(out := st.out + [Record(classOf[t.s], p)])
        else st.(err := Some(NoClassFor))
    else st
  }

  /** `last_parent_id = parsed_line["id"]`: a JSON null id is Python's `None`, so nothing is remembered. */
  function LastParentId(id: Json): Option<Json> {
    if id.JNull? then None else Some(id)
  }

  /** A line without `__parentId`: emit and drop the held parent, then hold this line. */
  function StepTop(shape: Option<Shape>, classOf: map<string, string>, st: Assembly, line: Fields): Assembly {
    var e := Emit(classOf, st);
    if e.err.Some? then e
    else
      var e := if st.last.Some? && st.last.value in st.parents then e.(parents := e.parents - {st.last.value}) else e;
      match shape
      case None => e.(err := Some(ReturnTypeUnbound))
      case Some(sh) =>
        match NewParent(sh, line, e.missing)
        case BuildFailed(k) => e.(err := Some(NotAConnection(k)))
        case Built(p, m) =>
          match Get(line, "id")
          case None => e.(missing := m, err := Some(LineWithoutId))
          case Some(id) => e.(parents := e.parents[id := p], last := LastParentId(id), missing := m)
  }

  /** The `{"node": child}` entry for a child line. */
  function Node(child: Fields): Json {
    JObj([("node", JObj(child))])
  }

  /** The field a typename's children go to, or `""` when `missing_fields.get` finds nothing. */
  function TargetField(m: map<string, string>, t: Json): string {
    if t.JStr? && t.s in m then m[t.s] else ""
  }

  /** A line with `__parentId`: attach it to its parent, or drop it. */
  function StepChild(st: Assembly, line: Fields): Assembly
    requires HasKey(line, "__parentId")
  {
    var pid := Get(line, "__parentId").value;
    var child := Remove(line, "__parentId");
    if pid !in st.parents then st
    else match Get(child, "__typename")
      case None => st.(err := Some(ChildWithoutTypename))
      case Some(t) =>
        var f := TargetField(st.missing, t);
        if f == "" then st
        else
          var p := st.parents[pid];
          match Get<Json>(p, f)
          case Some(JObj(cf)) =>
            (match Get<Json>(cf, "edges")
             case Some(JArr(es)) =>
               st.(parents := st.parents[pid := Set(p, f, JObj(Set(cf, "edges", JArr(es + [Node(child)]))))])
             case _ => st.(err := Some(NoEdgesList(f))))
          case _ => st.(err := Some(NoEdgesList(f)))
  }

  /** One line of the stream; nothing happens after an exception. */
  function Step(shape: Option<Shape>, classOf: map<string, string>, st: Assembly, line: Fields): Assembly {
    if st.err.Some? then st
    else if HasKey(line, "__parentId") then StepChild(st, line)
    else StepTop(shape, classOf, st, line)
  }

  /** The state after the lines, in order. */
  function Feed(shape: Option<Shape>, classOf: map<string, string>, st: Assembly, lines: seq<Fields>): Assembly
    decreases |lines|
  {
    if |lines| == 0 then st
    else Step(shape, classOf, Feed(shape, classOf, st, lines[..|lines| - 1]), lines[|lines| - 1])
  }

  /** Everything `get_jsonl` yields, and the exception that ends it, if any. */
  function Assemble(shape: Option<Shape>, classOf: map<string, string>, lines: seq<Fields>): Assembly {
    var st := Feed(shape, classOf, Start, lines);
    if st.err.Some? then st else Emit(classOf, st)
  }

  // ---------------------------------------------------------------------
  // The generator, as a loop over the lines
  // ---------------------------------------------------------------------

  /** The loop over the shape's fields that completes a top-level line. */
  method BuildParent(shape: Shape, line: Fields, missing: map<string, string>) returns (b: Built)
    ensures b == NewParent(shape, line, missing)
  {
    b := Built(line, missing);
    var i := 0;
    while i < |shape| && b.Built?
      invariant 0 <= i <= |shape|
      invariant b == NewParent(shape[..i], line, missing)
    {
      assert shape[..i + 1][..i] == shape[..i];
      var f := shape[i];
      if !HasKey(b.parent, f.key) {
        match f
        case Plain(k) =>
          b := BuildFailed(k);
        case Connection(k, t) =>
          var m := if t != "" then b.missing[t := k] else b.missing;
          b := Built(Set(b.parent, k, EmptyConnection), m);
      }
      i := i + 1;
    }
    if b.BuildFailed? {
      NewParentFailureStays(shape, i, line, missing);
    }
    assert shape[..|shape|] == shape;
  }

  lemma {:induction false} NewParentFailureStays(shape: Shape, i: nat, line: Fields, m: map<string, string>)
    requires i <= |shape| && NewParent(shape[..i], line, m).BuildFailed?
    ensures NewParent(shape, line, m) == NewParent(shape[..i], line, m)
    decreases |shape| - i
  {
    if i < |shape| {
      assert shape[..i + 1][..i] == shape[..i];
      NewParentFailureStays(shape, i + 1, line, m);
    } else {
      assert shape[..i] == shape;
    }
  }

  /** A line with `__parentId`: the body of the `if` branch of the loop. */
  method TakeChild(st: Assembly, line: Fields) returns (r: Assembly)
    requires st.err.None? && HasKey(line, "__parentId")
    ensures r == StepChild(st, line)
  {
    r := st;
    var pid := Get(line, "__parentId").value;
    var child := Remove(line, "__parentId");
    if pid in st.parents {
      var parent := st.parents[pid];
      var typename := Get(child, "__typename");
      if typename.None? {
        r := r.(err := Some(ChildWithoutTypename));
      } else {
        var field := TargetField(st.missing, typename.value);
        if field != "" {
          var slot := Get(parent, field);
          if slot.Some? && slot.value.JObj? && Get(slot.value.fields, "edges").Some?
             && Get(slot.value.fields, "edges").value.JArr? {
            var es := Get(slot.value.fields, "edges").value.items;
            var edges := Set(slot.value.fields, "edges", JArr(es + [Node(child)]));
            r := r.(parents := st.parents[pid := Set(parent, field, JObj(edges))]);
          } else {
            r := r.(err := Some(NoEdgesList(field)));
          }
        }
      }
    }
  }

  /** Yields the held parent: the `yield` of the loop's `else` branch and of the end of the stream. */
  method YieldHeld(classOf: map<string, string>, st: Assembly) returns (r: Assembly)
    ensures r == Emit(classOf, st)
  {
    r := st;
    if st.last.Some? && st.last.value in st.parents {
      var held := st.parents[st.last.value];
      var typename := Get(held, "__typename");
      if typename.None? {
        r := r.(err := Some(ParentWithoutTypename));
      } else if typename.value.JStr? && typename.value.s in classOf {
        r := r.(out := st.out + [Record(classOf[typename.value.s], held)]);
      } else {
        r := r.(err := Some(NoClassFor));
      }
    }
  }

  /** A line without `__parentId`: the `else` branch of the loop. */
  method TakeTop(shape: Shape, classOf: map<string, string>, st: Assembly, line: Fields) returns (r: Assembly)
    requires st.err.None?
    ensures r == StepTop(Some(shape), classOf, st, line)
  {
    r := YieldHeld(classOf, st);
    if r.err.None? {
      if st.last.Some? && st.last.value in st.parents {
        r := r.(parents := r.parents - {st.last.value});
      }
      var b := BuildParent(shape, line, r.missing);
      match b
      case BuildFailed(k) =>
        r := r.(err := Some(NotAConnection(k)));
      case Built(p, m) =>
        var id := Get(line, "id");
        if id.None? {
          r := r.(missing := m, err := Some(LineWithoutId));
        } else {
          r := r.(parents := r.parents[id.value := p], last := LastParentId(id.value), missing := m);
        }
    }
  }

  /** `get_jsonl` over the lines of the downloaded file. */
  method GetJsonl(shape: Shape, classOf: map<string, string>, lines: seq<Fields>)
    returns (records: seq<Record>, err: Option<JsonlError>)
    ensures records == Assemble(Some(shape), classOf, lines).out
    ensures err == Assemble(Some(shape), classOf, lines).err
  {
    var st := Start;
    var i := 0;
    while i < |lines| && st.err.None?
      invariant 0 <= i <= |lines|
      invariant st == Feed(Some(shape), classOf, Start, lines[..i])
    {
      FeedNext(Some(shape), classOf, lines, i);
      if HasKey(lines[i], "__parentId") {
        st := TakeChild(st, lines[i]);
      } else {
        st := TakeTop(shape, classOf, st, lines[i]);
      }
      i := i + 1;
    }
    LoopExit(Some(shape), classOf, lines, i);
    if st.err.None? {
      st := YieldHeld(classOf, st);
    }
    records, err := st.out, st.err;
  }

  // ---------------------------------------------------------------------
  // Properties of the specification
  // ---------------------------------------------------------------------

  /** One more line is one more step. */
  lemma {:induction false} FeedNext(shape: Option<Shape>, classOf: map<string, string>, lines: seq<Fields>, i: nat)
    requires i < |lines|
    ensures Feed(shape, classOf, Start, lines[..i + 1]) == Step(shape, classOf, Feed(shape, classOf, Start, lines[..i]), lines[i])
  {
    assert lines[..i + 1][..i] == lines[..i];
  }

  /** The loop stops at the end of the lines or at the first exception: either way it has the final state. */
  lemma {:induction false} LoopExit(shape: Option<Shape>, classOf: map<string, string>, lines: seq<Fields>, i: nat)
    requires i <= |lines| && (i == |lines| || Feed(shape, classOf, Start, lines[..i]).err.Some?)
    ensures Feed(shape, classOf, Start, lines) == Feed(shape, classOf, Start, lines[..i])
  {
    if i < |lines| {
      FeedFailureStays(shape, classOf, Start, lines, i);
    } else {
      assert lines[..i] == lines;
    }
  }

  /** Once an exception escapes, later lines change nothing. */
  lemma {:induction false} FeedFailureStays(shape: Option<Shape>, classOf: map<string, string>, st: Assembly, lines: seq<Fields>, i: nat)
    requires i <= |lines| && Feed(shape, classOf, st, lines[..i]).err.Some?
    ensures Feed(shape, classOf, st, lines) == Feed(shape, classOf, st, lines[..i])
    decreases |lines| - i
  {
    if i < |lines| {
      assert lines[..i + 1][..i] == lines[..i];
      FeedFailureStays(shape, classOf, st, lines, i + 1);
    } else {
      assert lines[..i] == lines;
    }
  }

  /** Feeding two pieces is feeding their concatenation. */
  lemma {:induction false} FeedAppend(shape: Option<Shape>, classOf: map<string, string>, st: Assembly, a: seq<Fields>, b: seq<Fields>)
    ensures Feed(shape, classOf, st, a + b) == Feed(shape, classOf, Feed(shape, classOf, st, a), b)
    decreases |b|
  {
    if |b| == 0 {
      assert a + b == a;
    } else {
      assert (a + b)[..|a + b| - 1] == a + b[..|b| - 1];
      FeedAppend(shape, classOf, st, a, b[..|b| - 1]);
    }
  }

  /**
   * `last_parent_id` is never a JSON null, and apart from an object held
   * under a null id (which is never yielded or dropped) the only object
   * held is the latest top-level one.
   */
  predicate HoldsOnlyLast(st: Assembly) {
    st.last != Some(JNull) &&
    (st.err.None? ==> st.parents.Keys - {JNull} == if st.last.Some? then {st.last.value} else {})
  }

  lemma {:induction false} OnlyLatestParentHeld(shape: Option<Shape>, classOf: map<string, string>, lines: seq<Fields>)
    ensures HoldsOnlyLast(Feed(shape, classOf, Start, lines))
    decreases |lines|
  {
    if |lines| > 0 {
      OnlyLatestParentHeld(shape, classOf, lines[..|lines| - 1]);
      var st := Feed(shape, classOf, Start, lines[..|lines| - 1]);
      var line := lines[|lines| - 1];
      if st.err.None? {
        if HasKey(line, "__parentId") {
          StepChildKeepsHeld(st, line);
        } else {
          StepTopHoldsLast(shape, classOf, st, line);
        }
      }
    }
  }

  lemma {:induction false} StepChildKeepsHeld(st: Assembly, line: Fields)
    requires HasKey(line, "__parentId")
    ensures StepChild(st, line).parents.Keys == st.parents.Keys && StepChild(st, line).last == st.last
  {
  }

  lemma {:induction false} StepTopHoldsLast(shape: Option<Shape>, classOf: map<string, string>, st: Assembly, line: Fields)
    requires st.err.None? && HoldsOnlyLast(st)
    ensures HoldsOnlyLast(StepTop(shape, classOf, st, line))
  {
    var e := Emit(classOf, st);
    assert e.parents == st.parents && e.last == st.last;
    if e.err.None? {
      var e' := if st.last.Some? && st.last.value in st.parents then e.(parents := e.parents - {st.last.value}) else e;
      assert e'.parents.Keys - {JNull} == {};
    }
  }

  /** A lone top-level line whose id is a JSON null is never yielded, even at the end of the stream. */
  lemma {:induction false} NullIdNotYielded(shape: Option<Shape>, classOf: map<string, string>, line: Fields)
    requires !HasKey(line, "__parentId") && Get(line, "id") == Some(JNull)
    ensures Assemble(shape, classOf, [line]).out == []
  {
    assert [line][..0] == [];
    var st := StepTop(shape, classOf, Start, line);
    assert Feed(shape, classOf, Start, [line]) == st;
  }

  /** Number of top-level lines. */
  function TopCount(lines: seq<Fields>): nat
    decreases |lines|
  {
    if |lines| == 0 then 0
    else TopCount(lines[..|lines| - 1]) + (if HasKey(lines[|lines| - 1], "__parentId") then 0 else 1)
  }

  /** Number of top-level lines whose `id` is not a JSON null. */
  function IdentifiedCount(lines: seq<Fields>): nat
    decreases |lines|
  {
    if |lines| == 0 then 0
    else
      var line := lines[|lines| - 1];
      IdentifiedCount(lines[..|lines| - 1]) + (if HasKey(line, "__parentId") || Get(line, "id") == Some(JNull) then 0 else 1)
  }

  /**
   * Without an exception, one object is yielded per top-level line with a
   * non-null id; a line with a null id is held under `None` and never yielded.
   */
  lemma {:induction false} OneRecordPerTopLine(shape: Option<Shape>, classOf: map<string, string>, lines: seq<Fields>)
    ensures var r := Assemble(shape, classOf, lines); r.err.None? ==> |r.out| == IdentifiedCount(lines)
  {
    FedCount(shape, classOf, lines);
    OnlyLatestParentHeld(shape, classOf, lines);
  }

  lemma {:induction false} FedCount(shape: Option<Shape>, classOf: map<string, string>, lines: seq<Fields>)
    ensures var st := Feed(shape, classOf, Start, lines);
      st.err.None? ==> |st.out| + (if st.last.Some? then 1 else 0) == IdentifiedCount(lines)
    decreases |lines|
  {
    if |lines| > 0 {
      var pre := lines[..|lines| - 1];
      var line := lines[|lines| - 1];
      FedCount(shape, classOf, pre);
      OnlyLatestParentHeld(shape, classOf, pre);
      var st := Feed(shape, classOf, Start, pre);
      assert IdentifiedCount(lines) == IdentifiedCount(pre) + if HasKey(line, "__parentId") || Get(line, "id") == Some(JNull) then 0 else 1;
      if st.err.None? {
        if HasKey(line, "__parentId") {
          StepChildKeepsOut(st, line);
        } else {
          StepTopCounts(shape, classOf, st, line);
        }
      }
    }
  }

  lemma {:induction false} StepChildKeepsOut(st: Assembly, line: Fields)
    requires HasKey(line, "__parentId")
    ensures StepChild(st, line).out == st.out && StepChild(st, line).last == st.last
  {
  }

  /** A top-level line with a non-null id adds one to the yielded-or-held count; one with a null id adds nothing. */
  lemma {:induction false} StepTopCounts(shape: Option<Shape>, classOf: map<string, string>, st: Assembly, line: Fields)
    requires st.err.None? && HoldsOnlyLast(st)
    ensures var s := StepTop(shape, classOf, st, line);
      s.err.None? ==>
        |s.out| + (if s.last.Some? then 1 else 0) == |st.out| + (if st.last.Some? then 1 else 0) + (if Get(line, "id") == Some(JNull) then 0 else 1)
  {
  }

  /**
   * As written, `return_type` is unbound: the first top-level line raises
   * NameError, and since nothing was held before it, nothing is ever yielded.
   */
  lemma {:induction false} UnboundReturnTypeYieldsNothing(classOf: map<string, string>, lines: seq<Fields>)
    ensures Assemble(None, classOf, lines).out == []
    ensures Assemble(None, classOf, lines).err == Some(ReturnTypeUnbound) <==> TopCount(lines) > 0
    ensures Assemble(None, classOf, lines).err.None? <==> TopCount(lines) == 0
  {
    UnboundFeed(classOf, lines);
  }

  lemma {:induction false} UnboundFeed(classOf: map<string, string>, lines: seq<Fields>)
    ensures Feed(None, classOf, Start, lines) ==
      if TopCount(lines) > 0 then Start.(err := Some(ReturnTypeUnbound)) else Start
    decreases |lines|
  {
    if |lines| > 0 {
      UnboundFeed(classOf, lines[..|lines| - 1]);
    }
  }

  // ---------------------------------------------------------------------
  // Reference: a well-formed export, group by group
  // ---------------------------------------------------------------------

  /** A top-level line followed by the child lines written after it. */
  datatype Group = Group(top: Fields, children: seq<Fields>)

  /** The file: each group's top-level line, then its child lines. */
  function Lines(gs: seq<Group>): seq<Fields>
    decreases |gs|
  {
    if |gs| == 0 then [] else Lines(gs[..|gs| - 1]) + ([gs[|gs| - 1].top] + gs[|gs| - 1].children)
  }

  /** Keys of the shape's connection fields, in declaration order. */
  function ConnectionKeys(shape: Shape): seq<string>
    decreases |shape|
  {
    if |shape| == 0 then []
    else ConnectionKeys(shape[..|shape| - 1]) + (if shape[|shape| - 1].Connection? then [shape[|shape| - 1].key] else [])
  }

  /** `missing_fields` as every connection field of the shape records it (a later field wins). */
  function ShapeMissing(shape: Shape): map<string, string>
    decreases |shape|
  {
    if |shape| == 0 then map[]
    else
      var m := ShapeMissing(shape[..|shape| - 1]);
      var f := shape[|shape| - 1];
      if f.Connection? && f.nodeTypename != "" then m[f.nodeTypename := f.key] else m
  }

  predicate DistinctKeys(shape: Shape) {
    forall i, j :: 0 <= i < j < |shape| ==> shape[i].key != shape[j].key
  }

  /** The class a top-level line is validated as. */
  function ClassName(classOf: map<string, string>, top: Fields): Option<string> {
    match Get<Json>(top, "__typename")
    case Some(JStr(t)) => if t in classOf then Some(classOf[t]) else None
    case _ => None
  }

  /**
   * A top-level line as Shopify writes it: an `id`, a known `__typename`,
   * every plain field of the shape and none of its connections.
   */
  predicate WellFormedTop(shape: Shape, classOf: map<string, string>, top: Fields) {
    !HasKey(top, "__parentId") && HasKey(top, "id") && Get(top, "id") != Some(JNull) && ClassName(classOf, top).Some? &&
    forall i :: 0 <= i < |shape| ==> (shape[i].Plain? <==> HasKey(top, shape[i].key))
  }

  /** A child line: a `__parentId` and a `__typename`. */
  predicate WellFormedChild(c: Fields) {
    HasKey(c, "__parentId") && HasKey(Remove(c, "__parentId"), "__typename")
  }

  predicate WellFormed(shape: Shape, classOf: map<string, string>, gs: seq<Group>) {
    DistinctKeys(shape) &&
    forall g :: 0 <= g < |gs| ==>
      WellFormedTop(shape, classOf, gs[g].top) &&
      forall c :: 0 <= c < |gs[g].children| ==> WellFormedChild(gs[g].children[c])
  }

  function Id(top: Fields): Json {
    Get(top, "id").GetOr(JNull)
  }

  /** The child belongs under key `k` of the object with this id. */
  predicate Targets(c: Fields, id: Json, m: map<string, string>, k: string) {
    Get(c, "__parentId") == Some(id) && k != "" &&
    TargetField(m, Get(Remove(c, "__parentId"), "__typename").GetOr(JNull)) == k
  }

  /** The edges that key `k` of the object with this id collects, in input order. */
  function EdgesFor(id: Json, cs: seq<Fields>, m: map<string, string>, k: string): seq<Json>
    decreases |cs|
  {
    if |cs| == 0 then []
    else
      EdgesFor(id, cs[..|cs| - 1], m, k) +
      (if Targets(cs[|cs| - 1], id, m, k) then [Node(Remove(cs[|cs| - 1], "__parentId"))] else [])
  }

  /**
   * The object built from a top-level line and the children seen so far:
   * the line's own keys, then one key per connection field holding the
   * edges of the children that target it.
   */
  ghost predicate Assembled(shape: Shape, top: Fields, cs: seq<Fields>, m: map<string, string>, p: Fields) {
    Keys(p) == Keys(top) + ConnectionKeys(shape) &&
    forall k :: Get(p, k) ==
      if k in ConnectionKeys(shape) then Some(JObj([("edges", JArr(EdgesFor(Id(top), cs, m, k)))]))
      else Get(top, k)
  }

  /** What a group yields. */
  ghost predicate Expected(shape: Shape, classOf: map<string, string>, g: Group, r: Record) {
    ClassName(classOf, g.top) == Some(r.className) &&
    Assembled(shape, g.top, g.children, ShapeMissing(shape), r.fields)
  }

  /**
   * A well-formed export yields exactly one object per group, in file
   * order, each holding its children in input order; nothing is raised.
   */
  lemma {:induction false} GroupsAssemble(shape: Shape, classOf: map<string, string>, gs: seq<Group>)
    requires WellFormed(shape, classOf, gs)
    ensures var r := Assemble(Some(shape), classOf, Lines(gs));
      r.err.None? && |r.out| == |gs| &&
      forall g :: 0 <= g < |gs| ==> Expected(shape, classOf, gs[g], r.out[g])
  {
    if |gs| > 0 {
      FeedGroups(shape, classOf, gs);
      var st := Feed(Some(shape), classOf, Start, Lines(gs));
      var top := gs[|gs| - 1].top;
      TypenameKept(shape, classOf, top, gs[|gs| - 1].children, st.parents[Id(top)]);
    }
  }

  /** The state after all but the end of the stream: the last group is held, the others are yielded. */
  ghost predicate FedGroups(shape: Shape, classOf: map<string, string>, gs: seq<Group>, st: Assembly)
    requires |gs| > 0
  {
    var g := gs[|gs| - 1];
    st.err.None? && st.missing == ShapeMissing(shape) && st.last == Some(Id(g.top)) &&
    st.parents.Keys == {Id(g.top)} &&
    Assembled(shape, g.top, g.children, ShapeMissing(shape), st.parents[Id(g.top)]) &&
    |st.out| == |gs| - 1 &&
    forall i :: 0 <= i < |gs| - 1 ==> Expected(shape, classOf, gs[i], st.out[i])
  }

  lemma {:induction false} FeedGroups(shape: Shape, classOf: map<string, string>, gs: seq<Group>)
    requires |gs| > 0 && WellFormed(shape, classOf, gs)
    ensures FedGroups(shape, classOf, gs, Feed(Some(shape), classOf, Start, Lines(gs)))
    decreases |gs|
  {
    var n := |gs|;
    var g := gs[n - 1];
    var before := Lines(gs[..n - 1]);
    assert Lines(gs) == before + [g.top] + g.children;
    FeedAppend(Some(shape), classOf, Start, before + [g.top], g.children);
    FeedAppend(Some(shape), classOf, Start, before, [g.top]);
    var st0 := Feed(Some(shape), classOf, Start, before);
    if n == 1 {
      assert st0 == Start;
      TopStep(shape, classOf, st0, g.top);
    } else {
      assert WellFormed(shape, classOf, gs[..n - 1]);
      FeedGroups(shape, classOf, gs[..n - 1]);
      NextGroup(shape, classOf, gs, st0);
    }
    var st1 := Feed(Some(shape), classOf, st0, [g.top]);
    assert st1 == Step(Some(shape), classOf, st0, g.top);
    FeedChildren(shape, classOf, st1, g.top, g.children);
  }

  /** The top-level line of a later group yields the previous group's object. */
  lemma {:induction false} NextGroup(shape: Shape, classOf: map<string, string>, gs: seq<Group>, st0: Assembly)
    requires |gs| > 1 && WellFormed(shape, classOf, gs)
    requires FedGroups(shape, classOf, gs[..|gs| - 1], st0)
    ensures var s := Step(Some(shape), classOf, st0, gs[|gs| - 1].top);
      var top := gs[|gs| - 1].top;
      s.err.None? && s.missing == ShapeMissing(shape) && s.last == Some(Id(top)) &&
      s.parents.Keys == {Id(top)} && Assembled(shape, top, [], ShapeMissing(shape), s.parents[Id(top)]) &&
      |s.out| == |gs| - 1 && forall i :: 0 <= i < |gs| - 1 ==> Expected(shape, classOf, gs[i], s.out[i])
  {
    var n := |gs|;
    var prev := gs[n - 2];
    assert gs[..n - 1][n - 2] == prev;
    var held := st0.parents[Id(prev.top)];
    TypenameKept(shape, classOf, prev.top, prev.children, held);
    assert ClassName(classOf, held) == ClassName(classOf, prev.top);
    TopStep(shape, classOf, st0, gs[n - 1].top);
    var s := Step(Some(shape), classOf, st0, gs[n - 1].top);
    assert s.out == st0.out + [Record(ClassName(classOf, held).value, held)];
    forall i | 0 <= i < n - 1 ensures Expected(shape, classOf, gs[i], s.out[i]) {
      if i < n - 2 {
        assert gs[..n - 1][i] == gs[i];
      }
    }
  }

  /** A well-formed top-level line: the held object is yielded and the line is held in its place. */
  lemma {:induction false} TopStep(shape: Shape, classOf: map<string, string>, st: Assembly, top: Fields)
    requires DistinctKeys(shape) && WellFormedTop(shape, classOf, top)
    requires st.err.None? && (st.missing == ShapeMissing(shape) || st.missing == map[])
    requires st.last.Some? ==> st.parents.Keys == {st.last.value} && ClassName(classOf, st.parents[st.last.value]).Some?
    requires st.last.None? ==> st.parents == map[]
    ensures var s := Step(Some(shape), classOf, st, top);
      s.err.None? && s.missing == ShapeMissing(shape) && s.last == Some(Id(top)) &&
      s.parents.Keys == {Id(top)} && Assembled(shape, top, [], ShapeMissing(shape), s.parents[Id(top)]) &&
      s.out == st.out + if st.last.Some? then
        [Record(ClassName(classOf, st.parents[st.last.value]).value, st.parents[st.last.value])] else []
  {
    var sm := ShapeMissing(shape);
    assert map[] + sm == sm;
    assert sm + sm == sm;
    NewParentOfTop(shape, top, st.missing);
    var p := NewParent(shape, top, st.missing).parent;
    assert Assembled(shape, top, [], sm, p);
  }

  /** The held object keeps the `__typename` of its line. */
  lemma {:induction false} TypenameKept(shape: Shape, classOf: map<string, string>, top: Fields, cs: seq<Fields>, p: Fields)
    requires WellFormedTop(shape, classOf, top) && Assembled(shape, top, cs, ShapeMissing(shape), p)
    ensures Get(p, "__typename") == Get(top, "__typename")
  {
    ConnectionKeysAbsent(shape, classOf, top);
  }

  /** The line holds none of the connection keys. */
  lemma {:induction false} ConnectionKeysAbsent(shape: Shape, classOf: map<string, string>, top: Fields)
    requires WellFormedTop(shape, classOf, top)
    ensures forall k :: k in ConnectionKeys(shape) ==> !HasKey(top, k)
  {
    forall k | k in ConnectionKeys(shape) ensures !HasKey(top, k) {
      var i := ConnectionKeyAt(shape, k);
      assert shape[i].Plain? <==> HasKey(top, shape[i].key);
    }
  }

  lemma {:induction false} ConnectionKeyAt(shape: Shape, k: string) returns (i: nat)
    requires k in ConnectionKeys(shape)
    ensures i < |shape| && shape[i].Connection? && shape[i].key == k
    decreases |shape|
  {
    var n := |shape|;
    if k in ConnectionKeys(shape[..n - 1]) {
      i := ConnectionKeyAt(shape[..n - 1], k);
    } else {
      i := n - 1;
    }
  }

  lemma {:induction false} ConnectionKeysFrom(shape: Shape, i: nat)
    requires i < |shape| && shape[i].Connection?
    ensures shape[i].key in ConnectionKeys(shape)
    decreases |shape|
  {
    if i < |shape| - 1 {
      ConnectionKeysFrom(shape[..|shape| - 1], i);
    }
  }

  /** Every field `missing_fields` names is a connection key. */
  lemma {:induction false} ShapeMissingTargetsConnections(shape: Shape)
    ensures forall t :: t in ShapeMissing(shape) ==> ShapeMissing(shape)[t] in ConnectionKeys(shape)
    decreases |shape|
  {
    if |shape| > 0 {
      ShapeMissingTargetsConnections(shape[..|shape| - 1]);
    }
  }

  /** The line's keys, then an empty placeholder for every connection field. */
  ghost predicate Placeheld(shape: Shape, top: Fields, p: Fields) {
    Keys(p) == Keys(top) + ConnectionKeys(shape) &&
    forall k :: Get(p, k) == if k in ConnectionKeys(shape) then Some(EmptyConnection) else Get(top, k)
  }

  /** A well-formed line gains an empty placeholder for every connection, and `missing_fields` gains the shape's entries. */
  lemma {:induction false} NewParentOfTop(shape: Shape, top: Fields, m: map<string, string>)
    requires DistinctKeys(shape)
    requires forall i :: 0 <= i < |shape| ==> (shape[i].Plain? <==> HasKey(top, shape[i].key))
    ensures NewParent(shape, top, m).Built?
    ensures NewParent(shape, top, m).missing == m + ShapeMissing(shape)
    ensures Placeheld(shape, top, NewParent(shape, top, m).parent)
    decreases |shape|
  {
    var n := |shape|;
    if n == 0 {
      assert m + map[] == m;
      assert Keys(top) + [] == Keys(top);
    } else {
      var pre := shape[..n - 1];
      assert DistinctKeys(pre);
      assert forall i :: 0 <= i < |pre| ==> pre[i] == shape[i];
      NewParentOfTop(pre, top, m);
      var b := NewParent(pre, top, m);
      var f := shape[n - 1];
      assert NewParent(shape, top, m) == AddPlaceholder(f, b.parent, b.missing);
      assert f.key !in ConnectionKeys(pre) by {
        if f.key in ConnectionKeys(pre) {
          var i := ConnectionKeyAt(pre, f.key);
        }
      }
      PlaceheldStep(pre, f, top, b.parent, m, b.missing);
    }
  }

  lemma {:induction false} PlaceheldStep(pre: Shape, f: ShapeField, top: Fields, p: Fields, m: map<string, string>, m': map<string, string>)
    requires Placeheld(pre, top, p) && m' == m + ShapeMissing(pre)
    requires f.key !in ConnectionKeys(pre) && (f.Plain? <==> HasKey(top, f.key))
    ensures var shape := pre + [f];
      var b := AddPlaceholder(f, p, m');
      b.Built? && b.missing == m + ShapeMissing(shape) && Placeheld(shape, top, b.parent)
  {
    var shape := pre + [f];
    assert shape[..|shape| - 1] == pre;
    if f.Plain? {
      PlaceheldPlain(pre, f, top, p);
    } else {
      PlaceheldConnection(pre, f, top, p);
      if f.nodeTypename != "" {
        UpdateUnion(m, ShapeMissing(pre), f.nodeTypename, f.key);
      }
    }
  }

  lemma {:induction false} UpdateUnion(m: map<string, string>, n: map<string, string>, t: string, k: string)
    ensures (m + n)[t := k] == m + n[t := k]
  {
  }

  lemma {:induction false} PlaceheldPlain(pre: Shape, f: ShapeField, top: Fields, p: Fields)
    requires Placeheld(pre, top, p) && f.key !in ConnectionKeys(pre)
    requires f.Plain? && HasKey(top, f.key)
    ensures HasKey(p, f.key) && Placeheld(pre + [f], top, p)
    ensures ShapeMissing(pre + [f]) == ShapeMissing(pre)
  {
    ShapeSnoc(pre, f);
    assert Get(p, f.key) == Get(top, f.key);
  }

  lemma {:induction false} PlaceheldConnection(pre: Shape, f: ShapeField, top: Fields, p: Fields)
    requires Placeheld(pre, top, p) && f.key !in ConnectionKeys(pre)
    requires f.Connection? && !HasKey(top, f.key)
    ensures !HasKey(p, f.key) && Placeheld(pre + [f], top, Set(p, f.key, EmptyConnection))
    ensures ShapeMissing(pre + [f]) == if f.nodeTypename != "" then ShapeMissing(pre)[f.nodeTypename := f.key] else ShapeMissing(pre)
  {
    ShapeSnoc(pre, f);
    assert Get(p, f.key) == Get(top, f.key);
    ConnectionGets(pre, f, top, p);
  }

  /** The connection keys and `missing_fields` of a shape with one more field. */
  lemma {:induction false} ShapeSnoc(pre: Shape, f: ShapeField)
    ensures ConnectionKeys(pre + [f]) == ConnectionKeys(pre) + if f.Connection? then [f.key] else []
    ensures ShapeMissing(pre + [f]) ==
      if f.Connection? && f.nodeTypename != "" then ShapeMissing(pre)[f.nodeTypename := f.key] else ShapeMissing(pre)
  {
    assert (pre + [f])[..|pre|] == pre;
  }

  lemma {:induction false} ConnectionGets(pre: Shape, f: ShapeField, top: Fields, p: Fields)
    requires Placeheld(pre, top, p) && f.key !in ConnectionKeys(pre)
    requires ConnectionKeys(pre + [f]) == ConnectionKeys(pre) + [f.key]
    ensures forall k ::
      Get(Set(p, f.key, EmptyConnection), k) == if k in ConnectionKeys(pre + [f]) then Some(EmptyConnection) else Get(top, k)
  {
    var p' := Set(p, f.key, EmptyConnection);
    forall k ensures Get(p', k) == if k in ConnectionKeys(pre + [f]) then Some(EmptyConnection) else Get(top, k) {
      if k != f.key {
        assert k in ConnectionKeys(pre + [f]) <==> k in ConnectionKeys(pre);
      }
    }
  }

  /** Child lines of the held object are attached in order under the fields they target. */
  lemma {:induction false} FeedChildren(shape: Shape, classOf: map<string, string>, st: Assembly, top: Fields, cs: seq<Fields>)
    requires DistinctKeys(shape) && WellFormedTop(shape, classOf, top)
    requires forall c :: 0 <= c < |cs| ==> WellFormedChild(cs[c])
    requires st.err.None? && st.missing == ShapeMissing(shape) && st.last == Some(Id(top))
    requires st.parents.Keys == {Id(top)}
    requires Assembled(shape, top, [], ShapeMissing(shape), st.parents[Id(top)])
    ensures var s := Feed(Some(shape), classOf, st, cs);
      s.err.None? && s.missing == st.missing && s.last == st.last && s.out == st.out &&
      s.parents.Keys == {Id(top)} &&
      Assembled(shape, top, cs, ShapeMissing(shape), s.parents[Id(top)])
    decreases |cs|
  {
    if |cs| > 0 {
      var pre := cs[..|cs| - 1];
      var c := cs[|cs| - 1];
      FeedChildren(shape, classOf, st, top, pre);
      var s := Feed(Some(shape), classOf, st, pre);
      AttachOne(shape, top, pre, c, s);
      ChildFed(Some(shape), classOf, st, cs);
      assert pre + [c] == cs;
    }
  }

  /** Feeding a child line last is one `StepChild` after the lines before it. */
  lemma {:induction false} ChildFed(shape: Option<Shape>, classOf: map<string, string>, st: Assembly, cs: seq<Fields>)
    requires |cs| > 0 && HasKey(cs[|cs| - 1], "__parentId")
    requires Feed(shape, classOf, st, cs[..|cs| - 1]).err.None?
    ensures Feed(shape, classOf, st, cs) == StepChild(Feed(shape, classOf, st, cs[..|cs| - 1]), cs[|cs| - 1])
  {
  }

  /** One child line: attached under its target field, or dropped. */
  lemma {:induction false} AttachOne(shape: Shape, top: Fields, cs: seq<Fields>, c: Fields, st: Assembly)
    requires WellFormedChild(c)
    requires st.err.None? && st.missing == ShapeMissing(shape)
    requires st.parents.Keys == {Id(top)}
    requires Assembled(shape, top, cs, ShapeMissing(shape), st.parents[Id(top)])
    ensures var s := StepChild(st, c);
      s.err.None? && s.missing == st.missing && s.last == st.last && s.out == st.out &&
      s.parents.Keys == {Id(top)} &&
      Assembled(shape, top, cs + [c], ShapeMissing(shape), s.parents[Id(top)])
  {
    var f := TargetField(ShapeMissing(shape), Get(Remove(c, "__parentId"), "__typename").value);
    if Get(c, "__parentId") != Some(Id(top)) || f == "" {
      ChildDropped(shape, top, cs, c, st);
    } else {
      ChildAttached(shape, top, cs, c, st);
    }
  }

  lemma {:induction false} ChildDropped(shape: Shape, top: Fields, cs: seq<Fields>, c: Fields, st: Assembly)
    requires WellFormedChild(c)
    requires st.missing == ShapeMissing(shape) && st.parents.Keys == {Id(top)}
    requires Get(c, "__parentId") != Some(Id(top)) ||
      TargetField(ShapeMissing(shape), Get(Remove(c, "__parentId"), "__typename").value) == ""
    requires Assembled(shape, top, cs, ShapeMissing(shape), st.parents[Id(top)])
    ensures StepChild(st, c) == st
    ensures Assembled(shape, top, cs + [c], ShapeMissing(shape), st.parents[Id(top)])
  {
    var sm, id := ShapeMissing(shape), Id(top);
    assert (cs + [c])[..|cs|] == cs;
    forall k ensures EdgesFor(id, cs + [c], sm, k) == EdgesFor(id, cs, sm, k) {
      assert !Targets(c, id, sm, k);
    }
  }

  lemma {:induction false} ChildAttached(shape: Shape, top: Fields, cs: seq<Fields>, c: Fields, st: Assembly)
    requires WellFormedChild(c)
    requires st.err.None? && st.missing == ShapeMissing(shape) && st.parents.Keys == {Id(top)}
    requires Get(c, "__parentId") == Some(Id(top))
    requires TargetField(ShapeMissing(shape), Get(Remove(c, "__parentId"), "__typename").value) != ""
    requires Assembled(shape, top, cs, ShapeMissing(shape), st.parents[Id(top)])
    ensures var s := StepChild(st, c);
      s.err.None? && s.missing == st.missing && s.last == st.last && s.out == st.out &&
      s.parents.Keys == {Id(top)} &&
      Assembled(shape, top, cs + [c], ShapeMissing(shape), s.parents[Id(top)])
  {
    var sm, id := ShapeMissing(shape), Id(top);
    var child := Remove(c, "__parentId");
    var f := TargetField(sm, Get(child, "__typename").value);
    var p := st.parents[id];
    ShapeMissingTargetsConnections(shape);
    assert f in ConnectionKeys(shape);
    var es := EdgesFor(id, cs, sm, f);
    assert Get(p, f) == Some(JObj([("edges", JArr(es))]));
    var p' := AppendEdge(p, f, es, child);
    StepChildAttaches(st, c, id, f, es);
    EdgesAfterAttach(id, cs, c, sm, f);
    AssembledAfterAttach(shape, top, cs, c, p, f, p');
  }

  /** `parent[f]["edges"].append({"node": child})` on a field holding `{"edges": es}`. */
  function AppendEdge(p: Fields, f: string, es: seq<Json>, child: Fields): Fields {
    Set(p, f, JObj([("edges", JArr(es + [Node(child)]))]))
  }

  lemma {:induction false} StepChildAttaches(st: Assembly, c: Fields, pid: Json, f: string, es: seq<Json>)
    requires HasKey(c, "__parentId") && Get(c, "__parentId") == Some(pid) && pid in st.parents
    requires Get(Remove(c, "__parentId"), "__typename").Some?
    requires TargetField(st.missing, Get(Remove(c, "__parentId"), "__typename").value) == f != ""
    requires Get(st.parents[pid], f) == Some(JObj([("edges", JArr(es))]))
    ensures StepChild(st, c) == st.(parents := st.parents[pid := AppendEdge(st.parents[pid], f, es, Remove(c, "__parentId"))])
  {
    var cf := [("edges", JArr(es))];
    assert IndexOf(cf, "edges") == Some(0);
    assert Set(cf, "edges", JArr(es + [Node(Remove(c, "__parentId"))])) == [("edges", JArr(es + [Node(Remove(c, "__parentId"))]))];
  }

  lemma {:induction false} EdgesAfterAttach(id: Json, cs: seq<Fields>, c: Fields, sm: map<string, string>, f: string)
    requires Get(c, "__parentId") == Some(id)
    requires TargetField(sm, Get(Remove(c, "__parentId"), "__typename").GetOr(JNull)) == f != ""
    ensures forall k ::
      EdgesFor(id, cs + [c], sm, k) == EdgesFor(id, cs, sm, k) + (if k == f then [Node(Remove(c, "__parentId"))] else [])
  {
    assert (cs + [c])[..|cs|] == cs;
    forall k ensures EdgesFor(id, cs + [c], sm, k) == EdgesFor(id, cs, sm, k) + (if k == f then [Node(Remove(c, "__parentId"))] else []) {
      assert Targets(c, id, sm, k) <==> k == f;
    }
  }

  lemma {:induction false} AssembledAfterAttach(shape: Shape, top: Fields, cs: seq<Fields>, c: Fields, p: Fields, f: string, p': Fields)
    requires f in ConnectionKeys(shape)
    requires Assembled(shape, top, cs, ShapeMissing(shape), p)
    requires p' == AppendEdge(p, f, EdgesFor(Id(top), cs, ShapeMissing(shape), f), Remove(c, "__parentId"))
    requires forall k ::
      EdgesFor(Id(top), cs + [c], ShapeMissing(shape), k) ==
      EdgesFor(Id(top), cs, ShapeMissing(shape), k) + (if k == f then [Node(Remove(c, "__parentId"))] else [])
    ensures Assembled(shape, top, cs + [c], ShapeMissing(shape), p')
  {
    var sm, id := ShapeMissing(shape), Id(top);
    assert HasKey(p, f);
    forall k ensures Get(p', k) ==
      if k in ConnectionKeys(shape) then Some(JObj([("edges", JArr(EdgesFor(id, cs + [c], sm, k)))]))
      else Get(top, k)
    {
      if k == f {
        assert Get(p', k) == Some(JObj([("edges", JArr(EdgesFor(id, cs, sm, f) + [Node(Remove(c, "__parentId"))]))]));
      } else {
        assert Get(p', k) == Get(p, k);
        assert EdgesFor(id, cs + [c], sm, k) == EdgesFor(id, cs, sm, k);
      }
    }
  }
}
