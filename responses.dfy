/**
 * Response handling of the client: `get_data`, which turns the first
 * `userErrors` list of a response into an error, and
 * `flatten_gql_response`, which replaces every `edges`/`node` connection
 * by the plain list of its nodes.
 */
module Responses {
  import opened Wrappers
  import opened Text
  import opened Json
  import opened Dicts

  // ---------------------------------------------------------------------
  // get_data
  // ---------------------------------------------------------------------

  /** Python truthiness of a decoded JSON value. */
  predicate Truthy(j: Json) {
    match j
    case JNull => false
    case JBool(b) => b
    case JInt(i) => i != 0
    case JStr(s) => s != ""
    case JArr(items) => items != []
    case JObj(fs) => fs != []
  }

  /** The value is a dict that has a `userErrors` key. */
  predicate HoldsUserErrors(j: Json) {
    j.JObj? && HasKey(j.fields, "userErrors")
  }

  /** Position of the first top-level value holding `userErrors` (the loop breaks there). */
  function FirstUserErrorsAt(data: Fields): (r: Option<nat>)
    ensures r.Some? ==> r.value < |data| && HoldsUserErrors(data[r.value].1)
    ensures r.Some? ==> forall j :: 0 <= j < r.value ==> !HoldsUserErrors(data[j].1)
    ensures r.None? ==> forall j :: 0 <= j < |data| ==> !HoldsUserErrors(data[j].1)
  {
    if |data| == 0 then None
    else if HoldsUserErrors(data[0].1) then Some(0)
    else match FirstUserErrorsAt(data[1..])
      case None => None
      case Some(j) => Some(j + 1)
  }

  /** `user_errors` after the scan; `None` when no value holds the key. */
  function FoundUserErrors(data: Fields): Option<Json> {
    match FirstUserErrorsAt(data)
    case None => None
    case Some(i) => Get(data[i].1.fields, "userErrors")
  }

  function CharStrings(s: string): seq<string> {
    seq(|s|, k requires 0 <= k < |s| => [s[k]])
  }

  /** `', '.join(error.get('field') or ['Unknown field'])`; `None` where Python raises. */
  function FieldText(field: Option<Json>): Option<string> {
    if field.None? || !Truthy(field.value) then Some("Unknown field")
    else match field.value
      case JArr(items) =>
        if forall k :: 0 <= k < |items| ==> items[k].JStr? then
          Some(Join(", ", seq(|items|, k requires 0 <= k < |items| => items[k].s)))
        else None
      case JStr(s) => Some(Join(", ", CharStrings(s)))      // joining a string joins its characters
      case JObj(fs) => Some(Join(", ", Keys(fs)))             // joining a dict joins its keys
      case _ => None
  }

  /** `f"{error.get('message', 'Unknown error')}"`: a string as it is, any other value as `str()` renders it. */
  function MessageText(message: Option<Json>): string {
    match message
    case None => "Unknown error"
    case Some(v) => Str(v)
  }

  /** One entry of the error message; `None` where Python raises. */
  function EntryText(e: Json): Option<string> {
    if !e.JObj? then None
    else
      var f := FieldText(Get(e.fields, "field"));
      if f.Some? then Some(f.value + ": " + MessageText(Get(e.fields, "message"))) else None
  }

  /** The entries of a `userErrors` list; `None` when one of them cannot be rendered. */
  function EntryTexts(errs: seq<Json>): (r: Option<seq<string>>)
    ensures r.Some? <==> forall k :: 0 <= k < |errs| ==> EntryText(errs[k]).Some?
    ensures r.Some? ==> |r.value| == |errs| && forall k :: 0 <= k < |errs| ==> r.value[k] == EntryText(errs[k]).value
  {
    if |errs| == 0 then Some([])
    else match (EntryText(errs[0]), EntryTexts(errs[1..]))
      case (Some(e), Some(rest)) => Some([e] + rest)
      case _ => None
  }

  datatype DataResult =
    | Data(data: Fields)               // returned unchanged
    | UserErrorsRaised(message: string) // ShopifyGetDataError
    | Failure                          // a TypeError or AttributeError escapes

  /**
   * `get_data` after the base client has extracted `data`: the data comes
   * back when the first `userErrors` found is absent or falsy, a non-empty
   * list whose entries all render raises the joined texts, and anything
   * else truthy makes Python raise while iterating or joining.
   */
  function GetData(data: Fields): (r: DataResult)
    ensures r.Data? <==> FoundUserErrors(data).None? || !Truthy(FoundUserErrors(data).value)
    ensures r.Data? ==> r.data == data
    ensures var f := FoundUserErrors(data);
      f.Some? && f.value.JArr? && |f.value.items| > 0 && EntryTexts(f.value.items).Some? ==>
        r == UserErrorsRaised(Join(", ", EntryTexts(f.value.items).value))
    ensures var f := FoundUserErrors(data);
      r.UserErrorsRaised? ==> f.Some? && f.value.JArr? && |f.value.items| > 0 && EntryTexts(f.value.items).Some?
  {
    var found := FoundUserErrors(data);
    if found.None? || !Truthy(found.value) then Data(data)
    else match found.value
      case JArr(errs) =>
        (match EntryTexts(errs)
         case Some(texts) => UserErrorsRaised(Join(", ", texts))
         case None => Failure)
      case _ => Failure
  }

  /**
   * Only the first dict value holding `userErrors` is looked at: an empty
   * list there means no error, whatever later values hold.
   */
  lemma {:induction false} FirstUserErrorsDecide(key: string, fs: Fields, rest: Fields)
    requires Get(fs, "userErrors") == Some(JArr([]))
    ensures GetData([(key, JObj(fs))] + rest) == Data([(key, JObj(fs))] + rest)
  {
    var data := [(key, JObj(fs))] + rest;
    assert HoldsUserErrors(data[0].1);
    assert FirstUserErrorsAt(data) == Some(0);
  }

  /** A single error with a field path and a message reads "field1: error message". */
  lemma {:induction false} SingleUserError(key: string, fs: Fields, path: string, msg: string)
    requires fs == [("field", JArr([JStr(path)])), ("message", JStr(msg))]
    ensures GetData([(key, JObj([("userErrors", JArr([JObj(fs)]))]))]) == UserErrorsRaised(path + ": " + msg)
  {
    var data := [(key, JObj([("userErrors", JArr([JObj(fs)]))]))];
    assert FirstUserErrorsAt(data) == Some(0);
    assert Get(fs, "field") == Some(JArr([JStr(path)]));
    assert Get(fs, "message") == Some(JStr(msg)) by { assert IndexOf(fs, "message") == Some(1); }
    var items := [JStr(path)];
    assert seq(|items|, k requires 0 <= k < |items| => items[k].s) == [path];
    assert EntryText(JObj(fs)) == Some(path + ": " + msg);
    assert [JObj(fs)][1..] == [];
    assert EntryTexts([]) == Some([]);
    assert [path + ": " + msg] + [] == [path + ": " + msg];
    assert EntryTexts([JObj(fs)]) == Some([path + ": " + msg]);
  }

  /**
   * A message that is not a string is written as Python's `str()` of it:
   * `{"m": {"userErrors": [{"field": ["f"], "message": ["a"]}]}}` raises "f: ['a']".
   */
  lemma {:induction false} ListMessageRendered(fs: Fields)
    requires fs == [("field", JArr([JStr("f")])), ("message", JArr([JStr("a")]))]
    ensures GetData([("m", JObj([("userErrors", JArr([JObj(fs)]))]))]) == UserErrorsRaised("f: ['a']")
  {
    var data := [("m", JObj([("userErrors", JArr([JObj(fs)]))]))];
    assert FirstUserErrorsAt(data) == Some(0);
    assert Get(fs, "field") == Some(JArr([JStr("f")]));
    assert Get(fs, "message") == Some(JArr([JStr("a")])) by { assert IndexOf(fs, "message") == Some(1); }
    var items := [JStr("f")];
    assert seq(|items|, k requires 0 <= k < |items| => items[k].s) == ["f"];
    PlainStrRepr("a");
    var msg := [JStr("a")];
    assert Repr(msg[0]) == "'a'";
    assert seq(|msg|, k requires 0 <= k < |msg| => Repr(msg[k])) == ["'a'"];
    assert Repr(JArr(msg)) == "['a']";
    assert MessageText(Get(fs, "message")) == "['a']";
    assert "f" + ": " + "['a']" == "f: ['a']";
    assert EntryText(JObj(fs)) == Some("f: ['a']");
    assert [JObj(fs)][1..] == [];
    assert EntryTexts([]) == Some([]);
    assert ["f: ['a']"] + [] == ["f: ['a']"];
    assert EntryTexts([JObj(fs)]) == Some(["f: ['a']"]);
  }

  /** An entry without a field path falls back to "Unknown field". */
  lemma {:induction false} MissingFieldPath(fs: Fields, msg: string)
    requires fs == [("message", JStr(msg))]
    ensures EntryText(JObj(fs)) == Some("Unknown field: " + msg)
  {
    assert Get(fs, "field") == None;
    assert IndexOf(fs, "message") == Some(0);
    assert "Unknown field" + ": " == "Unknown field: ";
  }

  // ---------------------------------------------------------------------
  // flatten_gql_response
  // ---------------------------------------------------------------------

  /** The edges value can be iterated and every item has a `node`, so no exception escapes. */
  predicate EdgesIterable(e: Json) {
    match e
    case JArr(items) => forall k :: 0 <= k < |items| ==> items[k].JObj? && HasKey(items[k].fields, "node")
    case JObj(fs) => fs == []          // iterating a dict yields its keys
    case JStr(s) => s == ""            // iterating a string yields its characters
    case _ => false
  }

  /** `flatten_gql_response` raises nowhere inside `j`. */
  predicate Flattenable(j: Json)
    decreases j
  {
    match j
    case JObj(fs) =>
      (match IndexOf(fs, "edges")
       case Some(i) =>
         var e := fs[i].1;
         EdgesIterable(e) &&
         (e.JArr? ==> forall k :: 0 <= k < |e.items| ==>
            var n := IndexOf(e.items[k].fields, "node").value; Flattenable(e.items[k].fields[n].1))
       case None => forall k :: 0 <= k < |fs| ==> Flattenable(fs[k].1))
    case JArr(items) => forall k :: 0 <= k < |items| ==> Flattenable(items[k])
    case _ => true
  }

  /** The value of `flatten_gql_response` where it does not raise. */
  function Flatten(j: Json): Json
    requires Flattenable(j)
    decreases j
  {
    match j
    case JObj(fs) =>
      (match IndexOf(fs, "edges")
       case Some(i) =>
         var e := fs[i].1;
         if e.JArr? then
           JArr(seq(|e.items|, k requires 0 <= k < |e.items| =>
             var n := IndexOf(e.items[k].fields, "node").value; Flatten(e.items[k].fields[n].1)))
         else JArr([])
       case None => JObj(seq(|fs|, k requires 0 <= k < |fs| => (fs[k].0, Flatten(fs[k].1)))))
    case JArr(items) => JArr(seq(|items|, k requires 0 <= k < |items| => Flatten(items[k])))
    case _ => j
  }

  /** `flatten_gql_response`; `None` where it raises. */
  function FlattenGqlResponse(j: Json): (r: Option<Json>)
    ensures r.None? <==> !Flattenable(j)
    ensures r.Some? ==> EdgeFree(r.value)
  {
    if Flattenable(j) then FlattenRemovesEdges(j); Some(Flatten(j)) else None
  }

  /** No dict anywhere inside `j` has an `edges` key. */
  predicate EdgeFree(j: Json)
    decreases j
  {
    match j
    case JObj(fs) => !HasKey(fs, "edges") && forall k :: 0 <= k < |fs| ==> EdgeFree(fs[k].1)
    case JArr(items) => forall k :: 0 <= k < |items| ==> EdgeFree(items[k])
    case _ => true
  }

  /** The flattened value contains no connection any more. */
  lemma {:induction false} FlattenRemovesEdges(j: Json)
    requires Flattenable(j)
    ensures EdgeFree(Flatten(j))
    decreases j
  {
    match j
    case JObj(fs) =>
      match IndexOf(fs, "edges") {
        case Some(i) =>
          var e := fs[i].1;
          if e.JArr? {
            forall k | 0 <= k < |e.items|
              ensures EdgeFree(Flatten(e.items[k].fields[IndexOf(e.items[k].fields, "node").value].1))
            {
              FlattenRemovesEdges(e.items[k].fields[IndexOf(e.items[k].fields, "node").value].1);
            }
          }
        case None =>
          var r := Flatten(j);
          assert Keys(r.fields) == Keys(fs);
            forall k | 0 <= k < |fs| ensures EdgeFree(r.fields[k].1) {
            FlattenRemovesEdges(fs[k].1);
          }
      }
    case JArr(items) =>
      forall k | 0 <= k < |items| ensures EdgeFree(Flatten(items[k])) {
        FlattenRemovesEdges(items[k]);
      }
    case _ =>
  }

  /** A value without connections is flattened to itself. */
  lemma {:induction false} FlattenKeepsEdgeFree(j: Json)
    requires EdgeFree(j)
    ensures Flattenable(j) && Flatten(j) == j
    decreases j
  {
    match j
    case JObj(fs) =>
      forall k | 0 <= k < |fs| ensures Flattenable(fs[k].1) && Flatten(fs[k].1) == fs[k].1 {
        FlattenKeepsEdgeFree(fs[k].1);
      }
      assert seq(|fs|, k requires 0 <= k < |fs| => (fs[k].0, Flatten(fs[k].1))) == fs;
    case JArr(items) =>
      forall k | 0 <= k < |items| ensures Flattenable(items[k]) && Flatten(items[k]) == items[k] {
        FlattenKeepsEdgeFree(items[k]);
      }
      assert seq(|items|, k requires 0 <= k < |items| => Flatten(items[k])) == items;
    case _ =>
  }

  /** Flattening twice is flattening once. */
  lemma FlattenIdempotent(j: Json)
    requires FlattenGqlResponse(j).Some?
    ensures FlattenGqlResponse(FlattenGqlResponse(j).value) == FlattenGqlResponse(j)
  {
    FlattenRemovesEdges(j);
    FlattenKeepsEdgeFree(Flatten(j));
  }

  /** A connection becomes the list of its flattened nodes, in order. */
  lemma {:induction false} FlattenConnection(nodes: seq<Json>)
    requires forall k :: 0 <= k < |nodes| ==> EdgeFree(nodes[k])
    ensures var edges := seq(|nodes|, k requires 0 <= k < |nodes| => JObj([("node", nodes[k])]));
      FlattenGqlResponse(JObj([("edges", JArr(edges))])) == Some(JArr(nodes))
  {
    var edges := seq(|nodes|, k requires 0 <= k < |nodes| => JObj([("node", nodes[k])]));
    var j := JObj([("edges", JArr(edges))]);
    assert IndexOf(j.fields, "edges") == Some(0);
    forall k | 0 <= k < |nodes|
      ensures IndexOf(edges[k].fields, "node") == Some(0)
      ensures Flattenable(nodes[k]) && Flatten(nodes[k]) == nodes[k]
    {
      FlattenKeepsEdgeFree(nodes[k]);
    }
    assert Flattenable(j);
    assert Flatten(j) == JArr(nodes);
  }
}
