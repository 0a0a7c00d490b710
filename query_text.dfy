/**
 * Query-text helpers of the client: `parse_query_name` and
 * `inject_variables`, which turns a query with variables into the single
 * literal query string that a bulk-operation mutation accepts.
 */
module QueryText {
  import opened Wrappers
  import opened Text
  import opened Json

  // ---------------------------------------------------------------------
  // parse_query_name: re.search(r"query\s+(\w+)", query)
  // ---------------------------------------------------------------------

  /** End of the run of characters satisfying `IsSpace` that starts at `p`. */
  function SpacesEnd(q: string, p: nat): (r: nat)
    requires p <= |q|
    ensures p <= r <= |q| && (r == |q| || !IsSpace(q[r]))
    ensures forall m :: p <= m < r ==> IsSpace(q[m])
    decreases |q| - p
  {
    if p < |q| && IsSpace(q[p]) then SpacesEnd(q, p + 1) else p
  }

  /** End of the run of word characters that starts at `p`. */
  function WordEnd(q: string, p: nat): (r: nat)
    requires p <= |q|
    ensures p <= r <= |q| && (r == |q| || !IsWordChar(q[r]))
    ensures forall m :: p <= m < r ==> IsWordChar(q[m])
    decreases |q| - p
  {
    if p < |q| && IsWordChar(q[p]) then WordEnd(q, p + 1) else p
  }

  /** The pattern matches at `p`: "query", at least one space, at least one word character. */
  predicate MatchesAt(q: string, p: nat) {
    p + 5 <= |q| && q[p..p + 5] == "query" &&
    var s := SpacesEnd(q, p + 5); s > p + 5 && s < |q| && IsWordChar(q[s])
  }

  /** Leftmost match at or after `p`, as `re.search` finds it. */
  function FirstMatch(q: string, p: nat): (r: Option<nat>)
    requires p <= |q|
    ensures r.Some? ==> p <= r.value < |q| && MatchesAt(q, r.value)
    ensures r.Some? ==> forall m :: p <= m < r.value ==> !MatchesAt(q, m)
    ensures r.None? ==> forall m :: p <= m < |q| ==> !MatchesAt(q, m)
    decreases |q| - p
  {
    if p == |q| then None
    else if MatchesAt(q, p) then Some(p)
    else FirstMatch(q, p + 1)
  }

  /** `parse_query_name`: the word after the first "query" and its spaces. */
  function ParseQueryName(q: string): (name: string)
    ensures FirstMatch(q, 0).None? ==> name == "UnknownQuery"
    ensures FirstMatch(q, 0).Some? ==> CapturedAt(q, SpacesEnd(q, FirstMatch(q, 0).value + 5), name)
  {
    match FirstMatch(q, 0)
    case None => "UnknownQuery"
    case Some(p) =>
      var s := SpacesEnd(q, p + 5);
      NameAfter(q, p);
      q[s..WordEnd(q, s)]
  }

  /** `name` is a maximal non-empty run of word characters starting at index `s` of `q`. */
  predicate CapturedAt(q: string, s: nat, name: string) {
    |name| > 0 && s + |name| <= |q| && q[s..s + |name|] == name &&
    (forall m :: 0 <= m < |name| ==> IsWordChar(name[m])) &&
    (s + |name| == |q| || !IsWordChar(q[s + |name|]))
  }

  /** At a match, the captured group is the whole word after the spaces. */
  lemma {:induction false} NameAfter(q: string, p: nat)
    requires p < |q| && MatchesAt(q, p)
    ensures var s := SpacesEnd(q, p + 5); CapturedAt(q, s, q[s..WordEnd(q, s)])
  {
    var s := SpacesEnd(q, p + 5);
    var e := WordEnd(q, s);
    assert e > s;
    forall m | 0 <= m < e - s ensures IsWordChar(q[s..e][m]) {
      assert q[s..e][m] == q[s + m];
    }
  }

  // ---------------------------------------------------------------------
  // inject_variables, step 1: re.sub(r"\(\$.*?\)", "", query)
  // ---------------------------------------------------------------------

  /** No `)` and no line break in `s[i..j]`. */
  predicate OnOneLineWithoutClose(s: string, i: nat, j: nat)
    requires i <= j <= |s|
  {
    forall m :: i <= m < j ==> s[m] != ')' && s[m] != '\n'
  }

  /** The nearest `)` at or after `i` on the same line, which `.*?\)` stops at. */
  function CloseParen(s: string, i: nat): (r: Option<nat>)
    requires i <= |s|
    ensures r.Some? ==> i <= r.value < |s| && s[r.value] == ')' && OnOneLineWithoutClose(s, i, r.value)
    ensures r.None? ==> forall j :: i <= j < |s| && s[j] == ')' ==> !OnOneLineWithoutClose(s, i, j)
    decreases |s| - i
  {
    if i == |s| || s[i] == '\n' then None
    else if s[i] == ')' then Some(i)
    else CloseParen(s, i + 1)
  }

  /** A variable-declaration span `($ ... )` starts at the front of `s`. */
  predicate DeclarationAtFront(s: string) {
    |s| >= 2 && s[0] == '(' && s[1] == '$' && CloseParen(s, 2).Some?
  }

  /** Deletes every `($ ... )` span, scanning left to right without rescanning. */
  function StripDeclarations(s: string): (r: string)
    ensures |r| <= |s|
    ensures forall c :: c in r ==> c in s
    decreases |s|
  {
    if |s| == 0 then ""
    else if DeclarationAtFront(s) then StripDeclarations(s[CloseParen(s, 2).value + 1..])
    else [s[0]] + StripDeclarations(s[1..])
  }

  /** `s` holds no `($`, so no span can start inside it. */
  predicate NoDeclarationStart(s: string) {
    forall p :: 0 <= p < |s| - 1 ==> !(s[p] == '(' && s[p + 1] == '$')
  }

  /** Text without `($` passes through unchanged. */
  lemma {:induction false} StripWithoutDeclarations(s: string)
    requires NoDeclarationStart(s)
    ensures StripDeclarations(s) == s
    decreases |s|
  {
    if |s| > 0 {
      assert !DeclarationAtFront(s);
      assert NoDeclarationStart(s[1..]);
      StripWithoutDeclarations(s[1..]);
    }
  }

  /**
   * A span from `($` to the nearest `)` on the same line is deleted, however
   * long it is, and scanning resumes right after it.
   */
  lemma {:induction false} StripDeletesSpan(a: string, b: string, c: string)
    requires NoDeclarationStart(a)
    requires forall m :: 0 <= m < |b| ==> b[m] != ')' && b[m] != '\n'
    ensures StripDeclarations(a + "($" + b + ")" + c) == a + StripDeclarations(c)
    decreases |a|
  {
    var s := a + "($" + b + ")" + c;
    if |a| == 0 {
      assert s == "($" + b + ")" + c;
      CloseSpan(s, b, c);
      assert s[|b| + 3..] == c;
    } else {
      assert !DeclarationAtFront(s);
      assert s[1..] == a[1..] + "($" + b + ")" + c;
      assert NoDeclarationStart(a[1..]);
      StripDeletesSpan(a[1..], b, c);
    }
  }

  lemma {:induction false} CloseSpan(s: string, b: string, c: string)
    requires s == "($" + b + ")" + c
    requires forall m :: 0 <= m < |b| ==> b[m] != ')' && b[m] != '\n'
    ensures CloseParen(s, 2) == Some(|b| + 2)
  {
    var r := CloseParen(s, 2);
    assert s[|b| + 2] == ')';
    assert OnOneLineWithoutClose(s, 2, |b| + 2) by {
      forall m | 2 <= m < |b| + 2 ensures s[m] != ')' && s[m] != '\n' {
        assert s[m] == b[m - 2];
      }
    }
  }

  // ---------------------------------------------------------------------
  // inject_variables, step 2: query.replace(f"${key}", literal) per variable
  // ---------------------------------------------------------------------

  /** `f'"{value}"'` for a string (no escaping), `str(value)` for any other value. */
  function Literal(v: Json): string {
    if v.JStr? then "\"" + v.s + "\"" else Str(v)
  }

  /** `str.replace(pat, rep)`: every non-overlapping occurrence, left to right. */
  function ReplaceAll(s: string, pat: string, rep: string): (r: string)
    requires |pat| > 0
    ensures rep == pat ==> r == s
    ensures |rep| == |pat| ==> |r| == |s|
    decreases |s|
  {
    if |s| == 0 then ""
    else if pat <= s then rep + ReplaceAll(s[|pat|..], pat, rep)
    else [s[0]] + ReplaceAll(s[1..], pat, rep)
  }

  /** A first character that does not start an occurrence is copied. */
  lemma {:induction false} ReplaceCopies(s: string, pat: string, rep: string)
    requires |pat| > 0 && |s| > 0 && !(pat <= s)
    ensures ReplaceAll(s, pat, rep) == [s[0]] + ReplaceAll(s[1..], pat, rep)
  {
  }

  /** An occurrence at the front is replaced. */
  lemma {:induction false} ReplaceFront(pat: string, rep: string, c: string)
    requires |pat| > 0
    ensures ReplaceAll(pat + c, pat, rep) == rep + ReplaceAll(c, pat, rep)
  {
    var s := pat + c;
    assert pat <= s && s[|pat|..] == c;
  }

  /** No occurrence starts where the pattern's first character is absent. */
  lemma {:induction false} FirstCharAbsent(s: string, pat: string, n: nat)
    requires |pat| > 0 && n <= |s|
    requires forall m :: 0 <= m < n ==> s[m] != pat[0]
    ensures forall m :: 0 <= m < n ==> !(pat <= s[m..])
  {
    forall m | 0 <= m < n ensures !(pat <= s[m..]) {
      assert s[m..][0] == s[m];
    }
  }

  /** Text in which the pattern does not occur is left alone. */
  lemma {:induction false} ReplaceAbsent(s: string, pat: string, rep: string)
    requires |pat| > 0
    requires forall m :: 0 <= m < |s| ==> !(pat <= s[m..])
    ensures ReplaceAll(s, pat, rep) == s
    decreases |s|
  {
    if |s| > 0 {
      assert s[0..] == s;
      ReplaceCopies(s, pat, rep);
      forall m | 0 <= m < |s| - 1 ensures !(pat <= s[1..][m..]) {
        assert s[1..][m..] == s[m + 1..];
      }
      ReplaceAbsent(s[1..], pat, rep);
    }
  }

  /**
   * The leftmost occurrence is replaced and the scan resumes after it:
   * when no occurrence starts inside `a`, `a + pat + c` becomes
   * `a + rep + ` the replacement of `c`.
   */
  lemma {:induction false} ReplaceOccurrence(a: string, pat: string, rep: string, c: string)
    requires |pat| > 0
    requires forall m :: 0 <= m < |a| ==> !(pat <= (a + pat + c)[m..])
    ensures ReplaceAll(a + pat + c, pat, rep) == a + rep + ReplaceAll(c, pat, rep)
    decreases |a|
  {
    var s := a + pat + c;
    if |a| == 0 {
      assert s == pat + c;
      ReplaceFront(pat, rep, c);
    } else {
      assert s[0..] == s;
      ReplaceCopies(s, pat, rep);
      assert s[1..] == a[1..] + pat + c;
      forall m | 0 <= m < |a| - 1 ensures !(pat <= (a[1..] + pat + c)[m..]) {
        assert (a[1..] + pat + c)[m..] == s[m + 1..];
      }
      ReplaceOccurrence(a[1..], pat, rep, c);
      assert a == [a[0]] + a[1..];
    }
  }

  /** The replacement loop of `inject_variables`, in `variables.items()` order. */
  function ReplaceVariables(s: string, variables: seq<(string, Json)>): string
    decreases |variables|
  {
    if |variables| == 0 then s
    else ReplaceVariables(ReplaceAll(s, "$" + variables[0].0, Literal(variables[0].1)), variables[1..])
  }

  /** What `inject_variables` returns. */
  function Injected(query: string, variables: seq<(string, Json)>): string {
    ReplaceVariables(StripDeclarations(query), variables)
  }

  /** `inject_variables`: strip the declarations, then substitute each variable in turn. */
  method InjectVariables(query: string, variables: seq<(string, Json)>) returns (r: string)
    ensures r == Injected(query, variables)
  {
    r := StripDeclarations(query);
    for i := 0 to |variables|
      invariant ReplaceVariables(r, variables[i..]) == Injected(query, variables)
    {
      assert variables[i..][1..] == variables[i + 1..];
      r := ReplaceAll(r, "$" + variables[i].0, Literal(variables[i].1));
    }
  }

  /**
   * The declaration list is deleted even when no variable is given a value:
   * "query ($var1: String) { field1 }" becomes "query  { field1 }".
   */
  lemma InjectDeletesDeclarationList(a: string, b: string, c: string, key: string)
    requires a == "query " && b == "var1: String" && c == " { field1 }" && key == "var1"
    ensures Injected(a + "($" + b + ")" + c, [(key, JStr("value1"))]) == a + c
  {
    StripDeletesSpan(a, b, c);
    StripWithoutDeclarations(c);
    FirstCharAbsent(a + c, "$" + key, |a + c|);
    ReplaceAbsent(a + c, "$" + key, Literal(JStr("value1")));
    assert ReplaceVariables(a + c, [(key, JStr("value1"))]) == ReplaceVariables(a + c, []);
  }

  /**
   * A string value is substituted in double quotes:
   * "query ($x: String) { field(arg: $x) }" with x = "hi" becomes
   * "query  { field(arg: \"hi\") }".
   */
  lemma InjectQuotesStrings(a: string, b: string, c: string, d: string, key: string)
    requires a == "query " && b == "x: String" && c == " { field(arg: " && d == ") }" && key == "x"
    ensures Injected(a + "($" + b + ")" + c + "$" + key + d, [(key, JStr("hi"))])
         == a + c + "\"hi\"" + d
  {
    var tail := c + "$" + key + d;
    QuotesStripped(a, b, tail);
    assert a + "($" + b + ")" + c + "$" + key + d == a + "($" + b + ")" + tail;
    QuotesReplaced(a, c, d, key);
    assert a + tail == a + c + "$" + key + d;
    assert ReplaceVariables(a + tail, [(key, JStr("hi"))]) == ReplaceVariables(a + c + "\"hi\"" + d, []);
  }

  lemma {:induction false} QuotesStripped(a: string, b: string, tail: string)
    requires a == "query " && b == "x: String" && tail == " { field(arg: $x) }"
    ensures StripDeclarations(a + "($" + b + ")" + tail) == a + tail
  {
    StripDeletesSpan(a, b, tail);
    StripWithoutDeclarations(tail);
  }

  lemma {:induction false} QuotesReplaced(a: string, c: string, d: string, key: string)
    requires a == "query " && c == " { field(arg: " && d == ") }" && key == "x"
    ensures ReplaceAll(a + c + "$" + key + d, "$" + key, Literal(JStr("hi"))) == a + c + "\"hi\"" + d
  {
    var pat, rep := "$" + key, Literal(JStr("hi"));
    assert a + c + "$" + key + d == (a + c) + pat + d;
    FirstCharAbsent((a + c) + pat + d, pat, |a + c|);
    ReplaceOccurrence(a + c, pat, rep, d);
    FirstCharAbsent(d, pat, |d|);
    ReplaceAbsent(d, pat, rep);
  }
}
