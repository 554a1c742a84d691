/** Reading verdicts out of a reply body by scanning for JSON fields. */
module Scanners {
  import opened Text

  /** White space as in section 2 of RFC 8259. */
  predicate IsJSONSpace(c: char) {
    c == ' ' || c == '\t' || c == '\n' || c == '\r'
  }

  ghost predicate AllSpace(s: string, from: nat, to: nat) {
    from <= to <= |s| && forall i :: from <= i < to ==> IsJSONSpace(s[i])
  }

  function Quoted(s: string): string {
    "\"" + s + "\""
  }

  /** White space, a colon, white space: from `p` to where a value starts. */
  ghost predicate ColonBetween(s: string, p: nat, v: nat) {
    exists c: nat :: p <= c < v && c < |s| && AllSpace(s, p, c) && s[c] == ':' && AllSpace(s, c + 1, v)
  }

  /** A key ending at `p` has exactly the given string for a value. */
  ghost predicate StringFollows(s: string, p: nat, value: string) {
    exists v: nat :: ColonBetween(s, p, v) && OccursAt(s, Quoted(value), v)
  }

  ghost predicate OpensNonEmpty(s: string, v: nat, e: nat) {
    v < e < |s| && s[v] == '[' && AllSpace(s, v + 1, e) && !IsJSONSpace(s[e]) && s[e] != ']'
  }

  /** A key ending at `p` has an array with something in it for a value. */
  ghost predicate ArrayFollows(s: string, p: nat) {
    exists v: nat, e: nat :: ColonBetween(s, p, v) && OpensNonEmpty(s, v, e)
  }

  ghost predicate FieldAt(s: string, key: string, value: string, j: nat) {
    OccursAt(s, Quoted(key), j) && StringFollows(s, j + |Quoted(key)|, value)
  }

  ghost predicate ArrayAt(s: string, key: string, j: nat) {
    OccursAt(s, Quoted(key), j) && ArrayFollows(s, j + |Quoted(key)|)
  }

  /** The occurrences a scan that resumes after each one visits. */
  function Greedy(s: string, needle: string, from: nat): seq<nat>
    requires needle != "" && from <= |s|
    decreases |s| - from
  {
    match Index(s, needle, from)
    case None => []
    case Some(j) => [j] + Greedy(s, needle, j + |needle|)
  }

  /** How many occurrences of the quoted key lead up to `j`, each one's closing quote
      being the opening quote of the next. */
  function Chain(s: string, key: string, j: nat): nat {
    if j > |key| && OccursAt(s, Quoted(key), j - |key| - 1) then 1 + Chain(s, key, j - |key| - 1) else 0
  }

  /** The field, at a key the scan looks at: every other one of a chain. */
  ghost predicate FieldInSight(s: string, key: string, value: string) {
    exists j: nat :: FieldAt(s, key, value, j) && Chain(s, key, j) % 2 == 0
  }

  ghost predicate ArrayInSight(s: string, key: string) {
    exists j: nat :: ArrayAt(s, key, j) && Chain(s, key, j) % 2 == 0
  }

  // ----------------------------------------------------------------- the loops

  /** Advance past white space. */
  method SkipSpaces(s: string, from: nat) returns (p: nat)
    requires from <= |s|
    ensures AllSpace(s, from, p)
    ensures p < |s| ==> !IsJSONSpace(s[p])
  {
    p := from;
    while p < |s| && IsJSONSpace(s[p])
      invariant AllSpace(s, from, p)
    {
      p := p + 1;
    }
  }

  /** Where the value of a key ending at `p` starts, if a colon follows: there is only
      one such place that is not white space. */
  method FindValue(s: string, p: nat) returns (v: Option<nat>)
    requires p <= |s|
    ensures v.Some? ==> ColonBetween(s, p, v.value)
    ensures forall w: nat :: w < |s| && ColonBetween(s, p, w) && !IsJSONSpace(s[w]) ==> v == Some(w)
  {
    var c := SkipSpaces(s, p);
    forall w: nat ensures ColonBetween(s, p, w) ==> c < |s| && s[c] == ':' && AllSpace(s, c + 1, w) {
      ColonIsFirstNonSpace(s, p, c, w);
    }
    if c >= |s| || s[c] != ':' {
      return None;
    }
    var w := SkipSpaces(s, c + 1);
    return Some(w);
  }

  lemma ColonIsFirstNonSpace(s: string, p: nat, c: nat, w: nat)
    requires AllSpace(s, p, c) && (c < |s| ==> !IsJSONSpace(s[c]))
    ensures ColonBetween(s, p, w) ==> c < |s| && s[c] == ':' && AllSpace(s, c + 1, w)
  {
    if ColonBetween(s, p, w) {
      var d: nat :| p <= d < w && d < |s| && AllSpace(s, p, d) && s[d] == ':' && AllSpace(s, d + 1, w);
      assert d == c;
    }
  }

  lemma QuoteStarts(s: string, value: string, v: nat)
    requires OccursAt(s, Quoted(value), v)
    ensures v < |s| && !IsJSONSpace(s[v])
  {
    assert Quoted(value)[0] == '"';
    assert s[v..v + |Quoted(value)|][0] == s[v];
  }

  /** The part of the `hasJSONString` loop after a key. */
  method CheckString(low: string, p: nat, value: string) returns (found: bool)
    requires p <= |low|
    ensures found <==> StringFollows(low, p, value)
  {
    var v := FindValue(low, p);
    found := v.Some? && OccursAt(low, Quoted(value), v.value);
    forall w: nat | ColonBetween(low, p, w) && OccursAt(low, Quoted(value), w) ensures v == Some(w) {
      QuoteStarts(low, value, w);
    }
  }

  /** The part of the `hasErrorEnvelope` loop after a key. */
  method CheckArray(low: string, p: nat) returns (found: bool)
    requires p <= |low|
    ensures found <==> ArrayFollows(low, p)
  {
    var v := FindValue(low, p);
    if v.None? || v.value >= |low| || low[v.value] != '[' {
      return false;
    }
    var e := SkipSpaces(low, v.value + 1);
    found := e < |low| && low[e] != ']';
    assert found ==> OpensNonEmpty(low, v.value, e);
    forall f: nat | OpensNonEmpty(low, v.value, f) ensures f == e {
    }
  }

  /** `hasJSONString`: true exactly when one of the key occurrences it visits is
      followed by a colon and the value. */
  method HasJSONString(low: string, key: string, value: string) returns (found: bool)
    ensures found <==> ScanFinds(low, key, value)
    ensures '"' !in key ==> (found <==> FieldInSight(low, key, value))
  {
    hide StringFollows;
    hide OccursAt;
    hide Index;
    hide Quoted;
    hide Greedy;
    hide FieldInSight;
    if '"' !in key {
      ScanSeesEveryOther(low, key, value);
    }
    var needle := Quoted(key);
    var i := 0;
    ghost var seen: seq<nat> := [];
    assert needle != "" by { QuotedIsNonEmpty(key); }
    assert seen + Greedy(low, needle, 0) == Greedy(low, needle, 0);
    while true
      invariant 0 <= i <= |low|
      invariant Greedy(low, needle, 0) == seen + Greedy(low, needle, i)
      invariant forall j <- seen :: !FieldAt(low, key, value, j)
      decreases |low| - i
    {
      GreedyUnfold(low, needle, i, seen);
      var j := Index(low, needle, i);
      if j.None? {
        return false;
      }
      OccurrenceFits(low, needle, j.value);
      i := j.value + |needle|;
      found := CheckString(low, i, value);
      if found {
        return true;
      }
      seen := seen + [j.value];
    }
  }

  lemma QuotedIsNonEmpty(key: string)
    ensures Quoted(key) != ""
  {
  }

  lemma OccurrenceFits(s: string, sub: string, j: nat)
    requires OccursAt(s, sub, j)
    ensures j + |sub| <= |s|
  {
  }

  lemma GreedyUnfold(s: string, needle: string, i: nat, seen: seq<nat>)
    requires needle != "" && i <= |s|
    ensures var j := Index(s, needle, i); var all := seen + Greedy(s, needle, i);
            if j.None? then all == seen
            else all == seen + [j.value] + Greedy(s, needle, j.value + |needle|) && j.value in all
  {
    if Index(s, needle, i).Some? {
      assert (seen + Greedy(s, needle, i))[|seen|] == Index(s, needle, i).value;
    }
  }

  /** `hasErrorEnvelope`: the same over array values. */
  method HasErrorEnvelope(low: string) returns (found: bool)
    ensures found <==> ArrayInSight(low, "errors")
  {
    hide ArrayFollows;
    hide OccursAt;
    hide Index;
    hide Greedy;
    hide ArrayInSight;
    EveryOtherArray(low, "errors");
    var needle := Quoted("errors");
    var i := 0;
    ghost var seen: seq<nat> := [];
    assert seen + Greedy(low, needle, 0) == Greedy(low, needle, 0);
    while true
      invariant 0 <= i <= |low|
      invariant Greedy(low, needle, 0) == seen + Greedy(low, needle, i)
      invariant forall j <- seen :: !ArrayAt(low, "errors", j)
      decreases |low| - i
    {
      GreedyUnfold(low, needle, i, seen);
      var j := Index(low, needle, i);
      if j.None? {
        return false;
      }
      OccurrenceFits(low, needle, j.value);
      i := j.value + |needle|;
      found := CheckArray(low, i);
      if found {
        return true;
      }
      seen := seen + [j.value];
    }
  }

  // --------------------------------------- visited occurrences against all of them

  lemma {:induction false} GreedyOccurs(s: string, needle: string, from: nat)
    requires needle != "" && from <= |s|
    ensures forall j <- Greedy(s, needle, from) :: j >= from && OccursAt(s, needle, j)
    decreases |s| - from
  {
    if Index(s, needle, from).Some? {
      GreedyOccurs(s, needle, Index(s, needle, from).value + |needle|);
    }
  }

  /** An occurrence the scan does not visit starts inside one it does. */
  lemma {:induction false} SkippedOverlaps(s: string, needle: string, from: nat, j: nat)
    requires needle != "" && from <= j && OccursAt(s, needle, j)
    ensures j in Greedy(s, needle, from)
            || exists g <- Greedy(s, needle, from) :: g < j < g + |needle|
    decreases |s| - from
  {
    hide OccursAt;
    hide Index;
    OccurrenceFits(s, needle, j);
    IndexIsFirst(s, needle, from);
    assert Index(s, needle, from).Some?;
    var g := Index(s, needle, from).value;
    OccurrenceFits(s, needle, g);
    if j >= g + |needle| {
      SkippedOverlaps(s, needle, g + |needle|, j);
      var rest := Greedy(s, needle, g + |needle|);
      assert Greedy(s, needle, from) == [g] + rest;
      if j !in rest {
        var h :| h in rest && h < j < h + |needle|;
        assert h in Greedy(s, needle, from);
      }
    } else {
      assert Greedy(s, needle, from)[0] == g;
      assert g in Greedy(s, needle, from);
    }
  }

  /** Two overlapping occurrences of a quoted key without quotes in it share one quote. */
  lemma OverlapSharesQuote(s: string, key: string, g: nat, j: nat)
    requires '"' !in key && OccursAt(s, Quoted(key), g) && OccursAt(s, Quoted(key), j)
    requires g < j < g + |Quoted(key)|
    ensures j == g + |Quoted(key)| - 1
  {
    var n := |Quoted(key)|;
    assert s[j] == s[j..j + n][0] == '"';
    assert s[j] == s[g..g + n][j - g] == Quoted(key)[j - g];
    assert forall k :: 1 <= k < n - 1 ==> Quoted(key)[k] == key[k - 1] != '"';
  }

  /** What a negative answer leaves open: a field the scan missed has its opening
      quote in common with the closing quote of a key occurrence it visited. */
  lemma MissedFieldSharesQuote(low: string, key: string, value: string, j: nat)
    requires '"' !in key && FieldAt(low, key, value, j)
    requires forall g <- Greedy(low, Quoted(key), 0) :: !FieldAt(low, key, value, g)
    ensures exists g <- Greedy(low, Quoted(key), 0) :: j == g + |Quoted(key)| - 1
  {
    SkippedOverlaps(low, Quoted(key), 0, j);
    GreedyOccurs(low, Quoted(key), 0);
    var g :| g in Greedy(low, Quoted(key), 0) && g < j < g + |Quoted(key)|;
    OverlapSharesQuote(low, key, g, j);
  }

  ghost predicate ScanFinds(low: string, key: string, value: string) {
    exists j <- Greedy(low, Quoted(key), 0) :: FieldAt(low, key, value, j)
  }

  ghost predicate FieldAnywhere(low: string, key: string, value: string) {
    exists j: nat :: FieldAt(low, key, value, j)
  }

  lemma {:induction false} GreedySpaced(s: string, needle: string, from: nat)
    requires needle != "" && from <= |s|
    ensures forall a <- Greedy(s, needle, from), b <- Greedy(s, needle, from) :: a < b ==> a + |needle| <= b
    decreases |s| - from
  {
    hide OccursAt;
    hide Index;
    if Index(s, needle, from).Some? {
      var g := Index(s, needle, from).value;
      OccurrenceFits(s, needle, g);
      GreedyOccurs(s, needle, g + |needle|);
      GreedySpaced(s, needle, g + |needle|);
    }
  }

  /** Of a chain of key occurrences the scan visits the first, the third and so on. */
  lemma {:induction false} VisitedIsEven(s: string, key: string, j: nat)
    requires '"' !in key && OccursAt(s, Quoted(key), j)
    ensures j in Greedy(s, Quoted(key), 0) <==> Chain(s, key, j) % 2 == 0
  {
    hide OccursAt;
    hide Greedy;
    var q := Quoted(key);
    SkippedOverlaps(s, q, 0, j);
    GreedyOccurs(s, q, 0);
    if j !in Greedy(s, q, 0) {
      var g :| g in Greedy(s, q, 0) && g < j < g + |q|;
      OverlapSharesQuote(s, key, g, j);
      VisitedIsEven(s, key, g);
    } else if j > |key| && OccursAt(s, q, j - |key| - 1) {
      GreedySpaced(s, q, 0);
      VisitedIsEven(s, key, j - |key| - 1);
    }
  }

  lemma ScanSeesEveryOther(low: string, key: string, value: string)
    requires '"' !in key
    ensures ScanFinds(low, key, value) <==> FieldInSight(low, key, value)
  {
    hide Greedy;
    hide Chain;
    hide StringFollows;
    GreedyOccurs(low, Quoted(key), 0);
    forall j: nat | FieldAt(low, key, value, j)
      ensures j in Greedy(low, Quoted(key), 0) <==> Chain(low, key, j) % 2 == 0
    {
      VisitedIsEven(low, key, j);
    }
  }

  lemma EveryOtherArray(low: string, key: string)
    requires '"' !in key
    ensures (exists j <- Greedy(low, Quoted(key), 0) :: ArrayAt(low, key, j)) <==> ArrayInSight(low, key)
  {
    hide Greedy;
    hide Chain;
    hide ArrayFollows;
    GreedyOccurs(low, Quoted(key), 0);
    forall j: nat | ArrayAt(low, key, j)
      ensures j in Greedy(low, Quoted(key), 0) <==> Chain(low, key, j) % 2 == 0
    {
      VisitedIsEven(low, key, j);
    }
  }

  /** The scan answers "is the field anywhere" wrongly if and only if the text holds it
      and every key it belongs to comes after an odd chain. */
  lemma ScanIsExactWhen(low: string, key: string, value: string)
    requires '"' !in key
    ensures !(ScanFinds(low, key, value) <==> FieldAnywhere(low, key, value))
       <==> && (exists j: nat :: FieldAt(low, key, value, j))
            && (forall j: nat :: FieldAt(low, key, value, j) ==> Chain(low, key, j) % 2 == 1)
  {
    hide FieldAt;
    hide Chain;
    hide ScanFinds;
    ScanSeesEveryOther(low, key, value);
  }

  /** The text `"status"status":"success"`. */
  const SHARED: string := "\"status" + Quoted("status") + ":" + Quoted("success")

  lemma Differs(s: string, sub: string, k: nat, i: nat)
    requires k + |sub| <= |s| && i < |sub| && s[k + i] != sub[i]
    ensures !OccursAt(s, sub, k)
  {
    assert s[k..k + |sub|][i] == s[k + i];
  }

  lemma QuotedLength(s: string)
    ensures |Quoted(s)| == |s| + 2
  {
  }

  lemma Piece(front: string, sub: string, back: string)
    ensures OccursAt(front + sub + back, sub, |front|)
  {
  }

  /** A quoted key in front of which the key stands once more, with only a quote before
      it, occurs there too. */
  lemma SharesQuote(key: string, back: string)
    ensures OccursAt("\"" + key + Quoted(key) + back, Quoted(key), 0)
  {
    assert "\"" + key + Quoted(key) + back == "" + Quoted(key) + (key + "\"" + back);
    Piece("", Quoted(key), key + "\"" + back);
  }

  lemma SharedOccurrences()
    ensures OccursAt(SHARED, Quoted("status"), 0) && OccursAt(SHARED, Quoted("status"), 7)
    ensures OccursAt(SHARED, Quoted("success"), 16) && |SHARED| == 25
  {
    hide Quoted;
    hide OccursAt;
    var q, v := Quoted("status"), Quoted("success");
    QuotedLength("status");
    QuotedLength("success");
    assert "\"" + "status" == "\"status";
    assert SHARED == "\"" + "status" + q + (":" + v);
    SharesQuote("status", ":" + v);
    assert SHARED == "\"status" + q + (":" + v);
    Piece("\"status", q, ":" + v);
    assert SHARED == ("\"status" + q + ":") + v + "";
    Piece("\"status" + q + ":", v, "");
  }

  lemma SharedPieces()
    ensures OccursAt(SHARED, Quoted("status"), 0) && OccursAt(SHARED, Quoted("status"), 7)
    ensures OccursAt(SHARED, Quoted("success"), 16) && SHARED[15] == ':' && SHARED[8] == 's' && |SHARED| == 25
    ensures forall k :: 8 <= k <= 25 ==> !OccursAt(SHARED, Quoted("status"), k)
  {
    SharedOccurrences();
    hide OccursAt;
    var q := Quoted("status");
    assert |q| == 8 && q[0] == '"' && q[2] == 't';
    forall k | 8 <= k <= 25 ensures !OccursAt(SHARED, q, k) {
      if k + 8 <= 25 {
        Differs(SHARED, q, k, if SHARED[k] != '"' then 0 else 2);
      } else {
        TooLate(SHARED, q, k);
      }
    }
  }

  lemma TooLate(s: string, sub: string, k: nat)
    requires k + |sub| > |s|
    ensures !OccursAt(s, sub, k)
  {
  }

  lemma SharedVisits()
    ensures Greedy(SHARED, Quoted("status"), 0) == [0]
  {
    hide OccursAt;
    hide Quoted;
    SharedPieces();
    QuotedLength("status");
    assert Index(SHARED, Quoted("status"), 0) == Some(0);
    assert Index(SHARED, Quoted("status"), 8) == None by { hide Index; }
    assert Greedy(SHARED, Quoted("status"), 8) == [];
  }

  /** Such a text: the field is there, sharing a quote, and the scan says no. */
  lemma ScanMissesSharedQuote()
    ensures FieldAt(SHARED, "status", "success", 7)
    ensures !ScanFinds(SHARED, "status", "success") && !FieldInSight(SHARED, "status", "success")
  {
    hide OccursAt;
    hide Quoted;
    hide Greedy;
    hide FieldInSight;
    SharedPieces();
    SharedVisits();
    QuotedLength("status");
    assert AllSpace(SHARED, 15, 15) && AllSpace(SHARED, 16, 16);
    assert ColonBetween(SHARED, 15, 16);
    assert AllSpace(SHARED, 8, 8);
    forall w: nat ensures !ColonBetween(SHARED, 8, w) {
      ColonIsFirstNonSpace(SHARED, 8, 8, w);
    }
    ScanSeesEveryOther(SHARED, "status", "success");
  }

  // ------------------------------------------------------------- the verdict

  datatype Status = Available | Taken | Unknown

  const TAKEN_MARKERS: seq<string> := [
    "username_is_taken",
    "username_is_not_available",
    "this username isn't available",
    "username isn't available"]

  /** `containsAny`, and the loop over the markers in `interpret`. */
  method ContainsAny(s: string, subs: seq<string>) returns (found: bool)
    ensures found <==> exists m <- subs :: Contains(s, m)
  {
    for i := 0 to |subs|
      invariant forall m <- subs[..i] :: !Contains(s, m)
    {
      assert subs[..i + 1] == subs[..i] + [subs[i]];
      if Contains(s, subs[i]) {
        return true;
      }
    }
    assert subs[..|subs|] == subs;
    return false;
  }

  ghost predicate SaysTaken(low: string) {
    exists m <- {
      "validation_error",
      "username_is_taken", "username_is_not_available",
      "this username isn't available", "username isn't available",
      "\"is_valid\":false", "\"is_valid\": false"} :: Contains(low, m)
  }

  ghost predicate SaysFailed(low: string) {
    ArrayInSight(low, "errors")
  }

  ghost predicate SaysAvailable(low: string) {
    || FieldInSight(low, "status", "success")
    || exists m <- {"\"is_valid\":true", "\"is_valid\": true"} :: Contains(low, m)
  }

  /** The verdict on a reply. */
  ghost function Verdict(httpCode: int, body: string): Status {
    var low := Lower(body);
    if httpCode != 200 then Unknown
    else if SaysTaken(low) then Taken
    else if !SaysFailed(low) && SaysAvailable(low) then Available
    else Unknown
  }

  /** The text `{"errors":["validation_error"]}`. */
  const ERROR_BODY: string := "{" + Quoted("errors") + ":[\"" + "validation_error" + "\"]}"

  lemma ErrorBodyIsLower()
    ensures Lower(ERROR_BODY) == ERROR_BODY
  {
    assert forall i :: 0 <= i < |ERROR_BODY| ==> LowerChar(ERROR_BODY[i]) == ERROR_BODY[i];
  }

  lemma ErrorBodyPieces()
    ensures OccursAt(ERROR_BODY, Quoted("errors"), 1) && |ERROR_BODY| == 31
    ensures ERROR_BODY[9] == ':' && ERROR_BODY[10] == '[' && ERROR_BODY[11] == '"'
    ensures OccursAt(ERROR_BODY, "validation_error", 12)
  {
    hide Quoted;
    hide OccursAt;
    var q := Quoted("errors");
    QuotedLength("errors");
    assert ERROR_BODY == "{" + q + (":[\"" + "validation_error" + "\"]}");
    Piece("{", q, ":[\"" + "validation_error" + "\"]}");
    assert ERROR_BODY == ("{" + q + ":[\"") + "validation_error" + "\"]}";
    Piece("{" + q + ":[\"", "validation_error", "\"]}");
  }

  /** Such a reply: all it holds is an error, and it is read as taken. */
  lemma ErrorListCanBeTaken()
    ensures SaysFailed(Lower(ERROR_BODY)) && Verdict(200, ERROR_BODY) == Taken
  {
    hide Lower;
    hide OccursAt;
    hide Quoted;
    ErrorBodyIsLower();
    ErrorBodyPieces();
    var s := ERROR_BODY;
    assert Chain(s, "errors", 1) == 0;
    assert |Quoted("errors")| == 8 by { QuotedLength("errors"); }
    FirstElement(s, 9);
    assert ArrayAt(s, "errors", 1);
    assert Contains(s, "validation_error");
  }

  lemma FirstElement(s: string, p: nat)
    requires p + 2 < |s| && s[p] == ':' && s[p + 1] == '[' && s[p + 2] == '"'
    ensures ArrayFollows(s, p)
  {
    assert AllSpace(s, p, p) && AllSpace(s, p + 1, p + 1) && AllSpace(s, p + 2, p + 2);
    assert ColonBetween(s, p, p + 1) && OpensNonEmpty(s, p + 1, p + 2);
  }

  /** `interpret`. Any code but 200 forbids a verdict; taken beats available; a populated
      error list forbids available only, so that a reply with one is a verdict if and
      only if something in it says taken; available needs the explicit positive signal. */
  method Interpret(httpCode: int, body: string) returns (status: Status, retryable: bool)
    ensures retryable <==> httpCode in {429, 500, 502, 503, 504}
    ensures status == Verdict(httpCode, body)
    ensures httpCode == 200 && SaysFailed(Lower(body)) ==>
              status != Available && (status != Unknown <==> SaysTaken(Lower(body)))
    ensures status == Taken <==> httpCode == 200 && SaysTaken(Lower(body))
    ensures status == Available <==>
              httpCode == 200 && SaysAvailable(Lower(body)) && !SaysTaken(Lower(body)) && !SaysFailed(Lower(body))
  {
    if httpCode in {429, 500, 502, 503, 504} {
      return Unknown, true;
    }
    if httpCode != 200 {
      return Unknown, false;
    }
    var low := Lower(body);
    if Contains(low, "validation_error") {
      return Taken, false;
    }
    var marked := ContainsAny(low, TAKEN_MARKERS);
    if marked {
      return Taken, false;
    }
    var denied := ContainsAny(low, ["\"is_valid\":false", "\"is_valid\": false"]);
    if denied {
      return Taken, false;
    }
    assert !SaysTaken(low);
    var failed := HasErrorEnvelope(low);
    if failed {
      return Unknown, false;
    }
    var success := HasJSONString(low, "status", "success");
    if success {
      return Available, false;
    }
    var granted := ContainsAny(low, ["\"is_valid\":true", "\"is_valid\": true"]);
    if granted {
      return Available, false;
    }
    return Unknown, false;
  }
}
