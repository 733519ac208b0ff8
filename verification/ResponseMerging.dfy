/**
 What one response observation makes of the declared responses (restscope/api_behavior_monitor/contract_monitor.py).
 */
module ResponseMerging {
  import opened Wrappers
  import opened ResponseSchema
  import opened Decimal

  /** One response: schemas by media type, and everything widening leaves alone. */
  datatype Response = Response(contents: map<string, Option<Schema>>, rest: string)

  datatype Entry = Entry(status: string, response: Response)

  /** Responses in declaration order, at most one per status key. */
  type Responses = seq<Entry>

  type Spec = map<string, Responses>

  /** Decoded body; a media type arrives normalised. */
  datatype Body = Empty | InvalidJson | JsonBody(value: Json) | TextBody | BinaryBody

  datatype Evidence = Evidence(status: nat, mediaType: Option<string>, body: Body)

  datatype Change = ResponseAdded | ContentsCleared | MediaAdded | SchemaChanged

  // ---------------------------------------------------------------- merging one observation

  function Find(responses: Responses, status: string): Option<Response> {
    if responses == [] then None
    else if responses[0].status == status then Some(responses[0].response)
    else Find(responses[1..], status)
  }

  function Put(responses: Responses, status: string, response: Response): Responses {
    if responses == [] then [Entry(status, response)]
    else if responses[0].status == status then [Entry(status, response)] + responses[1..]
    else [responses[0]] + Put(responses[1..], status, response)
  }

  function Upper(s: string): string {
    seq(|s|, i requires 0 <= i < |s| => if 'a' <= s[i] <= 'z' then (s[i] as int - 32) as char else s[i])
  }

  function Wildcard(responses: Responses, wildcard: string): Option<Response> {
    if responses == [] then None
    else if Upper(responses[0].status) == wildcard then Some(responses[0].response)
    else Wildcard(responses[1..], wildcard)
  }

  /** The declared response an exact status starts from: its wildcard class, else the default. */
  function Baseline(responses: Responses, status: nat): Option<Response> {
    var wild := Wildcard(responses, Dec(status / 100) + "XX");
    if wild.Some? then wild else Find(responses, "default")
  }

  function Fresh(status: nat): Response {
    Response(map[], "Observed HTTP " + Dec(status) + " response")
  }

  function Starting(responses: Responses, status: nat): Response {
    match Find(responses, Dec(status))
    case Some(r) => r
    case None => match Baseline(responses, status) case Some(b) => b case None => Fresh(status)
  }

  function ContentKey(mediaType: Option<string>): string {
    if mediaType.Some? && mediaType.value != "" then mediaType.value else "application/octet-stream"
  }

  /** Contents after an observation. */
  function MergedContents(contents: map<string, Option<Schema>>, key: string, body: Body): map<string, Option<Schema>> {
    match body
    case Empty => map[]
    case JsonBody(v) => contents[key := Some(Widen(contents, key, Infer(v)))]
    case TextBody => contents[key := Some(Widen(contents, key, Plain("string")))]
    case _ => if key in contents then contents else contents[key := None]
  }

  function Widen(contents: map<string, Option<Schema>>, key: string, observed: Schema): Schema {
    if key in contents && contents[key].Some? then Merge(contents[key].value, observed) else observed
  }

  function MergedResponses(responses: Responses, e: Evidence): Responses {
    var start := Starting(responses, e.status);
    Put(responses, Dec(e.status),
        start.(contents := MergedContents(start.contents, ContentKey(e.mediaType), e.body)))
  }

  lemma {:induction false} FindPut(responses: Responses, status: string, response: Response, other: string)
    ensures Find(Put(responses, status, response), other) == if other == status then Some(response)
              else Find(responses, other)
  {
    if responses != [] && responses[0].status != status {
      FindPut(responses[1..], status, response, other);
    }
  }

  lemma {:induction false} PutSame(responses: Responses, status: string, response: Response)
    ensures Put(responses, status, response) == responses <==> Find(responses, status) == Some(response)
  {
    if responses != [] && responses[0].status != status {
      PutSame(responses[1..], status, response);
      var rest := Put(responses[1..], status, response);
      assert Put(responses, status, response)[1..] == rest;
      assert responses == [responses[0]] + responses[1..];
    } else if responses != [] {
      assert Put(responses, status, response)[0] == Entry(status, response);
      assert responses == [responses[0]] + responses[1..];
    }
  }

  /** Where a status key sits, or one past the end. */
  function IndexOf(responses: Responses, status: string): (i: nat)
    ensures i <= |responses|
  {
    if responses == [] || responses[0].status == status then 0 else 1 + IndexOf(responses[1..], status)
  }

  lemma {:induction false} IndexFinds(responses: Responses, status: string)
    ensures var i := IndexOf(responses, status);
            && (forall k | 0 <= k < i :: responses[k].status != status)
            && (i < |responses| ==> responses[i].status == status)
            && Find(responses, status) == if i < |responses| then Some(responses[i].response) else None
  {
    if responses != [] && responses[0].status != status { IndexFinds(responses[1..], status); }
  }

  /** Putting replaces in place or appends. */
  lemma {:induction false} PutAt(responses: Responses, status: string, response: Response)
    ensures var i := IndexOf(responses, status);
            Put(responses, status, response) ==
            if i < |responses| then responses[i := Entry(status, response)] else responses + [Entry(status, response)]
  {
    if responses != [] && responses[0].status != status { PutAt(responses[1..], status, response); }
  }

  /** The first response of a class. */
  lemma {:induction false} WildcardFirst(responses: Responses, wildcard: string, i: nat)
    requires i <= |responses| && forall k | 0 <= k < i :: Upper(responses[k].status) != wildcard
    requires i < |responses| ==> Upper(responses[i].status) == wildcard
    ensures Wildcard(responses, wildcard) == if i < |responses| then Some(responses[i].response) else None
  {
    if responses != [] && i > 0 { WildcardFirst(responses[1..], wildcard, i - 1); }
  }

  /** An observation changes the exact status alone: the wildcard it may have started from stays as it was. */
  lemma {:induction false} OtherStatusesUntouched(responses: Responses, e: Evidence, other: string)
    requires other != Dec(e.status)
    ensures Find(MergedResponses(responses, e), other) == Find(responses, other)
  {
    hide Dec, Baseline, MergedContents;
    var start := Starting(responses, e.status);
    FindPut(responses, Dec(e.status),
      start.(contents := MergedContents(start.contents, ContentKey(e.mediaType), e.body)), other);
  }

  // ---------------------------------------------------------------- where an exact status starts, and what it becomes

  /** `key` is written like 2XX for a status of that class; the letters may be small. */
  ghost predicate IsClass(key: string, status: nat) {
    var d := Dec(status / 100);
    && |key| == |d| + 2 && key[..|d|] == d && key[|d|] in {'x', 'X'} && key[|d| + 1] in {'x', 'X'}
  }

  lemma {:induction false} ClassKeys(key: string, status: nat)
    ensures Upper(key) == Dec(status / 100) + "XX" <==> IsClass(key, status)
  {
    var d := Dec(status / 100);
    ParseDec(status / 100);
    hide Dec;
    assert forall i | 0 <= i < |d| :: d[i] in d && IsDigit(d[i]);
    if Upper(key) == d + "XX" {
      assert forall i | 0 <= i < |d| :: Upper(key)[i] == d[i];
      assert Upper(key)[|d|] == 'X' && Upper(key)[|d| + 1] == 'X';
    }
    if IsClass(key, status) { ClassInCapitals(key, status); }
  }

  lemma {:induction false} ClassInCapitals(key: string, status: nat)
    requires IsClass(key, status)
    ensures Upper(key) == Dec(status / 100) + "XX"
  {
    var d := Dec(status / 100);
    ParseDec(status / 100);
    hide Dec;
    assert forall i | 0 <= i < |d| :: d[i] in d && IsDigit(d[i]);
    assert forall i | 0 <= i < |d| :: key[i] == d[i];
  }

  /** The first response under a key. */
  ghost predicate FirstUnder(responses: Responses, key: string, i: nat) {
    i < |responses| && responses[i].status == key && forall j | 0 <= j < i :: responses[j].status != key
  }

  ghost predicate FirstOfClass(responses: Responses, status: nat, i: nat) {
    && i < |responses| && IsClass(responses[i].status, status)
    && forall j | 0 <= j < i :: !IsClass(responses[j].status, status)
  }

  lemma {:induction false} FindFirst(responses: Responses, key: string)
    ensures forall i: nat | FirstUnder(responses, key, i) :: Find(responses, key) == Some(responses[i].response)
    ensures (forall i: nat :: !FirstUnder(responses, key, i)) ==> Find(responses, key) == None
  {
    IndexFinds(responses, key);
    var i := IndexOf(responses, key);
    assert i < |responses| ==> FirstUnder(responses, key, i);
  }

  lemma {:induction false} WildcardIs(responses: Responses, status: nat)
    ensures var wild := Wildcard(responses, Dec(status / 100) + "XX");
            && (forall i: nat | FirstOfClass(responses, status, i) :: wild == Some(responses[i].response))
            && ((forall i: nat :: !FirstOfClass(responses, status, i)) ==> wild == None)
  {
    hide Dec, Upper, IsClass;
    var wildcard := Dec(status / 100) + "XX";
    forall k | 0 <= k < |responses|
      ensures Upper(responses[k].status) == wildcard <==> IsClass(responses[k].status, status)
    {
      ClassKeys(responses[k].status, status);
    }
    var i := 0;
    while i < |responses| && !IsClass(responses[i].status, status)
      invariant i <= |responses| && forall k | 0 <= k < i :: !IsClass(responses[k].status, status)
    {
      i := i + 1;
    }
    WildcardFirst(responses, wildcard, i);
    assert i < |responses| ==> FirstOfClass(responses, status, i);
  }

  /** A status starts from its own response, else from that of its class, else from the default, else from nothing. */
  lemma {:induction false} ExactThenClassThenDefault(responses: Responses, status: nat)
    ensures var start := Starting(responses, status);
            if exists i: nat :: FirstUnder(responses, Dec(status), i) then
              forall i: nat | FirstUnder(responses, Dec(status), i) :: start == responses[i].response
            else if exists i: nat :: FirstOfClass(responses, status, i) then
              forall i: nat | FirstOfClass(responses, status, i) :: start == responses[i].response
            else if exists i: nat :: FirstUnder(responses, "default", i) then
              forall i: nat | FirstUnder(responses, "default", i) :: start == responses[i].response
            else start.contents == map[] && start.rest == "Observed HTTP " + Dec(status) + " response"
  {
    hide Dec, FirstUnder, FirstOfClass, Find, Wildcard;
    FindFirst(responses, Dec(status));
    FindFirst(responses, "default");
    WildcardIs(responses, status);
  }

  /** The one response an observation changes, media type by media type. */
  lemma {:induction false} ContentsAfter(responses: Responses, e: Evidence)
    requires !e.body.InvalidJson?
    ensures var start := Starting(responses, e.status);
            var media := if e.mediaType.None? || e.mediaType.value == "" then "application/octet-stream"
                         else e.mediaType.value;
            var after := Find(MergedResponses(responses, e), Dec(e.status));
            && after.Some? && after.value.rest == start.rest
            && if e.body.Empty? then after.value.contents == map[]
               else
                 && after.value.contents.Keys == start.contents.Keys + {media}
                 && (forall m | m in start.contents && m != media :: after.value.contents[m] == start.contents[m])
                 && (e.body.BinaryBody? ==>
                      after.value.contents[media] == if media in start.contents then start.contents[media] else None)
                 && (!e.body.BinaryBody? ==> after.value.contents[media].Some?)
  {
    hide Dec, Starting;
    var start := Starting(responses, e.status);
    FindPut(responses, Dec(e.status),
      start.(contents := MergedContents(start.contents, ContentKey(e.mediaType), e.body)), Dec(e.status));
  }
}
