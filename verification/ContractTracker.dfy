/**
 Checking each exact response observation once, with rollback when the change cannot
 be made durable (restscope/api_behavior_monitor/contract_monitor.py).
 */
module ContractTracker {
  import opened Wrappers
  import opened ResponseSchema
  import opened ResponseMerging
  import opened ResponseNodes
  import opened Decimal

  datatype Key = Key(operation: string, status: nat, mediaType: Option<string>)

  datatype CheckState = Checking | Checked | Pending

  datatype Outcome = Matched | Updated(changes: seq<Change>) | AlreadyChecked | PendingRetry

  datatype Failure = OperationNotFound | DocumentFailed | NotRecorded

  // ---------------------------------------------------------------- one observation, as a transition

  datatype State = State(checks: map<Key, CheckState>, live: Spec, durable: string)

  /** Building the document of a whole specification, or of one operation; None when that raises. */
  datatype Builder = Builder(whole: Spec -> Option<string>, single: (Spec, string) -> Option<string>)

  /** An observation, and whether the catalog manages to record a change it causes. */
  datatype Event = Event(operation: string, evidence: Evidence, recorded: bool)

  function KeyOf(ev: Event): Key {
    Key(ev.operation, ev.evidence.status, ev.evidence.mediaType)
  }

  predicate IsChecked(s: State, k: Key) {
    k in s.checks && s.checks[k] == Checked
  }

  /** All or nothing: a failing observation leaves every part of the state as it was. */
  function Step(s: State, ev: Event, b: Builder): State {
    var k := KeyOf(ev);
    if IsChecked(s, k) || ev.operation !in s.live || b.single(s.live, ev.operation).None? then s
    else if ev.evidence.body.InvalidJson? then s.(checks := s.checks[k := Pending])
    else
      var merged := MergedResponses(s.live[ev.operation], ev.evidence);
      var live := s.live[ev.operation := merged];
      if merged == s.live[ev.operation] then s.(checks := s.checks[k := Checked])
      else if b.whole(live).None? || !ev.recorded then s
      else State(s.checks[k := Checked], live, b.whole(live).value)
  }

  predicate Succeeds(s: State, ev: Event, b: Builder) {
    var k := KeyOf(ev);
    || IsChecked(s, k)
    || (&& ev.operation in s.live
        && b.single(s.live, ev.operation).Some?
        && (|| ev.evidence.body.InvalidJson?
            || var merged := MergedResponses(s.live[ev.operation], ev.evidence);
               merged == s.live[ev.operation] || (b.whole(s.live[ev.operation := merged]).Some? && ev.recorded)))
  }

  /** The tracker, and the parsed operations whose responses it widens in place. */
  class ResponseContractTracker {
    const builder: Builder
    const operations: map<string, OperationNode>
    var checks: map<Key, CheckState>
    var durable: string

    ghost var Repr: set<object>

    /** Operations are separate, and Repr holds all their objects. */
    ghost predicate Valid()
      reads this`Repr, Repr
    {
      && this !in Repr
      && (forall name | name in operations ::
            operations[name] in Repr && operations[name].Repr <= Repr && operations[name].Valid())
      && (forall m, n | m in operations && n in operations && m != n :: operations[m].Repr !! operations[n].Repr)
    }

    ghost function Live(): Spec
      reads operations.Values
    {
      map name | name in operations :: operations[name].Shape
    }

    ghost function Abs(): State
      reads this, operations.Values
    {
      State(checks, Live(), durable)
    }

    constructor (builder: Builder, operations: map<string, OperationNode>, durable: string, ghost objects: set<object>)
      requires forall name | name in operations ::
                 operations[name] in objects && operations[name].Repr <= objects && operations[name].Valid()
      requires forall m, n | m in operations && n in operations && m != n :: operations[m].Repr !! operations[n].Repr
      ensures Valid() && Repr == objects && this.builder == builder && this.operations == operations
      ensures Abs() == State(map[], map name | name in operations :: operations[name].Shape, durable)
    {
      this.builder, this.operations := builder, operations;
      checks, this.durable := map[], durable;
      Repr := objects;
    }

    /** The specification the operations spell out. */
    function Read(): (spec: Spec)
      requires Valid()
      reads this`Repr, Repr
      ensures spec == Live()
    {
      map name | name in operations :: operations[name].Read()
    }

    /** Deep copies of the responses of an operation, sharing nothing with it. */
    method Save(name: string) returns (saved: seq<(string, ResponseNode)>, ghost objects: set<object>)
      requires Valid() && name in operations
      ensures fresh(objects) && Spells(saved, Live()[name], objects)
    {
      saved, objects := operations[name].CopyResponses();
    }

    /** Merge an observation into its operation; no other operation is touched. */
    method Merge(name: string, e: Evidence) returns (changes: seq<Change>)
      requires Valid() && name in operations && !e.body.InvalidJson?
      modifies operations[name].Repr, this`Repr
      ensures Valid() && fresh(Repr - old(Repr))
      ensures Live() == old(Live())[name := MergedResponses(old(operations[name].Shape), e)]
      ensures changes == [] <==> Live() == old(Live())
    {
      hide MergedResponses, Valid, OperationNode.Valid;
      Open(name);
      SameUpdate(Live(), name, MergedResponses(Live()[name], e));
      changes := operations[name].MergeResponse(e);
      Adopt(name);
      assert Live()[name] == operations[name].Shape;
    }

    /** All of Valid but for one operation, whose objects may have changed. */
    ghost predicate ValidBut(name: string)
      requires name in operations
      reads this`Repr, Repr, operations[name], operations[name].Repr
    {
      && this !in Repr && this !in operations[name].Repr && operations[name].Valid()
      && (forall n | n in operations && n != name ::
            && operations[n] in Repr && operations[n].Repr <= Repr && operations[n].Valid()
            && operations[n].Repr !! operations[name].Repr)
      && (forall m, n | m in operations && n in operations && m != n && m != name && n != name ::
            operations[m].Repr !! operations[n].Repr)
    }

    lemma Open(name: string)
      requires Valid() && name in operations
      ensures this !in Repr && operations[name] in Repr && operations[name].Repr <= Repr && ValidBut(name)
      ensures forall n | n in operations && n != name :: operations[n] !in operations[name].Repr
    {
      forall n | n in operations && n != name ensures operations[n] !in operations[name].Repr {
        assert operations[n].Valid();
      }
    }

    ghost method Adopt(name: string)
      requires name in operations && ValidBut(name)
      modifies this`Repr
      ensures Valid() && Repr == old(Repr) + operations[name].Repr
    {
      hide OperationNode.Valid;
      Repr := Repr + operations[name].Repr;
      operations[name].Lengths();
    }

    /** Put the saved responses of an operation back. */
    method Restore(name: string, saved: seq<(string, ResponseNode)>, ghost shape: Responses, ghost objects: set<object>)
      requires Valid() && name in operations && Spells(saved, shape, objects)
      requires objects !! Repr && this !in objects
      modifies operations[name], this`Repr
      ensures Valid() && Repr == old(Repr) + objects
      ensures Live() == old(Live())[name := shape]
    {
      hide Valid, OperationNode.Valid, Spells;
      Open(name);
      operations[name].Restore(saved, shape, objects);
      Adopt(name);
    }

    lemma Outside()
      requires Valid()
      ensures this !in Repr
    {
    }

    /** Make the live specification durable, or put the saved responses of its operation back. */
    method Commit(ev: Event, saved: seq<(string, ResponseNode)>, ghost shape: Responses, ghost objects: set<object>)
      returns (error: Option<Failure>)
      requires Valid() && ev.operation in operations && Spells(saved, shape, objects)
      requires objects !! Repr && this !in objects
      modifies operations[ev.operation], this`Repr, this`durable
      ensures Valid() && Repr == old(Repr) + if error.Some? then objects else {}
      ensures error.Some? <==> builder.whole(old(Live())).None? || !ev.recorded
      ensures error != Some(OperationNotFound)
      ensures if error.Some? then Live() == old(Live())[ev.operation := shape] && durable == old(durable)
              else Live() == old(Live()) && builder.whole(Live()) == Some(durable)
    {
      hide Valid, OperationNode.Valid, Spells;
      Open(ev.operation);
      var document := builder.whole(Read());
      if document.None? || !ev.recorded {
        Restore(ev.operation, saved, shape, objects);
        return Some(if document.None? then DocumentFailed else NotRecorded);
      }
      durable := document.value;
      return None;
    }

    /** Widen in place and record a change; when that fails the saved copies take the place of what was widened. */
    method Record(ev: Event) returns (r: Result<seq<Change>, Failure>)
      requires Valid() && ev.operation in operations && !ev.evidence.body.InvalidJson?
      modifies this`Repr, this`durable, Repr
      ensures Valid() && fresh(Repr - old(Repr)) && r != Err(OperationNotFound)
      ensures var before := old(Live());
              var merged := MergedResponses(before[ev.operation], ev.evidence);
              var live := before[ev.operation := merged];
              if merged == before[ev.operation] then r == Ok([]) && Live() == before && durable == old(durable)
              else if builder.whole(live).None? || !ev.recorded then r.Err? && Live() == before
                && durable == old(durable)
              else r.Ok? && r.value != [] && Live() == live && builder.whole(live) == Some(durable)
    {
      hide MergedResponses, Valid, OperationNode.Valid, Spells;
      Open(ev.operation);
      ghost var before := Live();
      var saved, objects := Save(ev.operation);
      var changes := Merge(ev.operation, ev.evidence);
      Outside();
      SameUpdate(before, ev.operation, Live()[ev.operation]);
      if changes == [] { return Ok([]); }
      var error := Commit(ev, saved, before[ev.operation], objects);
      if error.Some? {
        assert Live() == before;
        return Err(error.value);
      }
      return Ok(changes);
    }

    /** The retry state is what it was before this try. */
    method ForgetTry(key: Key, previous: map<Key, CheckState>)
      requires checks == previous[key := Checking]
      modifies this`checks
      ensures checks == previous
    {
      if key in previous {
        checks := checks[key := previous[key]];
      } else {
        checks := checks - {key};
      }
    }

    /** An observation that shows something: checked afterwards, or as if it had not been made. */
    method Attempt(ev: Event) returns (r: Result<Outcome, Failure>)
      requires Valid() && !IsChecked(Abs(), KeyOf(ev)) && !ev.evidence.body.InvalidJson?
      requires ev.operation in operations && builder.single(Live(), ev.operation).Some?
      modifies this, Repr
      ensures Valid() && fresh(Repr - old(Repr))
      ensures Abs() == Step(old(Abs()), ev, builder)
      ensures r.Ok? <==> Succeeds(old(Abs()), ev, builder)
      ensures r.Ok? ==> (r.value.Matched? || (r.value.Updated? && r.value.changes != [])) && IsChecked(Abs(), KeyOf(ev))
      ensures r.Err? ==> r.error != OperationNotFound
      ensures r.Ok? && r.value.Updated? <==> Live() != old(Live())
    {
      hide MergedResponses, Valid, OperationNode.Valid;
      Outside();
      var key, previousChecks := KeyOf(ev), checks;
      checks := checks[key := Checking];
      SameUpdate(Live(), ev.operation, MergedResponses(Live()[ev.operation], ev.evidence));
      var changes := Record(ev);
      if changes.Err? {
        ForgetTry(key, previousChecks);
        return Err(changes.error);
      }
      checks := checks[key := Checked];
      return Ok(if changes.value != [] then Updated(changes.value) else Matched);
    }

    /** Compare one observation with the live responses and record a real change. */
    method Observe(ev: Event) returns (r: Result<Outcome, Failure>)
      requires Valid()
      modifies this, Repr
      ensures Valid() && fresh(Repr - old(Repr))
      ensures Abs() == Step(old(Abs()), ev, builder)
      ensures r.Ok? <==> Succeeds(old(Abs()), ev, builder)
      ensures r.Err? ==> Abs() == old(Abs())
      ensures r == Ok(AlreadyChecked) <==> IsChecked(old(Abs()), KeyOf(ev))
      ensures r.Ok? && r.value.Updated? <==> Live() != old(Live())
      ensures r.Ok? && (r.value.Updated? || r.value.Matched?) ==> IsChecked(Abs(), KeyOf(ev))
      ensures r == Err(OperationNotFound) <==> !IsChecked(old(Abs()), KeyOf(ev)) && ev.operation !in operations
      ensures r == Ok(PendingRetry)
         <==> && !IsChecked(old(Abs()), KeyOf(ev)) && ev.operation in operations
              && builder.single(old(Live()), ev.operation).Some? && ev.evidence.body.InvalidJson?
      ensures r == Ok(PendingRetry) ==> Live() == old(Live()) && !IsChecked(Abs(), KeyOf(ev))
    {
      hide MergedResponses, Valid, OperationNode.Valid;
      Outside();
      var key := KeyOf(ev);
      if key in checks && checks[key] == Checked {
        return Ok(AlreadyChecked);
      }
      if ev.operation !in operations {
        return Err(OperationNotFound);
      }
      if builder.single(Read(), ev.operation).None? {
        return Err(DocumentFailed);
      }
      if ev.evidence.body.InvalidJson? {
        checks := checks[key := Pending];
        return Ok(PendingRetry);
      }
      r := Attempt(ev);
    }

    /** Feed a stream of observations, ignoring failures as the pipeline does. */
    method ObserveAll(events: seq<Event>)
      requires Valid()
      modifies this, Repr
      ensures Valid() && fresh(Repr - old(Repr))
      ensures Abs() == Run(old(Abs()), events, builder)
    {
      hide Valid, Step, OperationNode.Valid;
      for i := 0 to |events|
        invariant Valid() && fresh(Repr - old(Repr))
        invariant Abs() == Run(old(Abs()), events[..i], builder)
      {
        assert events[..i + 1][..i] == events[..i];
        var _ := Observe(events[i]);
      }
      assert events[..|events|] == events;
    }
  }

  lemma {:induction false} SameUpdate(live: Spec, name: string, responses: Responses)
    requires name in live
    ensures live[name := responses] == live <==> responses == live[name]
  {
    if responses == live[name] {
      assert live[name := responses] == live;
    } else {
      assert live[name := responses][name] != live[name];
    }
  }

  // ---------------------------------------------------------------- whole runs

  function Run(s: State, events: seq<Event>, b: Builder): State {
    if events == [] then s
    else Step(Run(s, events[..|events| - 1], b), events[|events| - 1], b)
  }

  /** The durable document is the one built from the live responses. */
  ghost predicate Synchronised(s: State, b: Builder) {
    b.whole(s.live) == Some(s.durable)
  }

  /** Over any stream of successful and failing observations the documents stay in step. */
  lemma {:induction false} RunSynchronised(s: State, events: seq<Event>, b: Builder)
    requires Synchronised(s, b)
    ensures Synchronised(Run(s, events, b), b)
  {
    if events != [] {
      RunSynchronised(s, events[..|events| - 1], b);
      StepSynchronised(Run(s, events[..|events| - 1], b), events[|events| - 1], b);
    }
  }

  lemma {:induction false} StepSynchronised(s: State, ev: Event, b: Builder)
    requires Synchronised(s, b)
    ensures Synchronised(Step(s, ev, b), b)
  {
    hide MergedResponses;
    if ev.operation in s.live {
      assert s.live[ev.operation := s.live[ev.operation]] == s.live;
    }
  }

  function Without(events: seq<Event>, k: Key): seq<Event> {
    if events == [] then []
    else
      var before := Without(events[..|events| - 1], k);
      if KeyOf(events[|events| - 1]) == k then before else before + [events[|events| - 1]]
  }

  lemma {:induction false} StaysChecked(s: State, events: seq<Event>, b: Builder, k: Key)
    requires IsChecked(s, k)
    ensures IsChecked(Run(s, events, b), k)
  {
    if events != [] {
      StaysChecked(s, events[..|events| - 1], b, k);
    }
  }

  /** Once a key is checked, its later observations could as well be dropped from any run. */
  lemma {:induction false} CheckedOnce(s: State, events: seq<Event>, b: Builder, k: Key)
    requires IsChecked(s, k)
    ensures Run(s, events, b) == Run(s, Without(events, k), b)
  {
    if events != [] {
      var before, last := events[..|events| - 1], events[|events| - 1];
      CheckedOnce(s, before, b, k);
      StaysChecked(s, before, b, k);
      var kept := Without(before, k);
      if KeyOf(last) != k {
        assert (kept + [last])[..|kept|] == kept;
      }
    }
  }

  /** An observation that shows something, made while its key is open, and merged and recorded. */
  ghost predicate Checks(s: State, events: seq<Event>, b: Builder, k: Key, i: nat) {
    && i < |events| && KeyOf(events[i]) == k && !events[i].evidence.body.InvalidJson?
    && Succeeds(Run(s, events[..i], b), events[i], b)
  }

  /** A key is checked after a run exactly when it was before, or a decodable observation of it has succeeded. */
  lemma {:induction false} CheckedExactly(s: State, events: seq<Event>, b: Builder, k: Key)
    ensures IsChecked(Run(s, events, b), k) <==> IsChecked(s, k) || exists i: nat :: Checks(s, events, b, k, i)
  {
    hide MergedResponses;
    if events != [] {
      var before, n := events[..|events| - 1], |events| - 1;
      CheckedExactly(s, before, b, k);
      forall i: nat | i < n
        ensures Checks(s, events, b, k, i) <==> Checks(s, before, b, k, i)
      {
        assert before[..i] == events[..i];
      }
      assert events[..n] == before;
      StepChecks(Run(s, before, b), events[n], b, k);
      assert Checks(s, events, b, k, n) <==> KeyOf(events[n]) == k && !events[n].evidence.body.InvalidJson?
                                             && Succeeds(Run(s, before, b), events[n], b);
    }
  }

  lemma {:induction false} StepChecks(s: State, ev: Event, b: Builder, k: Key)
    ensures IsChecked(Step(s, ev, b), k)
       <==> IsChecked(s, k) || (KeyOf(ev) == k && !ev.evidence.body.InvalidJson? && Succeeds(s, ev, b))
  {
    hide MergedResponses;
    if ev.operation in s.live {
      SameUpdate(s.live, ev.operation, MergedResponses(s.live[ev.operation], ev.evidence));
    }
  }

  /**
   However many bodies of a key could not be decoded, it is looked at again: the next JSON body that succeeds is
   accepted by the live schema.
   */
  lemma {:induction false} RetriedUntilDecoded(s: State, events: seq<Event>, ev: Event, b: Builder, v: Json)
    requires !IsChecked(s, KeyOf(ev)) && ev.evidence.body == JsonBody(v)
    requires forall g | g in events && KeyOf(g) == KeyOf(ev) :: g.evidence.body.InvalidJson?
    ensures !IsChecked(Run(s, events, b), KeyOf(ev))
    ensures Succeeds(Run(s, events, b), ev, b) ==>
              var schema := LiveSchema(Run(s, events + [ev], b), KeyOf(ev)); schema.Some? && Accepts(schema.value, v)
  {
    hide Run, Succeeds, Step, Accepts, LiveSchema;
    CheckedExactly(s, events, b, KeyOf(ev));
    RunSnoc(s, events, ev, b);
    if Succeeds(Run(s, events, b), ev, b) {
      ObservedIsAccepted(Run(s, events, b), ev, b, v, v);
    }
  }

  lemma {:induction false} RunSnoc(s: State, events: seq<Event>, ev: Event, b: Builder)
    ensures Run(s, events + [ev], b) == Step(Run(s, events, b), ev, b)
  {
    assert (events + [ev])[..|events|] == events;
  }

  /** An undecodable body teaches nothing. */
  lemma {:induction false} UndecodableTeachesNothing(s: State, events: seq<Event>, b: Builder)
    requires forall g | g in events :: g.evidence.body.InvalidJson?
    ensures Run(s, events, b).live == s.live && Run(s, events, b).durable == s.durable
  {
    if events != [] {
      UndecodableTeachesNothing(s, events[..|events| - 1], b);
      assert events[|events| - 1] in events;
    }
  }

  /** Where everything can be built and recorded, an observation fails only for an unknown operation. */
  lemma {:induction false} FailsOnlyIfUnknown(s: State, ev: Event, b: Builder)
    requires ev.recorded && !IsChecked(s, KeyOf(ev))
    requires forall live :: b.whole(live).Some? && b.single(live, ev.operation).Some?
    ensures Succeeds(s, ev, b) <==> ev.operation in s.live
  {
    hide MergedResponses;
    if ev.operation in s.live {
      assert b.single(s.live, ev.operation).Some?;
      assert b.whole(s.live[ev.operation := MergedResponses(s.live[ev.operation], ev.evidence)]).Some?;
    }
  }

  /** A change that cannot be built or recorded fails and leaves everything as it was. */
  lemma {:induction false} UnrecordedChangesNothing(s: State, ev: Event, b: Builder)
    requires !ev.recorded || forall live :: b.whole(live).None?
    ensures Step(s, ev, b).live == s.live && Step(s, ev, b).durable == s.durable
    ensures !Succeeds(s, ev, b) ==> Step(s, ev, b) == s
  {
    hide MergedResponses;
  }

  /** An operation that has no document of its own is not looked at. */
  lemma {:induction false} UndocumentedIsLeftAlone(s: State, ev: Event, b: Builder)
    requires b.single(s.live, ev.operation).None?
    ensures Step(s, ev, b) == s && (Succeeds(s, ev, b) <==> IsChecked(s, KeyOf(ev)))
  {
    hide MergedResponses;
  }

  /** What the live specification says of one exact response and media type. */
  ghost function LiveSchema(s: State, k: Key): Option<Schema> {
    if k.operation !in s.live then None
    else match Find(s.live[k.operation], Dec(k.status))
      case None => None
      case Some(r) =>
        var media := if k.mediaType.None? || k.mediaType.value == "" then "application/octet-stream"
                     else k.mediaType.value;
        if media in r.contents then r.contents[media] else None
  }

  /**
   A JSON observation that is accepted makes the live schema accept the observed value, and everything the schema of
   that exact response accepted before. A text observation makes it accept texts.
   */
  lemma {:induction false} ObservedIsAccepted(s: State, ev: Event, b: Builder, v: Json, w: Json)
    requires Succeeds(s, ev, b) && !IsChecked(s, KeyOf(ev))
    requires ev.evidence.body == JsonBody(v) || (ev.evidence.body.TextBody? && v.JText?)
    ensures IsChecked(Step(s, ev, b), KeyOf(ev))
    ensures LiveSchema(Step(s, ev, b), KeyOf(ev)).Some?
    ensures Accepts(LiveSchema(Step(s, ev, b), KeyOf(ev)).value, v)
    ensures LiveSchema(s, KeyOf(ev)).Some? && Accepts(LiveSchema(s, KeyOf(ev)).value, w) ==>
              Accepts(LiveSchema(Step(s, ev, b), KeyOf(ev)).value, w)
  {
    hide Infer, Accepts, Merge;
    var responses := s.live[ev.operation];
    var start, key := Starting(responses, ev.evidence.status), ContentKey(ev.evidence.mediaType);
    var contents := MergedContents(start.contents, key, ev.evidence.body);
    FindPut(responses, Dec(ev.evidence.status), start.(contents := contents), Dec(ev.evidence.status));
    var shown := if ev.evidence.body.JsonBody? then Infer(v) else Plain("string");
    assert Accepts(shown, v) by { if ev.evidence.body.JsonBody? { InferAccepts(v); } else { TextIsString(v); } }
    if key in start.contents && start.contents[key].Some? {
      MergeAccepts(start.contents[key].value, shown, v);
      if Accepts(start.contents[key].value, w) {
        MergeAccepts(start.contents[key].value, shown, w);
      }
    }
  }

  lemma {:induction false} TextIsString(v: Json)
    requires v.JText?
    ensures Accepts(Plain("string"), v)
  {
  }

  /** Observations touch no operation but their own. */
  lemma {:induction false} OtherOperationsUntouched(s: State, events: seq<Event>, b: Builder, operation: string)
    requires operation in s.live && forall ev | ev in events :: ev.operation != operation
    ensures operation in Run(s, events, b).live && Run(s, events, b).live[operation] == s.live[operation]
  {
    if events != [] {
      var before, last := events[..|events| - 1], events[|events| - 1];
      assert events == before + [last];
      OtherOperationsUntouched(s, before, b, operation);
    }
  }

  /** One response keeps accepting what it accepted, under every media type, unless the body was empty. */
  lemma {:induction false} ContentsKeep(contents: map<string, Option<Schema>>, key: string, body: Body, other: string,
                                        w: Json)
    requires other in contents && contents[other].Some? && Accepts(contents[other].value, w)
    ensures var after := MergedContents(contents, key, body);
            !body.Empty? <==> other in after && after[other].Some? && Accepts(after[other].value, w)
  {
    hide Infer, Accepts, Merge;
    if other == key {
      if body.JsonBody? {
        MergeAccepts(contents[key].value, Infer(body.value), w);
      } else if body.TextBody? {
        MergeAccepts(contents[key].value, Plain("string"), w);
      }
    }
  }

  /** Where the exact response declares some content, an empty body changes it. */
  lemma {:induction false} EmptyBodyClears(responses: Responses, e: Evidence, key: string)
    requires e.body.Empty? && Find(responses, Dec(e.status)).Some?
    requires key in Find(responses, Dec(e.status)).value.contents
    ensures MergedResponses(responses, e) != responses
    ensures Find(MergedResponses(responses, e), Dec(e.status)).Some?
    ensures Find(MergedResponses(responses, e), Dec(e.status)).value.contents == map[]
  {
    hide Dec, Baseline;
    var merged := Starting(responses, e.status).(contents := map[]);
    PutSame(responses, Dec(e.status), merged);
    FindPut(responses, Dec(e.status), merged, Dec(e.status));
  }

  /**
   Observing forgets accepted values only through an empty body, which clears the contents
   of its exact response: any other observation keeps every live schema at least as wide.
   */
  lemma {:induction false} OnlyEmptyBodiesForget(s: State, ev: Event, b: Builder, k: Key, w: Json)
    requires LiveSchema(s, k).Some? && Accepts(LiveSchema(s, k).value, w)
    ensures LiveSchema(Step(s, ev, b), k).Some? && Accepts(LiveSchema(Step(s, ev, b), k).value, w)
            <==> !(ev.evidence.body.Empty? && Succeeds(s, ev, b) && !IsChecked(s, KeyOf(ev))
                   && ev.operation == k.operation && Dec(ev.evidence.status) == Dec(k.status))
  {
    hide Infer, Accepts, Merge, MergedContents, Dec, Baseline;
    if ev.evidence.body.Empty? && ev.operation == k.operation && Dec(ev.evidence.status) == Dec(k.status) {
      EmptyBodyClears(s.live[ev.operation], ev.evidence, ContentKey(k.mediaType));
    }
    var after := Step(s, ev, b);
    if after.live != s.live && ev.operation == k.operation {
      var responses := s.live[ev.operation];
      var start, key := Starting(responses, ev.evidence.status), ContentKey(ev.evidence.mediaType);
      var merged := start.(contents := MergedContents(start.contents, key, ev.evidence.body));
      FindPut(responses, Dec(ev.evidence.status), merged, Dec(k.status));
      if Dec(ev.evidence.status) == Dec(k.status) {
        ContentsKeep(start.contents, key, ev.evidence.body, ContentKey(k.mediaType), w);
      }
    }
  }

  // ---------------------------------------------------------------- an empty body that forgets

  /** An operation whose status 200 declares text. */
  function DeclaredText(): State {
    State(map[], map["list" := [Entry("200", Response(map["text/plain" := Some(Plain("string"))], "words"))]], "")
  }

  function NoContent(): Event {
    Event("list", Evidence(200, None, Empty), true)
  }

  function AlwaysBuilds(): Builder {
    Builder((live: Spec) => Some("document"), (live: Spec, name: string) => Some("document"))
  }

  /** One answer without a body, and the declared text is forgotten. */
  lemma {:induction false} EmptyBodyForgets()
    ensures var k := Key("list", 200, Some("text/plain"));
            && LiveSchema(DeclaredText(), k) == Some(Plain("string"))
            && Accepts(Plain("string"), JText("hello"))
            && LiveSchema(Step(DeclaredText(), NoContent(), AlwaysBuilds()), k) == None
  {
    assert Dec(2) == "2" && Dec(20) == "20" && Dec(200) == "200";
    EmptyBodyClears(DeclaredText().live["list"], NoContent().evidence, "text/plain");
  }
}
