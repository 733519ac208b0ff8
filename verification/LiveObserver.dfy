/** The live observer's change stream and its browser reducer (restscope/observability/observer.py, ui/src/state.ts). */
module LiveObserver {
  import opened Wrappers

  /** `body` stands for every other field of the event. */
  datatype Event = Event(id: string, order: nat, revision: nat, status: string, stopped: bool, body: string)

  datatype Run = Run(id: string, status: string, request: string, result: Option<string>, ended: bool)

  datatype Orchestration = Orchestration(revision: int, content: string)

  /** How a run ends. `Errored(None)` is an exception whose text cannot be read. */
  datatype RunEnd = Reported(status: string, result: string) | Errored(text: Option<string>)

  datatype Update = Reset(run: Run) | RunUpdate(run: Run) | Upsert(event: Event) | Replace(orchestration: Orchestration)

  datatype Change = Change(cursor: nat, update: Update)

  /** What a browser holds. `ids` is first-seen order; what it shows is a function of these fields. */
  datatype Client = Client(run: Option<Run>, ids: seq<string>, events: map<string, Event>,
                           orchestration: Option<Orchestration>, cursor: nat)

  // ---------------------------------------------------------------- the reducer

  function WithEvent(c: Client, e: Event): Client {
    c.(ids := if e.id in c.events then c.ids else c.ids + [e.id], events := c.events[e.id := e])
  }

  function ApplyUpdate(c: Client, u: Update): Client {
    match u
    case Reset(run) => Client(Some(run), [], map[], None, c.cursor)
    case RunUpdate(run) => c.(run := Some(run))
    case Upsert(event) => WithEvent(c, event)
    case Replace(o) =>
      if c.orchestration.Some? && o.revision <= c.orchestration.value.revision then c else c.(orchestration := Some(o))
  }

  /** A change that is not newer than what the client has seen is ignored. */
  function Apply(c: Client, change: Change): Client {
    if change.cursor <= c.cursor then c else ApplyUpdate(c, change.update).(cursor := change.cursor)
  }

  function Fold(c: Client, changes: seq<Change>): Client {
    if changes == [] then c else Apply(Fold(c, changes[..|changes| - 1]), changes[|changes| - 1])
  }

  /** Changes that a client has seen already are ignored, so overlapping deliveries do no harm. */
  lemma {:induction false} OverlapIsIgnored(c: Client, seen: seq<Change>, newer: seq<Change>)
    requires forall k | k in seen :: k.cursor <= c.cursor
    ensures Fold(c, seen + newer) == Fold(c, newer)
  {
    hide ApplyUpdate;
    if newer != [] {
      var before, last := newer[..|newer| - 1], newer[|newer| - 1];
      OverlapIsIgnored(c, seen, before);
      assert seen + newer == (seen + before) + [last];
      assert ((seen + before) + [last])[..|seen + before|] == seen + before;
    } else if seen != [] {
      var before, last := seen[..|seen| - 1], seen[|seen| - 1];
      assert last in seen && seen + [] == seen && before + [] == before;
      OverlapIsIgnored(c, before, []);
    }
  }

  /** An Orchestration that is not newer than the one held is ignored. */
  lemma {:induction false} OlderOrchestrationIsIgnored(c: Client, o: Orchestration)
    ensures ApplyUpdate(c, Replace(o)) == c
       <==> c.orchestration.Some? && (o.revision <= c.orchestration.value.revision || c.orchestration.value == o)
  {
  }

  /** The changes newer than a cursor. */
  function After(changes: seq<Change>, cursor: nat): seq<Change> {
    if changes == [] then []
    else
      var last := changes[|changes| - 1];
      After(changes[..|changes| - 1], cursor) + (if last.cursor > cursor then [last] else [])
  }

  /** A full snapshot replaces the state unless it is older; within a run a newer Orchestration is kept. */
  function Hydrate(c: Client, snapshot: Client): Client {
    if snapshot.cursor < c.cursor then c
    else
      var sameRun := (if c.run.Some? then Some(c.run.value.id) else None)
                     == (if snapshot.run.Some? then Some(snapshot.run.value.id) else None);
      var keep := sameRun && c.orchestration.Some?
                  && (snapshot.orchestration.None?
                      || snapshot.orchestration.value.revision <= c.orchestration.value.revision);
      if keep then snapshot.(orchestration := c.orchestration) else snapshot
  }

  function HydrateAll(c: Client, snapshots: seq<Client>): Client {
    if snapshots == [] then c else Hydrate(HydrateAll(c, snapshots[..|snapshots| - 1]), snapshots[|snapshots| - 1])
  }

  // ---------------------------------------------------------------- the run, as the calls left it

  /** The calls that can change the run. */
  datatype Call = BeginCalled(id: string, request: string) | EndCalled(end: RunEnd) | InterruptCalled | CloseCalled

  datatype RunState = RunState(run: Option<Run>, closed: bool)

  predicate IsRunning(s: RunState) {
    !s.closed && s.run.Some? && s.run.value.status == "running"
  }

  function Called(s: RunState, call: Call): RunState {
    match call
    case BeginCalled(id, request) => if s.closed then s else s.(run := Some(Run(id, "running", request, None, false)))
    case EndCalled(end) =>
      if !IsRunning(s) then s
      else s.(run := Some(if end == Errored(None) then s.run.value.(status := "errored") else Ended(s.run.value, end)))
    case InterruptCalled => if IsRunning(s) then s.(run := Some(Stopped(s.run.value))) else s
    case CloseCalled => RunState(None, true)
  }

  function RunAfter(calls: seq<Call>): RunState {
    if calls == [] then RunState(None, false) else Called(RunAfter(calls[..|calls| - 1]), calls[|calls| - 1])
  }

  /** Since the last run began, a running run was ended with an exception whose text cannot be read. */
  predicate Unread(calls: seq<Call>) {
    calls != []
    && var before, last := calls[..|calls| - 1], calls[|calls| - 1];
       match last
       case BeginCalled(_, _) => RunAfter(before).closed && Unread(before)
       case EndCalled(end) => Unread(before) || (end == Errored(None) && IsRunning(RunAfter(before)))
       case InterruptCalled => Unread(before)
       case CloseCalled => false
  }

  lemma {:induction false} OneMoreCall(calls: seq<Call>, call: Call)
    ensures RunAfter(calls + [call]) == Called(RunAfter(calls), call)
    ensures Unread(calls + [call]) ==
            match call
            case BeginCalled(_, _) => RunAfter(calls).closed && Unread(calls)
            case EndCalled(end) => Unread(calls) || (end == Errored(None) && IsRunning(RunAfter(calls)))
            case InterruptCalled => Unread(calls)
            case CloseCalled => false
  {
    assert (calls + [call])[..|calls|] == calls;
  }

  /** Nothing but the next run, or closing the observer, ends this. */
  lemma {:induction false} UnreadUntilNextRun(calls: seq<Call>, more: seq<Call>, id: string, request: string)
    requires Unread(calls) && forall c | c in more :: c.EndCalled? || c.InterruptCalled?
    ensures Unread(calls + more) && RunAfter(calls + more) == RunAfter(calls)
    ensures !Unread(calls + more + [BeginCalled(id, request)])
  {
    if more == [] {
      assert calls + more == calls;
    } else {
      var before, last := more[..|more| - 1], more[|more| - 1];
      assert more == before + [last];
      UnreadUntilNextRun(calls, before, id, request);
      assert calls + more == (calls + before) + [last];
      OneMoreCall(calls + before, last);
    }
    UnreadMeansOpen(calls);
    OneMoreCall(calls + more, BeginCalled(id, request));
  }

  lemma {:induction false} UnreadMeansOpen(calls: seq<Call>)
    requires Unread(calls)
    ensures !RunAfter(calls).closed && RunAfter(calls).run.Some? && RunAfter(calls).run.value.status == "errored"
  {
    var before, last := calls[..|calls| - 1], calls[|calls| - 1];
    assert calls == before + [last];
    OneMoreCall(before, last);
    if Unread(before) { UnreadMeansOpen(before); }
  }

  // ---------------------------------------------------------------- what the stream guarantees

  ghost predicate Increasing(changes: seq<Change>, cursor: nat) {
    && (forall i, j | 0 <= i < j < |changes| :: changes[i].cursor < changes[j].cursor)
    && (forall i | 0 <= i < |changes| :: 0 < changes[i].cursor <= cursor)
  }

  /** Replaying what is newer than any cursor onto the state held at it gives `now`. */
  ghost predicate Replays(held: map<nat, Client>, changes: seq<Change>, now: Client) {
    && (forall c: nat | c <= now.cursor :: c in held)
    && (forall c | c in held :: held[c].cursor == c <= now.cursor && Fold(held[c], After(changes, c)) == now)
  }

  ghost predicate SameRun(a: Client, b: Client) {
    a.run.Some? && b.run.Some? && a.run.value.id == b.run.value.id
  }

  /** Within one run the Orchestration revision does not go back, and a revision has one content. */
  ghost predicate NotBack(a: Client, b: Client) {
    && (a.run.None? ==> a.orchestration.None?)
    && (SameRun(a, b) && a.orchestration.Some? ==>
          && b.orchestration.Some?
          && (a.orchestration == b.orchestration || a.orchestration.value.revision < b.orchestration.value.revision))
  }

  /** From each state held to every later one, and to `now`. */
  ghost predicate NeverBack(held: map<nat, Client>, now: Client) {
    && (forall c, d | c in held && d in held && c <= d :: NotBack(held[c], held[d]))
    && (forall c | c in held :: NotBack(held[c], now))
  }

  ghost predicate Indexed(order: seq<string>, events: map<string, Event>) {
    && (forall id :: id in order <==> id in events)
    && (forall id | id in events :: events[id].id == id)
    && (forall i, j | 0 <= i < j < |order| :: order[i] != order[j])
  }

  lemma {:induction false} AfterNothing(changes: seq<Change>, cursor: nat)
    requires forall i | 0 <= i < |changes| :: changes[i].cursor <= cursor
    ensures After(changes, cursor) == []
  {
    if changes != [] {
      AfterNothing(changes[..|changes| - 1], cursor);
    }
  }

  lemma {:induction false} AfterOneMore(changes: seq<Change>, change: Change, cursor: nat)
    ensures After(changes + [change], cursor)
            == After(changes, cursor) + (if change.cursor > cursor then [change] else [])
  {
    assert (changes + [change])[..|changes|] == changes;
  }

  lemma {:induction false} FoldOneMore(c: Client, changes: seq<Change>, change: Change)
    ensures Fold(c, changes + [change]) == Apply(Fold(c, changes), change)
  {
    assert (changes + [change])[..|changes|] == changes;
  }

  /** Publishing the step that leads from `now` to `next` keeps every client in step. */
  lemma {:induction false} PublishKeeps(held: map<nat, Client>, changes: seq<Change>, now: Client, change: Change,
                                        next: Client)
    requires Replays(held, changes, now) && Increasing(changes, now.cursor)
    requires change.cursor == now.cursor + 1 && Apply(now, change) == next
    ensures Increasing(changes + [change], next.cursor)
    ensures Replays(held[next.cursor := next], changes + [change], next)
  {
    hide ApplyUpdate, Fold, After;
    var longer, all := changes + [change], held[next.cursor := next];
    forall c | c in all
      ensures Fold(all[c], After(longer, c)) == next
    {
      AfterOneMore(changes, change, c);
      if c == next.cursor {
        AfterNothing(changes, c);
        assert After(longer, c) == [];
        FoldNothing(next);
      } else {
        FoldOneMore(held[c], After(changes, c), change);
      }
    }
  }

  predicate TellsRun(changes: seq<Change>) {
    exists c | c in changes :: c.update.Reset? || c.update.RunUpdate?
  }

  /** Clients that differ in the run alone go on to differ in it alone, until a change tells the run. */
  lemma {:induction false} FoldOtherRun(c: Client, run: Option<Run>, changes: seq<Change>)
    requires forall k | k in changes :: k.cursor > c.cursor
    requires forall i, j | 0 <= i < j < |changes| :: changes[i].cursor < changes[j].cursor
    ensures var told := Fold(c, changes);
            && Fold(c.(run := run), changes) == told.(run := if TellsRun(changes) then told.run else run)
            && told.cursor == if changes == [] then c.cursor else changes[|changes| - 1].cursor
  {
    hide Fold, Apply, TellsRun;
    FoldNothing(c);
    FoldNothing(c.(run := run));
    TellsMore(changes);
    if changes != [] {
      var before, last := changes[..|changes| - 1], changes[|changes| - 1];
      assert changes == before + [last];
      FoldOtherRun(c, run, before);
      FoldOneMore(c, before, last);
      FoldOneMore(c.(run := run), before, last);
      ApplyOtherRun(Fold(c, before), if TellsRun(before) then Fold(c, before).run else run, last);
    }
  }

  lemma {:induction false} ApplyOtherRun(c: Client, run: Option<Run>, change: Change)
    requires change.cursor > c.cursor
    ensures var told := Apply(c, change);
            && Apply(c.(run := run), change) == told.(run := if TellsRun([change]) then told.run else run)
            && told.cursor == change.cursor && (TellsRun([change]) || told.run == c.run)
  {
    assert change in [change];
  }

  lemma {:induction false} TellsMore(changes: seq<Change>)
    ensures TellsRun(changes) <==>
            changes != [] && (TellsRun(changes[..|changes| - 1]) || TellsRun([changes[|changes| - 1]]))
  {
    if changes != [] {
      assert changes == changes[..|changes| - 1] + [changes[|changes| - 1]];
    }
  }

  lemma {:induction false} AfterIncreases(changes: seq<Change>, cursor: nat, seen: nat)
    requires Increasing(changes, cursor)
    ensures forall k | k in After(changes, seen) :: k.cursor > seen && k in changes
    ensures forall i, j | 0 <= i < j < |After(changes, seen)| ::
              After(changes, seen)[i].cursor < After(changes, seen)[j].cursor
  {
    hide Increasing;
    if changes != [] {
      var before, last := changes[..|changes| - 1], changes[|changes| - 1];
      LastIsNewest(changes, cursor);
      AfterIncreases(before, cursor, seen);
      JoinIncreases(After(before, seen), if last.cursor > seen then [last] else []);
    }
  }

  lemma {:induction false} LastIsNewest(changes: seq<Change>, cursor: nat)
    requires Increasing(changes, cursor) && changes != []
    ensures var before, last := changes[..|changes| - 1], changes[|changes| - 1];
            && Increasing(before, cursor) && last in changes
            && forall k | k in before :: k in changes && k.cursor < last.cursor
  {
  }

  lemma {:induction false} JoinIncreases(older: seq<Change>, newer: seq<Change>)
    requires forall i, j | 0 <= i < j < |older| :: older[i].cursor < older[j].cursor
    requires |newer| <= 1 && forall k, l | k in older && l in newer :: k.cursor < l.cursor
    ensures forall i, j | 0 <= i < j < |older + newer| :: (older + newer)[i].cursor < (older + newer)[j].cursor
  {
    assert forall i | 0 <= i < |older| :: older[i] in older;
    assert forall i | 0 <= i < |newer| :: newer[i] in newer;
  }

  lemma {:induction false} AfterHolds(changes: seq<Change>, seen: nat)
    ensures forall c | c in changes && c.cursor > seen :: c in After(changes, seen)
  {
    if changes != [] {
      var before, last := changes[..|changes| - 1], changes[|changes| - 1];
      assert changes == before + [last];
      AfterHolds(before, seen);
    }
  }

  lemma {:induction false} FoldNothing(c: Client)
    ensures Fold(c, []) == c
  {
  }

  /** A reset brings every client to the same fresh state, whatever it held. */
  lemma {:induction false} ResetKeeps(held: map<nat, Client>, now: Client, run: Run)
    requires forall c: nat | c <= now.cursor :: c in held
    requires forall c | c in held :: held[c].cursor == c <= now.cursor
    ensures var change := Change(now.cursor + 1, Reset(run));
            var next := Client(Some(run), [], map[], None, now.cursor + 1);
            Increasing([change], next.cursor) && Replays(held[next.cursor := next], [change], next)
  {
    var change := Change(now.cursor + 1, Reset(run));
    var next := Client(Some(run), [], map[], None, now.cursor + 1);
    var all := held[next.cursor := next];
    forall c | c in all
      ensures Fold(all[c], After([change], c)) == next
    {
      assert [change][..0] == [];
      assert After([change], c) == if c == next.cursor then [] else [change];
    }
  }

  /** A snapshot read at some cursor: the state held there, but for what the run was by then. */
  ghost predicate IsSnapshot(held: map<nat, Client>, c: Client) {
    && c.cursor in held && c == held[c.cursor].(run := c.run)
    && (if c.run.Some? then SameRun(c, held[c.cursor]) else held[c.cursor].run.None?)
  }

  /** Snapshots may arrive in any order: a client ends up with exactly one of them, and with none older than another. */
  lemma {:induction false} HydrationAgrees(held: map<nat, Client>, now: Client, c: Client, snapshots: seq<Client>)
    requires NeverBack(held, now) && IsSnapshot(held, c) && forall s | s in snapshots :: IsSnapshot(held, s)
    ensures var r := HydrateAll(c, snapshots);
            && (r == c || r in snapshots) && IsSnapshot(held, r)
            && c.cursor <= r.cursor && forall s | s in snapshots :: s.cursor <= r.cursor
  {
    hide IsSnapshot, NeverBack, Hydrate;
    if snapshots != [] {
      var before, last := snapshots[..|snapshots| - 1], snapshots[|snapshots| - 1];
      assert snapshots == before + [last];
      HydrationAgrees(held, now, c, before);
      HydrationPicks(held, now, HydrateAll(c, before), last);
    }
  }

  lemma {:induction false} HydrationPicks(held: map<nat, Client>, now: Client, a: Client, b: Client)
    requires NeverBack(held, now) && IsSnapshot(held, a) && IsSnapshot(held, b)
    ensures Hydrate(a, b) == if b.cursor < a.cursor then a else b
  {
    if a.cursor <= b.cursor {
      assert NotBack(held[a.cursor], held[b.cursor]);
    }
  }

  // ---------------------------------------------------------------- the observer

  class LiveRunObserver {
    var events: map<string, Event>
    var order: seq<string>
    var changes: seq<Change>
    var cursor: nat
    var nextOrder: nat
    var run: Option<Run>
    var orchestration: Option<Orchestration>
    var closed: bool
    /** For every cursor, what a client fully up to date at it holds. */
    ghost var held: map<nat, Client>
    /** The run as the stream last described it. */
    ghost var published: Option<Run>
    /** Every call so far that can change the run. */
    ghost var calls: seq<Call>

    /** The snapshot a browser reads. */
    function Snapshot(): Client
      reads this
    {
      Client(run, order, events, orchestration, cursor)
    }

    ghost function Streamed(): Client
      reads this
    {
      Snapshot().(run := published)
    }

    ghost predicate Valid()
      reads this
    {
      && Indexed(order, events) && Increasing(changes, cursor)
      && (published.Some? <==> run.Some?) && (run.Some? ==> published.value.id == run.value.id)
      && (run.None? ==> orchestration.None?) && Logged()
      && (!closed ==> Replays(held, changes, Streamed()) && NeverBack(held, Streamed()))
    }

    /** The run is what the calls made it, and all of it was published but for an unread exception. */
    ghost predicate Logged()
      reads this
    {
      && RunAfter(calls) == RunState(run, closed)
      && (if Unread(calls) then run.Some? && run.value.status == "errored"
           && published == Some(run.value.(status := "running"))
          else published == run)
    }

    constructor ()
      ensures Valid() && calls == [] && !closed && Snapshot() == Client(None, [], map[], None, 0)
      ensures held == map[0 := Snapshot()]
    {
      events, order, changes, cursor, nextOrder := map[], [], [], 0, 0;
      run, orchestration, closed := None, None, false;
      published, calls := None, [];
      held := map[0 := Client(None, [], map[], None, 0)];
    }

    /** The step every update takes while it holds the lock; `before` is what clients replay to so far. */
    method Publish(update: Update, ghost before: Client)
      requires Indexed(order, events) && Increasing(changes, cursor)
      requires (published.Some? <==> run.Some?) && (run.Some? ==> published.value.id == run.value.id)
      requires (run.None? ==> orchestration.None?) && Logged()
      requires !closed ==>
                 && before.cursor == cursor && Replays(held, changes, before) && NeverBack(held, before)
                 && ApplyUpdate(before, update) == Streamed() && Progress(before, Streamed())
      modifies this`cursor, this`changes, this`held
      ensures Valid() && cursor == old(cursor) + 1 && changes == old(changes) + [Change(cursor, update)]
      ensures Snapshot() == old(Snapshot()).(cursor := cursor)
    {
      hide Replays, NeverBack, Indexed, ApplyUpdate, Fold, After, Progress, RunAfter, Unread;
      KnownBounds(before);
      var change := Change(cursor + 1, update);
      ghost var next := Streamed().(cursor := cursor + 1);
      if closed {
        ClosedKeeps(changes, cursor, change);
      } else {
        PublishKeeps(held, changes, before, change, next);
        ProgressKeeps(held, before, Streamed(), next);
      }
      cursor := cursor + 1;
      changes := changes + [change];
      held := held[cursor := next];
    }

    lemma ResetStreams(started: Run)
      requires Valid() && !closed && forall c | c in held && held[c].run.Some? :: held[c].run.value.id != started.id
      ensures var next := Client(Some(started), [], map[], None, cursor + 1);
              && Increasing([Change(cursor + 1, Reset(started))], cursor + 1)
              && Replays(held[cursor + 1 := next], [Change(cursor + 1, Reset(started))], next)
              && NeverBack(held[cursor + 1 := next], next)
    {
      hide Replays, NeverBack, Fold, After, Increasing, RunAfter, Unread, Logged, Indexed;
      KnownCursors(held, changes, Streamed());
      ResetKeeps(held, Streamed(), started);
      NewRunKeeps(held, Streamed(), Client(Some(started), [], map[], None, cursor + 1));
    }

    lemma KnownBounds(before: Client)
      requires !closed ==> before.cursor == cursor && Replays(held, changes, before)
      ensures !closed ==> forall c | c in held :: c <= cursor
    {
    }

    /** A new run drops all earlier evidence; its identity is fresh. */
    method BeginRun(runId: string, request: string)
      requires Valid() && forall c | c in held && held[c].run.Some? :: held[c].run.value.id != runId
      modifies this
      ensures Valid() && closed == old(closed) && calls == old(calls) + [BeginCalled(runId, request)]
      ensures closed ==> Snapshot() == old(Snapshot()) && changes == old(changes)
      ensures !closed ==>
                && run == Some(Run(runId, "running", request, None, false))
                && Snapshot() == Client(run, [], map[], None, old(cursor) + 1)
                && changes == [Change(cursor, Reset(run.value))] && nextOrder == 0 && !Unread(calls)
    {
      hide Replays, NeverBack, Fold, After, Increasing, RunAfter, Unread, Indexed;
      ghost var call := BeginCalled(runId, request);
      OneMoreCall(calls, call);
      if closed {
        calls := calls + [call];
        return;
      }
      var started := Run(runId, "running", request, None, false);
      ResetStreams(started);
      NothingIndexed();
      Restart(started);
      calls := calls + [call];
    }

    /** All evidence gives way to one reset. */
    method Restart(started: Run)
      modifies this`events, this`order, this`orchestration, this`nextOrder, this`run, this`cursor, this`changes,
               this`published, this`held
      ensures Snapshot() == Client(Some(started), [], map[], None, old(cursor) + 1)
      ensures published == run && nextOrder == 0
      ensures changes == [Change(cursor, Reset(started))] && held == old(held)[cursor := Snapshot()]
    {
      events, order, orchestration, nextOrder := map[], [], None, 0;
      run, cursor := Some(started), cursor + 1;
      changes := [Change(cursor, Reset(started))];
      published := run;
      held := held[cursor := Client(run, [], map[], None, cursor)];
    }

    /** Published once, while the run is running. An unreadable exception changes the status without publishing it. */
    method EndRun(end: RunEnd)
      requires Valid()
      modifies this
      ensures Valid() && closed == old(closed) && old(changes) <= changes && calls == old(calls) + [EndCalled(end)]
      ensures var open := !closed && old(run).Some? && old(run).value.status == "running";
              && (!open ==> Snapshot() == old(Snapshot()) && changes == old(changes) && published == old(published))
              && (open && end == Errored(None) ==>
                    && Snapshot() == old(Snapshot()).(run := Some(old(run).value.(status := "errored")))
                    && changes == old(changes) && published == old(published))
              && (open && end != Errored(None) ==>
                    && run.Some? && EndsAs(old(run).value, end, run.value)
                    && Snapshot() == old(Snapshot()).(run := run, cursor := old(cursor) + 1)
                    && changes == old(changes) + [Change(cursor, RunUpdate(run.value))] && published == run)
    {
      hide Replays, NeverBack, Indexed, Fold, After, RunAfter, Unread;
      OneMoreCall(calls, EndCalled(end));
      calls := calls + [EndCalled(end)];
      if closed || run.None? || run.value.status != "running" { return; }
      if end == Errored(None) {
        run := Some(run.value.(status := "errored"));
        return;
      }
      ghost var before := Streamed();
      run := Some(Ended(run.value, end));
      published := run;
      Publish(RunUpdate(run.value), before);
    }

    /** Every running card becomes a stopped warning, then the run itself stops. */
    method InterruptRun()
      requires Valid()
      modifies this
      ensures Valid() && closed == old(closed) && old(changes) <= changes && calls == old(calls) + [InterruptCalled]
      ensures var open := !closed && old(run).Some? && old(run).value.status == "running";
              && (!open ==> Snapshot() == old(Snapshot()) && changes == old(changes) && published == old(published))
              && (open ==>
                    && published == run && run.Some? && run.value.status == "stopped" && run.value.ended
                    && run.value.result == Some("keyboard_interrupt")
                    && run.value.id == old(run).value.id && run.value.request == old(run).value.request
                    && order == old(order) && orchestration == old(orchestration) && events.Keys == old(events).Keys
                    && forall id | id in events ::
                         if old(events)[id].status == "running" then Interrupted(old(events)[id], events[id])
                         else events[id] == old(events)[id])
    {
      hide Replays, NeverBack, Indexed, Fold, After, Increasing, ApplyUpdate, StoppedAll, RunAfter, Unread;
      OneMoreCall(calls, InterruptCalled);
      if closed || run.None? || run.value.status != "running" {
        calls := calls + [InterruptCalled];
        return;
      }
      StoppedNone(events);
      for i := 0 to |order|
        invariant Valid() && !closed && run == old(run) && calls == old(calls) && old(changes) <= changes
        invariant order == old(order) && orchestration == old(orchestration)
        invariant events == StoppedAll(old(events), order[..i])
      {
        var id := order[i];
        IndexedAt(order, events, i);
        IndexedAt(old(order), old(events), i);
        StoppedNext(old(events), order, i);
        if events[id].status == "running" {
          StopEvent(id);
        }
      }
      assert order[..|order|] == order;
      AllStopped(old(events), order);
      ghost var before := Streamed();
      run := Some(Stopped(run.value));
      published, calls := run, calls + [InterruptCalled];
      RunUpdateApplies(before, run.value);
      Publish(RunUpdate(run.value), before);
    }

    method StopEvent(id: string)
      requires Valid() && id in events && events[id].id == id
      modifies this`events, this`order, this`cursor, this`changes, this`held
      ensures Valid() && order == old(order)
      ensures events == old(events)[id := Stop(old(events)[id])] && old(changes) <= changes
    {
      hide Replays, NeverBack, Indexed, Fold, After, Increasing, ApplyUpdate;
      Store(Stop(events[id]));
    }

    /** Store one complete event and publish it; a first sight appends it to the order. */
    method Store(event: Event)
      requires Valid() && (event.id in events ==> events[event.id].id == event.id)
      modifies this`events, this`order, this`cursor, this`changes, this`held
      ensures Valid() && events == old(events)[event.id := event] && cursor == old(cursor) + 1
      ensures order == if event.id in old(events) then old(order) else old(order) + [event.id]
      ensures changes == old(changes) + [Change(cursor, Upsert(event))]
    {
      hide Replays, NeverBack, Indexed, Fold, After, Increasing;
      ghost var before := Streamed();
      IndexedWith(order, events, event);
      if event.id !in events {
        order := order + [event.id];
      }
      events := events[event.id := event];
      Publish(Upsert(event), before);
    }

    /** The place of the next event in start order; storing it is a later step. */
    method AllocateOrder() returns (place: nat)
      requires Valid()
      modifies this`nextOrder
      ensures Valid() && place == nextOrder == old(nextOrder) + 1
    {
      nextOrder := nextOrder + 1;
      return nextOrder;
    }

    method UpdateEvent(id: string, status: Option<string>, body: Option<string>) returns (updated: Option<Event>)
      requires Valid()
      modifies this`events, this`order, this`cursor, this`changes, this`held
      ensures Valid() && order == old(order) && old(changes) <= changes
      ensures id !in old(events) ==> updated == None && Snapshot() == old(Snapshot())
      ensures id in old(events) ==>
                && updated.Some? && Follows(old(events)[id], status, body, updated.value)
                && Snapshot() == old(Snapshot()).(events := old(events)[id := updated.value], cursor := old(cursor) + 1)
    {
      hide Replays, NeverBack, Fold, After, Increasing;
      if id !in events { return None; }
      var event := Changed(events[id], status, body);
      Store(event);
      return Some(event);
    }

    /** Only a newer revision replaces the Orchestration. */
    method RecordOrchestration(o: Orchestration)
      requires Valid()
      modifies this
      ensures Valid() && old(changes) <= changes
      ensures if !closed && run.Some?
                && o.revision > (if old(orchestration).Some? then old(orchestration).value.revision else 0)
              then Snapshot() == old(Snapshot()).(orchestration := Some(o), cursor := old(cursor) + 1)
              else Snapshot() == old(Snapshot())
      ensures closed == old(closed) && published == old(published) && calls == old(calls)
    {
      hide Replays, NeverBack, Indexed, Fold, After, Increasing;
      if closed || run.None? { return; }
      var current := if orchestration.Some? then orchestration.value.revision else 0;
      if o.revision <= current { return; }
      ghost var before := Streamed();
      orchestration := Some(o);
      Publish(Replace(o), before);
    }

    lemma StreamIncreases()
      requires Valid()
      ensures Increasing(changes, cursor)
    {
    }

    lemma StreamedReplays(seen: nat)
      requires Valid() && !closed && seen <= cursor
      ensures seen in held && held[seen].cursor == seen && Fold(held[seen], After(changes, seen)) == Streamed()
      ensures Streamed() == Snapshot() <==> !Unread(calls)
    {
      hide Fold, After, NeverBack, Indexed, RunAfter, Unread, Increasing;
    }

    lemma SnapshotReplays(seen: nat, other: Option<Run>)
      requires Valid() && !closed && seen <= cursor && seen in held
      ensures var newer := After(changes, seen);
              Fold(held[seen].(run := other), newer) == Snapshot()
              <==> if TellsRun(newer) then !Unread(calls) else other == run
    {
      hide Fold, After, TellsRun, NeverBack, Indexed, RunAfter, Unread, Increasing, Replays, Logged;
      StreamedReplays(seen);
      AfterIncreases(changes, cursor, seen);
      FoldOtherRun(held[seen], other, After(changes, seen));
    }

    /**
     What a connected browser receives. Replayed onto the state streamed to it so far, it gives the current snapshot
     unless an exception was unread; onto a snapshot, which may show another run, it does so as well while no change
     tells the run and the run is the one shown.
     */
    method WaitAfter(seen: nat) returns (newer: seq<Change>)
      requires Valid()
      ensures newer == After(changes, seen)
      ensures forall c :: c in newer <==> c in changes && c.cursor > seen
      ensures forall i, j | 0 <= i < j < |newer| :: newer[i].cursor < newer[j].cursor
      ensures !closed && seen <= cursor ==> seen in held && Fold(held[seen], newer) == Snapshot().(run := published)
      ensures !closed && seen <= cursor ==> (Fold(held[seen], newer) == Snapshot() <==> !Unread(calls))
      ensures !closed && seen <= cursor ==> forall other ::
                Fold(held[seen].(run := other), newer) == Snapshot()
                <==> if TellsRun(newer) then !Unread(calls) else other == run
    {
      hide Fold, NeverBack, Indexed, TellsRun, RunAfter, Unread, Valid;
      newer := [];
      for i := 0 to |changes|
        invariant newer == After(changes[..i], seen)
      {
        assert changes[..i + 1][..i] == changes[..i];
        if changes[i].cursor > seen { newer := newer + [changes[i]]; }
      }
      assert changes[..|changes|] == changes;
      StreamIncreases();
      AfterIncreases(changes, cursor, seen);
      AfterHolds(changes, seen);
      if !closed && seen <= cursor {
        StreamedReplays(seen);
        forall other
          ensures Fold(held[seen].(run := other), newer) == Snapshot()
                  <==> if TellsRun(newer) then !Unread(calls) else other == run
        {
          SnapshotReplays(seen, other);
        }
      }
    }

    method Close()
      requires Valid()
      modifies this
      ensures Valid() && closed && Snapshot() == Client(None, [], map[], None, old(cursor)) && changes == []
      ensures calls == old(calls) + [CloseCalled]
    {
      OneMoreCall(calls, CloseCalled);
      calls := calls + [CloseCalled];
      closed := true;
      events, order, changes := map[], [], [];
      run, orchestration, published := None, None, None;
    }
  }

  // ---------------------------------------------------------------- single updates

  const STOPPED := "keyboard_interrupt"

  function Ended(run: Run, end: RunEnd): Run {
    match end
    case Reported(status, result) =>
      run.(status := if status == "" then "completed" else status, result := Some(result), ended := true)
    case Errored(text) => run.(status := "errored", result := text, ended := true)
  }

  /**
   A run ends with what was reported, "completed" when no status was, or as errored with the text of its exception.
   */
  ghost predicate EndsAs(before: Run, end: RunEnd, after: Run) {
    && after.id == before.id && after.request == before.request && after.ended
    && match end
       case Reported(status, result) =>
         after.result == Some(result) && (status != "" ==> after.status == status)
           && (status == "" ==> after.status == "completed")
       case Errored(text) => after.status == "errored" && after.result == text
  }

  /** A card that was running shows a warning that it was stopped. */
  ghost predicate Interrupted(before: Event, after: Event) {
    && after.id == before.id && after.order == before.order && after.body == before.body
    && after.status == "warning" && after.stopped && after.revision == before.revision + 1
  }

  /** The given fields are replaced in a new revision; all others stay. */
  ghost predicate Follows(before: Event, status: Option<string>, body: Option<string>, after: Event) {
    && after.id == before.id && after.order == before.order && after.stopped == before.stopped
    && after.revision == before.revision + 1
    && after.status == (match status case Some(s) => s case None => before.status)
    && after.body == (match body case Some(b) => b case None => before.body)
  }

  function Stopped(run: Run): Run {
    run.(status := "stopped", result := Some(STOPPED), ended := true)
  }

  function Stop(e: Event): Event {
    e.(status := "warning", stopped := true, revision := e.revision + 1)
  }

  function Changed(e: Event, status: Option<string>, body: Option<string>): Event {
    e.(status := if status.Some? then status.value else e.status,
       body := if body.Some? then body.value else e.body,
       revision := e.revision + 1)
  }

  /** The named events that were running are stopped; the others stay. */
  function StoppedAll(events: map<string, Event>, ids: seq<string>): map<string, Event> {
    map id | id in events :: if id in ids && events[id].status == "running" then Stop(events[id]) else events[id]
  }

  lemma {:induction false} StoppedNone(events: map<string, Event>)
    ensures forall ids: seq<string> | ids == [] :: StoppedAll(events, ids) == events
  {
  }

  lemma {:induction false} AllStopped(events: map<string, Event>, order: seq<string>)
    requires Indexed(order, events)
    ensures StoppedAll(events, order).Keys == events.Keys
    ensures forall id | id in events ::
              if events[id].status == "running" then Interrupted(events[id], StoppedAll(events, order)[id])
              else StoppedAll(events, order)[id] == events[id]
  {
  }

  lemma {:induction false} StoppedNext(events: map<string, Event>, order: seq<string>, i: nat)
    requires i < |order| && order[i] in events && forall j | 0 <= j < i :: order[j] != order[i]
    ensures var before := StoppedAll(events, order[..i]);
            && order[i] in before && before[order[i]] == events[order[i]]
            && StoppedAll(events, order[..i + 1])
               == if events[order[i]].status == "running" then before[order[i] := Stop(events[order[i]])] else before
  {
    assert order[..i + 1] == order[..i] + [order[i]];
  }

  lemma {:induction false} NothingIndexed()
    ensures Indexed([], map[])
  {
  }

  lemma {:induction false} IndexedAt(order: seq<string>, events: map<string, Event>, i: nat)
    requires Indexed(order, events) && i < |order|
    ensures order[i] in events && events[order[i]].id == order[i] && forall j | 0 <= j < i :: order[j] != order[i]
  {
  }

  lemma {:induction false} IndexedWith(order: seq<string>, events: map<string, Event>, e: Event)
    requires Indexed(order, events)
    ensures Indexed(if e.id in events then order else order + [e.id], events[e.id := e])
  {
  }

  lemma {:induction false} RunUpdateApplies(before: Client, run: Run)
    ensures ApplyUpdate(before, RunUpdate(run)) == before.(run := Some(run))
  {
  }

  /** The run stays the same, and the Orchestration stays or becomes newer. */
  ghost predicate Progress(before: Client, after: Client) {
    && (after.run.Some? ==> SameRun(before, after))
    && (after.orchestration == before.orchestration
        || (after.orchestration.Some?
            && (before.orchestration.None?
                 || before.orchestration.value.revision < after.orchestration.value.revision)))
  }

  lemma {:induction false} ProgressKeeps(held: map<nat, Client>, before: Client, after: Client, next: Client)
    requires NeverBack(held, before) && Progress(before, after) && next == after.(cursor := next.cursor)
    requires (next.run.None? ==> next.orchestration.None?) && forall c | c in held :: c < next.cursor
    ensures NeverBack(held[next.cursor := next], next)
  {
  }

  lemma {:induction false} NewRunKeeps(held: map<nat, Client>, before: Client, next: Client)
    requires NeverBack(held, before) && forall c | c in held :: c < next.cursor
    requires next.run.Some? && next.orchestration.None?
    requires forall c | c in held && held[c].run.Some? :: held[c].run.value.id != next.run.value.id
    ensures NeverBack(held[next.cursor := next], next)
  {
  }

  lemma {:induction false} KnownCursors(held: map<nat, Client>, changes: seq<Change>, now: Client)
    requires Replays(held, changes, now)
    ensures forall c: nat | c <= now.cursor :: c in held
    ensures forall c | c in held :: held[c].cursor == c <= now.cursor
  {
  }

  lemma {:induction false} ClosedKeeps(changes: seq<Change>, cursor: nat, change: Change)
    requires Increasing(changes, cursor) && change.cursor == cursor + 1
    ensures Increasing(changes + [change], cursor + 1)
  {
  }

  /** Two calls after which the stream and the snapshot tell different things. */
  method UnreadRun() returns (streamed: Client, snapshot: Client, ghost calls: seq<Call>)
    ensures calls == [BeginCalled("run_1", "request"), EndCalled(Errored(None))] && Unread(calls)
    ensures streamed.run == Some(Run("run_1", "running", "request", None, false))
    ensures snapshot == streamed.(run := Some(Run("run_1", "errored", "request", None, false)))
  {
    hide Unread, RunAfter, Fold, Replays, NeverBack, Indexed, Increasing;
    var observer := new LiveRunObserver();
    observer.BeginRun("run_1", "request");
    observer.EndRun(Errored(None));
    var newer := observer.WaitAfter(0);
    snapshot := observer.Snapshot();
    calls := observer.calls;
    TwoCalls();
    assert calls == [BeginCalled("run_1", "request"), EndCalled(Errored(None))];
    streamed := Fold(Client(None, [], map[], None, 0), newer);
    OneReset(observer.changes[0]);
  }

  lemma {:induction false} TwoCalls()
    ensures Unread([BeginCalled("run_1", "request"), EndCalled(Errored(None))])
  {
    OneMoreCall([], BeginCalled("run_1", "request"));
    OneMoreCall([BeginCalled("run_1", "request")], EndCalled(Errored(None)));
    assert [] + [BeginCalled("run_1", "request")] == [BeginCalled("run_1", "request")];
    assert [BeginCalled("run_1", "request")] + [EndCalled(Errored(None))]
        == [BeginCalled("run_1", "request"), EndCalled(Errored(None))];
  }

  lemma {:induction false} OneReset(change: Change)
    requires change.cursor > 0 && change.update.Reset?
    ensures After([change], 0) == [change]
    ensures Fold(Client(None, [], map[], None, 0), [change])
            == Client(Some(change.update.run), [], map[], None, change.cursor)
  {
    assert [change][..0] == [];
  }
}
