/** The token budget shared by an Agent tree (restscope/harness/agent_control.py, restscope/agent/runtime.py). */
module Budget {
  import opened Wrappers

  /** What one provider response reports. */
  datatype Tokens = Tokens(prompt: int, cached: int, output: int)

  /** One response charged on behalf of one Agent of the tree. */
  datatype Entry = Entry(agent: nat, tokens: Tokens)

  datatype BudgetCharge = BudgetCharge(weighted: real, remaining: real, exceeded: bool, reminders: seq<int>)

  function Positive(n: int): nat {
    if n > 0 then n else 0
  }

  /** Output counts fully, input beyond the cached part at one tenth. */
  function Weight(output: int, excess: int): real {
    output as real + Positive(excess) as real * 0.1
  }

  function Excess(t: Tokens): int {
    t.prompt - t.cached
  }

  /** What one response costs: output tokens fully, prompt tokens that were not cached at a tenth. */
  ghost function Cost(t: Tokens): real {
    t.output as real + if t.prompt > t.cached then (t.prompt - t.cached) as real / 10.0 else 0.0
  }

  ghost function Total(history: seq<Entry>): real {
    if history == [] then 0.0 else Total(history[..|history| - 1]) + Cost(history[|history| - 1].tokens)
  }

  // ---------------------------------------------------------------- the shared allowance

  function Share(limit: real, percentage: int): real {
    limit * percentage as real / 100.0
  }

  ghost predicate WithinShare(limit: real, history: seq<Entry>, n: nat, percentage: int)
    requires n <= |history|
  {
    100.0 * (limit - Total(history[..n])) <= percentage as real * limit
  }

  /** The last charge is the first after which at most the given share remains. */
  ghost predicate FirstWithinShare(limit: real, history: seq<Entry>, percentage: int) {
    && history != []
    && WithinShare(limit, history, |history|, percentage)
    && forall k | 0 <= k < |history| :: !WithinShare(limit, history, k, percentage)
  }

  ghost predicate ReachedShare(limit: real, history: seq<Entry>, percentage: int) {
    exists n | 0 <= n <= |history| :: WithinShare(limit, history, n, percentage)
  }

  ghost function Announced(limit: real, history: seq<Entry>, percentage: int): seq<int> {
    if FirstWithinShare(limit, history, percentage) then [percentage] else []
  }

  class RolloutBudget {
    const limit: Option<real>
    var used: real
    var sent: set<int>
    /** Every charge so far, in the order the lock admitted them. */
    ghost var history: seq<Entry>

    ghost predicate Valid()
      reads this
    {
      && (limit.Some? ==> limit.value > 0.0)
      && used == Total(history)
      && (limit.Some? ==> forall p | p in {50, 25, 10} :: p in sent <==> ReachedShare(limit.value, history, p))
    }

    constructor (limit: Option<real>)
      requires limit.Some? ==> limit.value > 0.0
      ensures Valid() && this.limit == limit && history == []
    {
      this.limit := limit;
      used, sent, history := 0.0, {}, [];
      new;
      if limit.Some? {
        FullAllowance(limit.value);
      }
    }

    /** Each of the 50, 25 and 10 percent reminders is returned by exactly the first charge that reaches its share. */
    method Charge(agent: nat, t: Tokens) returns (r: BudgetCharge)
      requires Valid()
      modifies this
      ensures Valid() && history == old(history) + [Entry(agent, t)]
      ensures used == Total(history) && r.weighted == Cost(t)
      ensures limit.None? ==> r == BudgetCharge(r.weighted, 0.0, false, [])
      ensures limit.Some? ==>
                && r.exceeded == (used > limit.value)
                && r.remaining == (if used > limit.value then 0.0 else limit.value - used)
                && r.reminders == Announced(limit.value, history, 50) + Announced(limit.value, history, 25)
                                  + Announced(limit.value, history, 10)
    {
      hide ReachedShare, Weight, Excess, Cost, Total, Announced, Crossed, FirstWithinShare;
      WeightIsCost(t);
      var weighted := Weight(t.output, Excess(t));
      ghost var before := history;
      history := history + [Entry(agent, t)];
      TotalOfNext(before, Entry(agent, t));
      if limit.None? {
        used := used + weighted;
        return BudgetCharge(weighted, 0.0, false, []);
      }
      var beforeRemaining := limit.value - used;
      used := used + weighted;
      var remaining := limit.value - used;
      ChargeAnnounces(limit.value, before, Entry(agent, t), sent, 50);
      ChargeAnnounces(limit.value, before, Entry(agent, t), sent, 25);
      ChargeAnnounces(limit.value, before, Entry(agent, t), sent, 10);
      var crossed := Crossed(limit.value, beforeRemaining, remaining, sent, 50)
                     + Crossed(limit.value, beforeRemaining, remaining, sent, 25)
                     + Crossed(limit.value, beforeRemaining, remaining, sent, 10);
      Membership(limit.value, beforeRemaining, remaining, sent);
      AnnouncedWhenFirst(limit.value, history);
      sent := sent + set p | p in crossed;
      return BudgetCharge(weighted, if remaining < 0.0 then 0.0 else remaining, remaining < 0.0, crossed);
    }
  }

  function Crossed(limit: real, before: real, remaining: real, sent: set<int>, percentage: int): seq<int> {
    if percentage !in sent && before > Share(limit, percentage) >= remaining then [percentage] else []
  }

  lemma {:induction false} WeightIsCost(t: Tokens)
    ensures Weight(t.output, Excess(t)) == Cost(t)
  {
  }

  lemma {:induction false} WithinIs(limit: real, history: seq<Entry>, n: nat, percentage: int)
    requires n <= |history|
    ensures WithinShare(limit, history, n, percentage) <==> limit - Total(history[..n]) <= Share(limit, percentage)
  {
    hide Total;
  }

  lemma {:induction false} TotalOfNext(history: seq<Entry>, e: Entry)
    ensures Total(history + [e]) == Total(history) + Cost(e.tokens)
  {
    hide Cost;
    assert (history + [e])[..|history|] == history;
  }

  lemma {:induction false} Membership(limit: real, before: real, remaining: real, sent: set<int>)
    ensures forall p, q :: q in Crossed(limit, before, remaining, sent, p)
                      <==> q == p && Crossed(limit, before, remaining, sent, p) == [p]
  {
  }

  lemma {:induction false} AnnouncedWhenFirst(limit: real, history: seq<Entry>)
    ensures forall p :: Announced(limit, history, p) == [p] <==> FirstWithinShare(limit, history, p)
  {
    hide FirstWithinShare;
  }

  lemma {:induction false} FullAllowance(limit: real)
    requires limit > 0.0
    ensures forall p | p in {50, 25, 10} :: !ReachedShare(limit, [], p)
  {
  }

  lemma {:induction false} PrefixOfPrefix(history: seq<Entry>, e: Entry, limit: real, percentage: int)
    ensures forall k | 0 <= k <= |history| ::
        WithinShare(limit, history + [e], k, percentage) == WithinShare(limit, history, k, percentage)
  {
    forall k | 0 <= k <= |history|
      ensures WithinShare(limit, history + [e], k, percentage) == WithinShare(limit, history, k, percentage)
    {
      assert (history + [e])[..k] == history[..k];
    }
  }

  /** The one-shot test against the previous remainder finds exactly the first charge within a share. */
  lemma {:induction false} ChargeAnnounces(limit: real, history: seq<Entry>, e: Entry, sent: set<int>, percentage: int)
    requires limit > 0.0 && percentage < 100
    requires percentage in sent <==> ReachedShare(limit, history, percentage)
    ensures var after := history + [e];
            && Crossed(limit, limit - Total(history), limit - Total(after), sent, percentage)
               == Announced(limit, after, percentage)
            && (ReachedShare(limit, after, percentage) <==>
                percentage in sent || FirstWithinShare(limit, after, percentage))
  {
    hide Share, Total, WithinShare;
    var after := history + [e];
    PrefixOfPrefix(history, e, limit, percentage);
    assert after[..|after|] == after && history[..|history|] == history;
    WithinIs(limit, history, |history|, percentage);
    WithinIs(limit, after, |after|, percentage);
    if !ReachedShare(limit, history, percentage) && ReachedShare(limit, after, percentage) {
      var n :| 0 <= n <= |after| && WithinShare(limit, after, n, percentage);
      assert n == |after|;
    }
  }

  // ---------------------------------------------------------------- what each Agent reports of it

  /** The responses charged for one Agent. */
  function Of(history: seq<Entry>, agent: nat): seq<Tokens> {
    if history == [] then []
    else
      var last := history[|history| - 1];
      Of(history[..|history| - 1], agent) + (if last.agent == agent then [last.tokens] else [])
  }

  function Outputs(ts: seq<Tokens>): int {
    if ts == [] then 0 else Outputs(ts[..|ts| - 1]) + ts[|ts| - 1].output
  }

  function Prompts(ts: seq<Tokens>): int {
    if ts == [] then 0 else Prompts(ts[..|ts| - 1]) + ts[|ts| - 1].prompt
  }

  function Cached(ts: seq<Tokens>): int {
    if ts == [] then 0 else Cached(ts[..|ts| - 1]) + ts[|ts| - 1].cached
  }

  /** One Agent reports the weight of its summed counters, not the sum of its weights. */
  function Usage(ts: seq<Tokens>): real {
    Weight(Outputs(ts), Prompts(ts) - Cached(ts))
  }

  function Reported(history: seq<Entry>, agents: nat): real {
    if agents == 0 then 0.0 else Reported(history, agents - 1) + Usage(Of(history, agents - 1))
  }

  /** The counters an Agent's loop keeps while it charges response by response. */
  method LocalUsage(ts: seq<Tokens>) returns (usage: real)
    ensures usage == Usage(ts)
  {
    var prompt, cached, output := 0, 0, 0;
    for i := 0 to |ts|
      invariant prompt == Prompts(ts[..i]) && cached == Cached(ts[..i]) && output == Outputs(ts[..i])
    {
      assert ts[..i + 1][..i] == ts[..i];
      prompt, cached, output := prompt + ts[i].prompt, cached + ts[i].cached, output + ts[i].output;
    }
    assert ts[..|ts|] == ts;
    return Weight(output, prompt - cached);
  }

  ghost function Charged(ts: seq<Tokens>): real {
    if ts == [] then 0.0 else Charged(ts[..|ts| - 1]) + Cost(ts[|ts| - 1])
  }

  function Gains(ts: seq<Tokens>): nat {
    if ts == [] then 0 else Gains(ts[..|ts| - 1]) + Positive(Excess(ts[|ts| - 1]))
  }

  function Losses(ts: seq<Tokens>): nat {
    if ts == [] then 0 else Losses(ts[..|ts| - 1]) + Positive(-Excess(ts[|ts| - 1]))
  }

  /** Some response has more prompt than cached tokens, and another has fewer. */
  predicate Mixed(ts: seq<Tokens>) {
    (exists t | t in ts :: Excess(t) > 0) && (exists t | t in ts :: Excess(t) < 0)
  }

  lemma {:induction false} SumsOf(ts: seq<Tokens>)
    ensures Charged(ts) == Outputs(ts) as real + Gains(ts) as real * 0.1
    ensures Prompts(ts) - Cached(ts) == Gains(ts) - Losses(ts)
    ensures Gains(ts) > 0 <==> exists t | t in ts :: Excess(t) > 0
    ensures Losses(ts) > 0 <==> exists t | t in ts :: Excess(t) < 0
  {
    if ts != [] {
      var before, last := ts[..|ts| - 1], ts[|ts| - 1];
      SumsOf(before);
      assert forall t | t in ts :: t in before || t == last;
      assert last in ts && forall t | t in before :: t in ts;
    }
  }

  /** One Agent never reports more than was charged for it, and less exactly when its differences have mixed signs. */
  lemma {:induction false} UsageAtMostCharged(ts: seq<Tokens>)
    ensures Usage(ts) <= Charged(ts)
    ensures Usage(ts) == Charged(ts) <==> !Mixed(ts)
  {
    SumsOf(ts);
  }

  ghost function ChargedUpTo(history: seq<Entry>, agents: nat): real {
    if agents == 0 then 0.0 else ChargedUpTo(history, agents - 1) + Charged(Of(history, agents - 1))
  }

  lemma {:induction false} OneMoreCharge(history: seq<Entry>, agent: nat)
    requires history != []
    ensures var last := history[|history| - 1];
            Charged(Of(history, agent)) == Charged(Of(history[..|history| - 1], agent))
                                           + if last.agent == agent then Cost(last.tokens) else 0.0
  {
    hide Cost;
    var last := history[|history| - 1];
    var mine := Of(history[..|history| - 1], agent);
    assert (mine + [last.tokens])[..|mine|] == mine;
    assert mine + [] == mine;
  }

  lemma {:induction false} OneMoreEntry(history: seq<Entry>, agents: nat)
    requires history != []
    ensures var last := history[|history| - 1];
            ChargedUpTo(history, agents) == ChargedUpTo(history[..|history| - 1], agents)
                                            + if last.agent < agents
                                              then Cost(last.tokens) else 0.0
  {
    hide Cost, Charged, Of;
    if agents > 0 {
      OneMoreEntry(history, agents - 1);
      OneMoreCharge(history, agents - 1);
    }
  }

  lemma {:induction false} ChargedByAgent(history: seq<Entry>, agents: nat)
    requires forall e | e in history :: e.agent < agents
    ensures ChargedUpTo(history, agents) == Total(history)
  {
    if history == [] {
      NothingCharged(agents);
    } else {
      assert forall e | e in history[..|history| - 1] :: e in history;
      ChargedByAgent(history[..|history| - 1], agents);
      OneMoreEntry(history, agents);
    }
  }

  lemma {:induction false} NothingCharged(agents: nat)
    ensures ChargedUpTo([], agents) == 0.0
  {
    if agents > 0 {
      NothingCharged(agents - 1);
    }
  }

  /** No Agent saw responses with more and responses with fewer prompt than cached tokens. */
  predicate NoneMixed(history: seq<Entry>, agents: nat) {
    agents == 0 || (NoneMixed(history, agents - 1) && !Mixed(Of(history, agents - 1)))
  }

  lemma {:induction false} ReportedAtMostChargedUpTo(history: seq<Entry>, agents: nat)
    ensures Reported(history, agents) <= ChargedUpTo(history, agents)
    ensures Reported(history, agents) == ChargedUpTo(history, agents)
       <==> NoneMixed(history, agents)
  {
    hide Usage, Charged, Mixed, Of;
    if agents > 0 {
      ReportedAtMostChargedUpTo(history, agents - 1);
      var ts := Of(history, agents - 1);
      UsageAtMostCharged(ts);
      assert Reported(history, agents) - ChargedUpTo(history, agents)
          == (Reported(history, agents - 1) - ChargedUpTo(history, agents - 1)) + (Usage(ts) - Charged(ts));
    }
  }

  /**
   Under every interleaving, the usages all Agents report add up to at most what the shared budget was charged, and
   to exactly that when and only when no Agent saw both more and fewer cached than prompt tokens.
   */
  lemma {:induction false} ReportedAtMostCharged(history: seq<Entry>, agents: nat)
    requires forall e | e in history :: e.agent < agents
    ensures Reported(history, agents) <= Total(history)
    ensures Reported(history, agents) == Total(history) <==> NoneMixed(history, agents)
  {
    ChargedByAgent(history, agents);
    ReportedAtMostChargedUpTo(history, agents);
  }

  lemma {:induction false} OfIsCharged(history: seq<Entry>, agent: nat, t: Tokens)
    requires t in Of(history, agent)
    ensures Entry(agent, t) in history
  {
    if t in Of(history[..|history| - 1], agent) {
      OfIsCharged(history[..|history| - 1], agent, t);
    }
  }

  /** Nothing is lost when no response claims more cached than prompt tokens. */
  lemma {:induction false} ExactWithoutOverclaim(history: seq<Entry>, agents: nat)
    requires forall e | e in history :: e.agent < agents && e.tokens.cached <= e.tokens.prompt
    ensures Reported(history, agents) == Total(history)
  {
    NoneMixedWithoutOverclaim(history, agents);
    ReportedAtMostCharged(history, agents);
  }

  lemma {:induction false} NoneMixedWithoutOverclaim(history: seq<Entry>, agents: nat)
    requires forall e | e in history :: e.tokens.cached <= e.tokens.prompt
    ensures NoneMixed(history, agents)
  {
    if agents > 0 {
      NoneMixedWithoutOverclaim(history, agents - 1);
      forall t | t in Of(history, agents - 1)
        ensures Excess(t) >= 0
      {
        OfIsCharged(history, agents - 1, t);
      }
    }
  }
}
