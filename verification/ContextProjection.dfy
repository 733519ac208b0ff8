/** Which interaction groups a request keeps (restscope/context/context.py). */
module ContextProjection {
  import opened Wrappers
  import opened Decimal
  import opened ContextWindow
  import opened Indexes
  import opened Texts

  // ---------------------------------------------------------------- projections

  function GapMarker(omitted: nat): Message {
    Message(User, "OLDER INTERACTIONS SUMMARIZED | groups=" + Dec(omitted), "", "", [])
  }

  function Gap(omitted: nat): seq<Message> {
    if omitted == 0 then [] else [GapMarker(omitted)]
  }

  /** The chosen ones among the first k groups, whole and in order. */
  function Chosen(groups: seq<Group>, selected: set<nat>, k: nat): seq<Message>
    requires k <= |groups|
  {
    if k == 0 then []
    else Chosen(groups, selected, k - 1) + (if k - 1 in selected then groups[k - 1] else [])
  }

  function Project(base: seq<Message>, groups: seq<Group>, selected: set<nat>): seq<Message>
    requires |selected| <= |groups|
  {
    base + Gap(|groups| - |selected|) + Chosen(groups, selected, |groups|)
  }

  /** The marker tells how many groups are left out. */
  lemma {:induction false} GapTells(omitted: nat)
    ensures var text, head := GapMarker(omitted).content, "OLDER INTERACTIONS SUMMARIZED | groups=";
            && GapMarker(omitted).role == User && head <= text
            && AllDigits(text[|head|..]) && ParseNat(text[|head|..]) == omitted
  {
    hide Dec;
    ParseDec(omitted);
    assert GapMarker(omitted).content[|"OLDER INTERACTIONS SUMMARIZED | groups="|..] == Dec(omitted);
  }

  /** Choosing one group gives its messages. */
  lemma {:induction false} ChosenOne(groups: seq<Group>, i: nat, k: nat)
    requires k <= |groups|
    ensures Chosen(groups, {i}, k) == if i < k then groups[i] else []
  {
    if k > 0 {
      var before := Chosen(groups, {i}, k - 1);
      ChosenOne(groups, i, k - 1);
      assert before + [] == before;
    }
  }

  /** Older groups come before newer ones. */
  lemma {:induction false} ChosenInOrder(groups: seq<Group>, older: set<nat>, newer: set<nat>, k: nat)
    requires k <= |groups| && forall i, j | i in older && j in newer :: i < j
    ensures Chosen(groups, older + newer, k) == Chosen(groups, older, k) + Chosen(groups, newer, k)
  {
    if k > 0 {
      ChosenInOrder(groups, older, newer, k - 1);
      if k - 1 in older {
        NoneBefore(groups, newer, k);
      }
    }
  }

  lemma {:induction false} NoneBefore(groups: seq<Group>, newer: set<nat>, k: nat)
    requires k <= |groups| && forall i | i in newer :: k <= i
    ensures Chosen(groups, newer, k) == []
  {
    if k > 0 {
      NoneBefore(groups, newer, k - 1);
    }
  }

  // ---------------------------------------------------------------- greedy selection

  function Cost(base: seq<Message>, groups: seq<Group>, selected: set<nat>): nat
    requires |selected| <= |groups|
  {
    Chars(Project(base, groups, selected))
  }

  /** From group k - 1 down to the oldest, add every group that still fits. */
  function Greedy(base: seq<Message>, groups: seq<Group>, budget: int, k: nat, selected: set<nat>): (r: set<nat>)
    requires k <= |groups| && selected <= All(|groups|)
    ensures selected <= r <= All(|groups|)
    ensures forall i | i in r && i !in selected :: i < k
  {
    if k == 0 then selected
    else
      AtMostAll(selected + {k - 1}, |groups|);
      if k - 1 in selected || Cost(base, groups, selected + {k - 1}) > budget
      then Greedy(base, groups, budget, k - 1, selected)
      else Greedy(base, groups, budget, k - 1, selected + {k - 1})
  }

  /** The chosen groups newer than `i`, and the required ones. */
  ghost function Newer(required: set<nat>, selected: set<nat>, i: nat): set<nat> {
    required + set j | j in selected && j > i
  }

  /**
   Required groups are in; any other is in exactly when it fits beside the required and the newer chosen ones,
   whatever became of the groups between.
   */
  ghost predicate NewestFirst(base: seq<Message>, groups: seq<Group>, budget: int, required: set<nat>,
                              selected: set<nat>) {
    && required <= selected <= All(|groups|)
    && forall i: nat | i < |groups| && i !in required :: i in selected <==> Affords(base, groups, budget,
                                                                                     Newer(required, selected, i) + {i})
  }

  ghost predicate Affords(base: seq<Message>, groups: seq<Group>, budget: int, selected: set<nat>) {
    |selected| <= |groups| && |Written(Project(base, groups, selected))| <= budget
  }

  lemma {:induction false} GreedyChooses(base: seq<Message>, groups: seq<Group>, budget: int, k: nat,
                                         selected: set<nat>, i: nat)
    requires selected <= All(|groups|) && i < k <= |groups| && i !in selected
    ensures var r := Greedy(base, groups, budget, k, selected);
            i in r <==> Affords(base, groups, budget, Newer(selected, r, i) + {i})
  {
    hide Project, Written, Chars, All, Newer, Greedy;
    var r, last := Greedy(base, groups, budget, k, selected), k - 1;
    GreedyStep(base, groups, budget, last, selected);
    CharsMeasure(Project(base, groups, selected + {last}));
    if i == last {
      NoneNewer(selected, r, i);
    } else if r == Greedy(base, groups, budget, last, selected) {
      GreedyChooses(base, groups, budget, last, selected, i);
    } else {
      GreedyChooses(base, groups, budget, last, selected + {last}, i);
      LastIsNewer(selected, r, last, i);
    }
  }

  lemma {:induction false} NoneNewer(selected: set<nat>, r: set<nat>, i: nat)
    requires forall j | j in r && j !in selected :: j <= i
    ensures Newer(selected, r, i) == selected
  {
  }

  lemma {:induction false} LastIsNewer(selected: set<nat>, r: set<nat>, last: nat, i: nat)
    requires last in r && last > i
    ensures Newer(selected + {last}, r, i) == Newer(selected, r, i)
  {
  }

  lemma {:induction false} GreedyIsNewestFirst(base: seq<Message>, groups: seq<Group>, budget: int, required: set<nat>)
    requires required <= All(|groups|)
    ensures NewestFirst(base, groups, budget, required, Greedy(base, groups, budget, |groups|, required))
  {
    hide All, Affords, Greedy;
    var r := Greedy(base, groups, budget, |groups|, required);
    forall i: nat | i < |groups| && i !in required
      ensures i in r <==> Affords(base, groups, budget, Newer(required, r, i) + {i})
    {
      GreedyChooses(base, groups, budget, |groups|, required, i);
    }
  }

  /** The required groups and everything from group i on. */
  function Tail(required: set<nat>, i: nat, n: nat): set<nat> {
    required + (All(n) - All(i))
  }

  ghost predicate StepFits(base: seq<Message>, groups: seq<Group>, budget: int, required: set<nat>, i: nat)
    requires required <= All(|groups|) && i < |groups|
  {
    AtMostAll(Tail(required, i, |groups|), |groups|);
    i in required || Cost(base, groups, Tail(required, i, |groups|)) <= budget
  }

  /** Nothing is skipped exactly when every step fits. */
  lemma {:induction false} GreedyTakesAll(base: seq<Message>, groups: seq<Group>, budget: int, k: nat,
                                          required: set<nat>)
    requires required <= All(|groups|) && k <= |groups|
    ensures Greedy(base, groups, budget, k, Tail(required, k, |groups|)) == All(|groups|)
       <==> forall i | 0 <= i < k :: StepFits(base, groups, budget, required, i)
  {
    hide Cost, All, Tail, StepFits, Greedy;
    var n := |groups|;
    TailFacts(required, k, n);
    if k == 0 {
      GreedyEnd(base, groups, budget, Tail(required, 0, n));
    } else {
      GreedyTakesAll(base, groups, budget, k - 1, required);
      OneStep(base, groups, budget, required, k - 1);
    }
  }

  lemma {:induction false} TailFacts(required: set<nat>, k: nat, n: nat)
    requires required <= All(n) && k <= n
    ensures Tail(required, k, n) <= All(n)
    ensures k == 0 ==> Tail(required, k, n) == All(n)
    ensures k > 0 ==> Tail(required, k - 1, n) == Tail(required, k, n) + {k - 1}
    ensures k > 0 ==> (k - 1 in Tail(required, k, n) <==> k - 1 in required)
  {
    hide All;
    if k > 0 {
      assert All(n) - All(k - 1) == (All(n) - All(k)) + {k - 1};
    }
  }

  /** The step for one group: it is in, or it fits and joins, or it is left out for good. */
  lemma {:induction false} OneStep(base: seq<Message>, groups: seq<Group>, budget: int, required: set<nat>, i: nat)
    requires required <= All(|groups|) && i < |groups|
    ensures Tail(required, i + 1, |groups|) <= All(|groups|) && Tail(required, i, |groups|) <= All(|groups|)
    ensures var result := Greedy(base, groups, budget, i + 1, Tail(required, i + 1, |groups|));
            if StepFits(base, groups, budget, required, i)
            then result == Greedy(base, groups, budget, i, Tail(required, i, |groups|))
            else result != All(|groups|)
  {
    hide Cost, All, Tail;
    var n := |groups|;
    TailFacts(required, i + 1, n);
    TailFacts(required, i, n);
    var selected := Tail(required, i + 1, n);
    AtMostAll(selected + {i}, n);
    if i in required {
      assert selected + {i} == selected;
    } else if !StepFits(base, groups, budget, required, i) {
      assert i !in Greedy(base, groups, budget, i, selected);
    }
  }

  // ---------------------------------------------------------------- sizes of projections

  function Sizes(groups: seq<Group>, selected: set<nat>, k: nat): nat
    requires k <= |groups|
  {
    if k == 0 then 0
    else Sizes(groups, selected, k - 1) + (if k - 1 in selected then Chars(groups[k - 1]) else 0)
  }

  lemma {:induction false} ChosenChars(groups: seq<Group>, selected: set<nat>, k: nat)
    requires k <= |groups|
    ensures Chars(Chosen(groups, selected, k)) == Sizes(groups, selected, k)
  {
    hide Chars;
    if k > 0 {
      ChosenChars(groups, selected, k - 1);
      CharsConcat(Chosen(groups, selected, k - 1), if k - 1 in selected then groups[k - 1] else []);
    }
    NoChars();
  }

  lemma {:induction false} NoChars()
    ensures Chars([]) == 0
  {
  }

  lemma {:induction false} CostIs(base: seq<Message>, groups: seq<Group>, selected: set<nat>)
    requires |selected| <= |groups|
    ensures Cost(base, groups, selected)
            == Chars(base) + Chars(Gap(|groups| - |selected|)) + Sizes(groups, selected, |groups|)
  {
    hide Chars, Gap;
    var gap, chosen := Gap(|groups| - |selected|), Chosen(groups, selected, |groups|);
    ChosenChars(groups, selected, |groups|);
    CharsConcat(base + gap, chosen);
    CharsConcat(base, gap);
  }

  lemma {:induction false} GapChars(omitted: nat)
    ensures Chars(Gap(omitted)) == if omitted == 0 then 0 else |GapMarker(0).content| + 3 + |Dec(omitted)|
  {
    if omitted > 0 {
      assert Gap(omitted)[..0] == [];
      assert Dec(0) == "0";
    }
  }

  ghost predicate NonEmptyGroups(groups: seq<Group>) {
    forall g | g in groups :: g != []
  }

  lemma {:induction false} GroupChars(g: Group)
    requires g != []
    ensures Chars(g) >= 4
  {
  }

  /** Each further group costs at least four characters. */
  lemma {:induction false} MoreCosts(groups: seq<Group>, fewer: set<nat>, more: set<nat>, k: nat)
    requires k <= |groups| && fewer <= more && NonEmptyGroups(groups)
    ensures Sizes(groups, fewer, k) + 4 * |(more - fewer) * All(k)| <= Sizes(groups, more, k)
  {
    hide Chars, All;
    if k == 0 {
      assert (more - fewer) * All(0) == {};
    } else {
      MoreCosts(groups, fewer, more, k - 1);
      var extra := (more - fewer) * All(k - 1);
      assert groups[k - 1] in groups;
      GroupChars(groups[k - 1]);
      if k - 1 in more && k - 1 !in fewer {
        assert (more - fewer) * All(k) == extra + {k - 1};
      } else {
        assert (more - fewer) * All(k) == extra;
      }
    }
  }

  /** As long as something stays omitted, a larger selection never costs less. */
  lemma {:induction false} CostGrows(base: seq<Message>, groups: seq<Group>, fewer: set<nat>, more: set<nat>)
    requires fewer <= more <= All(|groups|) && more != All(|groups|) && NonEmptyGroups(groups)
    ensures |fewer| <= |more| < |groups|
    ensures Cost(base, groups, fewer) <= Cost(base, groups, more)
  {
    hide Chars, Gap, Cost, Sizes, GapMarker, Dec, All;
    var n := |groups|;
    SubsetSize(fewer, more);
    SubsetSize(more, All(n));
    CostIs(base, groups, fewer);
    CostIs(base, groups, more);
    GapChars(n - |fewer|);
    GapChars(n - |more|);
    DecGrows(n - |more|, n - |fewer|);
    MoreCosts(groups, fewer, more, n);
    assert (more - fewer) * All(n) == more - fewer;
    assert more == fewer + (more - fewer);
    assert |more| == |fewer| + |more - fewer|;
  }

  // ---------------------------------------------------------------- when nothing is omitted

  ghost predicate IsOldestOptional(groups: seq<Group>, required: set<nat>, i: nat) {
    i < |groups| && i !in required && forall j: nat | j < i :: j in required
  }

  /** Everything fits, and so does everything but the oldest optional group together with a marker. */
  ghost predicate AllFit(base: seq<Message>, groups: seq<Group>, budget: int, required: set<nat>)
    requires required <= All(|groups|)
  {
    && Cost(base, groups, All(|groups|)) <= budget
    && forall o: nat | IsOldestOptional(groups, required, o) && required + {o} != All(|groups|) ::
         AtMostAll(All(|groups|) - {o}, |groups|); Cost(base, groups, All(|groups|) - {o}) <= budget
  }

  function OldestOptional(required: set<nat>, from: nat, n: nat): (i: nat)
    requires from <= n && exists j: nat :: from <= j < n && j !in required
    ensures from <= i < n && i !in required && forall j: nat | from <= j < i :: j in required
    decreases n - from
  {
    if from !in required then from else OldestOptional(required, from + 1, n)
  }

  /** A request omits nothing exactly when all groups are required, or everything fits in the sense above. */
  lemma {:induction false} NothingOmittedIff(base: seq<Message>, groups: seq<Group>, budget: int, required: set<nat>)
    requires required <= All(|groups|) && NonEmptyGroups(groups)
    ensures Greedy(base, groups, budget, |groups|, required) == All(|groups|)
       <==> required == All(|groups|) || AllFit(base, groups, budget, required)
  {
    hide Cost, Greedy, All, StepFits;
    var n := |groups|;
    assert Tail(required, n, n) == required;
    GreedyTakesAll(base, groups, budget, n, required);
    if required == All(n) {
      forall i | 0 <= i < n
        ensures StepFits(base, groups, budget, required, i)
      {
        RequiredStepFits(base, groups, budget, required, i);
      }
    } else {
      var o := OldestOptional(required, 0, n);
      OldestIsUnique(groups, required, o);
      if required + {o} != All(n) {
        SecondOldest(base, groups, budget, required, o);
      } else {
        OnlyOptional(base, groups, budget, required, o);
      }
    }
  }

  lemma {:induction false} RequiredStepFits(base: seq<Message>, groups: seq<Group>, budget: int, required: set<nat>,
                                            i: nat)
    requires required <= All(|groups|) && i in required
    ensures i < |groups| && StepFits(base, groups, budget, required, i)
  {
    hide All, Cost;
  }

  lemma {:induction false} OldestIsUnique(groups: seq<Group>, required: set<nat>, o: nat)
    requires IsOldestOptional(groups, required, o)
    ensures forall i: nat | IsOldestOptional(groups, required, i) :: i == o
  {
    forall i: nat | IsOldestOptional(groups, required, i)
      ensures i == o
    {
      assert (forall j: nat | j < o :: j in required) && o !in required && i !in required;
    }
  }

  lemma {:induction false} OnlyOptional(base: seq<Message>, groups: seq<Group>, budget: int, required: set<nat>, o: nat)
    requires required <= All(|groups|) && IsOldestOptional(groups, required, o) && required + {o} == All(|groups|)
    ensures (forall i | 0 <= i < |groups| :: StepFits(base, groups, budget, required, i))
       <==> Cost(base, groups, All(|groups|)) <= budget
  {
    hide All, Cost;
    var n := |groups|;
    OldestTail(required, o, n);
    assert StepFits(base, groups, budget, required, o) <==> Cost(base, groups, All(n)) <= budget;
    forall i | 0 <= i < n && i != o
      ensures i in required
    {
      assert i in required + {o};
    }
  }

  lemma {:induction false} OldestTail(required: set<nat>, o: nat, n: nat)
    requires required <= All(n) && o < n && forall j: nat | j < o :: j in required
    ensures Tail(required, o, n) == All(n)
  {
    hide All;
  }

  lemma {:induction false} SecondOldest(base: seq<Message>, groups: seq<Group>, budget: int, required: set<nat>, o: nat)
    requires required <= All(|groups|) && NonEmptyGroups(groups) && IsOldestOptional(groups, required, o)
    requires required + {o} != All(|groups|)
    ensures |All(|groups|) - {o}| <= |groups|
    ensures (forall i | 0 <= i < |groups| :: StepFits(base, groups, budget, required, i))
       <==> Cost(base, groups, All(|groups|)) <= budget && Cost(base, groups, All(|groups|) - {o}) <= budget
  {
    hide Cost, All, Tail, StepFits, IsOldestOptional;
    var n := |groups|;
    AtMostAll(All(n) - {o}, n);
    var second := SecondOptional(groups, required, o);
    OldestStep(base, groups, budget, required, o);
    SecondStep(base, groups, budget, required, o, second);
    forall i | 0 <= i < n
      ensures Cost(base, groups, All(n)) <= budget && Cost(base, groups, All(n) - {o}) <= budget
              ==> StepFits(base, groups, budget, required, i)
    {
      if i in required {
        RequiredStepFits(base, groups, budget, required, i);
      } else if i != o {
        LaterStep(base, groups, budget, required, o, i);
      }
    }
  }

  lemma {:induction false} SecondOptional(groups: seq<Group>, required: set<nat>, o: nat) returns (second: nat)
    requires required <= All(|groups|) && IsOldestOptional(groups, required, o) && required + {o} != All(|groups|)
    ensures o < second < |groups| && second !in required && forall j: nat | o < j < second :: j in required
  {
    hide All;
    var other :| other in All(|groups|) && other !in required + {o};
    assert o < other < |groups|;
    second := OldestOptional(required, o + 1, |groups|);
  }

  lemma {:induction false} OldestStep(base: seq<Message>, groups: seq<Group>, budget: int, required: set<nat>, o: nat)
    requires required <= All(|groups|) && IsOldestOptional(groups, required, o)
    ensures StepFits(base, groups, budget, required, o) <==> Cost(base, groups, All(|groups|)) <= budget
  {
    hide Cost, All;
    OldestTail(required, o, |groups|);
  }

  lemma {:induction false} SecondStep(base: seq<Message>, groups: seq<Group>, budget: int, required: set<nat>, o: nat,
                                      second: nat)
    requires required <= All(|groups|) && IsOldestOptional(groups, required, o)
    requires o < second < |groups| && second !in required && forall j: nat | o < j < second :: j in required
    ensures |All(|groups|) - {o}| <= |groups|
    ensures StepFits(base, groups, budget, required, second) <==> Cost(base, groups, All(|groups|) - {o}) <= budget
  {
    hide Cost, All;
    var n := |groups|;
    AtMostAll(All(n) - {o}, n);
    assert Tail(required, second, n) == All(n) - {o};
  }

  lemma {:induction false} LaterStep(base: seq<Message>, groups: seq<Group>, budget: int, required: set<nat>, o: nat,
                                     i: nat)
    requires required <= All(|groups|) && NonEmptyGroups(groups) && IsOldestOptional(groups, required, o)
    requires i < |groups| && i !in required && i != o
    ensures |All(|groups|) - {o}| <= |groups|
    ensures Cost(base, groups, All(|groups|) - {o}) <= budget ==> StepFits(base, groups, budget, required, i)
  {
    hide Cost, All, Tail;
    var n := |groups|;
    LaterTail(required, o, i, n);
    AtMostAll(All(n) - {o}, n);
    AtMostAll(Tail(required, i, n), n);
    CostGrows(base, groups, Tail(required, i, n), All(n) - {o});
  }

  lemma {:induction false} LaterTail(required: set<nat>, o: nat, i: nat, n: nat)
    requires required <= All(n) && o < n && o !in required && i < n && i !in required && i != o
    requires forall j: nat | j < o :: j in required
    ensures Tail(required, i, n) <= All(n) - {o} && All(n) - {o} != All(n)
  {
    hide All;
    assert o in All(n);
  }

  /** In particular, nothing is omitted when the whole history and one marker for a single group fit. */
  lemma {:induction false} FitsWithMarker(base: seq<Message>, groups: seq<Group>, budget: int, required: set<nat>)
    requires required <= All(|groups|) && NonEmptyGroups(groups)
    requires Cost(base, groups, All(|groups|)) + Chars(Gap(1)) <= budget
    ensures Greedy(base, groups, budget, |groups|, required) == All(|groups|)
  {
    hide Cost, Greedy, Chars, Gap, Sizes, All;
    var n := |groups|;
    forall o: nat | IsOldestOptional(groups, required, o) && required + {o} != All(n)
      ensures |All(n) - {o}| <= n && Cost(base, groups, All(n) - {o}) <= budget
    {
      assert o in All(n);
      assert |All(n) - {o}| == n - 1;
      CostIs(base, groups, All(n) - {o});
      CostIs(base, groups, All(n));
      GapChars(0);
      MoreCosts(groups, All(n) - {o}, All(n), n);
    }
    NothingOmittedIff(base, groups, budget, required);
  }

  // ---------------------------------------------------------------- required groups

  predicate HasToolExchange(g: Group) {
    exists m | m in g :: m.calls != [] || m.role == Tool
  }

  predicate HasUser(g: Group) {
    exists m | m in g :: m.role == User
  }

  /** The last group with a call or a tool result in it. */
  ghost predicate NewestToolGroup(groups: seq<Group>, i: nat) {
    && i < |groups| && (exists k | 0 <= k < |groups[i]| :: |groups[i][k].calls| > 0 || groups[i][k].role.Tool?)
    && forall j, k | i < j < |groups| && 0 <= k < |groups[j]| :: groups[j][k].calls == [] && groups[j][k].role != Tool
  }

  /** The last group with a user message in it. */
  ghost predicate NewestUserGroup(groups: seq<Group>, i: nat) {
    && i < |groups| && (exists k | 0 <= k < |groups[i]| :: groups[i][k].role.User?)
    && forall j, k | i < j < |groups| && 0 <= k < |groups[j]| :: groups[j][k].role != User
  }

  lemma {:induction false} NewestAre(groups: seq<Group>, i: nat)
    ensures NewestToolGroup(groups, i)
       <==> i < |groups| && HasToolExchange(groups[i]) && forall j | i < j < |groups| :: !HasToolExchange(groups[j])
    ensures NewestUserGroup(groups, i)
       <==> i < |groups| && HasUser(groups[i]) && forall j | i < j < |groups| :: !HasUser(groups[j])
  {
    forall g: Group
      ensures HasToolExchange(g) <==> exists k | 0 <= k < |g| :: |g[k].calls| > 0 || g[k].role.Tool?
      ensures HasUser(g) <==> exists k | 0 <= k < |g| :: g[k].role.User?
    {
    }
  }

  /** The newest tool exchange and the newest feedback. */
  ghost predicate AreRequired(groups: seq<Group>, required: set<nat>) {
    && required <= All(|groups|)
    && forall i: nat | i < |groups| :: i in required <==> NewestToolGroup(groups, i) || NewestUserGroup(groups, i)
  }

  method RequiredGroupIndexes(groups: seq<Group>) returns (required: set<nat>)
    ensures AreRequired(groups, required)
  {
    hide HasToolExchange, HasUser, NewestToolGroup, NewestUserGroup, All;
    forall i: nat {
      NewestAre(groups, i);
    }
    required := {};
    var index := |groups|;
    while index > 0
      invariant 0 <= index <= |groups| && required == {}
      invariant forall j | index <= j < |groups| :: !HasToolExchange(groups[j])
    {
      index := index - 1;
      if HasToolExchange(groups[index]) {
        required := {index};
        break;
      }
    }
    ghost var tools := required;
    index := |groups|;
    while index > 0
      invariant 0 <= index <= |groups| && required == tools
      invariant forall j | index <= j < |groups| :: !HasUser(groups[j])
    {
      index := index - 1;
      if HasUser(groups[index]) {
        required := required + {index};
        break;
      }
    }
  }

  // ---------------------------------------------------------------- tool results keep their calls

  predicate Issues(m: Message, callId: string) {
    exists c | c in m.calls :: c.id == callId
  }

  ghost function CallIds(m: Message): set<string> {
    set c | c in m.calls :: c.id
  }

  lemma {:induction false} IssuesIs(m: Message, callId: string)
    ensures Issues(m, callId) <==> callId in CallIds(m)
  {
  }

  ghost predicate Answered(ms: seq<Message>, j: nat)
    requires j < |ms|
  {
    ms[j].role == Tool ==> exists i | 0 <= i < j :: ms[j].callId in CallIds(ms[i])
  }

  /** Every tool result comes after the message that issued its call. */
  ghost predicate WellPaired(ms: seq<Message>) {
    forall j | 0 <= j < |ms| :: Answered(ms, j)
  }

  lemma {:induction false} PairedConcat(xs: seq<Message>, ys: seq<Message>)
    requires WellPaired(xs) && WellPaired(ys)
    ensures WellPaired(xs + ys)
  {
    hide CallIds;
    var zs := xs + ys;
    forall j | 0 <= j < |zs|
      ensures Answered(zs, j)
    {
      if j < |xs| {
        assert Answered(xs, j);
        assert forall i | 0 <= i < j :: zs[i] == xs[i];
      } else {
        assert Answered(ys, j - |xs|);
        assert forall i | 0 <= i < j - |xs| :: zs[|xs| + i] == ys[i];
      }
    }
  }

  lemma {:induction false} PairedChosen(groups: seq<Group>, selected: set<nat>, k: nat)
    requires k <= |groups| && forall g | g in groups :: WellPaired(g)
    ensures WellPaired(Chosen(groups, selected, k))
  {
    hide WellPaired;
    NothingPaired();
    if k > 0 {
      PairedChosen(groups, selected, k - 1);
      assert groups[k - 1] in groups;
      PairedConcat(Chosen(groups, selected, k - 1), if k - 1 in selected then groups[k - 1] else []);
    }
  }

  lemma {:induction false} NothingPaired()
    ensures WellPaired([])
  {
  }

  lemma {:induction false} NoToolsPaired(ms: seq<Message>)
    requires forall m | m in ms :: m.role != Tool
    ensures WellPaired(ms)
  {
  }

  lemma {:induction false} PairedProject(base: seq<Message>, groups: seq<Group>, selected: set<nat>)
    requires |selected| <= |groups| && forall m | m in base :: m.role != Tool
    requires forall g | g in groups :: WellPaired(g)
    ensures WellPaired(Project(base, groups, selected))
  {
    hide WellPaired;
    var gap := Gap(|groups| - |selected|);
    NoToolsPaired(base);
    NoToolsPaired(gap);
    PairedChosen(groups, selected, |groups|);
    PairedConcat(base, gap);
    PairedConcat(base + gap, Chosen(groups, selected, |groups|));
  }

  /** Clipping contents cannot orphan a tool result. */
  lemma {:induction false} PairedClipped(ms: seq<Message>, out: seq<Message>)
    requires WellPaired(ms) && |out| == |ms| && forall i | 0 <= i < |ms| :: ClippedFrom(out[i], ms[i])
    ensures WellPaired(out)
  {
    hide ClipText;
    forall j | 0 <= j < |out|
      ensures Answered(out, j)
    {
      assert Answered(ms, j);
      assert forall i | 0 <= i < |ms| :: SameShape(out[i], ms[i]);
    }
  }

  // ---------------------------------------------------------------- the conversation object

  datatype RequestError = NoRoomForInput | CannotHoldRequired | UnknownCall | BlankSummary | BadSummaryLimit

  datatype Limits = Limits(systemChars: nat, initialUserChars: nat, feedbackChars: nat, conversationChars: nat,
                           requiredOutputTokens: nat)

  predicate ValidLimits(l: Limits) {
    l.systemChars > 0 && l.initialUserChars > 0 && l.feedbackChars > 0 && l.conversationChars > 0
      && l.requiredOutputTokens > 0
  }

  function Text(role: Role, content: string): Message {
    Message(role, content, "", "", [])
  }

  function Least(m: int, n: int): int {
    if m < n then m else n
  }

  class AgentContext {
    const limits: Limits
    const protect: bool
    const stable: seq<Message>
    const user: string
    var groups: seq<Group>

    ghost predicate Valid()
      reads this
    {
      && ValidLimits(limits) && |stable| in {1, 2}
      && (forall m | m in stable :: m.role != Tool && |m.content| <= limits.systemChars)
      && |user| <= limits.initialUserChars
      && NonEmptyGroups(groups) && forall g | g in groups :: WellPaired(g)
    }

    constructor (system: string, developer: Option<string>, user: string, limits: Limits, protect: bool)
      requires ValidLimits(limits)
      ensures Valid() && groups == [] && this.limits == limits && this.protect == protect
      ensures this.user == ClipText(user, limits.initialUserChars)
      ensures stable == [Text(System, ClipText(system, limits.systemChars))]
                        + (match developer
                           case None => []
                           case Some(d) => [Text(Developer, ClipText(d, limits.systemChars))])
    {
      this.limits := limits;
      this.protect := protect;
      this.stable := [Text(System, ClipText(system, limits.systemChars))]
                     + (match developer
                        case None => []
                        case Some(d) => [Text(Developer, ClipText(d, limits.systemChars))]);
      this.user := ClipText(user, limits.initialUserChars);
      groups := [];
    }

    method AppendAssistant(content: string, calls: seq<Call>)
      requires Valid()
      modifies this
      ensures Valid() && groups == old(groups) + [[Message(Assistant, content, "", "", calls)]]
    {
      groups := groups + [[Message(Assistant, content, "", "", calls)]];
    }

    /** The result joins the newest group that issued the call; without one nothing changes. */
    method AppendToolResult(name: string, callId: string, text: string) returns (error: Option<RequestError>)
      requires Valid()
      modifies this
      ensures Valid()
      ensures error.None? ==> exists i | 0 <= i < |old(groups)| ::
                && (exists m | m in old(groups)[i] :: callId in CallIds(m))
                && (forall j, m | i < j < |old(groups)| && m in old(groups)[j] :: callId !in CallIds(m))
                && groups == old(groups)[i := old(groups)[i]
                     + [Message(Tool, ClipText(text, limits.feedbackChars), name, callId, [])]]
      ensures error.Some? ==>
                && error.value == UnknownCall && groups == old(groups)
                && forall g, m | g in groups && m in g :: callId !in CallIds(m)
    {
      hide WellPaired, ClipText, Issues, CallIds, NonEmptyGroups;
      forall m { IssuesIs(m, callId); }
      var index := |groups|;
      while index > 0
        invariant 0 <= index <= |groups| && groups == old(groups)
        invariant forall j, m | index <= j < |groups| && m in groups[j] :: callId !in CallIds(m)
      {
        index := index - 1;
        if exists m | m in groups[index] :: Issues(m, callId) {
          var result := Message(Tool, ClipText(text, limits.feedbackChars), name, callId, []);
          PairedResult(groups[index], result);
          UpdatedGroups(groups, index, groups[index] + [result]);
          groups := groups[index := groups[index] + [result]];
          return None;
        }
      }
      return Some(UnknownCall);
    }

    method AppendFeedback(text: string)
      requires Valid()
      modifies this
      ensures Valid() && groups == old(groups) + [[Text(User, ClipText(text, limits.feedbackChars))]]
    {
      groups := groups + [[Text(User, ClipText(text, limits.feedbackChars))]];
    }

    /** The whole dynamic history becomes one summary message. */
    method ReplaceCompactedHistory(summary: string, maxChars: int) returns (r: Result<nat, RequestError>)
      requires Valid()
      modifies this
      ensures Valid()
      ensures match r
              case Ok(removed) => !Blank(summary) && maxChars > 0 && removed == |old(groups)|
                                  && groups == [[Text(User, ClipText(summary, maxChars))]]
              case Err(e) => groups == old(groups) && e == if Blank(summary) then BlankSummary else BadSummaryLimit
    {
      if Blank(summary) { return Err(BlankSummary); }
      if maxChars <= 0 { return Err(BadSummaryLimit); }
      var removed := |groups|;
      groups := [[Text(User, ClipText(summary, maxChars))]];
      return Ok(removed);
    }

    function Base(): seq<Message>
      reads this
    {
      stable + [Text(User, user)]
    }

    /** The smallest of what the role allows and what the model leaves after either reserve for its output. */
    function Budget(windowTokens: int, maxTokens: int): (budget: int)
      reads this
      ensures var reserved, required := 4 * (windowTokens - maxTokens),
                4 * (windowTokens - limits.requiredOutputTokens);
              && budget <= limits.conversationChars && budget <= reserved && budget <= required
              && budget in {limits.conversationChars, reserved, required}
    {
      Least(limits.conversationChars,
            4 * (windowTokens
                 - if maxTokens > limits.requiredOutputTokens then maxTokens else limits.requiredOutputTokens))
    }

    /**
     The request holds the base, a marker for what is omitted, and the groups selected newest first; it fits the budget,
     keeps protected instructions word for word, and orphans no tool result. It is refused exactly when the input
     has no room at all or the cut-down projection exceeds the budget. It holds the whole history, unabridged, exactly
     when that fits, and so does all but the oldest optional group together with a marker.
     */
    method MessagesForRequest(windowTokens: int, maxTokens: int)
      returns (r: Result<seq<Message>, RequestError>, ghost selected: set<nat>)
      requires Valid()
      ensures r == Err(NoRoomForInput) <==> Budget(windowTokens, maxTokens) <= 0
      ensures r.Ok? || r.error in {NoRoomForInput, CannotHoldRequired}
      ensures Budget(windowTokens, maxTokens) > 0 ==>
                && (exists required :: AreRequired(groups, required)
                      && NewestFirst(Base(), groups, Budget(windowTokens, maxTokens), required, selected))
                && |selected| <= |groups|
                && var whole := Project(Base(), groups, selected);
                   var protectedCount := if protect then |stable| else 0;
                   && (r.Ok? <==> Floor(whole, protectedCount) <= Budget(windowTokens, maxTokens))
                   && (r.Ok? ==>
                         && |Written(r.value)| <= Budget(windowTokens, maxTokens)
                         && |r.value| == |whole| && WellPaired(r.value)
                         && (forall i | 0 <= i < |whole| :: ClippedFrom(r.value[i], whole[i]))
                         && (forall i | 0 <= i < protectedCount :: r.value[i] == stable[i])
                         && (|Written(whole)| <= Budget(windowTokens, maxTokens) ==> r.value == whole)
                         && ByWorth(r.value, whole, |Base()|, protectedCount))
      ensures Budget(windowTokens, maxTokens) > 0 ==> forall required | AreRequired(groups, required) ::
                AllFit(Base(), groups, Budget(windowTokens, maxTokens), required)
                <==> selected == All(|groups|) && r == Ok(Base() + Chosen(groups, All(|groups|), |groups|))
    {
      hide WellPaired, Greedy, Chars, Floor, ClippedFrom, AreRequired, All, NonEmptyGroups, Written, ByWorth, AllFit,
           Chosen, NewestFirst;
      selected := {};
      var budget := Budget(windowTokens, maxTokens);
      if budget <= 0 { return Err(NoRoomForInput), {}; }
      var base := Base();
      var required := RequiredGroupIndexes(groups);
      RequiredAreKnown(groups, required);
      var chosen := SelectGroups(base, groups, budget, required);
      selected := chosen;
      GreedyIsNewestFirst(base, groups, budget, required);
      AtMostAll(chosen, |groups|);
      WholeHistory(base, groups, budget, required);
      RequiredUnique(groups, required);
      var projected := Project(base, groups, chosen);
      CharsMeasure(projected);
      PairedProject(base, groups, chosen);
      var fitted := FitMessageContents(projected, budget, |base|, if protect then |stable| else 0);
      if fitted.None? { return Err(CannotHoldRequired), selected; }
      PairedClipped(projected, fitted.value);
      return Ok(fitted.value), selected;
    }
  }

  lemma {:induction false} UpdatedGroups(groups: seq<Group>, i: nat, g: Group)
    requires i < |groups| && NonEmptyGroups(groups)
    requires (forall h | h in groups :: WellPaired(h)) && g != [] && WellPaired(g)
    ensures NonEmptyGroups(groups[i := g]) && forall h | h in groups[i := g] :: WellPaired(h)
  {
    hide WellPaired;
    var next := groups[i := g];
    forall h | h in next
      ensures h != [] && WellPaired(h)
    {
      var k :| 0 <= k < |groups| && next[k] == h;
      assert k != i ==> h in groups;
    }
    assert forall h | h in next :: WellPaired(h);
    assert NonEmptyGroups(next);
  }

  lemma {:induction false} GreedyStep(base: seq<Message>, groups: seq<Group>, budget: int, k: nat, selected: set<nat>)
    requires k < |groups| && selected <= All(|groups|)
    ensures selected + {k} <= All(|groups|) && |selected + {k}| <= |groups|
    ensures Greedy(base, groups, budget, k + 1, selected)
            == if k in selected || Chars(Project(base, groups, selected + {k})) > budget
               then Greedy(base, groups, budget, k, selected)
               else Greedy(base, groups, budget, k, selected + {k})
  {
    hide All, Chars, Project;
    AtMostAll(selected + {k}, |groups|);
  }

  lemma {:induction false} RequiredUnique(groups: seq<Group>, required: set<nat>)
    requires AreRequired(groups, required)
    ensures forall other | AreRequired(groups, other) :: other == required
  {
    hide HasToolExchange, HasUser, NewestToolGroup, NewestUserGroup;
    forall other | AreRequired(groups, other)
      ensures other == required
    {
      forall i: nat
        ensures i in other <==> i in required
      {
        assert i in All(|groups|) <==> i < |groups|;
      }
    }
  }

  /** Nothing is omitted and the result fits exactly when all fits in the sense above. */
  lemma {:induction false} WholeHistory(base: seq<Message>, groups: seq<Group>, budget: int, required: set<nat>)
    requires required <= All(|groups|) && NonEmptyGroups(groups)
    ensures Project(base, groups, All(|groups|)) == base + Chosen(groups, All(|groups|), |groups|)
    ensures AllFit(base, groups, budget, required)
       <==> && Greedy(base, groups, budget, |groups|, required) == All(|groups|)
            && Chars(base + Chosen(groups, All(|groups|), |groups|)) <= budget
  {
    hide All, Chars, Greedy, Chosen;
    NothingOmittedIff(base, groups, budget, required);
    assert base + [] == base;
    if required == All(|groups|) {
      forall o: nat | IsOldestOptional(groups, required, o) ensures false { InAll(o, |groups|); }
    }
  }

  lemma {:induction false} InAll(i: nat, n: nat)
    requires i < n
    ensures i in All(n)
  {
  }

  lemma {:induction false} RequiredAreKnown(groups: seq<Group>, required: set<nat>)
    requires AreRequired(groups, required)
    ensures required <= All(|groups|)
  {
  }

  /** From newest to oldest, skip what does not fit and keep trying older groups. */
  method SelectGroups(base: seq<Message>, groups: seq<Group>, budget: int, required: set<nat>)
    returns (selected: set<nat>)
    requires required <= All(|groups|)
    ensures selected == Greedy(base, groups, budget, |groups|, required)
    ensures required <= selected <= All(|groups|)
  {
    hide Chars, All, Project, Greedy;
    selected := required;
    var index := |groups|;
    while index > 0
      invariant 0 <= index <= |groups| && required <= selected <= All(|groups|)
      invariant Greedy(base, groups, budget, index, selected) == Greedy(base, groups, budget, |groups|, required)
    {
      index := index - 1;
      GreedyStep(base, groups, budget, index, selected);
      if index !in selected {
        var candidate := Project(base, groups, selected + {index});
        if Chars(candidate) <= budget {
          selected := selected + {index};
        }
      }
    }
    GreedyEnd(base, groups, budget, selected);
  }

  lemma {:induction false} GreedyEnd(base: seq<Message>, groups: seq<Group>, budget: int, selected: set<nat>)
    requires selected <= All(|groups|)
    ensures Greedy(base, groups, budget, 0, selected) == selected
  {
  }

  lemma {:induction false} PairedResult(g: Group, result: Message)
    requires WellPaired(g) && exists m | m in g :: result.callId in CallIds(m)
    ensures WellPaired(g + [result])
  {
    hide CallIds;
    var m :| m in g && result.callId in CallIds(m);
    var i :| 0 <= i < |g| && g[i] == m;
    var longer := g + [result];
    assert longer[i] == m;
    forall j | 0 <= j < |longer|
      ensures Answered(longer, j)
    {
      if j < |g| {
        assert Answered(g, j);
        assert forall k | 0 <= k < j :: longer[k] == g[k];
      }
    }
  }

  // ---------------------------------------------------------------- the marker can cost a fitting history

  const TINY_BASE := [Text(System, ""), Text(User, "")]
  const TINY_GROUPS: seq<Group> := [[Text(Assistant, "")], [Text(Assistant, "")], [Text(User, "x")]]

  lemma {:induction false} GapIsLong(omitted: nat)
    requires omitted > 0
    ensures Chars(Gap(omitted)) > 33
  {
    GapChars(omitted);
    DecLength(omitted);
    assert Dec(0) == "0";
  }

  lemma {:induction false} TinySizes()
    ensures Chars(TINY_BASE) == 10
    ensures Sizes(TINY_GROUPS, All(3), 3) == 23
  {
    assert TINY_BASE[..1] == [Text(System, "")] && TINY_BASE[..1][..0] == [];
    assert [Text(Assistant, "")][..0] == [] && [Text(User, "x")][..0] == [];
    assert Sizes(TINY_GROUPS, All(3), 1) == 9;
    assert Sizes(TINY_GROUPS, All(3), 2) == 18;
  }

  lemma {:induction false} TinyGapped(selected: set<nat>)
    requires |selected| < 3
    ensures Cost(TINY_BASE, TINY_GROUPS, selected) > 33
  {
    hide Chars, Gap, Cost, Sizes;
    CostIs(TINY_BASE, TINY_GROUPS, selected);
    GapIsLong(3 - |selected|);
  }

  /** This history of 33 characters fits a budget of 33, yet its request is refused: the first marker does not fit. */
  lemma {:induction false} FittingHistoryRefused()
    ensures Cost(TINY_BASE, TINY_GROUPS, All(3)) == 33
    ensures AreRequired(TINY_GROUPS, {2})
    ensures forall selected | NewestFirst(TINY_BASE, TINY_GROUPS, 33, {2}, selected) :: selected == {2}
    ensures Floor(Project(TINY_BASE, TINY_GROUPS, {2}), 0) > 33
  {
    CostIs(TINY_BASE, TINY_GROUPS, All(3));
    TinySizes();
    GapChars(0);
    TinyRequired();
    forall selected | NewestFirst(TINY_BASE, TINY_GROUPS, 33, {2}, selected)
      ensures selected == {2}
    {
      TinySelected(selected);
    }
    TinyFloor();
  }

  lemma {:induction false} TinyRequired()
    ensures AreRequired(TINY_GROUPS, {2})
  {
    assert TINY_GROUPS[2][0] in TINY_GROUPS[2];
    assert HasUser(TINY_GROUPS[2]);
    assert forall i | 0 <= i < 3 :: !HasToolExchange(TINY_GROUPS[i]);
    assert forall i | 0 <= i < 2 :: !HasUser(TINY_GROUPS[i]);
  }

  lemma {:induction false} TinySelected(selected: set<nat>)
    requires NewestFirst(TINY_BASE, TINY_GROUPS, 33, {2}, selected)
    ensures selected == {2}
  {
    hide Written, Project, Affords;
    assert forall i | i in selected :: i in All(3);
    assert Newer({2}, selected, 1) + {1} == {2, 1};
    TinyUnaffordable({2, 1});
    assert 1 !in selected;
    assert Newer({2}, selected, 0) + {0} == {2, 0};
    TinyUnaffordable({2, 0});
  }

  lemma {:induction false} TinyUnaffordable(selected: set<nat>)
    requires |selected| < 3
    ensures !Affords(TINY_BASE, TINY_GROUPS, 33, selected)
  {
    hide Chars, Written, Project;
    TinyGapped(selected);
    CharsMeasure(Project(TINY_BASE, TINY_GROUPS, selected));
  }

  lemma {:induction false} FloorHasMessage(ms: seq<Message>, i: nat)
    requires i < |ms|
    ensures Floor(ms, 0) >= MessageFloor(ms[i])
  {
    if i < |ms| - 1 {
      FloorHasMessage(ms[..|ms| - 1], i);
    }
  }

  lemma {:induction false} TinyFloor()
    ensures Floor(Project(TINY_BASE, TINY_GROUPS, {2}), 0) > 33
  {
    hide Floor, Chosen;
    var whole := Project(TINY_BASE, TINY_GROUPS, {2});
    assert whole[2] == GapMarker(2);
    FloorHasMessage(whole, 2);
    DecLength(2);
  }

  /** The conversation that grows to this history, with a budget of exactly its size, cannot make its request. */
  method TinyConversation() returns (r: Result<seq<Message>, RequestError>, history: seq<Group>)
    ensures history == TINY_GROUPS && r == Err(CannotHoldRequired)
  {
    hide NewestFirst, AreRequired, Project, Floor, AllFit, Chosen, All, TINY_GROUPS, ClippedFrom, WellPaired;
    var context := new AgentContext("", None, "", Limits(10, 10, 10, 33, 1), false);
    context.AppendAssistant("", []);
    context.AppendAssistant("", []);
    context.AppendFeedback("x");
    history := context.groups;
    TinyIs();
    assert context.Base() == TINY_BASE;
    ghost var selected;
    r, selected := context.MessagesForRequest(1000, 1);
    FittingHistoryRefused();
    RequiredUnique(TINY_GROUPS, {2});
  }

  lemma {:induction false} TinyIs()
    ensures TINY_GROUPS == [[Text(Assistant, "")], [Text(Assistant, "")], [Text(User, "x")]]
  {
  }
}
