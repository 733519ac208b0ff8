/** Bounded conversation history and its projection into a model window (restscope/context/context.py). */
module ContextWindow {
  import opened Wrappers
  import opened Decimal

  datatype Role = System | Developer | User | Assistant | Tool

  /** `arguments` is the compact JSON text of the arguments. */
  datatype Call = Call(id: string, name: string, arguments: string)

  datatype Message = Message(role: Role, content: string, name: string, callId: string, calls: seq<Call>)

  type Group = seq<Message>

  // ---------------------------------------------------------------- sizes

  function RoleChars(r: Role): nat {
    match r case System => 6 case Developer => 9 case User => 4 case Assistant => 9 case Tool => 4
  }

  function CallsChars(cs: seq<Call>): nat {
    if cs == [] then 0
    else
      var c := cs[|cs| - 1];
      CallsChars(cs[..|cs| - 1]) + |c.id| + |c.name| + |c.arguments|
  }

  /** Everything but the content. */
  function Overhead(m: Message): (n: nat)
    ensures n >= 4
  {
    RoleChars(m.role) + |m.name| + |m.callId| + CallsChars(m.calls)
  }

  function MessageChars(m: Message): nat {
    |m.content| + Overhead(m)
  }

  function Chars(ms: seq<Message>): nat {
    if ms == [] then 0 else Chars(ms[..|ms| - 1]) + MessageChars(ms[|ms| - 1])
  }

  // What the sizes measure: everything of a message that goes to the provider, written one after the other.

  ghost function RoleName(r: Role): string {
    match r
    case System => "system"
    case Developer => "developer"
    case User => "user"
    case Assistant => "assistant"
    case Tool => "tool"
  }

  ghost function CallsText(cs: seq<Call>): string {
    if cs == [] then "" else cs[0].id + cs[0].name + cs[0].arguments + CallsText(cs[1..])
  }

  ghost function MessageText(m: Message): string {
    RoleName(m.role) + m.content + m.name + m.callId + CallsText(m.calls)
  }

  ghost function Written(ms: seq<Message>): string {
    if ms == [] then "" else MessageText(ms[0]) + Written(ms[1..])
  }

  lemma {:induction false} CallsTextSnoc(cs: seq<Call>)
    requires cs != []
    ensures var c := cs[|cs| - 1]; |CallsText(cs)| == |CallsText(cs[..|cs| - 1])| + |c.id| + |c.name| + |c.arguments|
  {
    if |cs| > 1 {
      CallsTextSnoc(cs[1..]);
      assert cs[1..][..|cs| - 2] == cs[..|cs| - 1][1..];
    }
  }

  lemma {:induction false} CallsMeasure(cs: seq<Call>)
    ensures CallsChars(cs) == |CallsText(cs)|
  {
    if cs != [] {
      CallsMeasure(cs[..|cs| - 1]);
      CallsTextSnoc(cs);
    }
  }

  lemma {:induction false} WrittenSnoc(ms: seq<Message>)
    requires ms != []
    ensures |Written(ms)| == |Written(ms[..|ms| - 1])| + |MessageText(ms[|ms| - 1])|
  {
    hide MessageText;
    if |ms| > 1 {
      WrittenSnoc(ms[1..]);
      assert ms[1..][..|ms| - 2] == ms[..|ms| - 1][1..];
    }
  }

  /** The size of a conversation is the length of its text. */
  lemma {:induction false} CharsMeasure(ms: seq<Message>)
    ensures Chars(ms) == |Written(ms)|
  {
    hide Written;
    if ms == [] {
      NothingWritten();
    } else {
      CharsMeasure(ms[..|ms| - 1]);
      WrittenSnoc(ms);
      CallsMeasure(ms[|ms| - 1].calls);
    }
  }

  lemma {:induction false} NothingWritten()
    ensures Written([]) == ""
  {
  }

  lemma {:induction false} CharsConcat(xs: seq<Message>, ys: seq<Message>)
    ensures Chars(xs + ys) == Chars(xs) + Chars(ys)
  {
    hide MessageChars;
    if ys == [] {
      assert xs + ys == xs;
    } else {
      assert (xs + ys)[..|xs + ys| - 1] == xs + ys[..|ys| - 1];
      CharsConcat(xs, ys[..|ys| - 1]);
    }
  }

  lemma {:induction false} CharsUpdate(ms: seq<Message>, i: nat, m: Message)
    requires i < |ms|
    ensures Chars(ms[i := m]) == Chars(ms) - MessageChars(ms[i]) + MessageChars(m)
  {
    hide MessageChars;
    var last := |ms| - 1;
    if i == last {
      assert ms[i := m][..last] == ms[..last];
    } else {
      assert ms[i := m][..last] == ms[..last][i := m];
      CharsUpdate(ms[..last], i, m);
    }
  }

  // ---------------------------------------------------------------- clipping one text

  const SEPARATOR := "\n...\n"

  function Marker(chars: nat): string {
    "CLIPPED MESSAGE | original-chars=" + Dec(chars) + "\n"
  }

  /** A text that is too long keeps its size, head and tail, in exactly the allowed number of characters. */
  function ClipText(text: string, maxChars: nat): (r: string)
    ensures |r| == if |text| <= maxChars then |text| else maxChars
    ensures |text| <= maxChars ==> r == text
  {
    if |text| <= maxChars then text
    else
      var marker := Marker(|text|);
      if |marker| >= maxChars then marker[..maxChars]
      else
        var remaining := maxChars - |marker|;
        if remaining <= |SEPARATOR| + 2 then (marker + text[..remaining])[..maxChars]
        else
          var evidence := remaining - |SEPARATOR|;
          var head := evidence / 2;
          var tail := evidence - head;
          marker + text[..head] + SEPARATOR + text[|text| - tail..]
  }

  /** The marker can be read back. */
  lemma {:induction false} MarkerReads(chars: nat)
    ensures var marker, head := Marker(chars), "CLIPPED MESSAGE | original-chars=";
            && |marker| > |head| && head <= marker && marker[|marker| - 1] == '\n'
            && AllDigits(marker[|head|..|marker| - 1]) && ParseNat(marker[|head|..|marker| - 1]) == chars
  {
    hide Dec;
    ParseDec(chars);
    var head := "CLIPPED MESSAGE | original-chars=";
    assert Marker(chars)[|head|..|Marker(chars)| - 1] == Dec(chars);
  }

  /** A clipped text shows its original size first, and with little room how it began. */
  lemma {:induction false} ClipShowsSize(text: string, maxChars: nat)
    requires maxChars < |text|
    ensures var r, marker := ClipText(text, maxChars), Marker(|text|);
            && (if |marker| <= maxChars then marker <= r else r <= marker)
            && (|marker| <= maxChars <= |marker| + |SEPARATOR| + 2 ==> r[|marker|..] == text[..maxChars - |marker|])
  {
    hide Dec;
  }

  /** Given room, it then shows how the text began and how it ended, in nearly equal parts. */
  lemma {:induction false} ClipShowsEnds(text: string, maxChars: nat) returns (head: nat, tail: nat)
    requires |Marker(|text|)| + |SEPARATOR| + 2 < maxChars < |text|
    ensures var r, start := ClipText(text, maxChars), |Marker(|text|)|;
            && 0 < head <= tail <= head + 1 && start + head + |SEPARATOR| + tail == maxChars
            && r[start..start + head] == text[..head] && r[maxChars - tail..] == text[|text| - tail..]
  {
    hide Marker;
    var marker := Marker(|text|);
    var evidence := maxChars - |marker| - |SEPARATOR|;
    head, tail := evidence / 2, evidence - evidence / 2;
    InParts(marker, text[..head], SEPARATOR, text[|text| - tail..]);
  }

  lemma {:induction false} InParts(a: string, b: string, c: string, d: string)
    ensures var r := a + b + c + d; r[|a|..|a| + |b|] == b && r[|r| - |d|..] == d
  {
  }

  // ---------------------------------------------------------------- fitting messages into a budget

  const FLOOR_CHARS := 32

  /** The least a message can be cut to. */
  ghost function MessageFloor(m: Message): nat {
    Overhead(m) + if |m.content| < 32 then |m.content| else 32
  }

  /** Protected messages whole, every other one cut to at most 32 characters. */
  ghost function Floor(ms: seq<Message>, protectedCount: nat): nat {
    if ms == [] then 0
    else
      var last := |ms| - 1;
      Floor(ms[..last], protectedCount)
      + if last < protectedCount then MessageChars(ms[last]) else MessageFloor(ms[last])
  }

  ghost predicate SameShape(m: Message, original: Message) {
    m.role == original.role && m.name == original.name && m.callId == original.callId && m.calls == original.calls
  }

  /** The original, or the original with its text clipped to no less than 32 characters. */
  ghost predicate ClippedFrom(m: Message, original: Message) {
    SameShape(m, original)
    && (m.content == original.content
        || exists target | 32 <= target < |original.content| ::
             m.content == ClipText(original.content, target))
  }

  function Range(from: nat, to: nat): seq<nat>
    requires from <= to
  {
    seq(to - from, i requires 0 <= i < to - from => from + i)
  }

  /** Old feedback first, then the initial task, then unprotected instructions, the newest two messages last. */
  function ClipOrder(count: nat, baseCount: nat, protectedCount: nat): seq<nat>
    requires protectedCount < baseCount <= count
  {
    var oldEnd := if count >= baseCount + 2 then count - 2 else baseCount;
    Range(baseCount, oldEnd) + [baseCount - 1] + Range(protectedCount, baseCount - 1) + Range(oldEnd, count)
  }

  /** Every unprotected position occurs exactly once, so removing duplicates changes nothing. */
  lemma {:induction false} ClipOrderIsPermutation(count: nat, baseCount: nat, protectedCount: nat)
    requires protectedCount < baseCount <= count
    ensures var order := ClipOrder(count, baseCount, protectedCount);
            && (forall i :: i in order <==> protectedCount <= i < count)
            && (forall a, b | 0 <= a < b < |order| :: order[a] != order[b])
  {
    var order := ClipOrder(count, baseCount, protectedCount);
    var oldEnd := if count >= baseCount + 2 then count - 2 else baseCount;
    forall i: nat | protectedCount <= i < count
      ensures i in order
    {
      var at := if i >= oldEnd then oldEnd - baseCount + baseCount - protectedCount + i - oldEnd
                else if i >= baseCount then i - baseCount
                else if i == baseCount - 1 then oldEnd - baseCount
                else oldEnd - baseCount + 1 + i - protectedCount;
      assert order[at] == i;
    }
  }

  /** Old feedback is worth least, then the initial task, then instructions; the newest two messages are worth most. */
  ghost function Worth(count: nat, baseCount: nat, i: nat): nat {
    if i < baseCount - 1 then 2
    else if i == baseCount - 1 then 1
    else if i + 2 < count then 0
    else 3
  }

  /** Positions come in the order of their worth, and older ones first among equals. */
  lemma {:induction false} ClipOrderIsByWorth(count: nat, baseCount: nat, protectedCount: nat)
    requires protectedCount < baseCount <= count
    ensures var order := ClipOrder(count, baseCount, protectedCount);
            forall a, b | 0 <= a < b < |order| ::
              var x, y := Worth(count, baseCount, order[a]), Worth(count, baseCount, order[b]);
              x < y || (x == y && order[a] < order[b])
  {
  }

  /** A message is clipped only when every one of less worth, or as old feedback older, is down to 32 characters. */
  ghost predicate ByWorth(out: seq<Message>, ms: seq<Message>, baseCount: nat, protectedCount: nat)
    requires |out| == |ms|
  {
    forall i, j | protectedCount <= i < |ms| && protectedCount <= j < |ms| && out[j] != ms[j]
                  && (Worth(|ms|, baseCount, i) < Worth(|ms|, baseCount, j)
                      || (Worth(|ms|, baseCount, i) == Worth(|ms|, baseCount, j) && i < j)) ::
      |out[i].content| <= 32
  }

  lemma {:induction false} PriorityIsByWorth(out: seq<Message>, ms: seq<Message>, baseCount: nat, protectedCount: nat)
    requires protectedCount < baseCount <= |ms| == |out|
    requires InPriority(out, ms, ClipOrder(|ms|, baseCount, protectedCount))
    ensures ByWorth(out, ms, baseCount, protectedCount)
  {
    hide ClipOrder, Worth;
    var order := ClipOrder(|ms|, baseCount, protectedCount);
    ClipOrderIsPermutation(|ms|, baseCount, protectedCount);
    ClipOrderIsByWorth(|ms|, baseCount, protectedCount);
    forall i, j | protectedCount <= i < |ms| && protectedCount <= j < |ms| && out[j] != ms[j]
                  && (Worth(|ms|, baseCount, i) < Worth(|ms|, baseCount, j)
                      || (Worth(|ms|, baseCount, i) == Worth(|ms|, baseCount, j) && i < j))
      ensures |out[i].content| <= 32
    {
      assert i in order && j in order;
      var a :| 0 <= a < |order| && order[a] == i;
      var b :| 0 <= b < |order| && order[b] == j;
      assert Exhausted(out, order, b);
    }
  }

  lemma {:induction false} FloorAtMostChars(ms: seq<Message>, protectedCount: nat)
    ensures Floor(ms, protectedCount) <= Chars(ms)
  {
    if ms != [] {
      FloorAtMostChars(ms[..|ms| - 1], protectedCount);
    }
  }

  lemma {:induction false} FloorIsChars(ms: seq<Message>, protectedCount: nat)
    requires forall i | protectedCount <= i < |ms| :: |ms[i].content| <= FLOOR_CHARS
    ensures Floor(ms, protectedCount) == Chars(ms)
  {
    if ms != [] {
      FloorIsChars(ms[..|ms| - 1], protectedCount);
    }
  }

  lemma {:induction false} SameFloor(xs: seq<Message>, ys: seq<Message>, protectedCount: nat)
    requires |xs| == |ys|
    requires forall i | 0 <= i < |xs| && i < protectedCount :: xs[i] == ys[i]
    requires forall i | 0 <= i < |xs| && i >= protectedCount :: MessageFloor(xs[i]) == MessageFloor(ys[i])
    ensures Floor(xs, protectedCount) == Floor(ys, protectedCount)
  {
    hide MessageFloor, MessageChars;
    if xs != [] {
      SameFloor(xs[..|xs| - 1], ys[..|ys| - 1], protectedCount);
    }
  }

  /** What the loop keeps while it clips along the order. */
  ghost predicate Clipping(out: seq<Message>, ms: seq<Message>, order: seq<nat>, k: nat, protectedCount: nat)
    requires k <= |order|
  {
    && |out| == |ms|
    && (forall i | 0 <= i < |ms| && i < protectedCount :: out[i] == ms[i])
    && (forall i | 0 <= i < |ms| && i >= protectedCount ::
          ClippedFrom(out[i], ms[i]) && MessageFloor(out[i]) == MessageFloor(ms[i]))
    && (forall a | k <= a < |order| && order[a] < |ms| :: out[order[a]] == ms[order[a]])
  }

  /** The first k positions of the order are down to 32 characters. */
  ghost predicate Exhausted(out: seq<Message>, order: seq<nat>, k: nat) {
    forall a | 0 <= a < k && a < |order| && order[a] < |out| :: |out[order[a]].content| <= FLOOR_CHARS
  }

  /** A message is clipped only when all before it in the order are down to 32 characters. */
  ghost predicate InPriority(out: seq<Message>, ms: seq<Message>, order: seq<nat>)
    requires |out| == |ms|
  {
    forall b | 0 <= b < |order| && order[b] < |ms| && out[order[b]] != ms[order[b]] :: Exhausted(out, order, b)
  }

  lemma {:induction false} ClipKeepsPriority(out: seq<Message>, ms: seq<Message>, order: seq<nat>, k: nat, m: Message)
    requires |out| == |ms| && k < |order| && order[k] < |ms| && Exhausted(out, order, k)
    requires forall a, b | 0 <= a < b < |order| :: order[a] != order[b]
    requires forall a | k <= a < |order| && order[a] < |ms| :: out[order[a]] == ms[order[a]]
    ensures InPriority(out[order[k] := m], ms, order)
    ensures |m.content| <= FLOOR_CHARS ==> Exhausted(out[order[k] := m], order, k + 1)
  {
  }

  lemma {:induction false} ClipOne(out: seq<Message>, ms: seq<Message>, order: seq<nat>, k: nat, protectedCount: nat,
                                   target: nat)
    requires k < |order| && Clipping(out, ms, order, k, protectedCount)
    requires forall a, b | 0 <= a < b < |order| :: order[a] != order[b]
    requires protectedCount <= order[k] < |ms| && FLOOR_CHARS <= target < |out[order[k]].content|
    ensures var i := order[k];
            var m := out[i].(content := ClipText(out[i].content, target));
            && Clipping(out[i := m], ms, order, k + 1, protectedCount)
            && Chars(out[i := m]) == Chars(out) - |out[i].content| + target
  {
    hide ClipText, Chars;
    var i := order[k];
    var m := out[i].(content := ClipText(out[i].content, target));
    assert out[i] == ms[i];
    ClippedLength(out[i].content, target);
    CharsUpdate(out, i, m);
    assert ClippedFrom(m, ms[i]);
  }

  lemma {:induction false} ClippedLength(text: string, target: nat)
    requires target <= |text|
    ensures |ClipText(text, target)| == target
  {
  }

  /**
   Succeeds exactly when the protected messages, all metadata and 32 characters of every other message fit. Nothing
   protected changes, no message or metadata is lost, and a message is clipped only when all before it in the order
   are down to 32 characters.
   */
  method FitMessageContents(messages: seq<Message>, budget: int, baseCount: nat, protectedCount: nat)
    returns (r: Option<seq<Message>>)
    requires protectedCount < baseCount <= |messages|
    ensures r.Some? <==> Floor(messages, protectedCount) <= budget
    ensures r.Some? ==>
              && |Written(r.value)| <= budget && |r.value| == |messages|
              && (forall i | 0 <= i < protectedCount :: r.value[i] == messages[i])
              && (forall i | 0 <= i < |messages| :: ClippedFrom(r.value[i], messages[i]))
              && ByWorth(r.value, messages, baseCount, protectedCount)
    ensures |Written(messages)| <= budget ==> r == Some(messages)
  {
    hide Chars, Written, Floor, ClipText, ClipOrder, MessageFloor, ClippedFrom, Clipping, InPriority, Exhausted,
         ByWorth;
    var out := messages;
    CharsMeasure(messages);
    NothingClipped(messages, ClipOrder(|messages|, baseCount, protectedCount), protectedCount);
    FloorAtMostChars(messages, protectedCount);
    PriorityIsByWorth(messages, messages, baseCount, protectedCount);
    if Chars(out) <= budget { return Some(out); }
    var order := ClipOrder(|messages|, baseCount, protectedCount);
    ClipOrderIsPermutation(|messages|, baseCount, protectedCount);
    var k := 0;
    while k < |order|
      invariant 0 <= k <= |order|
      invariant Clipping(out, messages, order, k, protectedCount)
      invariant |out| == |messages| && InPriority(out, messages, order)
      invariant Chars(out) <= budget || Exhausted(out, order, k)
    {
      var index := order[k];
      assert index in order;
      ClippingLeavesRest(out, messages, order, k, protectedCount);
      var overflow := Chars(out) - budget;
      if overflow <= 0 { break; }
      var content := out[index].content;
      var target := if |content| - overflow > FLOOR_CHARS then |content| - overflow else FLOOR_CHARS;
      if target < |content| {
        ClipOne(out, messages, order, k, protectedCount, target);
        ClippedLength(content, target);
        ClipKeepsPriority(out, messages, order, k, out[index].(content := ClipText(content, target)));
        out := out[index := out[index].(content := ClipText(content, target))];
      } else {
        ExhaustedOneMore(out, order, k);
      }
      k := k + 1;
    }
    ClippingLeavesRest(out, messages, order, k, protectedCount);
    SameFloor(out, messages, protectedCount);
    FloorAtMostChars(out, protectedCount);
    if Chars(out) > budget {
      forall i | protectedCount <= i < |out|
        ensures |out[i].content| <= FLOOR_CHARS
      {
        ExhaustedEverywhere(out, order, i);
      }
      FloorIsChars(out, protectedCount);
      return None;
    }
    forall i | 0 <= i < |messages|
      ensures ClippedFrom(out[i], messages[i])
    {
      if i < protectedCount { UnclippedIs(messages[i]); }
    }
    CharsMeasure(out);
    PriorityIsByWorth(out, messages, baseCount, protectedCount);
    return Some(out);
  }

  lemma {:induction false} ExhaustedEverywhere(out: seq<Message>, order: seq<nat>, i: nat)
    requires Exhausted(out, order, |order|) && i < |out| && i in order
    ensures |out[i].content| <= FLOOR_CHARS
  {
  }

  lemma {:induction false} ClippingLeavesRest(out: seq<Message>, ms: seq<Message>, order: seq<nat>, k: nat,
                                              protectedCount: nat)
    requires k <= |order| && Clipping(out, ms, order, k, protectedCount)
    ensures |out| == |ms|
    ensures forall a | k <= a < |order| && order[a] < |ms| :: out[order[a]] == ms[order[a]]
    ensures k < |order| ==> Clipping(out, ms, order, k + 1, protectedCount)
    ensures forall i | 0 <= i < |ms| && i < protectedCount :: out[i] == ms[i]
    ensures forall i | 0 <= i < |ms| && i >= protectedCount ::
        ClippedFrom(out[i], ms[i]) && MessageFloor(out[i]) == MessageFloor(ms[i])
  {
  }

  lemma {:induction false} ExhaustedOneMore(out: seq<Message>, order: seq<nat>, k: nat)
    requires Exhausted(out, order, k) && k < |order| && (order[k] < |out| ==> |out[order[k]].content| <= FLOOR_CHARS)
    ensures Exhausted(out, order, k + 1)
  {
  }

  lemma {:induction false} UnclippedIs(m: Message)
    ensures ClippedFrom(m, m)
  {
  }

  lemma {:induction false} NothingClipped(ms: seq<Message>, order: seq<nat>, protectedCount: nat)
    ensures Clipping(ms, ms, order, 0, protectedCount) && InPriority(ms, ms, order) && Exhausted(ms, order, 0)
    ensures forall i | 0 <= i < |ms| :: ClippedFrom(ms[i], ms[i])
  {
  }
}
