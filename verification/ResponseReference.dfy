/** The grammar of response-field references (restscope/operation_references/response.py). */
module ResponseReference {
  import opened Wrappers
  import opened Decimal

  datatype Combiner = OneOf | AnyOf | AllOf

  datatype Step = Property(name: string) | Items | Variant(kind: Combiner, index: nat)

  datatype Json = Obj(fields: map<string, Json>) | Arr(items: seq<Json>) | Scalar(text: string)

  function CombinerName(c: Combiner): string {
    match c case OneOf => "oneOf" case AnyOf => "anyOf" case AllOf => "allOf"
  }

  function CombinerOf(name: string): Option<Combiner> {
    if name == "oneOf" then Some(OneOf) else if name == "anyOf" then Some(AnyOf)
    else if name == "allOf" then Some(AllOf) else None
  }

  /** Names a property step may carry. */
  predicate Representable(name: string) {
    name != "" && forall c | c in name :: c !in {'.', '[', ']'}
  }

  predicate ValidSteps(steps: seq<Step>) {
    forall s | s in steps :: s.Property? ==> Representable(s.name)
  }

  // ---------------------------------------------------------------- spelling

  function StepHandle(s: Step): string {
    match s
    case Property(name) => "." + name
    case Items => "[]"
    case Variant(kind, index) => "." + CombinerName(kind) + "[" + Dec(index) + "]"
  }

  function StepSelector(s: Step): string {
    match s case Property(name) => "." + name case Items => "[]" case Variant(_, _) => ""
  }

  function HandleText(steps: seq<Step>): string {
    if steps == [] then "" else StepHandle(steps[0]) + HandleText(steps[1..])
  }

  function SelectorText(steps: seq<Step>): string {
    if steps == [] then "" else StepSelector(steps[0]) + SelectorText(steps[1..])
  }

  lemma {:induction false} SpelledFirst(step: Step, rest: seq<Step>)
    ensures HandleText([step] + rest) == StepHandle(step) + HandleText(rest)
    ensures SelectorText([step] + rest) == StepSelector(step) + SelectorText(rest)
  {
    hide StepHandle, StepSelector;
    assert ([step] + rest)[1..] == rest;
  }

  lemma {:induction false} BranchSpelling()
    ensures StepHandle(Variant(OneOf, 1)) == ".oneOf[1]" && HandleText([]) == "" && SelectorText([]) == ""
  {
    assert Dec(1) == "1";
  }

  /** How the steps are spelled: a branch of the Schema shows in the handle alone. */
  lemma {:induction false} Spelling()
    ensures var steps := [Property("data")] + ([Items] + ([Variant(OneOf, 1)] + ([Property("id")] + [])));
            HandleText(steps) == ".data[].oneOf[1].id" && SelectorText(steps) == ".data[].id"
  {
    hide HandleText, SelectorText, Dec;
    BranchSpelling();
    SpelledFirst(Property("id"), []);
    SpelledFirst(Variant(OneOf, 1), [Property("id")] + []);
    SpelledFirst(Items, [Variant(OneOf, 1)] + ([Property("id")] + []));
    SpelledFirst(Property("data"), [Items] + ([Variant(OneOf, 1)] + ([Property("id")] + [])));
  }

  method Handle(steps: seq<Step>) returns (output: string)
    ensures output == "body" + HandleText(steps)
  {
    output := "body";
    for i := 0 to |steps|
      invariant output + HandleText(steps[i..]) == "body" + HandleText(steps)
    {
      hide StepHandle;
      assert steps[i..][1..] == steps[i + 1..];
      assert output + HandleText(steps[i..]) == (output + StepHandle(steps[i])) + HandleText(steps[i + 1..]);
      output := output + StepHandle(steps[i]);
    }
  }

  method Selector(steps: seq<Step>) returns (output: string)
    ensures output == "$" + SelectorText(steps)
  {
    output := "$";
    for i := 0 to |steps|
      invariant output + SelectorText(steps[i..]) == "$" + SelectorText(steps)
    {
      hide StepSelector;
      assert steps[i..][1..] == steps[i + 1..];
      assert output + SelectorText(steps[i..]) == (output + StepSelector(steps[i])) + SelectorText(steps[i + 1..]);
      output := output + StepSelector(steps[i]);
    }
  }

  // ---------------------------------------------------------------- reading

  /** How far a name reaches: to the next dot or bracket. */
  function Boundary(s: string): (n: nat)
    ensures n <= |s|
    ensures forall i | 0 <= i < n :: s[i] != '.' && s[i] != '['
    ensures n < |s| ==> s[n] == '.' || s[n] == '['
  {
    if s == "" || s[0] == '.' || s[0] == '[' then 0 else 1 + Boundary(s[1..])
  }

  function FindClosing(s: string): (n: nat)
    ensures n <= |s|
    ensures forall i | 0 <= i < n :: s[i] != ']'
    ensures n < |s| ==> s[n] == ']'
  {
    if s == "" || s[0] == ']' then 0 else 1 + FindClosing(s[1..])
  }

  /** Split one leading bracketed index: blank or digits only. */
  function TakeIndex(s: string): (r: Option<(string, string)>)
    requires s != "" && s[0] == '['
    ensures r.Some? ==> |r.value.1| < |s| && AllDigits(r.value.0)
  {
    var closing := FindClosing(s);
    if closing == |s| then None
    else
      var raw := s[1..closing];
      if AllDigits(raw) then Some((raw, s[closing + 1..])) else None
  }

  function Prepend(before: seq<Step>, rest: Option<seq<Step>>): Option<seq<Step>> {
    match rest case None => None case Some(steps) => Some(before + steps)
  }

  /** One step of a handle and what remains of it. */
  function ReadHandleStep(s: string): (r: Option<(Step, string)>)
    requires s != ""
    ensures r.Some? ==> |r.value.1| < |s|
  {
    if s[0] == '[' then
      match TakeIndex(s) case None => None case Some((_, rest)) => Some((Items, rest))
    else if s[0] != '.' then None
    else
      var name := s[1..][..Boundary(s[1..])];
      var rest := s[1..][Boundary(s[1..])..];
      if name == "" then None
      else match CombinerOf(name)
        case Some(kind) =>
          if rest == "" || rest[0] != '[' then None
          else (
            match TakeIndex(rest)
            case None => None
            case Some((raw, after)) => if raw == "" then None else Some((Variant(kind, ParseNat(raw)), after)))
        case None => if Representable(name) then Some((Property(name), rest)) else None
  }

  function ReadHandleSteps(s: string): Option<seq<Step>>
    decreases |s|
  {
    if s == "" then Some([])
    else match ReadHandleStep(s)
      case None => None
      case Some((step, rest)) => Prepend([step], ReadHandleSteps(rest))
  }

  function ReadSelectorStep(s: string): (r: Option<(Step, string)>)
    requires s != ""
    ensures r.Some? ==> |r.value.1| < |s|
  {
    if |s| >= 2 && s[0] == '[' && s[1] == ']' then Some((Items, s[2..]))
    else if s[0] != '.' then None
    else
      var name := s[1..][..Boundary(s[1..])];
      if Representable(name) then Some((Property(name), s[1..][Boundary(s[1..])..])) else None
  }

  function ReadSelectorSteps(s: string): Option<seq<Step>>
    decreases |s|
  {
    if s == "" then Some([])
    else match ReadSelectorStep(s)
      case None => None
      case Some((step, rest)) => Prepend([step], ReadSelectorSteps(rest))
  }

  function HandleMeaning(handle: string): Option<seq<Step>> {
    if "body" <= handle then ReadHandleSteps(handle[4..]) else None
  }

  function SelectorMeaning(selector: string): Option<seq<Step>> {
    if "$" <= selector then ReadSelectorSteps(selector[1..]) else None
  }

  method FromHandle(handle: string) returns (r: Option<seq<Step>>)
    ensures r == HandleMeaning(handle)
  {
    hide ReadHandleStep;
    if !("body" <= handle) { return None; }
    var steps := [];
    var remainder := handle[4..];
    PrependNothing(ReadHandleSteps(remainder));
    while remainder != ""
      invariant HandleMeaning(handle) == Prepend(steps, ReadHandleSteps(remainder))
      decreases |remainder|
    {
      var next := ReadHandleStep(remainder);
      if next.None? { return None; }
      PrependTwice(steps, [next.value.0], ReadHandleSteps(next.value.1));
      steps, remainder := steps + [next.value.0], next.value.1;
    }
    assert steps + [] == steps;
    return Some(steps);
  }

  method FromSelector(selector: string) returns (r: Option<seq<Step>>)
    ensures r == SelectorMeaning(selector)
  {
    hide ReadSelectorStep;
    if !("$" <= selector) { return None; }
    var steps := [];
    var remainder := selector[1..];
    PrependNothing(ReadSelectorSteps(remainder));
    while remainder != ""
      invariant SelectorMeaning(selector) == Prepend(steps, ReadSelectorSteps(remainder))
      decreases |remainder|
    {
      var next := ReadSelectorStep(remainder);
      if next.None? { return None; }
      PrependTwice(steps, [next.value.0], ReadSelectorSteps(next.value.1));
      steps, remainder := steps + [next.value.0], next.value.1;
    }
    assert steps + [] == steps;
    return Some(steps);
  }

  lemma {:induction false} PrependNothing(rest: Option<seq<Step>>)
    ensures Prepend([], rest) == rest
  {
    if rest.Some? {
      assert [] + rest.value == rest.value;
    }
  }

  lemma {:induction false} PrependTwice(a: seq<Step>, b: seq<Step>, rest: Option<seq<Step>>)
    ensures Prepend(a, Prepend(b, rest)) == Prepend(a + b, rest)
  {
    if rest.Some? {
      assert a + (b + rest.value) == a + b + rest.value;
    }
  }

  // ---------------------------------------------------------------- round trips of handles

  ghost predicate NoCombinerNames(steps: seq<Step>) {
    forall s | s in steps :: s.Property? ==> CombinerOf(s.name).None?
  }

  /** What follows a printed step never continues its name. */
  ghost predicate Continues(s: string) {
    s == "" || s[0] == '.' || s[0] == '['
  }

  lemma {:induction false} HandleContinues(steps: seq<Step>)
    ensures Continues(HandleText(steps))
  {
  }

  lemma {:induction false} BoundaryAt(name: string, rest: string)
    requires (forall c | c in name :: c != '.' && c != '[') && Continues(rest)
    ensures Boundary(name + rest) == |name|
  {
    var n := Boundary(name + rest);
    assert rest != "" ==> (name + rest)[|name|] == rest[0];
    assert forall i | 0 <= i < |name| :: (name + rest)[i] == name[i] && name[i] in name;
  }

  lemma {:induction false} TakeIndexOf(raw: string, rest: string)
    requires AllDigits(raw)
    ensures TakeIndex("[" + raw + "]" + rest) == Some((raw, rest))
  {
    var s := "[" + raw + "]" + rest;
    assert s[|raw| + 1] == ']';
    forall i | 0 <= i < |raw| + 1
      ensures s[i] != ']'
    {
      assert i > 0 ==> s[i] == raw[i - 1] && raw[i - 1] in raw;
    }
    assert FindClosing(s) == |raw| + 1;
    assert s[1..|raw| + 1] == raw && s[|raw| + 2..] == rest;
  }

  lemma {:induction false} CombinerNames(c: Combiner)
    ensures CombinerOf(CombinerName(c)) == Some(c) && CombinerName(c) != ""
    ensures forall x | x in CombinerName(c) :: x != '.' && x != '['
  {
  }

  /** A dot, a name and a continuation are told apart again. */
  lemma {:induction false} SplitName(name: string, rest: string)
    requires (forall c | c in name :: c != '.' && c != '[') && Continues(rest)
    ensures var s := "." + name + rest;
            s[1..][..Boundary(s[1..])] == name && s[1..][Boundary(s[1..])..] == rest
  {
    hide Boundary;
    var s := "." + name + rest;
    assert s[1..] == name + rest;
    BoundaryAt(name, rest);
  }

  lemma {:induction false} ReadPrintedProperty(name: string, rest: string)
    requires Continues(rest) && Representable(name) && CombinerOf(name).None?
    ensures ReadHandleStep("." + name + rest) == Some((Property(name), rest))
  {
    hide TakeIndex, Boundary, CombinerOf, ParseNat;
    SplitName(name, rest);
  }

  lemma {:induction false} ReadPrintedItems(rest: string)
    ensures ReadHandleStep("[" + "" + "]" + rest) == Some((Items, rest))
  {
    hide TakeIndex, Boundary, CombinerOf, ParseNat, AllDigits;
    NoDigits();
    TakeIndexOf("", rest);
  }

  lemma {:induction false} ReadPrintedVariant(kind: Combiner, index: nat, rest: string)
    ensures ReadHandleStep("." + CombinerName(kind) + ("[" + Dec(index) + "]" + rest))
              == Some((Variant(kind, index), rest))
  {
    hide TakeIndex, Boundary, CombinerOf, CombinerName, ParseNat, Dec, AllDigits;
    CombinerNames(kind);
    ParseDec(index);
    TakeIndexOf(Dec(index), rest);
    SplitName(CombinerName(kind), "[" + Dec(index) + "]" + rest);
  }

  /** Reading a printed step gives it back. */
  lemma {:induction false} ReadPrintedStep(step: Step, rest: string)
    requires Continues(rest) && (step.Property? ==> Representable(step.name) && CombinerOf(step.name).None?)
    ensures StepHandle(step) + rest != "" && ReadHandleStep(StepHandle(step) + rest) == Some((step, rest))
  {
    hide ReadHandleStep, Dec, CombinerOf, CombinerName, Representable;
    var s := StepHandle(step) + rest;
    match step
    case Property(name) =>
      ReadPrintedProperty(name, rest);
    case Items =>
      ReadPrintedItems(rest);
      assert s == "[" + "" + "]" + rest;
    case Variant(kind, index) =>
      ReadPrintedVariant(kind, index, rest);
      assert s == "." + CombinerName(kind) + ("[" + Dec(index) + "]" + rest);
  }

  /** A property named like a combiner is never read back. */
  lemma {:induction false} CombinerNameFails(name: string, rest: string)
    requires Representable(name) && CombinerOf(name).Some? && Continues(rest)
    requires "[" <= rest ==> TakeIndex(rest).Some? && TakeIndex(rest).value.0 == ""
    ensures ReadHandleStep("." + name + rest) == None
  {
    hide TakeIndex, Boundary, CombinerOf;
    SplitName(name, rest);
  }

  lemma {:induction false} NoDigits()
    ensures AllDigits("")
  {
  }

  lemma {:induction false} StepStarts(step: Step)
    ensures StepHandle(step) != "" && StepHandle(step)[0] == if step.Items? then '[' else '.'
  {
    hide Dec;
  }

  lemma {:induction false} HandleStart(steps: seq<Step>)
    ensures "[" <= HandleText(steps) ==>
              TakeIndex(HandleText(steps)).Some? && TakeIndex(HandleText(steps)).value.0 == ""
  {
    hide TakeIndex, StepHandle, AllDigits, HandleText;
    if "[" <= HandleText(steps) {
      StartsWithItems(steps);
      NoDigits();
      TakeIndexOf("", HandleText(steps[1..]));
      assert HandleText(steps) == "[" + "" + "]" + HandleText(steps[1..]);
    }
  }

  lemma {:induction false} StartsWithItems(steps: seq<Step>)
    requires "[" <= HandleText(steps)
    ensures steps != [] && steps[0].Items? && HandleText(steps) == "[]" + HandleText(steps[1..])
  {
    if steps != [] {
      StepStarts(steps[0]);
      assert HandleText(steps)[0] == StepHandle(steps[0])[0] && HandleText(steps)[0] == "["[0];
    }
  }

  lemma {:induction false} ReadPrinted(steps: seq<Step>)
    requires ValidSteps(steps)
    ensures ReadHandleSteps(HandleText(steps)) == if NoCombinerNames(steps) then Some(steps) else None
  {
    hide ReadHandleStep, StepHandle, TakeIndex, Representable, CombinerOf;
    if steps != [] {
      var step, rest := steps[0], HandleText(steps[1..]);
      assert steps == [step] + steps[1..];
      HandleContinues(steps[1..]);
      HandleStart(steps[1..]);
      ReadPrinted(steps[1..]);
      if step.Property? && CombinerOf(step.name).Some? {
        PropertyHandle(step);
        CombinerNameFails(step.name, rest);
      } else {
        ReadPrintedStep(step, rest);
      }
    }
  }

  lemma {:induction false} PropertyHandle(step: Step)
    requires step.Property?
    ensures StepHandle(step) == "." + step.name
  {
  }

  /**
   A printed handle reads back as the reference, except when a property is named oneOf, anyOf or allOf: then never.
   */
  lemma {:induction false} HandleRoundTrip(steps: seq<Step>)
    requires ValidSteps(steps)
    ensures HandleMeaning("body" + HandleText(steps)) == if NoCombinerNames(steps) then Some(steps) else None
  {
    var handle := "body" + HandleText(steps);
    assert handle[..4] == "body" && handle[4..] == HandleText(steps);
    ReadPrinted(steps);
  }

  lemma {:induction false} ReadIsClean(s: string)
    ensures ReadHandleSteps(s).Some? ==>
              ValidSteps(ReadHandleSteps(s).value) && NoCombinerNames(ReadHandleSteps(s).value)
    decreases |s|
  {
    hide ParseNat, TakeIndex, Boundary;
    if s != "" && ReadHandleStep(s).Some? {
      ReadIsClean(ReadHandleStep(s).value.1);
    }
  }

  /** Normalising a handle is stable: what was read prints to a handle with the same meaning. */
  lemma {:induction false} NormalisedIsStable(handle: string)
    requires HandleMeaning(handle).Some?
    ensures HandleMeaning("body" + HandleText(HandleMeaning(handle).value)) == HandleMeaning(handle)
  {
    ReadIsClean(handle[4..]);
    HandleRoundTrip(HandleMeaning(handle).value);
  }

  // ---------------------------------------------------------------- round trips of selectors

  /** The steps that exist in actual documents. */
  function Erased(steps: seq<Step>): seq<Step> {
    if steps == [] then []
    else (if steps[0].Variant? then [] else [steps[0]]) + Erased(steps[1..])
  }

  lemma {:induction false} SelectorContinues(steps: seq<Step>)
    ensures Continues(SelectorText(steps))
  {
    if steps != [] && steps[0].Variant? {
      SelectorContinues(steps[1..]);
      assert SelectorText(steps) == SelectorText(steps[1..]);
    }
  }

  lemma {:induction false} ReadPrintedSelectorStep(step: Step, rest: string)
    requires Continues(rest) && !step.Variant? && (step.Property? ==> Representable(step.name))
    ensures StepSelector(step) + rest != "" && ReadSelectorStep(StepSelector(step) + rest) == Some((step, rest))
  {
    hide Boundary;
    match step
    case Property(name) => SplitName(name, rest);
    case Items => assert ("[]" + rest)[2..] == rest;
  }

  lemma {:induction false} ReadPrintedSelector(steps: seq<Step>)
    requires ValidSteps(steps)
    ensures ReadSelectorSteps(SelectorText(steps)) == Some(Erased(steps))
  {
    hide ReadSelectorStep, Representable;
    if steps != [] {
      var step, tail := steps[0], steps[1..];
      assert steps == [step] + tail;
      ReadPrintedSelector(tail);
      SelectorContinues(tail);
      if step.Variant? {
        assert SelectorText(steps) == SelectorText(tail) && Erased(steps) == Erased(tail);
      } else {
        ReadPrintedSelectorStep(step, SelectorText(tail));
      }
    }
  }

  /** A printed selector reads back as the reference without its Schema branches. */
  lemma {:induction false} SelectorRoundTrip(steps: seq<Step>)
    requires ValidSteps(steps)
    ensures SelectorMeaning("$" + SelectorText(steps)) == Some(Erased(steps))
  {
    var selector := "$" + SelectorText(steps);
    assert selector[..1] == "$" && selector[1..] == SelectorText(steps);
    ReadPrintedSelector(steps);
  }

  lemma {:induction false} PrintRead(s: string)
    requires ReadSelectorSteps(s).Some?
    ensures SelectorText(ReadSelectorSteps(s).value) == s
    ensures ValidSteps(ReadSelectorSteps(s).value) && forall t | t in ReadSelectorSteps(s).value :: !t.Variant?
    decreases |s|
  {
    if s != "" {
      var (step, rest) := ReadSelectorStep(s).value;
      PrintRead(rest);
      var steps := ReadSelectorSteps(s).value;
      assert steps[0] == step && steps[1..] == ReadSelectorSteps(rest).value;
      assert StepSelector(step) + rest == s;
    }
  }

  /** Accepted selectors have exactly one spelling. */
  lemma {:induction false} SelectorIsCanonical(selector: string)
    requires SelectorMeaning(selector).Some?
    ensures "$" + SelectorText(SelectorMeaning(selector).value) == selector
  {
    PrintRead(selector[1..]);
  }

  // ---------------------------------------------------------------- values in a document

  function Child(value: Json, step: Step): seq<Json> {
    match step
    case Variant(_, _) => [value]
    case Items => if value.Arr? then value.items else []
    case Property(name) => if value.Obj? && name in value.fields then [value.fields[name]] else []
  }

  function Children(values: seq<Json>, step: Step): seq<Json> {
    if values == [] then [] else Child(values[0], step) + Children(values[1..], step)
  }

  /** What one value contributes, by walking the document itself. */
  function Reached(value: Json, steps: seq<Step>): seq<Json>
    decreases |steps|, 0
  {
    if steps == [] then [value]
    else match steps[0]
      case Variant(_, _) => Reached(value, steps[1..])
      case Items => if value.Arr? then ReachedAll(value.items, steps[1..]) else []
      case Property(name) =>
        if value.Obj? && name in value.fields then Reached(value.fields[name], steps[1..]) else []
  }

  function ReachedAll(values: seq<Json>, steps: seq<Step>): seq<Json>
    decreases |steps|, 1 + |values|
  {
    if values == [] then [] else Reached(values[0], steps) + ReachedAll(values[1..], steps)
  }

  /** One level: every value's children by one property or array step. */
  method ExpandLevel(current: seq<Json>, step: Step) returns (next: seq<Json>)
    requires !step.Variant?
    ensures next == Children(current, step)
  {
    next := [];
    for k := 0 to |current|
      invariant next + Children(current[k..], step) == Children(current, step)
    {
      var value := current[k];
      assert current[k..][1..] == current[k + 1..];
      var added := [];
      if step.Items? {
        if value.Arr? { added := value.items; }
      } else if value.Obj? && step.name in value.fields {
        added := [value.fields[step.name]];
      }
      ChildrenFrom(next, added, current, k, step);
      next := next + added;
    }
    assert current[|current|..] == [] && next + [] == next;
  }

  lemma {:induction false} ChildrenFrom(next: seq<Json>, added: seq<Json>, current: seq<Json>, k: nat, step: Step)
    requires k < |current| && added == Child(current[k], step)
    ensures next + Children(current[k..], step) == next + added + Children(current[k + 1..], step)
  {
    hide Child;
    assert current[k..][1..] == current[k + 1..];
  }

  /** Level by level, in response order. */
  method SelectValues(steps: seq<Step>, document: Json) returns (current: seq<Json>)
    ensures current == Reached(document, steps)
  {
    hide Reached, ReachedAll, Children;
    current := [document];
    ReachedOne(document, steps);
    assert steps[0..] == steps;
    for i := 0 to |steps|
      invariant ReachedAll(current, steps[i..]) == Reached(document, steps)
    {
      assert steps[i..][1..] == steps[i + 1..];
      LevelStep(current, steps[i..]);
      if steps[i].Variant? {
        VariantStays(current, steps[i]);
        continue;
      }
      current := ExpandLevel(current, steps[i]);
    }
    assert steps[|steps|..] == [];
    AllReached(current);
  }

  lemma {:induction false} ReachedOne(document: Json, steps: seq<Step>)
    ensures ReachedAll([document], steps) == Reached(document, steps)
  {
    hide Reached;
    assert [document][1..] == [] && ReachedAll([], steps) == [];
  }

  lemma {:induction false} ReachedConcat(xs: seq<Json>, ys: seq<Json>, steps: seq<Step>)
    ensures ReachedAll(xs + ys, steps) == ReachedAll(xs, steps) + ReachedAll(ys, steps)
  {
    hide Reached;
    if xs == [] {
      assert xs + ys == ys;
    } else {
      assert (xs + ys)[1..] == xs[1..] + ys;
      ReachedConcat(xs[1..], ys, steps);
    }
  }

  /** Expanding a whole level by one step reaches the same values in the same order. */
  lemma {:induction false} LevelStep(values: seq<Json>, steps: seq<Step>)
    requires steps != []
    ensures ReachedAll(values, steps) == ReachedAll(Children(values, steps[0]), steps[1..])
  {
    if values != [] {
      var rest := Children(values[1..], steps[0]);
      LevelStep(values[1..], steps);
      var first := Child(values[0], steps[0]);
      ReachedConcat(first, rest, steps[1..]);
      FirstStep(values[0], steps);
    }
  }

  lemma {:induction false} FirstStep(value: Json, steps: seq<Step>)
    requires steps != []
    ensures Reached(value, steps) == ReachedAll(Child(value, steps[0]), steps[1..])
  {
    var first := Child(value, steps[0]);
    if |first| == 1 {
      assert first[1..] == [];
      assert ReachedAll(first, steps[1..]) == Reached(first[0], steps[1..]) + [];
    }
  }

  lemma {:induction false} VariantStays(values: seq<Json>, step: Step)
    requires step.Variant?
    ensures Children(values, step) == values
  {
    if values != [] {
      VariantStays(values[1..], step);
    }
  }

  lemma {:induction false} AllReached(values: seq<Json>)
    ensures ReachedAll(values, []) == values
  {
    if values != [] {
      AllReached(values[1..]);
    }
  }

  lemma {:induction false} ErasedReaches(value: Json, steps: seq<Step>)
    ensures Reached(value, Erased(steps)) == Reached(value, steps)
    decreases |steps|, 0
  {
    if steps != [] {
      var step, tail := steps[0], steps[1..];
      if !step.Variant? {
        assert Erased(steps)[0] == step && Erased(steps)[1..] == Erased(tail);
      } else {
        assert Erased(steps) == Erased(tail);
      }
      match step
      case Variant(_, _) => ErasedReaches(value, tail);
      case Items => if value.Arr? { ErasedReachesAll(value.items, tail); }
      case Property(name) => if value.Obj? && name in value.fields { ErasedReaches(value.fields[name], tail); }
    }
  }

  lemma {:induction false} ErasedReachesAll(values: seq<Json>, steps: seq<Step>)
    ensures ReachedAll(values, Erased(steps)) == ReachedAll(values, steps)
    decreases |steps|, 1 + |values|
  {
    if values != [] {
      ErasedReaches(values[0], steps);
      ErasedReachesAll(values[1..], steps);
    }
  }

  /** A handle's reference and the reference read back from its selector select the same values from every document. */
  lemma {:induction false} SelectorSelectsTheSame(steps: seq<Step>, document: Json)
    requires ValidSteps(steps)
    ensures SelectorMeaning("$" + SelectorText(steps)).Some?
    ensures Reached(document, SelectorMeaning("$" + SelectorText(steps)).value) == Reached(document, steps)
  {
    SelectorRoundTrip(steps);
    ErasedReaches(document, steps);
  }

  // ---------------------------------------------------------------- every place, in document order

  /** The value at one place: each `picks` entry says which element the next array step takes. */
  ghost function At(value: Json, steps: seq<Step>, picks: seq<nat>): Option<Json>
    decreases |steps|
  {
    if steps == [] then (if picks == [] then Some(value) else None)
    else match steps[0]
      case Variant(_, _) => At(value, steps[1..], picks)
      case Property(name) =>
        if value.Obj? && name in value.fields then At(value.fields[name], steps[1..], picks) else None
      case Items =>
        if value.Arr? && picks != [] && picks[0] < |value.items|
        then At(value.items[picks[0]], steps[1..], picks[1..]) else None
  }

  ghost predicate Earlier(p: seq<nat>, q: seq<nat>) {
    exists k | 0 <= k < |p| && k < |q| :: p[..k] == q[..k] && p[k] < q[k]
  }

  ghost predicate InOrder(places: seq<seq<nat>>) {
    forall i, j | 0 <= i < j < |places| :: Earlier(places[i], places[j])
  }

  lemma {:induction false} EarlierBehind(n: nat, p: seq<nat>, q: seq<nat>)
    ensures Earlier(p, q) ==> Earlier([n] + p, [n] + q)
    ensures forall m: nat | n < m :: Earlier([n] + p, [m] + q)
  {
    if Earlier(p, q) {
      var k :| 0 <= k < |p| && k < |q| && p[..k] == q[..k] && p[k] < q[k];
      var pn, qn := [n] + p, [n] + q;
      assert pn[..k + 1] == [n] + p[..k] && qn[..k + 1] == [n] + q[..k];
      assert pn[k + 1] == p[k] && qn[k + 1] == q[k];
    }
    forall m: nat | n < m
      ensures Earlier([n] + p, [m] + q)
    {
      var pn, qm := [n] + p, [m] + q;
      assert pn[..0] == qm[..0] && pn[0] < qm[0];
    }
  }

  /** The selected values are those at all places of the document, each once, in document order. */
  lemma {:induction false} EveryPlaceInOrder(value: Json, steps: seq<Step>) returns (places: seq<seq<nat>>)
    ensures |places| == |Reached(value, steps)| && InOrder(places)
    ensures forall i | 0 <= i < |places| :: At(value, steps, places[i]) == Some(Reached(value, steps)[i])
    ensures forall picks | At(value, steps, picks).Some? :: picks in places
    decreases |steps|, 0
  {
    hide InOrder;
    places := [];
    if steps == [] {
      places := [[]];
      OnePlace();
    } else {
      NoPlace();
      match steps[0]
      case Variant(_, _) => places := EveryPlaceInOrder(value, steps[1..]);
      case Property(name) =>
        if value.Obj? && name in value.fields {
          places := EveryPlaceInOrder(value.fields[name], steps[1..]);
        }
      case Items =>
        if value.Arr? {
          places := EveryElementInOrder(value.items, 0, steps[1..]);
          assert value.items[0..] == value.items;
          assert forall picks | At(value, steps, picks).Some? ::
              InElement(value.items, 0, steps[1..], picks, At(value, steps, picks).value);
        }
    }
  }

  lemma {:induction false} OnePlace()
    ensures InOrder([[]])
  {
  }

  lemma {:induction false} NoPlace()
    ensures InOrder([])
  {
  }

  ghost predicate InElement(items: seq<Json>, k: nat, steps: seq<Step>, place: seq<nat>, v: Json) {
    && place != [] && k <= place[0] < |items| && At(items[place[0]], steps, place[1..]) == Some(v)
  }

  /** The same for the elements of an array from place k on. */
  lemma {:induction false} EveryElementInOrder(items: seq<Json>, k: nat, steps: seq<Step>)
    returns (places: seq<seq<nat>>)
    requires k <= |items|
    ensures |places| == |ReachedAll(items[k..], steps)| && InOrder(places)
    ensures forall i | 0 <= i < |places| :: InElement(items, k, steps, places[i], ReachedAll(items[k..], steps)[i])
    ensures forall place, v | InElement(items, k, steps, place, v) :: place in places
    decreases |steps|, 1 + |items| - k
  {
    hide InOrder, At, Reached, InElement;
    if k == |items| {
      places := [];
      NoPlace();
      NoElement(items, steps);
    } else {
      var first := EveryPlaceInOrder(items[k], steps);
      var rest := EveryElementInOrder(items, k + 1, steps);
      assert items[k..][0] == items[k] && items[k..][1..] == items[k + 1..];
      places := Behind(k, first) + rest;
      forall i | 0 <= i < |rest|
        ensures rest[i] != [] && k < rest[i][0]
      {
        ElementIs(items, k + 1, steps, rest[i], ReachedAll(items[k + 1..], steps)[i]);
      }
      BehindInOrder(k, first, rest);
      forall i | 0 <= i < |places|
        ensures InElement(items, k, steps, places[i], ReachedAll(items[k..], steps)[i])
      {
        if i < |first| {
          BehindIs(items, k, steps, first[i], Reached(items[k], steps)[i]);
        } else {
          LaterElement(items, k, steps, rest[i - |first|], ReachedAll(items[k + 1..], steps)[i - |first|]);
        }
      }
      forall place, v | InElement(items, k, steps, place, v)
        ensures place in places
      {
        ElementSplits(items, k, steps, place, v, first);
      }
    }
  }

  ghost function Behind(k: nat, places: seq<seq<nat>>): seq<seq<nat>> {
    seq(|places|, i requires 0 <= i < |places| => [k] + places[i])
  }

  lemma {:induction false} NoElement(items: seq<Json>, steps: seq<Step>)
    ensures forall place, v :: !InElement(items, |items|, steps, place, v)
    ensures ReachedAll(items[|items|..], steps) == []
  {
  }

  lemma {:induction false} BehindIs(items: seq<Json>, k: nat, steps: seq<Step>, place: seq<nat>, v: Json)
    requires k < |items| && At(items[k], steps, place) == Some(v)
    ensures InElement(items, k, steps, [k] + place, v)
  {
    assert ([k] + place)[1..] == place;
  }

  lemma {:induction false} ElementIs(items: seq<Json>, k: nat, steps: seq<Step>, place: seq<nat>, v: Json)
    requires InElement(items, k, steps, place, v)
    ensures place != [] && k <= place[0]
  {
  }

  lemma {:induction false} LaterElement(items: seq<Json>, k: nat, steps: seq<Step>, place: seq<nat>, v: Json)
    requires InElement(items, k + 1, steps, place, v)
    ensures InElement(items, k, steps, place, v)
  {
  }

  lemma {:induction false} ElementSplits(items: seq<Json>, k: nat, steps: seq<Step>, place: seq<nat>, v: Json,
                                         first: seq<seq<nat>>)
    requires k < |items| && InElement(items, k, steps, place, v)
    requires forall picks | At(items[k], steps, picks).Some? :: picks in first
    ensures place in Behind(k, first) || InElement(items, k + 1, steps, place, v)
  {
    hide At;
    if place[0] == k {
      assert place[1..] in first;
      var i :| 0 <= i < |first| && first[i] == place[1..];
      assert Behind(k, first)[i] == place;
    }
  }

  lemma {:induction false} BehindInOrder(k: nat, first: seq<seq<nat>>, rest: seq<seq<nat>>)
    requires InOrder(first) && InOrder(rest)
    requires forall i | 0 <= i < |rest| :: rest[i] != [] && k < rest[i][0]
    ensures InOrder(Behind(k, first) + rest)
  {
    hide Earlier;
    var all := Behind(k, first) + rest;
    forall i, j | 0 <= i < j < |all|
      ensures Earlier(all[i], all[j])
    {
      if j < |first| {
        EarlierBehind(k, first[i], first[j]);
      } else if i < |first| {
        var q := rest[j - |first|];
        EarlierBehind(k, first[i], q[1..]);
        assert q == [q[0]] + q[1..];
      }
    }
  }
}
