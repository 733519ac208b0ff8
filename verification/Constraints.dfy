/**
 Same-request constraints: a Boolean language over request inputs, its total
 evaluator, and the three-valued evaluator the solver prunes with
 (restscope/request_generation/constraints.py).
 */
module Constraints {
  import opened Wrappers

  type NodeId = string

  /** JSON values. `Structured` stands for an array or object, identified up to equality. */
  datatype Value = Null | Boolean(b: bool) | Number(n: real) | Text(s: string) | Structured(id: string)

  /** Presence and optional value of one input. A container is present without a value. */
  datatype Assignment = Absent | Present | PresentWith(value: Value)

  type Assignments = map<NodeId, Assignment>

  datatype ArithmeticOp = Plus | Minus | Times | Divide

  datatype CompareOp = Eq | Ne | Lt | Le | Gt | Ge

  datatype ValueExpr =
    | Input(id: NodeId)
    | Literal(value: Value)
    | Arithmetic(op: ArithmeticOp, left: ValueExpr, right: ValueExpr)

  datatype BoolExpr =
    | IsPresent(id: NodeId)
    | Compare(cmp: CompareOp, lhs: ValueExpr, rhs: ValueExpr)
    | Matches(subject: ValueExpr, pattern: string)
    | Implies(condition: BoolExpr, consequence: BoolExpr)
    | Cardinality(expressions: seq<BoolExpr>, minimum: nat, maximum: nat)
    | And(expressions: seq<BoolExpr>)
    | Or(expressions: seq<BoolExpr>)
    | Not(expression: BoolExpr)

  /** `re.search(pattern, text) is not None`; an invalid pattern never matches. */
  type Regex = (string, string) -> bool

  // ---------------------------------------------------------------- values

  predicate IsPresence(a: Assignment) {
    !a.Absent?
  }

  function Readable(a: Assignment): Option<Value> {
    if a.PresentWith? then Some(a.value) else None
  }

  predicate TextLess(a: string, b: string) {
    if b == "" then false
    else if a == "" then true
    else a[0] < b[0] || (a[0] == b[0] && TextLess(a[1..], b[1..]))
  }

  function Product(x: real, y: real): real {
    x * y
  }

  function Apply(op: ArithmeticOp, left: Value, right: Value): Option<Value> {
    if !left.Number? || !right.Number? then None
    else match op
      case Plus => Some(Number(left.n + right.n))
      case Minus => Some(Number(left.n - right.n))
      case Times => Some(Number(Product(left.n, right.n)))
      case Divide => if right.n == 0.0 then None else Some(Number(left.n / right.n))
  }

  predicate Ordered(left: Value, right: Value, strict: bool) {
    match (left, right)
    case (Number(x), Number(y)) => if strict then x < y else x <= y
    case (Text(x), Text(y)) => TextLess(x, y) || (!strict && x == y)
    case _ => false
  }

  predicate CompareValues(op: CompareOp, left: Value, right: Value) {
    match op
    case Eq => left == right
    case Ne => left != right
    case Lt => Ordered(left, right, true)
    case Le => Ordered(left, right, false)
    case Gt => Ordered(right, left, true)
    case Ge => Ordered(right, left, false)
  }

  // ---------------------------------------------------------------- total evaluation

  function EvalValue(e: ValueExpr, a: Assignments): Option<Value> {
    match e
    case Input(id) => if id in a then Readable(a[id]) else None
    case Literal(v) => Some(v)
    case Arithmetic(op, l, r) =>
      match (EvalValue(l, a), EvalValue(r, a))
      case (Some(x), Some(y)) => Apply(op, x, y)
      case _ => None
  }

  predicate Eval(e: BoolExpr, a: Assignments, re: Regex)
    decreases e, 1
  {
    match e
    case IsPresent(id) => id in a && IsPresence(a[id])
    case Compare(op, l, r) =>
      (match (EvalValue(l, a), EvalValue(r, a))
       case (Some(x), Some(y)) => CompareValues(op, x, y)
       case _ => false)
    case Matches(v, pattern) =>
      (match EvalValue(v, a)
       case Some(Text(s)) => re(pattern, s)
       case _ => false)
    case Implies(c, q) => Eval(c, a, re) ==> Eval(q, a, re)
    case Cardinality(es, lo, hi) => lo <= CountTrue(es, a, re) <= hi
    case And(es) => forall x | x in es :: Eval(x, a, re)
    case Or(es) => exists x | x in es :: Eval(x, a, re)
    case Not(x) => !Eval(x, a, re)
  }

  /** How many of the expressions hold. */
  function CountTrue(es: seq<BoolExpr>, a: Assignments, re: Regex): nat
    decreases es, 0
  {
    if es == [] then 0
    else (if Eval(es[0], a, re) then 1 else 0) + CountTrue(es[1..], a, re)
  }

  /** A constraint set is the conjunction of its items. */
  predicate EvalSet(cs: seq<BoolExpr>, a: Assignments, re: Regex) {
    forall c | c in cs :: Eval(c, a, re)
  }

  // ---------------------------------------------------------------- partial evaluation

  datatype Verdict = Holds | Fails | Unknown

  datatype PartialValue = Unassigned | Unavailable | Known(value: Value)

  function Verdict2(b: bool): Verdict {
    if b then Holds else Fails
  }

  function PartialEvalValue(e: ValueExpr, a: Assignments): PartialValue {
    match e
    case Input(id) =>
      if id !in a then Unassigned
      else (match Readable(a[id]) case Some(v) => Known(v) case None => Unavailable)
    case Literal(v) => Known(v)
    case Arithmetic(op, l, r) =>
      match (PartialEvalValue(l, a), PartialEvalValue(r, a))
      case (Unassigned, _) => Unassigned
      case (_, Unassigned) => Unassigned
      case (Known(x), Known(y)) =>
        (match Apply(op, x, y) case Some(v) => Known(v) case None => Unavailable)
      case _ => Unavailable
  }

  function PartialEval(e: BoolExpr, a: Assignments, re: Regex): Verdict
    decreases e, 1
  {
    match e
    case IsPresent(id) => if id in a then Verdict2(IsPresence(a[id])) else Unknown
    case Compare(op, l, r) =>
      (match (PartialEvalValue(l, a), PartialEvalValue(r, a))
       case (Unassigned, _) => Unknown
       case (_, Unassigned) => Unknown
       case (Known(x), Known(y)) => Verdict2(CompareValues(op, x, y))
       case _ => Fails)
    case Matches(v, pattern) =>
      (match PartialEvalValue(v, a)
       case Unassigned => Unknown
       case Known(Text(s)) => Verdict2(re(pattern, s))
       case _ => Fails)
    case Implies(c, q) =>
      var condition := PartialEval(c, a, re);
      var consequence := PartialEval(q, a, re);
      if condition == Fails || consequence == Holds then Holds
      else if condition == Holds then consequence
      else Unknown
    case Cardinality(es, lo, hi) =>
      var sure := CountVerdict(es, a, re, Holds);
      var open := CountVerdict(es, a, re, Unknown);
      if sure > hi then Fails
      else if sure + open < lo then Fails
      else if open == 0 then Verdict2(lo <= sure <= hi)
      else if lo <= sure && sure + open <= hi then Holds
      else Unknown
    case And(es) =>
      if exists x | x in es :: PartialEval(x, a, re) == Fails then Fails
      else if forall x | x in es :: PartialEval(x, a, re) == Holds then Holds
      else Unknown
    case Or(es) =>
      if exists x | x in es :: PartialEval(x, a, re) == Holds then Holds
      else if forall x | x in es :: PartialEval(x, a, re) == Fails then Fails
      else Unknown
    case Not(x) =>
      match PartialEval(x, a, re)
      case Holds => Fails
      case Fails => Holds
      case Unknown => Unknown
  }

  function CountVerdict(es: seq<BoolExpr>, a: Assignments, re: Regex, v: Verdict): nat
    decreases es, 0
  {
    if es == [] then 0
    else (if PartialEval(es[0], a, re) == v then 1 else 0) + CountVerdict(es[1..], a, re, v)
  }

  function PartialEvalSet(cs: seq<BoolExpr>, a: Assignments, re: Regex): Verdict {
    if exists c | c in cs :: PartialEval(c, a, re) == Fails then Fails
    else if forall c | c in cs :: PartialEval(c, a, re) == Holds then Holds
    else Unknown
  }

  // ---------------------------------------------------------------- references

  function ValueRefs(e: ValueExpr): set<NodeId> {
    match e
    case Input(id) => {id}
    case Literal(_) => {}
    case Arithmetic(_, l, r) => ValueRefs(l) + ValueRefs(r)
  }

  /** Inputs whose value the expression reads. */
  function ReadRefs(e: BoolExpr): set<NodeId>
    decreases e, 1
  {
    match e
    case IsPresent(_) => {}
    case Compare(_, l, r) => ValueRefs(l) + ValueRefs(r)
    case Matches(v, _) => ValueRefs(v)
    case Implies(c, q) => ReadRefs(c) + ReadRefs(q)
    case Cardinality(es, _, _) => ReadRefsOf(es)
    case And(es) => ReadRefsOf(es)
    case Or(es) => ReadRefsOf(es)
    case Not(x) => ReadRefs(x)
  }

  function ReadRefsOf(es: seq<BoolExpr>): set<NodeId>
    decreases es, 0
  {
    if es == [] then {} else ReadRefs(es[0]) + ReadRefsOf(es[1..])
  }

  /** Inputs whose presence the expression tests. */
  function PresenceRefs(e: BoolExpr): set<NodeId>
    decreases e, 1
  {
    match e
    case IsPresent(id) => {id}
    case Compare(_, _, _) => {}
    case Matches(_, _) => {}
    case Implies(c, q) => PresenceRefs(c) + PresenceRefs(q)
    case Cardinality(es, _, _) => PresenceRefsOf(es)
    case And(es) => PresenceRefsOf(es)
    case Or(es) => PresenceRefsOf(es)
    case Not(x) => PresenceRefs(x)
  }

  function PresenceRefsOf(es: seq<BoolExpr>): set<NodeId>
    decreases es, 0
  {
    if es == [] then {} else PresenceRefs(es[0]) + PresenceRefsOf(es[1..])
  }

  function Refs(e: BoolExpr): set<NodeId> {
    ReadRefs(e) + PresenceRefs(e)
  }

  lemma {:induction false} RefsOfMember(es: seq<BoolExpr>, x: BoolExpr)
    requires x in es
    ensures ReadRefs(x) <= ReadRefsOf(es) && PresenceRefs(x) <= PresenceRefsOf(es)
  {
    if x != es[0] {
      RefsOfMember(es[1..], x);
    }
  }

  // ---------------------------------------------------------------- what a constraint can observe

  /** On the inputs `read` and `tests`, whatever `p` assigns is seen the same way through `f`. */
  ghost predicate Agrees(p: Assignments, f: Assignments, read: set<NodeId>, tests: set<NodeId>) {
    && (forall id | id in read && id in p :: id in f && Readable(f[id]) == Readable(p[id]))
    && (forall id | id in tests && id in p :: id in f && IsPresence(f[id]) == IsPresence(p[id]))
  }

  /** `q` repeats every assignment of `p` and may add more. */
  ghost predicate Extends(p: Assignments, q: Assignments) {
    forall id | id in p :: id in q && q[id] == p[id]
  }

  lemma {:induction false} PartialValueStable(e: ValueExpr, p: Assignments, q: Assignments)
    requires Agrees(p, q, ValueRefs(e), {})
    requires !PartialEvalValue(e, p).Unassigned?
    ensures PartialEvalValue(e, q) == PartialEvalValue(e, p)
  {
    match e
    case Input(_) =>
    case Literal(_) =>
    case Arithmetic(op, l, r) =>
      PartialValueStable(l, p, q);
      PartialValueStable(r, p, q);
  }

  /** A decided verdict never changes when more becomes visible. */
  lemma {:induction false} PartialStableFor(e: BoolExpr, p: Assignments, q: Assignments, re: Regex)
    requires Agrees(p, q, ReadRefs(e), PresenceRefs(e))
    requires PartialEval(e, p, re) != Unknown
    ensures PartialEval(e, q, re) == PartialEval(e, p, re)
    decreases e, 1
  {
    match e
    case IsPresent(_) =>
    case Compare(_, l, r) =>
      PartialValueStable(l, p, q);
      PartialValueStable(r, p, q);
    case Matches(v, _) =>
      PartialValueStable(v, p, q);
    case Implies(c, d) =>
      if PartialEval(c, p, re) != Unknown { PartialStableFor(c, p, q, re); }
      if PartialEval(d, p, re) != Unknown { PartialStableFor(d, p, q, re); }
    case Cardinality(es, _, _) =>
      CountsStable(es, p, q, re);
    case And(es) =>
      MembersStable(es, p, q, re);
    case Or(es) =>
      MembersStable(es, p, q, re);
    case Not(x) =>
      PartialStableFor(x, p, q, re);
  }

  lemma {:induction false} MembersStable(es: seq<BoolExpr>, p: Assignments, q: Assignments, re: Regex)
    requires Agrees(p, q, ReadRefsOf(es), PresenceRefsOf(es))
    ensures forall x | x in es :: PartialEval(x, p, re) != Unknown ==> PartialEval(x, q, re) == PartialEval(x, p, re)
    decreases es, 0
  {
    forall x | x in es && PartialEval(x, p, re) != Unknown
      ensures PartialEval(x, q, re) == PartialEval(x, p, re)
    {
      RefsOfMember(es, x);
      PartialStableFor(x, p, q, re);
    }
  }

  lemma {:induction false} CountsStable(es: seq<BoolExpr>, p: Assignments, q: Assignments, re: Regex)
    requires Agrees(p, q, ReadRefsOf(es), PresenceRefsOf(es))
    ensures CountVerdict(es, p, re, Holds) <= CountVerdict(es, q, re, Holds)
    ensures CountVerdict(es, q, re, Holds) + CountVerdict(es, q, re, Unknown)
         <= CountVerdict(es, p, re, Holds) + CountVerdict(es, p, re, Unknown)
    decreases es, 0
  {
    if es != [] {
      CountsStable(es[1..], p, q, re);
      if PartialEval(es[0], p, re) != Unknown { PartialStableFor(es[0], p, q, re); }
    }
  }

  lemma {:induction false} ValueExact(e: ValueExpr, a: Assignments)
    requires ValueRefs(e) <= a.Keys
    ensures match EvalValue(e, a)
            case Some(v) => PartialEvalValue(e, a) == Known(v)
            case None => PartialEvalValue(e, a) == Unavailable
  {
    match e
    case Input(_) =>
    case Literal(_) =>
    case Arithmetic(_, l, r) =>
      ValueExact(l, a);
      ValueExact(r, a);
  }

  /** Once every referenced input is assigned the verdict is decided, and it is the true one. */
  lemma {:induction false} PartialExact(e: BoolExpr, a: Assignments, re: Regex)
    requires Refs(e) <= a.Keys
    ensures PartialEval(e, a, re) == Verdict2(Eval(e, a, re))
    decreases e, 1
  {
    match e
    case IsPresent(_) =>
    case Compare(_, l, r) =>
      ValueExact(l, a);
      ValueExact(r, a);
    case Matches(v, _) =>
      ValueExact(v, a);
    case Implies(c, d) =>
      PartialExact(c, a, re);
      PartialExact(d, a, re);
    case Cardinality(es, _, _) =>
      MembersExact(es, a, re);
      CountsExact(es, a, re);
    case And(es) =>
      MembersExact(es, a, re);
    case Or(es) =>
      MembersExact(es, a, re);
    case Not(x) =>
      PartialExact(x, a, re);
  }

  lemma {:induction false} MembersExact(es: seq<BoolExpr>, a: Assignments, re: Regex)
    requires ReadRefsOf(es) + PresenceRefsOf(es) <= a.Keys
    ensures forall x | x in es :: PartialEval(x, a, re) == Verdict2(Eval(x, a, re))
    decreases es, 0
  {
    forall x | x in es
      ensures PartialEval(x, a, re) == Verdict2(Eval(x, a, re))
    {
      RefsOfMember(es, x);
      PartialExact(x, a, re);
    }
  }

  lemma {:induction false} CountsExact(es: seq<BoolExpr>, a: Assignments, re: Regex)
    requires forall x | x in es :: PartialEval(x, a, re) == Verdict2(Eval(x, a, re))
    ensures CountVerdict(es, a, re, Holds) == CountTrue(es, a, re)
    ensures CountVerdict(es, a, re, Unknown) == 0
  {
    if es != [] {
      CountsExact(es[1..], a, re);
    }
  }

  lemma {:induction false} ValueDependsOnRefs(e: ValueExpr, a: Assignments, b: Assignments)
    requires forall id | id in ValueRefs(e) :: EvalValue(Input(id), a) == EvalValue(Input(id), b)
    ensures EvalValue(e, a) == EvalValue(e, b)
  {
    match e
    case Input(_) =>
    case Literal(_) =>
    case Arithmetic(_, l, r) =>
      ValueDependsOnRefs(l, a, b);
      ValueDependsOnRefs(r, a, b);
  }

  /** Two assignments a constraint sees alike: the same readable values and the same presences. */
  ghost predicate SeenAlike(a: Assignments, b: Assignments, read: set<NodeId>, tests: set<NodeId>) {
    && (forall id | id in read :: EvalValue(Input(id), a) == EvalValue(Input(id), b))
    && (forall id | id in tests :: (id in a && IsPresence(a[id])) == (id in b && IsPresence(b[id])))
  }

  /** Truth depends on nothing but the referenced inputs. */
  lemma {:induction false} EvalDependsOnRefs(e: BoolExpr, a: Assignments, b: Assignments, re: Regex)
    requires SeenAlike(a, b, ReadRefs(e), PresenceRefs(e))
    ensures Eval(e, a, re) == Eval(e, b, re)
    decreases e, 1
  {
    match e
    case IsPresent(_) =>
    case Compare(_, l, r) =>
      ValueDependsOnRefs(l, a, b);
      ValueDependsOnRefs(r, a, b);
    case Matches(v, _) =>
      ValueDependsOnRefs(v, a, b);
    case Implies(c, d) =>
      EvalDependsOnRefs(c, a, b, re);
      EvalDependsOnRefs(d, a, b, re);
    case Cardinality(es, _, _) =>
      MembersDependOnRefs(es, a, b, re);
      CountsDependOnMembers(es, a, b, re);
    case And(es) =>
      MembersDependOnRefs(es, a, b, re);
    case Or(es) =>
      MembersDependOnRefs(es, a, b, re);
    case Not(x) =>
      EvalDependsOnRefs(x, a, b, re);
  }

  lemma {:induction false} MembersDependOnRefs(es: seq<BoolExpr>, a: Assignments, b: Assignments, re: Regex)
    requires SeenAlike(a, b, ReadRefsOf(es), PresenceRefsOf(es))
    ensures forall x | x in es :: Eval(x, a, re) == Eval(x, b, re)
    decreases es, 0
  {
    forall x | x in es
      ensures Eval(x, a, re) == Eval(x, b, re)
    {
      RefsOfMember(es, x);
      EvalDependsOnRefs(x, a, b, re);
    }
  }

  lemma {:induction false} CountsDependOnMembers(es: seq<BoolExpr>, a: Assignments, b: Assignments, re: Regex)
    requires forall x | x in es :: Eval(x, a, re) == Eval(x, b, re)
    ensures CountTrue(es, a, re) == CountTrue(es, b, re)
  {
    if es != [] {
      CountsDependOnMembers(es[1..], a, b, re);
    }
  }

  /** `f` with every unassigned id of `ids` recorded as absent. */
  ghost function Completed(f: Assignments, ids: set<NodeId>): Assignments {
    map id | id in f.Keys + ids :: if id in f then f[id] else Absent
  }

  /**
   Soundness against any assignment the partial one agrees with on everything the
   constraint observes: a decided verdict is the truth there.
   */
  lemma {:induction false} PartialSoundFor(e: BoolExpr, p: Assignments, f: Assignments, re: Regex)
    requires Agrees(p, f, ReadRefs(e), PresenceRefs(e))
    requires PartialEval(e, p, re) != Unknown
    ensures PartialEval(e, p, re) == Verdict2(Eval(e, f, re))
  {
    var total := Completed(f, Refs(e));
    PartialStableFor(e, p, total, re);
    PartialExact(e, total, re);
    EvalDependsOnRefs(e, f, total, re);
  }

  /** A decided verdict on a partial assignment equals full evaluation on every extension. */
  lemma {:induction false} PartialSound(e: BoolExpr, p: Assignments, f: Assignments, re: Regex)
    requires Extends(p, f)
    ensures PartialEval(e, p, re) == Holds ==> Eval(e, f, re)
    ensures PartialEval(e, p, re) == Fails ==> !Eval(e, f, re)
  {
    if PartialEval(e, p, re) != Unknown {
      PartialSoundFor(e, p, f, re);
    }
  }

  /** A decided verdict stays the same as inputs are added. */
  lemma {:induction false} PartialStable(e: BoolExpr, p: Assignments, q: Assignments, re: Regex)
    requires Extends(p, q)
    ensures PartialEval(e, p, re) == Unknown || PartialEval(e, q, re) == PartialEval(e, p, re)
  {
    if PartialEval(e, p, re) != Unknown {
      PartialStableFor(e, p, q, re);
    }
  }

  /** The same three facts for a whole set, in the form the solver uses. */
  lemma {:induction false} PartialSetSoundFor(cs: seq<BoolExpr>, p: Assignments, f: Assignments, re: Regex)
    requires Agrees(p, f, ReadRefsOf(cs), PresenceRefsOf(cs))
    requires PartialEvalSet(cs, p, re) != Unknown
    ensures PartialEvalSet(cs, p, re) == Verdict2(EvalSet(cs, f, re))
  {
    forall c | c in cs && PartialEval(c, p, re) != Unknown
      ensures PartialEval(c, p, re) == Verdict2(Eval(c, f, re))
    {
      RefsOfMember(cs, c);
      PartialSoundFor(c, p, f, re);
    }
  }

  lemma {:induction false} PartialSetExact(cs: seq<BoolExpr>, a: Assignments, re: Regex)
    requires ReadRefsOf(cs) + PresenceRefsOf(cs) <= a.Keys
    ensures PartialEvalSet(cs, a, re) == Verdict2(EvalSet(cs, a, re))
  {
    MembersExact(cs, a, re);
  }
}
