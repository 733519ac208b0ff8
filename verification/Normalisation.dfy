/**
 The canonicalising rewriter and the labels read off its result
 (restscope/request_generation/constraints.py).
 */
module Normalisation {
  import opened Wrappers
  import opened Constraints
  import opened Sorting

  /** Comparison of canonical keys: a key is injective, so the orders are total. */
  datatype KeyOrder = KeyOrder(values: (ValueExpr, ValueExpr) -> bool, booleans: (BoolExpr, BoolExpr) -> bool)

  ghost predicate ValidOrder(o: KeyOrder) {
    TotalOrder(o.values) && TotalOrder(o.booleans)
  }

  predicate Symmetric(op: CompareOp) {
    op == Eq || op == Ne
  }

  predicate Commutative(op: ArithmeticOp) {
    op == Plus || op == Times
  }

  function NormValue(e: ValueExpr, o: KeyOrder): ValueExpr {
    match e
    case Arithmetic(op, l, r) =>
      var left := NormValue(l, o);
      var right := NormValue(r, o);
      if Commutative(op) && !o.values(left, right) then Arithmetic(op, right, left)
      else Arithmetic(op, left, right)
    case _ => e
  }

  function Norm(e: BoolExpr, o: KeyOrder): BoolExpr
    decreases e, 1
  {
    match e
    case IsPresent(_) => e
    case Compare(op, l, r) =>
      var left := NormValue(l, o);
      var right := NormValue(r, o);
      if Symmetric(op) && !o.values(left, right) then Compare(op, right, left)
      else Compare(op, left, right)
    case Matches(v, pattern) => Matches(NormValue(v, o), pattern)
    case Implies(c, q) => Implies(Norm(c, o), Norm(q, o))
    case Cardinality(es, lo, hi) => Cardinality(Sort(NormEach(es, o), o.booleans), lo, hi)
    case And(es) => And(Sort(NormEach(es, o), o.booleans))
    case Or(es) => Or(Sort(NormEach(es, o), o.booleans))
    case Not(x) => Not(Norm(x, o))
  }

  function NormEach(es: seq<BoolExpr>, o: KeyOrder): seq<BoolExpr>
    decreases es, 0
  {
    if es == [] then [] else [Norm(es[0], o)] + NormEach(es[1..], o)
  }

  function NormSet(cs: seq<BoolExpr>, o: KeyOrder): seq<BoolExpr> {
    Sort(NormEach(cs, o), o.booleans)
  }

  lemma {:induction false} NormEachAt(es: seq<BoolExpr>, o: KeyOrder)
    ensures |NormEach(es, o)| == |es|
    ensures forall i | 0 <= i < |es| :: NormEach(es, o)[i] == Norm(es[i], o)
  {
    if es != [] {
      NormEachAt(es[1..], o);
    }
  }

  // ---------------------------------------------------------------- truth is preserved

  lemma {:induction false} NormValueMeans(e: ValueExpr, o: KeyOrder, a: Assignments)
    ensures EvalValue(NormValue(e, o), a) == EvalValue(e, a)
  {
    if e.Arithmetic? {
      NormValueMeans(e.left, o, a);
      NormValueMeans(e.right, o, a);
      match (EvalValue(e.left, a), EvalValue(e.right, a))
      case (Some(x), Some(y)) => if Commutative(e.op) { ApplyCommutes(e.op, x, y); }
      case _ =>
    }
  }

  lemma {:induction false} ApplyCommutes(op: ArithmeticOp, x: Value, y: Value)
    requires Commutative(op)
    ensures Apply(op, x, y) == Apply(op, y, x)
  {
    if x.Number? && y.Number? {
      assert x.n * y.n == y.n * x.n;
    }
  }

  lemma {:induction false} CountOfParts(xs: seq<BoolExpr>, ys: seq<BoolExpr>, a: Assignments, re: Regex)
    ensures CountTrue(xs + ys, a, re) == CountTrue(xs, a, re) + CountTrue(ys, a, re)
  {
    if xs == [] {
      assert xs + ys == ys;
    } else {
      assert (xs + ys)[1..] == xs[1..] + ys;
      CountOfParts(xs[1..], ys, a, re);
    }
  }

  /** Position of one occurrence of x. */
  lemma {:induction false} Without<T>(ys: seq<T>, j: nat)
    requires j < |ys|
    ensures multiset(ys) == multiset(ys[..j] + ys[j + 1..]) + multiset{ys[j]}
  {
    assert ys == ys[..j] + [ys[j]] + ys[j + 1..];
  }

  lemma {:induction false} CountWithout(ys: seq<BoolExpr>, j: nat, a: Assignments, re: Regex)
    requires j < |ys|
    ensures CountTrue(ys, a, re)
         == (if Eval(ys[j], a, re) then 1 else 0) + CountTrue(ys[..j] + ys[j + 1..], a, re)
  {
    assert ys == ys[..j] + ys[j..] && ys[j..][1..] == ys[j + 1..];
    CountOfParts(ys[..j], ys[j..], a, re);
    CountOfParts(ys[..j], ys[j + 1..], a, re);
  }

  lemma {:induction false} RearrangedHead<T>(xs: seq<T>, ys: seq<T>) returns (j: nat)
    requires multiset(xs) == multiset(ys) && xs != []
    ensures j < |ys| && ys[j] == xs[0]
    ensures multiset(xs[1..]) == multiset(ys[..j] + ys[j + 1..])
  {
    SameMembers(xs, ys);
    assert xs[0] in ys;
    j :| 0 <= j < |ys| && ys[j] == xs[0];
    Without(ys, j);
    assert xs == [xs[0]] + xs[1..];
    assert multiset(xs) - multiset{xs[0]} == multiset(xs[1..]);
    assert multiset(ys) - multiset{ys[j]} == multiset(ys[..j] + ys[j + 1..]);
  }

  lemma {:induction false} CountRearranged(xs: seq<BoolExpr>, ys: seq<BoolExpr>, a: Assignments, re: Regex)
    requires multiset(xs) == multiset(ys)
    ensures CountTrue(xs, a, re) == CountTrue(ys, a, re)
  {
    if xs == [] {
      assert |multiset(ys)| == 0;
    } else {
      var j := RearrangedHead(xs, ys);
      CountRearranged(xs[1..], ys[..j] + ys[j + 1..], a, re);
      CountWithout(ys, j, a, re);
    }
  }

  /** Rewriting keeps the truth of an expression under every assignment. */
  lemma {:induction false} NormMeans(e: BoolExpr, o: KeyOrder, a: Assignments, re: Regex)
    requires ValidOrder(o)
    ensures Eval(Norm(e, o), a, re) == Eval(e, a, re)
    decreases e, 1
  {
    hide Sort, NormEach, NormValue, EvalValue, CountTrue;
    match e
    case IsPresent(_) =>
    case Compare(_, l, r) =>
      NormValueMeans(l, o, a);
      NormValueMeans(r, o, a);
    case Matches(v, _) =>
      NormValueMeans(v, o, a);
    case Implies(c, q) =>
      NormMeans(c, o, a, re);
      NormMeans(q, o, a, re);
    case Cardinality(es, _, _) =>
      SortedListMeans(es, o, a, re);
    case And(es) =>
      SortedListMeans(es, o, a, re);
    case Or(es) =>
      SortedListMeans(es, o, a, re);
    case Not(x) =>
      NormMeans(x, o, a, re);
  }

  lemma {:induction false} ListMeans(es: seq<BoolExpr>, o: KeyOrder, a: Assignments, re: Regex)
    requires ValidOrder(o)
    ensures CountTrue(NormEach(es, o), a, re) == CountTrue(es, a, re)
    ensures (forall x | x in NormEach(es, o) :: Eval(x, a, re)) == (forall x | x in es :: Eval(x, a, re))
    ensures (exists x | x in NormEach(es, o) :: Eval(x, a, re)) == (exists x | x in es :: Eval(x, a, re))
    decreases es, 0
  {
    if es != [] {
      NormMeans(es[0], o, a, re);
      ListMeans(es[1..], o, a, re);
      var n, rest := NormEach(es, o), NormEach(es[1..], o);
      assert forall x :: x in es <==> x == es[0] || x in es[1..];
      assert n == [Norm(es[0], o)] + rest;
      assert forall x :: x in n <==> x == n[0] || x in rest;
    }
  }

  lemma {:induction false} SortedListMeans(es: seq<BoolExpr>, o: KeyOrder, a: Assignments, re: Regex)
    requires ValidOrder(o)
    ensures CountTrue(NormSet(es, o), a, re) == CountTrue(es, a, re)
    ensures EvalSet(NormSet(es, o), a, re) == EvalSet(es, a, re)
    ensures (exists x | x in NormSet(es, o) :: Eval(x, a, re)) == (exists x | x in es :: Eval(x, a, re))
    decreases es, 1
  {
    ListMeans(es, o, a, re);
    SortSorts(NormEach(es, o), o.booleans);
    SameMembers(NormEach(es, o), NormSet(es, o));
    CountRearranged(NormEach(es, o), NormSet(es, o), a, re);
  }

  // ---------------------------------------------------------------- canonical form

  /** Equal up to the order of operands that commute. */
  predicate SameValue(x: ValueExpr, y: ValueExpr) {
    match (x, y)
    case (Arithmetic(f, a, b), Arithmetic(g, c, d)) =>
      && f == g
      && ((SameValue(a, c) && SameValue(b, d)) || (Commutative(f) && SameValue(a, d) && SameValue(b, c)))
    case _ => x == y
  }

  predicate Same(x: BoolExpr, y: BoolExpr)
    decreases x, 1
  {
    match (x, y)
    case (Compare(f, a, b), Compare(g, c, d)) =>
      && f == g
      && ((SameValue(a, c) && SameValue(b, d)) || (Symmetric(f) && SameValue(a, d) && SameValue(b, c)))
    case (Matches(v, p), Matches(w, q)) => SameValue(v, w) && p == q
    case (Implies(a, b), Implies(c, d)) => Same(a, c) && Same(b, d)
    case (Cardinality(es, lo, hi), Cardinality(fs, lo', hi')) => lo == lo' && hi == hi' && SameList(es, fs)
    case (And(es), And(fs)) => SameList(es, fs)
    case (Or(es), Or(fs)) => SameList(es, fs)
    case (Not(a), Not(b)) => Same(a, b)
    case _ => x == y
  }

  /** The members of `fs` can be paired off with those of `es`, in any order. */
  predicate SameList(es: seq<BoolExpr>, fs: seq<BoolExpr>)
    decreases es, 0
  {
    if es == [] then fs == []
    else exists j | 0 <= j < |fs| :: Same(es[0], fs[j]) && SameList(es[1..], fs[..j] + fs[j + 1..])
  }

  lemma {:induction false} SameValueNorm(x: ValueExpr, y: ValueExpr, o: KeyOrder)
    requires ValidOrder(o)
    ensures SameValue(x, y) <==> NormValue(x, o) == NormValue(y, o)
  {
    if x.Arithmetic? && y.Arithmetic? {
      SameValueNorm(x.left, y.left, o);
      SameValueNorm(x.left, y.right, o);
      SameValueNorm(x.right, y.left, o);
      SameValueNorm(x.right, y.right, o);
    }
  }

  /** Canonical forms coincide exactly for expressions that differ by reordering alone. */
  lemma {:induction false} SameNorm(x: BoolExpr, y: BoolExpr, o: KeyOrder)
    requires ValidOrder(o)
    ensures Same(x, y) <==> Norm(x, o) == Norm(y, o)
    decreases x, 2
  {
    match (x, y)
    case (Compare(_, a, b), Compare(_, c, d)) =>
      SameValueNorm(a, c, o);
      SameValueNorm(a, d, o);
      SameValueNorm(b, c, o);
      SameValueNorm(b, d, o);
    case (Matches(v, _), Matches(w, _)) =>
      SameValueNorm(v, w, o);
    case (Implies(a, b), Implies(c, d)) =>
      SameNorm(a, c, o);
      SameNorm(b, d, o);
    case (Cardinality(es, _, _), Cardinality(fs, _, _)) =>
      SameListNorm(es, fs, o);
    case (And(es), And(fs)) =>
      SameListNorm(es, fs, o);
    case (Or(es), Or(fs)) =>
      SameListNorm(es, fs, o);
    case (Not(a), Not(b)) =>
      SameNorm(a, b, o);
    case _ =>
  }

  lemma {:induction false} SameListNorm(es: seq<BoolExpr>, fs: seq<BoolExpr>, o: KeyOrder)
    requires ValidOrder(o)
    ensures SameList(es, fs) <==> NormSet(es, o) == NormSet(fs, o)
    decreases es, 1
  {
    SamePairing(es, fs, o);
    SortAlike(NormEach(es, o), NormEach(fs, o), o.booleans);
  }

  lemma {:induction false} NormEachWithout(fs: seq<BoolExpr>, j: nat, o: KeyOrder)
    requires j < |fs|
    ensures multiset(NormEach(fs, o)) == multiset(NormEach(fs[..j] + fs[j + 1..], o)) + multiset{Norm(fs[j], o)}
  {
    var ns := NormEach(fs, o);
    NormEachAt(fs, o);
    NormEachAt(fs[..j] + fs[j + 1..], o);
    assert NormEach(fs[..j] + fs[j + 1..], o) == ns[..j] + ns[j + 1..];
    Without(ns, j);
  }

  lemma {:induction false} SamePairing(es: seq<BoolExpr>, fs: seq<BoolExpr>, o: KeyOrder)
    requires ValidOrder(o)
    ensures SameList(es, fs) <==> multiset(NormEach(es, o)) == multiset(NormEach(fs, o))
    decreases es, 0
  {
    hide Norm, Same, ValidOrder;
    if es == [] {
      NormEachAt(fs, o);
      assert |multiset(NormEach(fs, o))| == |fs|;
    } else {
      if SameList(es, fs) {
        var j :| 0 <= j < |fs| && Same(es[0], fs[j]) && SameList(es[1..], fs[..j] + fs[j + 1..]);
        PairUp(es, fs, j, o);
      }
      if multiset(NormEach(es, o)) == multiset(NormEach(fs, o)) {
        NormEachAt(fs, o);
        var j := RearrangedHead(NormEach(es, o), NormEach(fs, o));
        PairUp(es, fs, j, o);
      }
    }
  }

  /** Pairing the first member of `es` with `fs[j]`, when their canonical forms agree. */
  lemma {:induction false} PairUp(es: seq<BoolExpr>, fs: seq<BoolExpr>, j: nat, o: KeyOrder)
    requires ValidOrder(o) && es != [] && j < |fs|
    ensures Same(es[0], fs[j]) <==> Norm(es[0], o) == Norm(fs[j], o)
    ensures Norm(es[0], o) == Norm(fs[j], o) ==>
              (SameList(es[1..], fs[..j] + fs[j + 1..])
               <==> multiset(NormEach(es, o)) == multiset(NormEach(fs, o)))
    decreases es, 0, 0
  {
    hide Norm, Same, SameList, ValidOrder, NormEach;
    SameNorm(es[0], fs[j], o);
    NormEachWithout(fs, j, o);
    SamePairing(es[1..], fs[..j] + fs[j + 1..], o);
    NormEachHead(es, o);
  }

  lemma {:induction false} NormEachHead(es: seq<BoolExpr>, o: KeyOrder)
    requires es != []
    ensures Norm(es[0], o) in NormEach(es, o)
    ensures multiset(NormEach(es, o)) - multiset{Norm(es[0], o)} == multiset(NormEach(es[1..], o))
  {
    hide Norm;
    var head, rest := Norm(es[0], o), NormEach(es[1..], o);
    assert NormEach(es, o) == [head] + rest;
    assert multiset(NormEach(es, o)) == multiset{head} + multiset(rest);
  }

  lemma {:induction false} NormValueIdempotent(e: ValueExpr, o: KeyOrder)
    requires ValidOrder(o)
    ensures NormValue(NormValue(e, o), o) == NormValue(e, o)
  {
    if e.Arithmetic? {
      NormValueIdempotent(e.left, o);
      NormValueIdempotent(e.right, o);
    }
  }

  /** Rewriting a canonical form changes nothing. */
  lemma {:induction false} NormIdempotent(e: BoolExpr, o: KeyOrder)
    requires ValidOrder(o)
    ensures Norm(Norm(e, o), o) == Norm(e, o)
    decreases e, 2
  {
    match e
    case IsPresent(_) =>
    case Compare(_, l, r) =>
      NormValueIdempotent(l, o);
      NormValueIdempotent(r, o);
    case Matches(v, _) =>
      NormValueIdempotent(v, o);
    case Implies(c, q) =>
      NormIdempotent(c, o);
      NormIdempotent(q, o);
    case Cardinality(es, _, _) =>
      NormSetIdempotent(es, o);
    case And(es) =>
      NormSetIdempotent(es, o);
    case Or(es) =>
      NormSetIdempotent(es, o);
    case Not(x) =>
      NormIdempotent(x, o);
  }

  lemma {:induction false} NormSetIdempotent(es: seq<BoolExpr>, o: KeyOrder)
    requires ValidOrder(o)
    ensures NormSet(NormSet(es, o), o) == NormSet(es, o)
    decreases es, 1
  {
    var sorted := NormSet(es, o);
    NormEachAt(es, o);
    SortSorts(NormEach(es, o), o.booleans);
    SameMembers(NormEach(es, o), sorted);
    NormEachAt(sorted, o);
    forall i | 0 <= i < |sorted|
      ensures Norm(sorted[i], o) == sorted[i]
    {
      assert sorted[i] in NormEach(es, o);
      var k :| 0 <= k < |es| && NormEach(es, o)[k] == sorted[i];
      NormIdempotent(es[k], o);
    }
    assert NormEach(sorted, o) == sorted;
    SortOfSorted(sorted, o.booleans);
  }

  /** Which parts commute: both sides of an equality, of a sum and of a product, and no others. */
  lemma {:induction false} SidesCommute(l: ValueExpr, r: ValueExpr, op: CompareOp, f: ArithmeticOp, o: KeyOrder)
    requires ValidOrder(o)
    ensures Norm(Compare(op, l, r), o) == Norm(Compare(op, r, l), o)
       <==> op in {Eq, Ne} || NormValue(l, o) == NormValue(r, o)
    ensures NormValue(Arithmetic(f, l, r), o) == NormValue(Arithmetic(f, r, l), o)
       <==> f in {Plus, Times} || NormValue(l, o) == NormValue(r, o)
  {
  }

  /** The members of a conjunction, a disjunction or a cardinality may be written in any order. */
  lemma {:induction false} MembersCommute(es: seq<BoolExpr>, fs: seq<BoolExpr>, lo: nat, hi: nat, o: KeyOrder)
    requires ValidOrder(o) && multiset(es) == multiset(fs)
    ensures Norm(And(es), o) == Norm(And(fs), o) && Norm(Or(es), o) == Norm(Or(fs), o)
    ensures Norm(Cardinality(es, lo, hi), o) == Norm(Cardinality(fs, lo, hi), o)
  {
    hide Sort, NormEach;
    NormEachRearranged(es, fs, o);
    SortAlike(NormEach(es, o), NormEach(fs, o), o.booleans);
  }

  lemma {:induction false} NormEachRearranged(es: seq<BoolExpr>, fs: seq<BoolExpr>, o: KeyOrder)
    requires multiset(es) == multiset(fs)
    ensures multiset(NormEach(es, o)) == multiset(NormEach(fs, o))
  {
    if es == [] {
      assert |multiset(fs)| == 0;
    } else {
      var j := RearrangedHead(es, fs);
      NormEachRearranged(es[1..], fs[..j] + fs[j + 1..], o);
      NormEachWithout(fs, j, o);
      NormEachHead(es, o);
    }
  }

  /**
   Constraint sets have the same canonical form exactly when their items, and the
   commuting parts inside them, are rearrangements of each other; then they accept
   the same assignments.
   */
  lemma {:induction false} CanonicalForm(cs: seq<BoolExpr>, ds: seq<BoolExpr>, o: KeyOrder)
    requires ValidOrder(o)
    ensures SameList(cs, ds) <==> NormSet(cs, o) == NormSet(ds, o)
    ensures SameList(cs, ds) ==> forall a, re :: EvalSet(cs, a, re) == EvalSet(ds, a, re)
  {
    SameListNorm(cs, ds, o);
    if SameList(cs, ds) {
      forall a, re
        ensures EvalSet(cs, a, re) == EvalSet(ds, a, re)
      {
        SortedListMeans(cs, o, a, re);
        SortedListMeans(ds, o, a, re);
      }
    }
  }

  // ---------------------------------------------------------------- labels

  datatype Kind = Requires | AnyOf | OnlyOne | AllOrNone | ZeroOrOne | Relational | Complex

  predicate IsAllOrNone(e: BoolExpr) {
    && e.Or?
    && |e.expressions| == 2
    && var first, second := e.expressions[0], e.expressions[1];
    && first.Cardinality? && second.Cardinality?
    && first.expressions == second.expressions
    && |first.expressions| >= 2
    && {(first.minimum, first.maximum), (second.minimum, second.maximum)}
       == {(0, 0), (|first.expressions|, |first.expressions|)}
  }

  function Classify(e: BoolExpr, o: KeyOrder): Kind {
    var n := Norm(e, o);
    if n.Implies? && n.condition.IsPresent? && n.consequence.IsPresent? then Requires
    else if n.Cardinality? && n.minimum == n.maximum == 1 then OnlyOne
    else if n.Cardinality? && n.minimum == 0 && n.maximum == 1 then ZeroOrOne
    else if n.Cardinality? && n.minimum == 1 && n.maximum == |n.expressions| then AnyOf
    else if IsAllOrNone(n) then AllOrNone
    else if n.Compare? then Relational
    else Complex
  }

  ghost predicate ExactlyOne(es: seq<BoolExpr>, a: Assignments, re: Regex) {
    exists i | 0 <= i < |es| :: Eval(es[i], a, re) && forall j | 0 <= j < |es| && j != i :: !Eval(es[j], a, re)
  }

  ghost predicate AtMostOne(es: seq<BoolExpr>, a: Assignments, re: Regex) {
    forall i, j | 0 <= i < |es| && 0 <= j < |es| && Eval(es[i], a, re) && Eval(es[j], a, re) :: i == j
  }

  predicate SomeOf(es: seq<BoolExpr>, a: Assignments, re: Regex) {
    exists x | x in es :: Eval(x, a, re)
  }

  /** Meaning of a label, stated on the expression before it was rewritten. */
  ghost predicate LabelMeans(kind: Kind, e: BoolExpr, a: Assignments, re: Regex) {
    match kind
    case Requires =>
      exists p, q :: e == Implies(IsPresent(p), IsPresent(q))
        && (Eval(e, a, re) <==> (Eval(IsPresent(p), a, re) ==> Eval(IsPresent(q), a, re)))
    case OnlyOne => e.Cardinality? && (Eval(e, a, re) <==> ExactlyOne(e.expressions, a, re))
    case ZeroOrOne => e.Cardinality? && (Eval(e, a, re) <==> AtMostOne(e.expressions, a, re))
    case AnyOf => e.Cardinality? && (Eval(e, a, re) <==> SomeOf(e.expressions, a, re))
    case AllOrNone =>
      && e.Or? && |e.expressions| == 2 && e.expressions[0].Cardinality? && e.expressions[1].Cardinality?
      && SameList(e.expressions[0].expressions, e.expressions[1].expressions)
      && (Eval(e, a, re) <==>
          (EvalSet(e.expressions[0].expressions, a, re) || !SomeOf(e.expressions[0].expressions, a, re)))
    case Relational => e.Compare?
    case Complex => true
  }

  lemma {:induction false} CountBounds(es: seq<BoolExpr>, a: Assignments, re: Regex)
    ensures CountTrue(es, a, re) <= |es|
    ensures CountTrue(es, a, re) == |es| <==> EvalSet(es, a, re)
    ensures CountTrue(es, a, re) >= 1 <==> SomeOf(es, a, re)
  {
    if es != [] {
      CountBounds(es[1..], a, re);
      assert forall x :: x in es <==> x == es[0] || x in es[1..];
    }
  }

  lemma {:induction false} AtMostOneSplit(es: seq<BoolExpr>, a: Assignments, re: Regex)
    requires es != []
    ensures AtMostOne(es, a, re) <==>
            if Eval(es[0], a, re) then !SomeOf(es[1..], a, re) else AtMostOne(es[1..], a, re)
  {
    var rest := es[1..];
    assert forall i | 0 <= i < |rest| :: rest[i] == es[i + 1];
    assert forall i | 1 <= i < |es| :: es[i] == rest[i - 1];
    if Eval(es[0], a, re) {
      if SomeOf(rest, a, re) {
        var i :| 0 <= i < |rest| && Eval(rest[i], a, re);
        assert Eval(es[i + 1], a, re);
      }
    } else if AtMostOne(es, a, re) {
      forall i, j | 0 <= i < |rest| && 0 <= j < |rest| && Eval(rest[i], a, re) && Eval(rest[j], a, re)
        ensures i == j
      {
        assert Eval(es[i + 1], a, re) && Eval(es[j + 1], a, re);
      }
    }
  }

  lemma {:induction false} ExactlyOneSplit(es: seq<BoolExpr>, a: Assignments, re: Regex)
    ensures ExactlyOne(es, a, re) <==> SomeOf(es, a, re) && AtMostOne(es, a, re)
  {
    if SomeOf(es, a, re) && AtMostOne(es, a, re) {
      var i :| 0 <= i < |es| && Eval(es[i], a, re);
      assert forall j | 0 <= j < |es| && j != i :: !Eval(es[j], a, re);
    }
  }

  lemma {:induction false} CountIsOne(es: seq<BoolExpr>, a: Assignments, re: Regex)
    ensures CountTrue(es, a, re) <= 1 <==> AtMostOne(es, a, re)
    ensures CountTrue(es, a, re) == 1 <==> ExactlyOne(es, a, re)
  {
    CountAtMostOne(es, a, re);
    CountBounds(es, a, re);
    ExactlyOneSplit(es, a, re);
  }

  lemma {:induction false} CountAtMostOne(es: seq<BoolExpr>, a: Assignments, re: Regex)
    ensures CountTrue(es, a, re) <= 1 <==> AtMostOne(es, a, re)
  {
    if es != [] {
      CountAtMostOne(es[1..], a, re);
      CountBounds(es[1..], a, re);
      AtMostOneSplit(es, a, re);
    }
  }

  /** A label implies its meaning for the expression it was derived from. */
  lemma {:induction false} LabelsMean(e: BoolExpr, o: KeyOrder, a: Assignments, re: Regex)
    requires ValidOrder(o)
    ensures LabelMeans(Classify(e, o), e, a, re)
  {
    hide Sort, NormEach, SameList, ExactlyOne, AtMostOne;
    NormMeans(e, o, a, re);
    match Classify(e, o)
    case Requires =>
      assert e == Implies(IsPresent(e.condition.id), IsPresent(e.consequence.id));
    case OnlyOne =>
      CountIsOne(e.expressions, a, re);
    case ZeroOrOne =>
      CountIsOne(e.expressions, a, re);
    case AnyOf =>
      CountBounds(e.expressions, a, re);
      NormEachAt(e.expressions, o);
      SortSorts(NormEach(e.expressions, o), o.booleans);
    case AllOrNone =>
      AllOrNoneMeans(e, o, a, re);
    case Relational =>
    case Complex =>
  }

  lemma {:induction false} AllOrNoneShape(e: BoolExpr, o: KeyOrder) returns (first: BoolExpr, second: BoolExpr)
    requires ValidOrder(o) && IsAllOrNone(Norm(e, o))
    ensures e.Or? && e.expressions == [first, second]
    ensures first.Cardinality? && second.Cardinality?
    ensures SameList(first.expressions, second.expressions)
    ensures |first.expressions| >= 2
    ensures {(first.minimum, first.maximum), (second.minimum, second.maximum)}
         == {(0, 0), (|first.expressions|, |first.expressions|)}
  {
    OrOfTwo(e, o);
    var sorted := NormSet(e.expressions, o);
    first, second := e.expressions[0], e.expressions[1];
    NormedPair(first, second, sorted, o);
  }

  lemma {:induction false} OrOfTwo(e: BoolExpr, o: KeyOrder)
    requires ValidOrder(o) && Norm(e, o).Or? && |Norm(e, o).expressions| == 2
    ensures e.Or? && |e.expressions| == 2 && Norm(e, o) == Or(NormSet(e.expressions, o))
    ensures var first, second := Norm(e.expressions[0], o), Norm(e.expressions[1], o);
            NormSet(e.expressions, o) == [first, second] || NormSet(e.expressions, o) == [second, first]
  {
    hide Sort, NormEach, Same, SameList;
    var ns := NormEach(e.expressions, o);
    NormEachAt(e.expressions, o);
    SortSorts(ns, o.booleans);
    PairsRearranged(ns, NormSet(e.expressions, o));
  }

  lemma {:induction false} NormedPair(first: BoolExpr, second: BoolExpr, sorted: seq<BoolExpr>, o: KeyOrder)
    requires ValidOrder(o) && IsAllOrNone(Or(sorted))
    requires sorted == [Norm(first, o), Norm(second, o)] || sorted == [Norm(second, o), Norm(first, o)]
    ensures first.Cardinality? && second.Cardinality?
    ensures SameList(first.expressions, second.expressions)
    ensures |first.expressions| >= 2
    ensures {(first.minimum, first.maximum), (second.minimum, second.maximum)}
         == {(0, 0), (|first.expressions|, |first.expressions|)}
  {
    hide Sort, NormEach, Same, SameList, Eval;
    var f, s := Norm(first, o), Norm(second, o);
    assert f.Cardinality? && s.Cardinality? && f.expressions == s.expressions;
    SameListNorm(first.expressions, second.expressions, o);
    NormEachAt(first.expressions, o);
    SortSorts(NormEach(first.expressions, o), o.booleans);
    assert {(f.minimum, f.maximum), (s.minimum, s.maximum)} == {(s.minimum, s.maximum), (f.minimum, f.maximum)};
  }

  lemma {:induction false} AllOrNoneMeans(e: BoolExpr, o: KeyOrder, a: Assignments, re: Regex)
    requires ValidOrder(o) && IsAllOrNone(Norm(e, o))
    ensures LabelMeans(AllOrNone, e, a, re)
  {
    hide Norm, NormEach, Sort, SameList, IsAllOrNone;
    var first, second := AllOrNoneShape(e, o);
    SameListNorm(first.expressions, second.expressions, o);
    SortedListMeans(first.expressions, o, a, re);
    SortedListMeans(second.expressions, o, a, re);
    CountBounds(first.expressions, a, re);
    AllOrNoneBounds(first, second);
    assert Eval(e, a, re) <==> Eval(first, a, re) || Eval(second, a, re) by {
      assert forall x :: x in e.expressions <==> x == first || x == second;
    }
  }

  /** Written as "none of these, or all of these", in either order and with the members in any order. */
  ghost predicate WrittenAllOrNone(e: BoolExpr) {
    && e.Or? && |e.expressions| == 2
    && var x, y := e.expressions[0], e.expressions[1];
    && x.Cardinality? && y.Cardinality? && |x.expressions| >= 2 && SameList(x.expressions, y.expressions)
    && var n := |x.expressions|;
    || ((x.minimum, x.maximum) == (0, 0) && (y.minimum, y.maximum) == (n, n))
    || ((x.minimum, x.maximum) == (n, n) && (y.minimum, y.maximum) == (0, 0))
  }

  lemma {:induction false} AllOrNoneIff(e: BoolExpr, o: KeyOrder)
    requires ValidOrder(o)
    ensures IsAllOrNone(Norm(e, o)) <==> WrittenAllOrNone(e)
  {
    if IsAllOrNone(Norm(e, o)) {
      hide Norm, SameList, IsAllOrNone;
      var first, second := AllOrNoneShape(e, o);
      AllOrNoneBounds(first, second);
    }
    if WrittenAllOrNone(e) {
      WrittenIsRecognised(e, o);
    }
  }

  lemma {:induction false} WrittenIsRecognised(e: BoolExpr, o: KeyOrder)
    requires ValidOrder(o) && WrittenAllOrNone(e)
    ensures IsAllOrNone(Norm(e, o))
  {
    hide Sort, NormEach, SameList;
    var x, y := e.expressions[0], e.expressions[1];
    NormedOr(e, o);
    OrOfTwo(e, o);
    SameListNorm(x.expressions, y.expressions, o);
    NormEachAt(x.expressions, o);
    SortSorts(NormEach(x.expressions, o), o.booleans);
    var n := |x.expressions|;
    assert {(0, 0), (n, n)} == {(n, n), (0, 0)};
  }

  lemma {:induction false} NormedOr(e: BoolExpr, o: KeyOrder)
    requires ValidOrder(o) && e.Or? && |e.expressions| == 2
    ensures Norm(e, o).Or? && |Norm(e, o).expressions| == 2
  {
    NormEachAt(e.expressions, o);
    SortSorts(NormEach(e.expressions, o), o.booleans);
  }

  /** Each label is given exactly for its shape, read off the expression as it was written. */
  lemma {:induction false} LabelsGiven(e: BoolExpr, o: KeyOrder)
    requires ValidOrder(o)
    ensures var k := Classify(e, o);
            && (k == Requires <==> e.Implies? && e.condition.IsPresent? && e.consequence.IsPresent?)
            && (k == OnlyOne <==> e.Cardinality? && e.minimum == 1 && e.maximum == 1)
            && (k == ZeroOrOne <==> e.Cardinality? && e.minimum == 0 && e.maximum == 1)
            && (k == AnyOf <==> e.Cardinality? && e.minimum == 1 && e.maximum == |e.expressions| != 1)
            && (k == AllOrNone <==> WrittenAllOrNone(e))
            && (k == Relational <==> e.Compare?)
  {
    hide Sort, NormEach, SameList, WrittenAllOrNone;
    AllOrNoneIff(e, o);
    if e.Cardinality? {
      NormEachAt(e.expressions, o);
      SortSorts(NormEach(e.expressions, o), o.booleans);
    }
  }

  lemma {:induction false} PairsRearranged<T>(xs: seq<T>, ys: seq<T>)
    requires |xs| == 2 && |ys| == 2 && multiset(xs) == multiset(ys)
    ensures xs == ys || xs == [ys[1], ys[0]]
  {
    assert xs == [xs[0], xs[1]] && ys == [ys[0], ys[1]];
    SameMembers(xs, ys);
    assert multiset(xs)[xs[0]] == multiset(ys)[xs[0]];
    assert xs[0] in ys && xs[1] in ys;
  }

  lemma {:induction false} AllOrNoneBounds(first: BoolExpr, second: BoolExpr)
    requires first.Cardinality? && second.Cardinality? && |first.expressions| >= 2
    requires {(first.minimum, first.maximum), (second.minimum, second.maximum)}
          == {(0, 0), (|first.expressions|, |first.expressions|)}
    ensures (first.minimum, first.maximum) == (0, 0)
            || (first.minimum, first.maximum) == (|first.expressions|, |first.expressions|)
    ensures (second.minimum, second.maximum)
         == if first.maximum == 0 then (|first.expressions|, |first.expressions|) else (0, 0)
  {
    var n := |first.expressions|;
    var s := {(first.minimum, first.maximum), (second.minimum, second.maximum)};
    assert (first.minimum, first.maximum) in s && (second.minimum, second.maximum) in s;
    assert (0, 0) in s && (n, n) in s;
  }
}
