/**
 What constraints mean, read off from outside: orders, arithmetic and logic
 (restscope/request_generation/constraints.py).
 */
module ConstraintLaws {
  import opened Wrappers
  import opened Constraints
  import opened Indexes

  function Num(n: real): ValueExpr {
    Literal(Number(n))
  }

  function Str(s: string): ValueExpr {
    Literal(Text(s))
  }

  // ---------------------------------------------------------------- comparing

  /** Numbers compare as numbers do. */
  lemma {:induction false} NumbersCompare(m: real, n: real, a: Assignments, re: Regex)
    ensures Eval(Compare(Lt, Num(m), Num(n)), a, re) <==> m < n
    ensures Eval(Compare(Le, Num(m), Num(n)), a, re) <==> m <= n
    ensures Eval(Compare(Gt, Num(m), Num(n)), a, re) <==> m > n
    ensures Eval(Compare(Ge, Num(m), Num(n)), a, re) <==> m >= n
    ensures Eval(Compare(Eq, Num(m), Num(n)), a, re) <==> m == n
    ensures Eval(Compare(Ne, Num(m), Num(n)), a, re) <==> m != n
  {
    NumbersOrder(m, n);
  }

  lemma {:induction false} NumbersOrder(m: real, n: real)
    ensures m < n || m == n || m > n
  {
  }

  ghost predicate BeforeAt(s: string, t: string, i: nat) {
    i <= |s| && i < |t| && s[..i] == t[..i] && (i == |s| || s[i] < t[i])
  }

  /** The first place where two texts differ, or the end of the shorter one, decides. */
  ghost predicate Before(s: string, t: string) {
    exists i :: BeforeAt(s, t, i)
  }

  lemma {:induction false} TextsCompare(s: string, t: string, a: Assignments, re: Regex)
    ensures Eval(Compare(Lt, Str(s), Str(t)), a, re) <==> Before(s, t)
    ensures Eval(Compare(Gt, Str(s), Str(t)), a, re) <==> Before(t, s)
    ensures Eval(Compare(Le, Str(s), Str(t)), a, re) <==> Before(s, t) || s == t
    ensures Eval(Compare(Ge, Str(s), Str(t)), a, re) <==> Before(t, s) || s == t
    ensures Eval(Compare(Eq, Str(s), Str(t)), a, re) <==> s == t
    ensures Eval(Compare(Ne, Str(s), Str(t)), a, re) <==> s != t
  {
    TextLessMeans(s, t);
    TextLessMeans(t, s);
  }

  lemma {:induction false} TextLessMeans(s: string, t: string)
    ensures TextLess(s, t) <==> Before(s, t)
  {
    hide BeforeAt;
    if s == "" || t == "" || s[0] != t[0] {
      FirstPlace(s, t);
    } else {
      TextLessMeans(s[1..], t[1..]);
      FirstPlace(s, t);
      forall i: nat ensures BeforeAt(s[1..], t[1..], i) <==> BeforeAt(s, t, i + 1) { NextPlace(s, t, i); }
      if i: nat :| BeforeAt(s, t, i) {
        assert BeforeAt(s[1..], t[1..], i - 1);
      }
    }
  }

  lemma {:induction false} FirstPlace(s: string, t: string)
    ensures BeforeAt(s, t, 0) <==> t != "" && (s == "" || s[0] < t[0])
    ensures s == "" || t == "" || s[0] != t[0] ==> forall i | i > 0 :: !BeforeAt(s, t, i)
  {
    forall i | i > 0 && BeforeAt(s, t, i)
      ensures s != "" && t != "" && s[0] == t[0]
    {
      assert s[..i][0] == t[..i][0];
    }
  }

  lemma {:induction false} NextPlace(s: string, t: string, i: nat)
    requires s != "" && t != "" && s[0] == t[0]
    ensures BeforeAt(s[1..], t[1..], i) <==> BeforeAt(s, t, i + 1)
  {
    if i < |s| && i < |t| {
      assert s[..i + 1] == [s[0]] + s[1..][..i] && t[..i + 1] == [t[0]] + t[1..][..i];
    }
  }

  /** Of any two texts exactly one comes first, or they are equal. */
  lemma {:induction false} TextsOrdered(s: string, t: string)
    ensures Before(s, t) || s == t || Before(t, s)
    ensures !(Before(s, t) && Before(t, s)) && !Before(s, s)
  {
    TextLessMeans(s, t);
    TextLessMeans(t, s);
    TextLessMeans(s, s);
    TextTrichotomy(s, t);
    TextTrichotomy(s, s);
  }

  lemma {:induction false} TextTrichotomy(s: string, t: string)
    ensures TextLess(s, t) || s == t || TextLess(t, s)
    ensures !(TextLess(s, t) && TextLess(t, s)) && (s == t ==> !TextLess(s, t))
  {
    if s != "" && t != "" && s[0] == t[0] {
      TextTrichotomy(s[1..], t[1..]);
      assert s == [s[0]] + s[1..] && t == [t[0]] + t[1..];
    }
  }

  predicate SameKind(x: Value, y: Value) {
    (x.Number? && y.Number?) || (x.Text? && y.Text?)
  }

  /** Each order is another one with its sides exchanged. */
  lemma {:induction false} SidesExchanged(l: ValueExpr, r: ValueExpr, a: Assignments, re: Regex)
    ensures Eval(Compare(Gt, l, r), a, re) <==> Eval(Compare(Lt, r, l), a, re)
    ensures Eval(Compare(Ge, l, r), a, re) <==> Eval(Compare(Le, r, l), a, re)
    ensures Eval(Compare(Eq, l, r), a, re) <==> Eval(Compare(Eq, r, l), a, re)
    ensures Eval(Compare(Ne, l, r), a, re) <==> Eval(Compare(Ne, r, l), a, re)
  {
  }

  /** An unavailable operand makes every comparison false, != included. */
  lemma {:induction false} UnavailableCompares(op: CompareOp, l: ValueExpr, r: ValueExpr, a: Assignments, re: Regex)
    requires EvalValue(l, a).None? || EvalValue(r, a).None?
    ensures !Eval(Compare(op, l, r), a, re)
  {
  }

  /** Equality is equality of kind and value; the four orders need two numbers or two texts. */
  lemma {:induction false} EqualityLaws(l: ValueExpr, r: ValueExpr, a: Assignments, re: Regex)
    requires EvalValue(l, a).Some? && EvalValue(r, a).Some?
    ensures Eval(Compare(Eq, l, r), a, re) <==> EvalValue(l, a) == EvalValue(r, a)
    ensures Eval(Compare(Ne, l, r), a, re) <==> EvalValue(l, a) != EvalValue(r, a)
    ensures !SameKind(EvalValue(l, a).value, EvalValue(r, a).value) ==>
              forall op | op in {Lt, Le, Gt, Ge} :: !Eval(Compare(op, l, r), a, re)
  {
  }

  /** Of two numbers or two texts exactly one of <, == and > holds, and <= and >= are what they say. */
  lemma {:induction false} OrderLaws(l: ValueExpr, r: ValueExpr, a: Assignments, re: Regex)
    requires EvalValue(l, a).Some? && EvalValue(r, a).Some? && SameKind(EvalValue(l, a).value, EvalValue(r, a).value)
    ensures var less, equal, greater :=
              Eval(Compare(Lt, l, r), a, re), Eval(Compare(Eq, l, r), a, re), Eval(Compare(Gt, l, r), a, re);
            && (less || equal || greater) && !(less && equal) && !(less && greater) && !(equal && greater)
            && (Eval(Compare(Le, l, r), a, re) <==> less || equal)
            && (Eval(Compare(Ge, l, r), a, re) <==> greater || equal)
  {
    hide Ordered;
    ValuesOrdered(EvalValue(l, a).value, EvalValue(r, a).value);
  }

  lemma {:induction false} ValuesOrdered(x: Value, y: Value)
    requires SameKind(x, y)
    ensures var less, equal, greater := Ordered(x, y, true), x == y, Ordered(y, x, true);
            && (less || equal || greater) && !(less && equal) && !(less && greater) && !(equal && greater)
            && (Ordered(x, y, false) <==> less || equal) && (Ordered(y, x, false) <==> greater || equal)
  {
    if x.Text? { TextTrichotomy(x.s, y.s); }
  }

  // ---------------------------------------------------------------- calculating

  /** Over numbers addition and subtraction undo each other. */
  lemma {:induction false} SumLaws(l: ValueExpr, r: ValueExpr, t: ValueExpr, a: Assignments, x: real, y: real, z: real)
    requires EvalValue(l, a) == Some(Number(x))
    requires EvalValue(r, a) == Some(Number(y)) && EvalValue(t, a) == Some(Number(z))
    ensures EvalValue(Arithmetic(Plus, l, Num(0.0)), a) == Some(Number(x))
    ensures EvalValue(Arithmetic(Plus, l, r), a) == EvalValue(Arithmetic(Plus, r, l), a)
    ensures EvalValue(Arithmetic(Plus, Arithmetic(Plus, l, r), t), a)
            == EvalValue(Arithmetic(Plus, l, Arithmetic(Plus, r, t)), a)
    ensures EvalValue(Arithmetic(Minus, Arithmetic(Plus, l, r), r), a) == Some(Number(x))
    ensures EvalValue(Arithmetic(Plus, Num(1.0), Num(1.0)), a) == Some(Number(2.0))
  {
  }

  /** Multiplication distributes, and division undoes it but for a zero divisor. */
  lemma {:induction false} ProductLaws(l: ValueExpr, r: ValueExpr, t: ValueExpr, a: Assignments, x: real, y: real,
                                       z: real)
    requires EvalValue(l, a) == Some(Number(x))
    requires EvalValue(r, a) == Some(Number(y)) && EvalValue(t, a) == Some(Number(z))
    ensures EvalValue(Arithmetic(Times, l, Num(1.0)), a) == Some(Number(x))
    ensures EvalValue(Arithmetic(Times, l, r), a) == EvalValue(Arithmetic(Times, r, l), a)
    ensures EvalValue(Arithmetic(Times, l, Arithmetic(Plus, r, t)), a)
            == EvalValue(Arithmetic(Plus, Arithmetic(Times, l, r), Arithmetic(Times, l, t)), a)
    ensures y != 0.0 ==> EvalValue(Arithmetic(Times, Arithmetic(Divide, l, r), r), a) == Some(Number(x))
    ensures EvalValue(Arithmetic(Divide, l, r), a).None? <==> y == 0.0
  {
    hide Apply, Product;
    var sum, lr, lt := Arithmetic(Plus, r, t), Arithmetic(Times, l, r), Arithmetic(Times, l, t);
    Applied(x, y);
    Applied(y, x);
    Applied(y, z);
    Applied(x, z);
    Applied(x, 1.0);
    Applied(x, y + z);
    Applied(Product(x, y), Product(x, z));
    Products(x, y, z);
    assert EvalValue(sum, a) == Some(Number(y + z));
    assert EvalValue(lr, a) == Some(Number(Product(x, y))) && EvalValue(lt, a) == Some(Number(Product(x, z)));
    if y != 0.0 {
      Applied(x / y, y);
      assert EvalValue(Arithmetic(Divide, l, r), a) == Some(Number(x / y));
      Divides(x, y);
    }
  }

  lemma {:induction false} Applied(x: real, y: real)
    ensures Apply(Plus, Number(x), Number(y)) == Some(Number(x + y))
    ensures Apply(Times, Number(x), Number(y)) == Some(Number(Product(x, y)))
    ensures Apply(Divide, Number(x), Number(y)) == if y == 0.0 then None else Some(Number(x / y))
  {
  }

  lemma {:induction false} Products(x: real, y: real, z: real)
    ensures Product(x, y + z) == Product(x, y) + Product(x, z) && Product(x, y) == Product(y, x) && Product(x, 1.0) == x
  {
    Distributes(x, y, z);
  }

  lemma {:induction false} Divides(x: real, y: real)
    requires y != 0.0
    ensures Product(x / y, y) == x
  {
  }

  lemma {:induction false} Distributes(x: real, y: real, z: real)
    ensures x * (y + z) == x * y + x * z
  {
  }

  /** Nothing but numbers can be calculated with. */
  lemma {:induction false} OnlyNumbersCalculate(op: ArithmeticOp, l: ValueExpr, r: ValueExpr, a: Assignments)
    ensures EvalValue(Arithmetic(op, l, r), a).Some? <==>
              && EvalValue(l, a).Some? && EvalValue(l, a).value.Number?
              && EvalValue(r, a).Some? && EvalValue(r, a).value.Number?
              && !(op == Divide && EvalValue(r, a).value == Number(0.0))
    ensures EvalValue(Arithmetic(op, l, r), a).Some? ==> EvalValue(Arithmetic(op, l, r), a).value.Number?
  {
  }

  // ---------------------------------------------------------------- reading inputs

  /** An input is read only when it is present with a value, and tested by its presence alone. */
  lemma {:induction false} InputLaws(id: NodeId, a: Assignments, v: Value, re: Regex)
    ensures EvalValue(Input(id), a[id := PresentWith(v)]) == Some(v)
    ensures EvalValue(Input(id), a[id := Present]) == EvalValue(Input(id), a[id := Absent])
              == EvalValue(Input(id), a - {id})
    ensures EvalValue(Input(id), a - {id}) == None
    ensures Eval(IsPresent(id), a[id := PresentWith(v)], re) && Eval(IsPresent(id), a[id := Present], re)
    ensures !Eval(IsPresent(id), a[id := Absent], re) && !Eval(IsPresent(id), a - {id}, re)
  {
  }

  // ---------------------------------------------------------------- combining

  ghost function TrueFrom(es: seq<BoolExpr>, k: nat, a: Assignments, re: Regex): set<nat> {
    set i: nat | k <= i < |es| && Eval(es[i], a, re)
  }

  /** The places that hold. */
  ghost function TrueAt(es: seq<BoolExpr>, a: Assignments, re: Regex): set<nat> {
    TrueFrom(es, 0, a, re)
  }

  /** Counting counts places. */
  lemma {:induction false} CountIsSize(es: seq<BoolExpr>, k: nat, a: Assignments, re: Regex)
    requires k <= |es|
    ensures CountTrue(es[k..], a, re) == |TrueFrom(es, k, a, re)|
    decreases |es| - k
  {
    hide Eval;
    if k < |es| {
      CountIsSize(es, k + 1, a, re);
      assert es[k..][1..] == es[k + 1..];
      if Eval(es[k], a, re) {
        assert TrueFrom(es, k, a, re) == TrueFrom(es, k + 1, a, re) + {k};
      } else {
        assert TrueFrom(es, k, a, re) == TrueFrom(es, k + 1, a, re);
      }
    } else {
      assert TrueFrom(es, k, a, re) == {};
    }
  }

  /** A cardinality holds when the number of places that hold is within its bounds; all and some are its extremes. */
  lemma {:induction false} CardinalityLaws(es: seq<BoolExpr>, lo: nat, hi: nat, a: Assignments, re: Regex)
    ensures Eval(Cardinality(es, lo, hi), a, re) <==> lo <= |TrueAt(es, a, re)| <= hi
    ensures Eval(And(es), a, re) <==> |TrueAt(es, a, re)| == |es|
    ensures Eval(Or(es), a, re) <==> |TrueAt(es, a, re)| > 0
  {
    hide TrueAt;
    CountIsSize(es, 0, a, re);
    assert es[0..] == es;
    AllPlaces(es, a, re);
    TrueAtIs(es, a, re);
  }

  lemma {:induction false} TrueAtIs(es: seq<BoolExpr>, a: Assignments, re: Regex)
    ensures TrueAt(es, a, re) == TrueFrom(es, 0, a, re)
  {
  }

  /** Negation and implication are those of propositional logic. */
  lemma {:induction false} LogicLaws(c: BoolExpr, q: BoolExpr, a: Assignments, re: Regex)
    ensures Eval(Not(c), a, re) <==> !Eval(And([c]), a, re)
    ensures Eval(Implies(c, q), a, re) <==> Eval(Or([Not(c), q]), a, re)
  {
    assert c in [c] && Not(c) in [Not(c), q] && q in [Not(c), q];
    assert Eval(Not(c), a, re) <==> !Eval(c, a, re);
  }

  lemma {:induction false} AllPlaces(es: seq<BoolExpr>, a: Assignments, re: Regex)
    ensures |TrueAt(es, a, re)| == |es| <==> forall x | x in es :: Eval(x, a, re)
    ensures |TrueAt(es, a, re)| > 0 <==> exists x | x in es :: Eval(x, a, re)
  {
    hide Eval;
    var places := TrueAt(es, a, re);
    assert places <= All(|es|);
    SubsetSize(places, All(|es|));
    if places == All(|es|) {
      forall x | x in es ensures Eval(x, a, re) {
        var i :| 0 <= i < |es| && es[i] == x;
        assert i in All(|es|);
      }
    } else {
      var i :| i in All(|es|) && i !in places;
      assert es[i] in es && !Eval(es[i], a, re);
    }
    if places != {} {
      var i :| i in places;
      assert es[i] in es;
    }
    if x :| x in es && Eval(x, a, re) {
      var i :| 0 <= i < |es| && es[i] == x;
      assert i in places;
    }
  }

  /** A constraint set holds when its conjunction does, and its verdict is that of the conjunction. */
  lemma {:induction false} SetIsConjunction(cs: seq<BoolExpr>, a: Assignments, re: Regex)
    ensures EvalSet(cs, a, re) <==> Eval(And(cs), a, re)
    ensures PartialEvalSet(cs, a, re) == PartialEval(And(cs), a, re)
  {
  }

  // ---------------------------------------------------------------- how much a partial evaluation decides

  /** The members that have a given verdict. */
  ghost function VerdictAt(es: seq<BoolExpr>, k: nat, a: Assignments, re: Regex, v: Verdict): set<nat> {
    set i: nat | k <= i < |es| && PartialEval(es[i], a, re) == v
  }

  lemma {:induction false} VerdictsCount(es: seq<BoolExpr>, k: nat, a: Assignments, re: Regex, v: Verdict)
    requires k <= |es|
    ensures CountVerdict(es[k..], a, re, v) == |VerdictAt(es, k, a, re, v)|
    decreases |es| - k
  {
    hide PartialEval;
    if k < |es| {
      VerdictsCount(es, k + 1, a, re, v);
      assert es[k..][0] == es[k] && es[k..][1..] == es[k + 1..];
      var rest := VerdictAt(es, k + 1, a, re, v);
      assert VerdictAt(es, k, a, re, v) == if PartialEval(es[k], a, re) == v then rest + {k} else rest;
    } else {
      assert VerdictAt(es, k, a, re, v) == {};
    }
  }

  ghost predicate Between(n: nat, lo: nat, hi: nat) {
    lo <= n <= hi
  }

  /** A cardinality is decided exactly when every number of members that may still come to hold agrees. */
  lemma {:induction false} CardinalityDecides(es: seq<BoolExpr>, lo: nat, hi: nat, a: Assignments, re: Regex)
    requires lo <= hi
    ensures var sure, most, verdict := |VerdictAt(es, 0, a, re, Holds)|,
                                       |VerdictAt(es, 0, a, re, Holds)| + |VerdictAt(es, 0, a, re, Unknown)|,
                                       PartialEval(Cardinality(es, lo, hi), a, re);
            && (verdict == Holds <==> forall n | Between(n, sure, most) :: Between(n, lo, hi))
            && (verdict == Fails <==> forall n | Between(n, sure, most) :: !Between(n, lo, hi))
  {
    hide VerdictAt;
    VerdictsCount(es, 0, a, re, Holds);
    VerdictsCount(es, 0, a, re, Unknown);
    assert es[0..] == es;
    var sure, open := |VerdictAt(es, 0, a, re, Holds)|, |VerdictAt(es, 0, a, re, Unknown)|;
    CountsAgree(sure, sure + open, lo, hi);
  }

  lemma {:induction false} CountsAgree(sure: nat, most: nat, lo: nat, hi: nat)
    requires lo <= hi && sure <= most
    ensures (forall n | Between(n, sure, most) :: Between(n, lo, hi)) <==> lo <= sure && most <= hi
    ensures (forall n | Between(n, sure, most) :: !Between(n, lo, hi)) <==> sure > hi || most < lo
  {
    assert Between(sure, sure, most) && Between(most, sure, most);
    if sure <= hi && most >= lo {
      var n := if sure < lo then lo else sure;
      assert Between(n, sure, most) && Between(n, lo, hi);
    }
  }

  /** One member can decide a conjunction or a disjunction. */
  lemma {:induction false} MembersDecide(es: seq<BoolExpr>, a: Assignments, re: Regex)
    ensures PartialEval(And(es), a, re) == Fails <==> VerdictAt(es, 0, a, re, Fails) != {}
    ensures PartialEval(And(es), a, re) == Holds <==> forall i: nat | i < |es| :: i in VerdictAt(es, 0, a, re, Holds)
    ensures PartialEval(Or(es), a, re) == Holds <==> VerdictAt(es, 0, a, re, Holds) != {}
    ensures PartialEval(Or(es), a, re) == Fails <==> forall i: nat | i < |es| :: i in VerdictAt(es, 0, a, re, Fails)
  {
    hide PartialEval, VerdictAt;
    AndDecides(es, a, re);
    OrDecides(es, a, re);
    VerdictsAre(es, a, re, Holds);
    VerdictsAre(es, a, re, Fails);
  }

  lemma {:induction false} AndDecides(es: seq<BoolExpr>, a: Assignments, re: Regex)
    ensures PartialEval(And(es), a, re) == Fails <==> exists x | x in es :: PartialEval(x, a, re) == Fails
    ensures PartialEval(And(es), a, re) == Holds <==> forall x | x in es :: PartialEval(x, a, re) == Holds
  {
  }

  lemma {:induction false} OrDecides(es: seq<BoolExpr>, a: Assignments, re: Regex)
    ensures PartialEval(Or(es), a, re) == Holds <==> exists x | x in es :: PartialEval(x, a, re) == Holds
    ensures PartialEval(Or(es), a, re) == Fails <==> forall x | x in es :: PartialEval(x, a, re) == Fails
  {
  }

  lemma {:induction false} VerdictsAre(es: seq<BoolExpr>, a: Assignments, re: Regex, v: Verdict)
    ensures (exists x | x in es :: PartialEval(x, a, re) == v) <==> VerdictAt(es, 0, a, re, v) != {}
    ensures (forall x | x in es :: PartialEval(x, a, re) == v)
       <==> forall i: nat | i < |es| :: i in VerdictAt(es, 0, a, re, v)
  {
    hide PartialEval, VerdictAt;
    forall x | x in es
      ensures exists i: nat | i < |es| ::
                es[i] == x && (i in VerdictAt(es, 0, a, re, v) <==> PartialEval(x, a, re) == v)
    {
      var i :| 0 <= i < |es| && es[i] == x;
      VerdictOf(es, i, a, re, v);
    }
    forall i: nat | i < |es|
      ensures es[i] in es && (i in VerdictAt(es, 0, a, re, v) <==> PartialEval(es[i], a, re) == v)
    {
      VerdictOf(es, i, a, re, v);
    }
    OnlyPlaces(es, a, re, v);
  }

  lemma {:induction false} VerdictOf(es: seq<BoolExpr>, i: nat, a: Assignments, re: Regex, v: Verdict)
    requires i < |es|
    ensures es[i] in es && (i in VerdictAt(es, 0, a, re, v) <==> PartialEval(es[i], a, re) == v)
  {
    hide PartialEval;
  }

  lemma {:induction false} OnlyPlaces(es: seq<BoolExpr>, a: Assignments, re: Regex, v: Verdict)
    ensures VerdictAt(es, 0, a, re, v) != {} <==> exists i: nat | i < |es| :: i in VerdictAt(es, 0, a, re, v)
  {
    hide PartialEval;
  }

  /** An implication is decided as the disjunction it stands for, a negation as what it negates. */
  lemma {:induction false} NegationsDecide(c: BoolExpr, q: BoolExpr, a: Assignments, re: Regex)
    ensures PartialEval(Implies(c, q), a, re) == PartialEval(Or([Not(c), q]), a, re)
    ensures PartialEval(Not(c), a, re) == Holds <==> PartialEval(c, a, re) == Fails
    ensures PartialEval(Not(c), a, re) == Fails <==> PartialEval(c, a, re) == Holds
  {
    OrDecides([Not(c), q], a, re);
    assert PartialEval(Not(c), a, re) == match PartialEval(c, a, re)
                                         case Holds => Fails case Fails => Holds case Unknown => Unknown;
    assert Not(c) in [Not(c), q] && q in [Not(c), q];
  }

  /** A comparison or a pattern is decided exactly when every input it reads is settled. */
  lemma {:induction false} LeavesDecide(e: ValueExpr, a: Assignments)
    ensures PartialEvalValue(e, a) == Unassigned <==> !(ValueRefs(e) <= a.Keys)
  {
    if e.Arithmetic? {
      LeavesDecide(e.left, a);
      LeavesDecide(e.right, a);
    }
  }
}
