/** The parser of control-detector equations, which stacks operations as it goes, and the
    evaluator that runs them. */
module ControlDetector {
  import opened ControlModel
  import opened ControlCompiler
  import opened Options

  class Expander {
    const tokenList: seq<Token>
    // the current token, or -1 before the first one and after the last one
    var pop: int
    var nextoke: Ret
    var tempcnt: nat
    var pdetop: seq<Operation>
    ghost var at: int

    constructor (tokens: seq<Token>)
      ensures Unstarted() && tokenList == tokens && pdetop == []
    {
      tokenList, pop, nextoke, tempcnt, pdetop, at := tokens, -1, DONE, 0, [], -1;
    }

    ghost predicate Unstarted()
      reads this
    {
      at == -1 && pop == -1 && tempcnt == |pdetop|
    }

    ghost predicate Valid()
      reads this
    {
      && 0 <= at <= |tokenList| && pop == (if at < |tokenList| then at else -1)
      && nextoke == Next(tokenList[at..]) && tempcnt == |pdetop|
    }

    /** The tokens from the current one on. */
    ghost function Rest(): seq<Token>
      reads this
      requires 0 <= at <= |tokenList|
    {
      tokenList[at..]
    }

    /** Makes the next token current.  A call behind the last token would start over: none of
        the callers makes one. */
    method GetToken()
      requires Unstarted() || (Valid() && nextoke != DONE)
      modifies this`pop, this`nextoke, this`at
      ensures Valid() && at == old(at) + 1
      ensures old(at) >= 0 ==> Rest() == old(Rest())[1..]
    {
      at := at + 1;
      if pop == -1 {
        pop := 0;
      } else {
        pop := pop + 1;
      }
      if pop >= |tokenList| {
        pop := -1;
        nextoke := DONE;
        return;
      }
      nextoke := if tokenList[pop].Flag? then Detp(Pointer(tokenList[pop].id)) else Op(tokenList[pop].code);
    }

    method StackDetOp(tos: Operand, nos: Operand, op: nat)
      requires tempcnt == |pdetop|
      modifies this`tempcnt, this`pdetop
      ensures tempcnt == |pdetop| && pdetop == Stack(old(pdetop), tos, nos, op)
    {
      tempcnt := tempcnt + 1;
      pdetop := pdetop + [Operation(tos, nos, op, tempcnt)];
    }

    /** The parser is where the step `p` of the specification ends. */
    ghost predicate Reached(p: Parse)
      reads this
    {
      Valid() && Rest() == p.rest && pdetop == p.ops
    }

    method ParseUnary(forcex: bool) returns (uno: Ret)
      requires Valid()
      modifies this
      ensures Reached(old(Unary(Rest(), pdetop, forcex))) && uno == old(Unary(Rest(), pdetop, forcex)).r
      decreases |Rest()|, if forcex then 6 else 0
    {
      hide Express, Factor;
      uno := nextoke;
      if uno == DONE {
        return;
      }
      if nextoke == Op(DEO_NOT) {
        GetToken();
        if forcex {
          uno := ParseExpress();
        } else {
          uno := ParseFactor();
        }
        if uno != DONE {
          StackDetOp(Dx(uno), NIL, DEO_NOT);
          uno := WithTemp(uno, tempcnt);
        }
      } else if forcex {
        uno := ParseExpress();
      } else {
        GetToken();
      }
    }

    method ParseFactor() returns (fac: Ret)
      requires Valid()
      modifies this
      ensures Reached(old(Factor(Rest(), pdetop))) && fac == old(Factor(Rest(), pdetop)).r
      decreases |Rest()|, 1
    {
      hide Unary;
      fac := nextoke;
      if fac == DONE {
        return;
      }
      if nextoke == Op(DEO_LPAR) {
        GetToken();
        fac := ParseUnary(true);
        if fac == DONE {
          return;
        }
        if nextoke == Op(DEO_RPAR) {
          GetToken();
        } else {
          fac := DONE;
        }
      } else if nextoke != DONE {
        fac := ParseUnary(false);
      }
    }

    method ParseTerm() returns (ter: Ret)
      requires Valid()
      modifies this
      ensures Reached(old(Term(Rest(), pdetop))) && ter == old(Term(Rest(), pdetop)).r
      decreases |Rest()|, 3
    {
      hide Factor;
      ghost var goal := Term(Rest(), pdetop);
      ter := ParseFactor();
      if ter == DONE {
        return;
      }
      while MulOp(nextoke)
        invariant Valid() && TermLoop(ter, Rest(), pdetop) == goal && |Rest()| <= |old(Rest())|
        decreases |Rest()|
      {
        var mulop := nextoke.o;
        GetToken();
        var nfac := ParseFactor();
        if nfac != DONE {
          if nfac.Detp? && ter.Detp? {
            StackDetOp(ter.dx, nfac.dx, mulop);
            ter := Detp(Temp(tempcnt));
          } else {
            ter := DONE;
          }
        }
      }
    }

    method ParseExpress() returns (expr: Ret)
      requires Valid()
      modifies this
      ensures Reached(old(Express(Rest(), pdetop))) && expr == old(Express(Rest(), pdetop)).r
      decreases |Rest()|, 5
    {
      hide Term;
      ghost var goal := Express(Rest(), pdetop);
      expr := ParseTerm();
      if expr.Detp? {
        while nextoke == Op(DEO_OR)
          invariant Valid() && ExpressLoop(expr, Rest(), pdetop) == goal && |Rest()| <= |old(Rest())|
          decreases |Rest()|
        {
          GetToken();
          var nter := ParseTerm();
          if expr.Detp? && nter.Detp? {
            StackDetOp(expr.dx, nter.dx, DEO_OR);
            expr := Detp(Temp(tempcnt));
          }
        }
      }
    }

    /** Makes the operations of an equation.  This ends for every list of tokens. */
    method ExpandEquation()
      requires Unstarted() && pdetop == []
      modifies this
      ensures pdetop == Expand(tokenList)
    {
      hide Express;
      GetToken();
      assert Rest() == tokenList;
      var result := ParseExpress();
      if pdetop == [] {
        StackDetOp(Dx(result), NIL, DEO_DONE);
      }
    }
  }

  /** What running the operations gives: nothing once they need a temporary too many. */
  function Outcome(ops: seq<Operation>, env: nat -> bool): Option<bool>
    requires ops != []
  {
    if |ops| <= EVALUATION_STACK_DEPTH then Some(Values(ops, env)[|ops| - 1]) else None
  }

  /** One operand, read from its flag or from the temporaries. */
  method ReadOperand(x: Operand, temps: array<bool>, env: nat -> bool) returns (b: bool)
    requires temps.Length == EVALUATION_STACK_DEPTH && (x.Temp? ==> x.num < EVALUATION_STACK_DEPTH)
    ensures b == match x case Pointer(id) => env(id) case Temp(n) => temps[n] case Wild => false
  {
    b := match x case Pointer(id) => env(id) case Temp(n) => temps[n] case Wild => false;
  }

  /** Runs the operations on an array of temporaries that may hold anything at first.  Going
      outside the array, which the source does unchecked, ends the run with nothing. */
  method Evaluate(pdetop: seq<Operation>, temps: array<bool>, env: nat -> bool) returns (ison: Option<bool>)
    requires AllSound(pdetop) && pdetop != [] && temps.Length == EVALUATION_STACK_DEPTH
    modifies temps
    ensures ison == Outcome(pdetop, env)
  {
    hide Apply, Values;
    var pop, b3 := 0, false;
    ison := None;
    while pop < |pdetop|
      invariant pop <= |pdetop| && pop <= EVALUATION_STACK_DEPTH
      invariant pop < |pdetop| ==> pop < EVALUATION_STACK_DEPTH && ison == None
      invariant forall k | 0 <= k < pop && k + 1 < |pdetop| :: temps[k + 1] == Values(pdetop, env)[k]
      invariant pop == |pdetop| ==> ison == Outcome(pdetop, env)
    {
      var o := pdetop[pop];
      assert Sound(o, pop);
      ValueAt(pdetop, pop, env);
      var b1 := ReadOperand(o.tos, temps, env);
      var b2 := ReadOperand(o.nos, temps, env);
      OperandValue(o.tos, pdetop, pop, env);
      if o.nos != NIL {
        OperandValue(o.nos, pdetop, pop, env);
      }
      ApplyUnary(o.op, b1, b2, Value(o.nos, Values(pdetop[..pop], env), env));
      b3 := Apply(o.op, b1, b2, b3);
      if pop + 1 == |pdetop| {
        ison := Some(b3);
      } else if o.num >= EVALUATION_STACK_DEPTH {
        return None;
      } else {
        temps[o.num] := b3;
      }
      pop := pop + 1;
    }
  }

  /** An operation without a second operand, and one of the known codes. */
  lemma ApplyUnary(op: nat, b1: bool, b2: bool, c2: bool)
    ensures op == DEO_NOT || op == DEO_DONE ==> forall b3 :: Apply(op, b1, b2, b3) == Apply(op, b1, c2, false)
    ensures op == DEO_AND || op == DEO_OR || op == DEO_EOR ==>
      forall b3 :: Apply(op, b1, c2, b3) == Apply(op, b1, c2, false)
  {
  }

  lemma ValueAt(ops: seq<Operation>, k: nat, env: nat -> bool)
    requires k < |ops|
    ensures Values(ops, env)[k] == Apply(ops[k].op, Value(ops[k].tos, Values(ops[..k], env), env),
                                         Value(ops[k].nos, Values(ops[..k], env), env), false)
  {
    hide Apply, Value;
    ValuesPrefix(ops[..k + 1], ops, env);
    assert ops[..k + 1][..k] == ops[..k];
    assert Values(ops, env)[k] == Values(ops, env)[..k + 1][k];
  }

  lemma OperandValue(x: Operand, ops: seq<Operation>, k: nat, env: nat -> bool)
    requires k < |ops| && Usable(x, k)
    ensures Value(x, Values(ops[..k], env), env)
      == match x case Pointer(id) => env(id) case Temp(n) => Values(ops, env)[n - 1] case Wild => false
  {
    ValuesPrefix(ops[..k], ops, env);
    if x.Temp? {
      assert Values(ops, env)[..k][x.num - 1] == Values(ops, env)[x.num - 1];
    }
  }

  /** The evaluator gives the value of an equation exactly when the equation has at most fifty
      operators. */
  lemma EquationOutcome(e: ExprTree, env: nat -> bool)
    ensures Expand(ExprTokens(e)) != []
    ensures Outcome(Expand(ExprTokens(e)), env)
      == if Cost(ExprTokens(e)) <= EVALUATION_STACK_DEPTH then Some(ExprMeaning(e, env)) else None
  {
    ExpandCorrect(e, env);
  }

  function NotAnd(a: nat, b: nat): ExprTree {
    ExprTree(TermTree(Not(Var(a)), Factors(true, Var(b), NoFactors)), NoTerms)
  }

  lemma NotAndTokens(a: nat, b: nat)
    ensures ExprTokens(NotAnd(a, b)) == [Operator(DEO_NOT), Flag(a), Operator(DEO_AND), Flag(b)]
    ensures Cost(ExprTokens(NotAnd(a, b))) == 2
  {
    var ts := [Operator(DEO_NOT), Flag(a), Operator(DEO_AND), Flag(b)];
    assert FactorsTokens(NoFactors) == [] && TermsTokens(NoTerms) == [];
    assert FactorTokens(Not(Var(a))) == [Operator(DEO_NOT), Flag(a)];
    assert FactorsTokens(Factors(true, Var(b), NoFactors)) == [Operator(DEO_AND), Flag(b)];
    assert ts[1..][1..] == [Operator(DEO_AND), Flag(b)] && ts[1..][1..][1..] == [Flag(b)];
    assert Cost([Flag(b)]) == 0;
    assert Cost(ts[1..][1..]) == 1;
  }

  lemma NotAndMeaning(a: nat, b: nat, env: nat -> bool)
    ensures ExprMeaning(NotAnd(a, b), env) == (!env(a) && env(b))
    ensures FactorMeaning(Paren(NotAnd(a, b)), env) == !(env(a) && env(b))
  {
    var m := Factors(true, Var(b), NoFactors);
    assert FactorMeaning(Not(Var(a)), env) == !env(a);
    assert FactorsMeaning(!env(a), m, env) == (!env(a) && env(b));
    assert FactorsMeaning(env(a), m, env) == (env(a) && env(b));
    assert TermsMeaning(NoTerms, env) == false;
    assert TermMeaning(TermTree(Var(a), m), env) == (env(a) && env(b));
  }

  /** `( NOT a AND b )` is taken as the negation of both, while `NOT a AND b` negates `a`. */
  lemma NotBehindParenthesis(a: nat, b: nat, env: nat -> bool)
    ensures var inner := [Operator(DEO_NOT), Flag(a), Operator(DEO_AND), Flag(b)];
      && Outcome(Expand(inner), env) == Some(!env(a) && env(b))
      && Outcome(Expand([Operator(DEO_LPAR)] + inner + [Operator(DEO_RPAR)]), env) == Some(!(env(a) && env(b)))
  {
    hide Expand, Outcome, ExprTokens, Cost, FactorMeaning, ExprMeaning;
    var e := NotAnd(a, b);
    NotAndTokens(a, b);
    NotAndMeaning(a, b, env);
    EquationOutcome(e, env);
    JustFactor(Paren(e), env);
    ParenCost(e);
    EquationOutcome(ExprTree(TermTree(Paren(e), NoFactors), NoTerms), env);
  }

  lemma JustFactor(f: FactorTree, env: nat -> bool)
    ensures var e := ExprTree(TermTree(f, NoFactors), NoTerms);
      ExprTokens(e) == FactorTokens(f) && ExprMeaning(e, env) == FactorMeaning(f, env)
  {
    hide FactorTokens, FactorMeaning;
    assert FactorsTokens(NoFactors) == [] && TermsTokens(NoTerms) == [];
    assert TermTokens(TermTree(f, NoFactors)) == FactorTokens(f);
    assert TermsMeaning(NoTerms, env) == false;
    assert TermMeaning(TermTree(f, NoFactors), env) == FactorMeaning(f, env);
  }
}
