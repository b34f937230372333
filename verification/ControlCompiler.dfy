/** The code made for an equation computes the equation. */
module ControlCompiler {
  import opened ControlModel

  /** A binary operator or NOT: a token that costs an operation. */
  predicate Costs(t: Token) {
    t.Operator? && t.code != DEO_LPAR && t.code != DEO_RPAR
  }

  function Cost(toks: seq<Token>): nat {
    if toks == [] then 0 else (if Costs(toks[0]) then 1 else 0) + Cost(toks[1..])
  }

  lemma {:induction false} CostAppend(a: seq<Token>, b: seq<Token>)
    ensures Cost(a + b) == Cost(a) + Cost(b)
    decreases |a|
  {
    if a == [] {
      assert a + b == b;
    } else {
      assert (a + b)[1..] == a[1..] + b;
      CostAppend(a[1..], b);
    }
  }

  lemma {:induction false} ValuesPrefix(ops: seq<Operation>, more: seq<Operation>, env: nat -> bool)
    requires ops <= more
    ensures Values(more, env)[..|ops|] == Values(ops, env)
    decreases |more|
  {
    hide Apply, Value;
    if |ops| < |more| {
      var n := |more| - 1;
      ValuesPrefix(ops, more[..n], env);
      assert Values(more, env)[..n] == Values(more[..n], env);
      assert Values(more, env)[..|ops|] == Values(more, env)[..n][..|ops|];
    } else {
      assert more == ops && Values(more, env)[..|ops|] == Values(more, env);
    }
  }

  /** A usable operand keeps its value when operations are added. */
  lemma ValueKept(x: Operand, ops: seq<Operation>, more: seq<Operation>, env: nat -> bool)
    requires ops <= more && Usable(x, |ops|)
    ensures Usable(x, |more|) && Value(x, Values(more, env), env) == Value(x, Values(ops, env), env)
  {
    ValuesPrefix(ops, more, env);
    if x.Temp? {
      assert Values(more, env)[..|ops|][x.num - 1] == Values(more, env)[x.num - 1];
    }
  }

  /** The result of a step is an operand with value `v`, found by `cost` more operations. */
  ghost predicate Holds(p: Parse, ops: seq<Operation>, env: nat -> bool, v: bool, cost: nat) {
    && p.r.Detp? && AllSound(p.ops) && ops <= p.ops && |p.ops| == |ops| + cost
    && Usable(p.r.dx, |p.ops|) && Value(p.r.dx, Values(p.ops, env), env) == v
    && (cost > 0 ==> p.r.dx == Temp(|p.ops|))
  }

  /** One more operation on usable operands. */
  lemma Stacked(rest: seq<Token>, ops: seq<Operation>, tos: Operand, nos: Operand, op: nat, env: nat -> bool)
    requires AllSound(ops) && Sound(Operation(tos, nos, op, |ops| + 1), |ops|)
    ensures Holds(Parse(Detp(Temp(|ops| + 1)), rest, Stack(ops, tos, nos, op)), ops, env,
                  Apply(op, Value(tos, Values(ops, env), env), Value(nos, Values(ops, env), env), false), 1)
  {
    hide Apply, Value, Values, AllSound, Sound;
    SoundMore(ops, Operation(tos, nos, op, |ops| + 1));
    ValuesMore(ops, Operation(tos, nos, op, |ops| + 1), env);
    LastTemp(Stack(ops, tos, nos, op), env);
  }

  lemma SoundMore(ops: seq<Operation>, o: Operation)
    requires AllSound(ops) && Sound(o, |ops|)
    ensures AllSound(ops + [o])
  {
  }

  lemma ValuesMore(ops: seq<Operation>, o: Operation, env: nat -> bool)
    ensures Values(ops + [o], env)
      == Values(ops, env)
        + [Apply(o.op, Value(o.tos, Values(ops, env), env), Value(o.nos, Values(ops, env), env), false)]
  {
    hide Apply, Value;
    assert (ops + [o])[..|ops|] == ops;
  }

  lemma LastTemp(ops: seq<Operation>, env: nat -> bool)
    requires ops != []
    ensures Value(Temp(|ops|), Values(ops, env), env) == Values(ops, env)[|ops| - 1]
  {
  }

  lemma StartOfFactor(f: FactorTree, rest: seq<Token>)
    ensures Next(FactorTokens(f) + rest) != DONE
    ensures Next(FactorTokens(f) + rest) == Op(DEO_NOT) <==> f.Not?
    ensures Next(FactorTokens(f) + rest) == Op(DEO_LPAR) <==> f.Paren?
  {
  }

  lemma StartOfExpr(e: ExprTree, rest: seq<Token>)
    ensures Next(ExprTokens(e) + rest) != DONE
    ensures Next(ExprTokens(e) + rest) == Op(DEO_NOT) <==> e.t.f.Not?
  {
    StartOfFactor(e.t.f, FactorsTokens(e.t.more) + TermsTokens(e.more) + rest);
    assert ExprTokens(e) + rest == FactorTokens(e.t.f) + (FactorsTokens(e.t.more) + TermsTokens(e.more) + rest);
  }

  /** A NOT on the result of a step. */
  lemma Negated(q: Parse, ops: seq<Operation>, env: nat -> bool, v: bool, cost: nat)
    requires Holds(q, ops, env, v, cost)
    ensures Holds(Parse(WithTemp(q.r, |q.ops| + 1), q.rest, Stack(q.ops, Dx(q.r), NIL, DEO_NOT)), ops, env, !v,
      cost + 1)
  {
    Stacked(q.rest, q.ops, q.r.dx, NIL, DEO_NOT, env);
  }

  /** A binary operation on a usable operand and the result of the next step. */
  lemma Joined(x: Operand, q: Parse, ops: seq<Operation>, env: nat -> bool, u: bool, v: bool, cost: nat, op: nat)
    requires AllSound(ops) && Usable(x, |ops|) && Value(x, Values(ops, env), env) == u && Holds(q, ops, env, v, cost)
    requires op == DEO_AND || op == DEO_OR || op == DEO_EOR
    ensures Holds(Parse(Detp(Temp(|q.ops| + 1)), q.rest, Stack(q.ops, x, q.r.dx, op)), ops, env,
      Apply(op, u, v, false), cost + 1)
  {
    ValueKept(x, ops, q.ops, env);
    Stacked(q.rest, q.ops, x, q.r.dx, op, env);
  }

  /** Two steps one after the other. */
  lemma Chained(q: Parse, p: Parse, ops: seq<Operation>, env: nat -> bool, v: bool, cost: nat, w: bool, more: nat)
    requires Holds(q, ops, env, v, cost) && Holds(p, q.ops, env, w, more) && (more == 0 ==> p.r == q.r)
    ensures Holds(p, ops, env, w, cost + more)
  {
  }

  lemma {:induction false} FactorCorrect(f: FactorTree, rest: seq<Token>, ops: seq<Operation>, env: nat -> bool)
    requires AllSound(ops)
    ensures var p := Factor(FactorTokens(f) + rest, ops);
      p.rest == rest && Holds(p, ops, env, FactorMeaning(f, env), Cost(FactorTokens(f)))
    decreases |FactorTokens(f)|, 0
  {
    hide Holds;
    var toks := FactorTokens(f) + rest;
    StartOfFactor(f, rest);
    match f
    case Var(id) =>
      assert toks[1..] == rest;
      JustFlag(id, rest, ops, env);
    case Not(g) =>
      assert toks[1..] == FactorTokens(g) + rest;
      FactorCorrect(g, rest, ops, env);
      Negated(Factor(FactorTokens(g) + rest, ops), ops, env, FactorMeaning(g, env), Cost(FactorTokens(g)));
      HoldsPointer(Factor(FactorTokens(g) + rest, ops), ops, env, FactorMeaning(g, env), Cost(FactorTokens(g)));
    case Paren(e) =>
      ParenCorrect(e, rest, ops, env);
  }

  lemma JustFlag(id: nat, rest: seq<Token>, ops: seq<Operation>, env: nat -> bool)
    requires AllSound(ops)
    ensures Holds(Parse(Detp(Pointer(id)), rest, ops), ops, env, env(id), 0) && Cost([Flag(id)]) == 0
  {
  }

  lemma HoldsPointer(p: Parse, ops: seq<Operation>, env: nat -> bool, v: bool, cost: nat)
    requires Holds(p, ops, env, v, cost)
    ensures p.r.Detp? && AllSound(p.ops) && Usable(p.r.dx, |p.ops|) && Value(p.r.dx, Values(p.ops, env), env) == v
  {
  }

  lemma {:induction false} ParenCorrect(e: ExprTree, rest: seq<Token>, ops: seq<Operation>, env: nat -> bool)
    requires AllSound(ops)
    ensures var p := Factor(FactorTokens(Paren(e)) + rest, ops);
      p.rest == rest && Holds(p, ops, env, FactorMeaning(Paren(e), env), Cost(FactorTokens(Paren(e))))
    decreases |ExprTokens(e)|, 5
  {
    hide Holds, Express, Stack, ExprTokens, ExprMeaning, Values, Value, AllSound, Cost;
    var close := [Operator(DEO_RPAR)];
    var toks := FactorTokens(Paren(e)) + rest;
    assert toks == [Operator(DEO_LPAR)] + (ExprTokens(e) + (close + rest));
    assert toks[1..] == ExprTokens(e) + (close + rest);
    StartOfExpr(e, close + rest);
    ParenCost(e);
    assert (close + rest)[1..] == rest;
    if e.t.f.Not? {
      var s := Strip(e);
      assert toks[1..][1..] == ExprTokens(s) + (close + rest);
      ExprCorrect(s, close + rest, ops, env);
      var q := Express(ExprTokens(s) + (close + rest), ops);
      HoldsPointer(q, ops, env, ExprMeaning(s, env), Cost(ExprTokens(s)));
      Negated(q, ops, env, ExprMeaning(s, env), Cost(ExprTokens(s)));
      assert Unary(toks[1..], ops, true)
        == Parse(WithTemp(q.r, |q.ops| + 1), q.rest, Stack(q.ops, Dx(q.r), NIL, DEO_NOT));
      Reparsed(Unary(toks[1..], ops, true), rest, ops, env, !ExprMeaning(s, env), Cost(ExprTokens(s)) + 1);
    } else {
      ExprCorrect(e, close + rest, ops, env);
      var q := Express(ExprTokens(e) + (close + rest), ops);
      HoldsPointer(q, ops, env, ExprMeaning(e, env), Cost(ExprTokens(e)));
      Reparsed(q, rest, ops, env, ExprMeaning(e, env), Cost(ExprTokens(e)));
    }
  }

  lemma Reparsed(q: Parse, rest: seq<Token>, ops: seq<Operation>, env: nat -> bool, v: bool, cost: nat)
    requires Holds(q, ops, env, v, cost)
    ensures Holds(Parse(q.r, rest, q.ops), ops, env, v, cost)
  {
  }

  lemma ParenCost(e: ExprTree)
    ensures Cost(FactorTokens(Paren(e))) == Cost(ExprTokens(e))
    ensures e.t.f.Not? ==> Cost(ExprTokens(e)) == 1 + Cost(ExprTokens(Strip(e)))
  {
    CostAppend([Operator(DEO_LPAR)] + ExprTokens(e), [Operator(DEO_RPAR)]);
    assert ([Operator(DEO_LPAR)] + ExprTokens(e))[1..] == ExprTokens(e);
    assert Cost([Operator(DEO_RPAR)]) == 0;
    if e.t.f.Not? {
      assert ([Operator(DEO_NOT)] + ExprTokens(Strip(e)))[1..] == ExprTokens(Strip(e));
    }
  }

  lemma LoopsEnd(x: Operand, rest: seq<Token>, ops: seq<Operation>, env: nat -> bool)
    requires AllSound(ops) && Usable(x, |ops|)
    ensures Holds(Parse(Detp(x), rest, ops), ops, env, Value(x, Values(ops, env), env), 0)
    ensures !MulOp(Next(rest)) ==> TermLoop(Detp(x), rest, ops) == Parse(Detp(x), rest, ops)
    ensures Next(rest) != Op(DEO_OR) ==> ExpressLoop(Detp(x), rest, ops) == Parse(Detp(x), rest, ops)
  {
    hide Values, Value;
  }

  lemma TermLoopJoins(x: Operand, toks: seq<Token>, ops: seq<Operation>)
    requires MulOp(Next(toks)) && Factor(toks[1..], ops).r.Detp?
    ensures var q := Factor(toks[1..], ops);
      TermLoop(Detp(x), toks, ops)
        == TermLoop(Detp(Temp(|q.ops| + 1)), q.rest, Stack(q.ops, x, q.r.dx, toks[0].code))
  {
    hide Factor, Stack;
  }

  lemma ExpressLoopJoins(x: Operand, toks: seq<Token>, ops: seq<Operation>)
    requires Next(toks) == Op(DEO_OR) && Term(toks[1..], ops).r.Detp?
    ensures var q := Term(toks[1..], ops);
      ExpressLoop(Detp(x), toks, ops)
        == ExpressLoop(Detp(Temp(|q.ops| + 1)), q.rest, Stack(q.ops, x, q.r.dx, DEO_OR))
  {
    hide Term, Stack;
  }

  /** The loop of a term, from a usable operand with value `u`. */
  lemma {:induction false} FactorsCorrect(x: Operand, m: FactorList, rest: seq<Token>, ops: seq<Operation>,
                                          env: nat -> bool, u: bool)
    requires AllSound(ops) && Usable(x, |ops|) && Value(x, Values(ops, env), env) == u && !MulOp(Next(rest))
    ensures var p := TermLoop(Detp(x), FactorsTokens(m) + rest, ops);
      && p.rest == rest && Holds(p, ops, env, FactorsMeaning(u, m, env), Cost(FactorsTokens(m)))
      && (Cost(FactorsTokens(m)) == 0 ==> p.r == Detp(x))
    decreases |FactorsTokens(m)|, 1
  {
    hide Holds, Factor, TermLoop, Stack, FactorTokens, FactorMeaning, Values, Value, AllSound;
    match m
    case NoFactors =>
      assert FactorsTokens(m) + rest == rest;
      LoopsEnd(x, rest, ops, env);
    case Factors(and_, f, more) =>
      var op := if and_ then DEO_AND else DEO_EOR;
      var toks := FactorsTokens(m) + rest;
      assert toks[1..] == FactorTokens(f) + (FactorsTokens(more) + rest);
      FactorCorrect(f, FactorsTokens(more) + rest, ops, env);
      var q := Factor(toks[1..], ops);
      var v, cost := FactorMeaning(f, env), Cost(FactorTokens(f));
      HoldsPointer(q, ops, env, v, cost);
      Joined(x, q, ops, env, u, v, cost, op);
      var j := Parse(Detp(Temp(|q.ops| + 1)), q.rest, Stack(q.ops, x, q.r.dx, op));
      TermLoopJoins(x, toks, ops);
      HoldsPointer(j, ops, env, Apply(op, u, v, false), cost + 1);
      FactorsCorrect(j.r.dx, more, rest, j.ops, env, Apply(op, u, v, false));
      Chained(j, TermLoop(j.r, j.rest, j.ops), ops, env, Apply(op, u, v, false), cost + 1,
              FactorsMeaning(Apply(op, u, v, false), more, env), Cost(FactorsTokens(more)));
      CostAppend([Operator(op)] + FactorTokens(f), FactorsTokens(more));
      assert ([Operator(op)] + FactorTokens(f))[1..] == FactorTokens(f);
  }

  lemma {:induction false} TermCorrect(t: TermTree, rest: seq<Token>, ops: seq<Operation>, env: nat -> bool)
    requires AllSound(ops) && !MulOp(Next(rest))
    ensures var p := Term(TermTokens(t) + rest, ops);
      p.rest == rest && Holds(p, ops, env, TermMeaning(t, env), Cost(TermTokens(t)))
    decreases |TermTokens(t)|, 2
  {
    hide Holds, Factor, TermLoop, FactorTokens, FactorsTokens, FactorMeaning, FactorsMeaning, Values, Value, AllSound;
    assert TermTokens(t) + rest == FactorTokens(t.f) + (FactorsTokens(t.more) + rest);
    FactorCorrect(t.f, FactorsTokens(t.more) + rest, ops, env);
    var q := Factor(TermTokens(t) + rest, ops);
    var u, cost := FactorMeaning(t.f, env), Cost(FactorTokens(t.f));
    HoldsPointer(q, ops, env, u, cost);
    FactorsCorrect(q.r.dx, t.more, rest, q.ops, env, u);
    Chained(q, TermLoop(q.r, q.rest, q.ops), ops, env, u, cost, TermMeaning(t, env), Cost(FactorsTokens(t.more)));
    CostAppend(FactorTokens(t.f), FactorsTokens(t.more));
  }

  /** The loop of an expression, from a usable operand with value `u`. */
  lemma {:induction false} TermsCorrect(x: Operand, m: TermList, rest: seq<Token>, ops: seq<Operation>,
                                        env: nat -> bool, u: bool)
    requires AllSound(ops) && Usable(x, |ops|) && Value(x, Values(ops, env), env) == u
    requires !MulOp(Next(rest)) && Next(rest) != Op(DEO_OR)
    ensures var p := ExpressLoop(Detp(x), TermsTokens(m) + rest, ops);
      && p.rest == rest && Holds(p, ops, env, u || TermsMeaning(m, env), Cost(TermsTokens(m)))
      && (Cost(TermsTokens(m)) == 0 ==> p.r == Detp(x))
    decreases |TermsTokens(m)|, 3
  {
    hide Holds, Term, ExpressLoop, Stack, TermTokens, TermMeaning, Values, Value, AllSound;
    match m
    case NoTerms =>
      assert TermsTokens(m) + rest == rest;
      LoopsEnd(x, rest, ops, env);
    case Terms(t, more) =>
      var toks := TermsTokens(m) + rest;
      assert toks[1..] == TermTokens(t) + (TermsTokens(more) + rest);
      assert !MulOp(Next(TermsTokens(more) + rest)) by {
        if more == NoTerms {
          assert TermsTokens(more) + rest == rest;
        }
      }
      TermCorrect(t, TermsTokens(more) + rest, ops, env);
      var q := Term(toks[1..], ops);
      var v, cost := TermMeaning(t, env), Cost(TermTokens(t));
      HoldsPointer(q, ops, env, v, cost);
      Joined(x, q, ops, env, u, v, cost, DEO_OR);
      var j := Parse(Detp(Temp(|q.ops| + 1)), q.rest, Stack(q.ops, x, q.r.dx, DEO_OR));
      ExpressLoopJoins(x, toks, ops);
      HoldsPointer(j, ops, env, u || v, cost + 1);
      TermsCorrect(j.r.dx, more, rest, j.ops, env, u || v);
      Chained(j, ExpressLoop(j.r, j.rest, j.ops), ops, env, u || v, cost + 1, u || v || TermsMeaning(more, env),
        Cost(TermsTokens(more)));
      CostAppend([Operator(DEO_OR)] + TermTokens(t), TermsTokens(more));
      assert ([Operator(DEO_OR)] + TermTokens(t))[1..] == TermTokens(t);
  }

  lemma {:induction false} ExprCorrect(e: ExprTree, rest: seq<Token>, ops: seq<Operation>, env: nat -> bool)
    requires AllSound(ops) && !MulOp(Next(rest)) && Next(rest) != Op(DEO_OR)
    ensures var p := Express(ExprTokens(e) + rest, ops);
      p.rest == rest && Holds(p, ops, env, ExprMeaning(e, env), Cost(ExprTokens(e)))
    decreases |ExprTokens(e)|, 4
  {
    hide Holds, Term, ExpressLoop, TermTokens, TermMeaning, TermsMeaning, Values, Value, AllSound;
    assert ExprTokens(e) + rest == TermTokens(e.t) + (TermsTokens(e.more) + rest);
    assert !MulOp(Next(TermsTokens(e.more) + rest)) by {
      if e.more == NoTerms {
        assert TermsTokens(e.more) + rest == rest;
      }
    }
    TermCorrect(e.t, TermsTokens(e.more) + rest, ops, env);
    var q := Term(ExprTokens(e) + rest, ops);
    var u, cost := TermMeaning(e.t, env), Cost(TermTokens(e.t));
    HoldsPointer(q, ops, env, u, cost);
    TermsCorrect(q.r.dx, e.more, rest, q.ops, env, u);
    Chained(q, ExpressLoop(q.r, q.rest, q.ops), ops, env, u, cost, u || TermsMeaning(e.more, env),
      Cost(TermsTokens(e.more)));
    CostAppend(TermTokens(e.t), TermsTokens(e.more));
  }

  /** The code for an equation: every operation reads only what is set, the last one has the
      value of the equation, and there is one for each operator of the equation. */
  lemma ExpandCorrect(e: ExprTree, env: nat -> bool)
    ensures var ops := Expand(ExprTokens(e));
      && AllSound(ops) && ops != [] && Values(ops, env)[|ops| - 1] == ExprMeaning(e, env)
      && |ops| == if Cost(ExprTokens(e)) == 0 then 1 else Cost(ExprTokens(e))
  {
    assert ExprTokens(e) + [] == ExprTokens(e);
    ExprCorrect(e, [], [], env);
    var p := Express(ExprTokens(e), []);
    if p.ops == [] {
      Stacked([], [], p.r.dx, NIL, DEO_DONE, env);
    }
  }
}
