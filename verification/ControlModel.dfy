/** Control-detector equations: their tokens, the code made for them, and what both mean. */
module ControlModel {
  const DEO_LPAR: nat := 0
  const DEO_RPAR: nat := 1
  const DEO_NOT: nat := 2
  const DEO_AND: nat := 3
  const DEO_OR: nat := 4
  const DEO_EOR: nat := 5
  const DEO_DONE: nat := 63
  const EVALUATION_STACK_DEPTH: nat := 50

  /** A flag (of a detector, a calibration or a comm event), or an operator code. */
  datatype Token = Flag(id: nat) | Operator(code: nat)

  /** Where an operation finds an operand: a flag, or a temporary by number; 0 is no operand.
      `Wild` is what a token that is no flag leaves in the pointer of its union. */
  datatype Operand = Pointer(id: nat) | Temp(num: nat) | Wild

  datatype Operation = Operation(tos: Operand, nos: Operand, op: nat, num: nat)

  /** The result of a parsing step: a union of a pointer and an operator code. */
  datatype Ret = Detp(dx: Operand) | Op(o: nat)

  const DONE: Ret := Op(DEO_DONE)
  const NIL: Operand := Temp(0)

  /** A parsing step: its result, the tokens left and the operations so far. */
  datatype Parse = Parse(r: Ret, rest: seq<Token>, ops: seq<Operation>)

  function Next(toks: seq<Token>): Ret {
    if toks == [] then DONE else if toks[0].Flag? then Detp(Pointer(toks[0].id)) else Op(toks[0].code)
  }

  /** The pointer of the union. */
  function Dx(r: Ret): Operand {
    if r.Detp? then r.dx else Wild
  }

  /** The union with a temporary's number stored as its pointer. */
  function WithTemp(r: Ret, num: nat): Ret {
    if r.Detp? then Detp(Temp(num)) else Op(num % 256)
  }

  function Stack(ops: seq<Operation>, tos: Operand, nos: Operand, op: nat): seq<Operation> {
    ops + [Operation(tos, nos, op, |ops| + 1)]
  }

  function Unary(toks: seq<Token>, ops: seq<Operation>, forcex: bool): (p: Parse)
    ensures |p.rest| <= |toks| && ops <= p.ops
    decreases |toks|, if forcex then 6 else 0
  {
    if Next(toks) == DONE then Parse(DONE, toks, ops)
    else if Next(toks) == Op(DEO_NOT) then
      var p := if forcex then Express(toks[1..], ops) else Factor(toks[1..], ops);
      if p.r == DONE then p
      else Parse(WithTemp(p.r, |p.ops| + 1), p.rest, Stack(p.ops, Dx(p.r), NIL, DEO_NOT))
    else if forcex then Express(toks, ops)
    else Parse(Next(toks), toks[1..], ops)
  }

  function Factor(toks: seq<Token>, ops: seq<Operation>): (p: Parse)
    ensures |p.rest| <= |toks| && ops <= p.ops
    decreases |toks|, 1
  {
    if Next(toks) == DONE then Parse(DONE, toks, ops)
    else if Next(toks) == Op(DEO_LPAR) then
      var p := Unary(toks[1..], ops, true);
      if p.r == DONE then p
      else if Next(p.rest) == Op(DEO_RPAR) then Parse(p.r, p.rest[1..], p.ops)
      else Parse(DONE, p.rest, p.ops)
    else Unary(toks, ops, false)
  }

  predicate MulOp(r: Ret) {
    r == Op(DEO_AND) || r == Op(DEO_EOR)
  }

  function TermLoop(ter: Ret, toks: seq<Token>, ops: seq<Operation>): (p: Parse)
    ensures |p.rest| <= |toks| && ops <= p.ops
    decreases |toks|, 2
  {
    if !MulOp(Next(toks)) then Parse(ter, toks, ops)
    else
      var p := Factor(toks[1..], ops);
      if p.r == DONE then TermLoop(ter, p.rest, p.ops)
      else if p.r.Detp? && ter.Detp? then
        TermLoop(Detp(Temp(|p.ops| + 1)), p.rest, Stack(p.ops, ter.dx, p.r.dx, toks[0].code))
      else TermLoop(DONE, p.rest, p.ops)
  }

  function Term(toks: seq<Token>, ops: seq<Operation>): (p: Parse)
    ensures |p.rest| <= |toks| && ops <= p.ops
    decreases |toks|, 3
  {
    var p := Factor(toks, ops);
    if p.r == DONE then p else TermLoop(p.r, p.rest, p.ops)
  }

  function ExpressLoop(expr: Ret, toks: seq<Token>, ops: seq<Operation>): (p: Parse)
    ensures |p.rest| <= |toks| && ops <= p.ops
    decreases |toks|, 4
  {
    if Next(toks) != Op(DEO_OR) then Parse(expr, toks, ops)
    else
      var p := Term(toks[1..], ops);
      if expr.Detp? && p.r.Detp? then
        ExpressLoop(Detp(Temp(|p.ops| + 1)), p.rest, Stack(p.ops, expr.dx, p.r.dx, DEO_OR))
      else ExpressLoop(expr, p.rest, p.ops)
  }

  function Express(toks: seq<Token>, ops: seq<Operation>): (p: Parse)
    ensures |p.rest| <= |toks| && ops <= p.ops
    decreases |toks|, 5
  {
    var p := Term(toks, ops);
    if p.r.Detp? then ExpressLoop(p.r, p.rest, p.ops) else p
  }

  /** The operations for an equation. */
  function Expand(toks: seq<Token>): seq<Operation> {
    var p := Express(toks, []);
    if p.ops == [] then Stack([], Dx(p.r), NIL, DEO_DONE) else p.ops
  }

  // ----- equations

  datatype FactorTree = Var(id: nat) | Not(f: FactorTree) | Paren(e: ExprTree)
  datatype FactorList = NoFactors | Factors(and_: bool, f: FactorTree, more: FactorList)
  datatype TermTree = TermTree(f: FactorTree, more: FactorList)
  datatype TermList = NoTerms | Terms(t: TermTree, more: TermList)
  datatype ExprTree = ExprTree(t: TermTree, more: TermList)

  function FactorTokens(f: FactorTree): (ts: seq<Token>)
    ensures ts != []
  {
    match f
    case Var(id) => [Flag(id)]
    case Not(g) => [Operator(DEO_NOT)] + FactorTokens(g)
    case Paren(e) => [Operator(DEO_LPAR)] + ExprTokens(e) + [Operator(DEO_RPAR)]
  }

  function FactorsTokens(m: FactorList): seq<Token> {
    match m
    case NoFactors => []
    case Factors(and_, f, more) =>
      [Operator(if and_ then DEO_AND else DEO_EOR)] + FactorTokens(f) + FactorsTokens(more)
  }

  function TermTokens(t: TermTree): (ts: seq<Token>)
    ensures ts != []
  {
    FactorTokens(t.f) + FactorsTokens(t.more)
  }

  function TermsTokens(m: TermList): seq<Token> {
    match m
    case NoTerms => []
    case Terms(t, more) => [Operator(DEO_OR)] + TermTokens(t) + TermsTokens(more)
  }

  function ExprTokens(e: ExprTree): (ts: seq<Token>)
    ensures ts != []
  {
    TermTokens(e.t) + TermsTokens(e.more)
  }

  /** The equation without the NOT it starts with. */
  function Strip(e: ExprTree): (s: ExprTree)
    requires e.t.f.Not?
    ensures ExprTokens(e) == [Operator(DEO_NOT)] + ExprTokens(s)
  {
    var s := ExprTree(TermTree(e.t.f.f, e.t.more), e.more);
    assert TermTokens(e.t) == [Operator(DEO_NOT)] + TermTokens(s.t);
    s
  }

  /** What an equation means under the values of its flags.  A NOT right behind a left
      parenthesis negates all that is in the parentheses; any other NOT, the next factor.
      AND and EOR group from the left, before OR. */
  function FactorMeaning(f: FactorTree, env: nat -> bool): bool
    decreases |FactorTokens(f)|, 0
  {
    match f
    case Var(id) => env(id)
    case Not(g) => !FactorMeaning(g, env)
    case Paren(e) => if e.t.f.Not? then !ExprMeaning(Strip(e), env) else ExprMeaning(e, env)
  }

  function FactorsMeaning(left: bool, m: FactorList, env: nat -> bool): bool
    decreases |FactorsTokens(m)|, 1
  {
    match m
    case NoFactors => left
    case Factors(and_, f, more) =>
      var right := FactorMeaning(f, env);
      FactorsMeaning(if and_ then left && right else left != right, more, env)
  }

  function TermMeaning(t: TermTree, env: nat -> bool): bool
    decreases |TermTokens(t)|, 2
  {
    FactorsMeaning(FactorMeaning(t.f, env), t.more, env)
  }

  function TermsMeaning(m: TermList, env: nat -> bool): bool
    decreases |TermsTokens(m)|, 3
  {
    match m
    case NoTerms => false
    case Terms(t, more) => TermMeaning(t, env) || TermsMeaning(more, env)
  }

  function ExprMeaning(e: ExprTree, env: nat -> bool): bool
    decreases |ExprTokens(e)|, 4
  {
    TermMeaning(e.t, env) || TermsMeaning(e.more, env)
  }

  // ----- operations

  function Value(x: Operand, vals: seq<bool>, env: nat -> bool): bool {
    match x
    case Pointer(id) => env(id)
    case Temp(n) => 1 <= n <= |vals| && vals[n - 1]
    case Wild => false
  }

  /** One operation on its operands. */
  function Apply(op: nat, b1: bool, b2: bool, b3: bool): bool {
    if op == DEO_DONE then b1
    else if op == DEO_AND then b1 && b2
    else if op == DEO_OR then b1 || b2
    else if op == DEO_EOR then b1 != b2
    else if op == DEO_NOT then !b1
    else b3
  }

  /** The value of each operation, from the flags and the values of those before it. */
  function Values(ops: seq<Operation>, env: nat -> bool): (vals: seq<bool>)
    ensures |vals| == |ops|
  {
    if ops == [] then []
    else
      var last := ops[|ops| - 1];
      var vals := Values(ops[..|ops| - 1], env);
      vals + [Apply(last.op, Value(last.tos, vals, env), Value(last.nos, vals, env), false)]
  }

  /** An operand that is a flag or one of the first `n` temporaries. */
  predicate Usable(x: Operand, n: nat) {
    match x
    case Pointer(_) => true
    case Temp(k) => 1 <= k <= n
    case Wild => false
  }

  /** Operation `k` sets temporary `k + 1` and reads only flags and temporaries set before. */
  predicate Sound(o: Operation, k: nat) {
    && o.num == k + 1 && Usable(o.tos, k) && (o.nos == NIL || Usable(o.nos, k))
    && (if o.op == DEO_NOT || o.op == DEO_DONE then true
        else (o.op == DEO_AND || o.op == DEO_OR || o.op == DEO_EOR) && Usable(o.nos, k))
  }

  ghost predicate AllSound(ops: seq<Operation>) {
    forall k | 0 <= k < |ops| :: Sound(ops[k], k)
  }
}
