/**
 * The question source (question_manager.py): arithmetic prompts generated per
 * difficulty tier for the "matematik" category, and for every other category
 * a lookup in static prompt -> answer pools with a fallback to easier tiers.
 *
 * Random draws are parameters: `MathDraw` carries every value the generator
 * may draw, `ValidDraw` states the ranges `random.randint` and
 * `random.random` give them, and the pick from a pool is any key
 * (`random.choice`). Python's `eval` is replaced by direct arithmetic; the
 * reference evaluator `Expr.Evaluate` of the prompt text is its partner.
 */
module Questions {
  import opened Common
  import opened Decimal
  import opened Expr

  const MATH := "matematik"
  const EASY := "kolay"
  const MEDIUM := "orta"
  const HARD := "zor"

  /** A (question, answer) pair as `get_question` returns it. */
  datatype QA = QA(prompt: string, answer: string)

  datatype Op = Plus | Minus | Times

  function OpText(op: Op): (t: string)
    ensures t in {"+", "-", "*"}
  {
    match op
    case Plus => "+"
    case Minus => "-"
    case Times => "*"
  }

  function Apply(op: Op, x: int, y: int): int
  {
    match op
    case Plus => x + y
    case Minus => x - y
    case Times => x * y
  }

  /**
   * Everything the generator may draw. `op1` is the easy operator or the first
   * mixed operator, `op2` the second; `roll` is `random.random()` of the
   * medium tier; `mixed` is the hard tier's choice between "mixed" and "mod";
   * `a`, `b`, `c` are the `randint` draws in order (in the division case `b`
   * is the divisor and `c` the quotient).
   */
  datatype MathDraw = MathDraw(op1: Op, op2: Op, roll: real, mixed: bool, a: int, b: int, c: int)

  /** The ranges the draws of each tier come from. */
  predicate ValidDraw(difficulty: string, d: MathDraw)
  {
    if difficulty == EASY then
      d.op1 != Times && 0 <= d.a <= 20 && 0 <= d.b <= 20
    else if difficulty == MEDIUM then
      0.0 <= d.roll < 1.0 &&
      if d.roll < 0.6 then 1 <= d.a <= 10 && 1 <= d.b <= 10
      else 2 <= d.b <= 9 && 2 <= d.c <= 9
    else if difficulty == HARD then
      if d.mixed then 1 <= d.a <= 10 && 1 <= d.b <= 10 && 1 <= d.c <= 10
      else 10 <= d.a <= 50 && 3 <= d.b <= 10
    else true
  }

  /** `a op1 b op2 c` computed directly: `*` first, otherwise left to right. */
  function MixedValue(a: int, op1: Op, b: int, op2: Op, c: int): int
  {
    if op2 == Times && op1 != Times then Apply(op1, a, Apply(Times, b, c))
    else Apply(op2, Apply(op1, a, b), c)
  }

  /** `generate_math_question`: the prompt and its decimal answer for one tier. */
  function GenerateMath(difficulty: string, d: MathDraw): (qa: QA)
    requires ValidDraw(difficulty, d)
    ensures difficulty !in {EASY, MEDIUM, HARD} ==> qa == QA("1 + 1", "2")
  {
    if difficulty == EASY then
      var x, y := if d.op1 == Minus && d.a < d.b then d.b else d.a,
                  if d.op1 == Minus && d.a < d.b then d.a else d.b;
      QA(Spaced([Show(x), OpText(d.op1), Show(y)]), Show(Apply(d.op1, x, y)))
    else if difficulty == MEDIUM then
      if d.roll < 0.6 then
        QA(Spaced([Show(d.a), "*", Show(d.b)]), Show(d.a * d.b))
      else
        QA(Spaced([Show(d.b * d.c), "/", Show(d.b)]), Show(d.c))
    else if difficulty == HARD then
      if !d.mixed then
        QA(Spaced([Show(d.a), "%", Show(d.b)]), Show(d.a % d.b))
      else
        QA(Spaced([Show(d.a), OpText(d.op1), Show(d.b), OpText(d.op2), Show(d.c)]),
           Show(MixedValue(d.a, d.op1, d.b, d.op2, d.c)))
    else
      QA("1 + 1", "2")
  }

  // ---- what the prompt text evaluates to ----

  /** One operator and its right operand consumed by the evaluator. */
  lemma EvalStep(sum: int, sign: int, term: int, op: string, y: nat, rest: seq<string>)
    ensures EvalRest(sum, sign, term, [op, Show(y)] + rest) ==
      if op == "+" then EvalRest(sum + sign * term, 1, y, rest)
      else if op == "-" then EvalRest(sum + sign * term, -1, y, rest)
      else if op == "*" then EvalRest(sum, sign, term * y, rest)
      else if op == "/" then
        (if y != 0 && FloorMod(term, y) == 0 then EvalRest(sum, sign, FloorDiv(term, y), rest) else None)
      else if op == "%" then (if y != 0 then EvalRest(sum, sign, FloorMod(term, y), rest) else None)
      else None
  {
    ParseShow(y);
    var ts := [op, Show(y)] + rest;
    assert ts[0] == op && ts[1] == Show(y) && ts[2..] == rest;
  }

  lemma EvalThree(x: nat, op: string, y: nat)
    ensures EvalTokens([Show(x), op, Show(y)]) ==
      if op == "+" then Some(x + y)
      else if op == "-" then Some(x - y)
      else if op == "*" then Some(x * y)
      else if op == "/" then (if y != 0 && FloorMod(x, y) == 0 then Some(FloorDiv(x, y)) else None)
      else if op == "%" then (if y != 0 then Some(FloorMod(x, y)) else None)
      else None
  {
    ParseShow(x);
    var ts := [Show(x), op, Show(y)];
    assert ts[1..] == [op, Show(y)] + [];
    EvalStep(0, 1, x, op, y, []);
  }

  lemma EvalFive(x: nat, op1: Op, y: nat, op2: Op, z: nat)
    ensures EvalTokens([Show(x), OpText(op1), Show(y), OpText(op2), Show(z)]) == Some(MixedValue(x, op1, y, op2, z))
  {
    ParseShow(x);
    var ts := [Show(x), OpText(op1), Show(y), OpText(op2), Show(z)];
    var tail := [OpText(op2), Show(z)] + [];
    assert ts[1..] == [OpText(op1), Show(y)] + tail;
    EvalStep(0, 1, x, OpText(op1), y, tail);
    match op1 {
      case Plus => EvalStep(x, 1, y, OpText(op2), z, []);
      case Minus => EvalStep(x, -1, y, OpText(op2), z, []);
      case Times => EvalStep(0, 1, x * y, OpText(op2), z, []);
    }
  }

  lemma SpacedThree(x: int, op: string, y: int)
    requires op in {"+", "-", "*", "/", "%"}
    ensures Split(Spaced([Show(x), op, Show(y)])) == [Show(x), op, Show(y)]
  {
    SplitSpaced([Show(x), op, Show(y)]);
  }

  lemma SpacedFive(x: int, op1: Op, y: int, op2: Op, z: int)
    ensures Split(Spaced([Show(x), OpText(op1), Show(y), OpText(op2), Show(z)]))
         == [Show(x), OpText(op1), Show(y), OpText(op2), Show(z)]
  {
    SplitSpaced([Show(x), OpText(op1), Show(y), OpText(op2), Show(z)]);
  }

  lemma MulBound(x: int, m: int, y: int, n: int)
    requires 1 <= x <= m && 1 <= y <= n
    ensures 1 <= x * y <= m * n
  {
    assert x * y <= m * y;
    assert m * y <= m * n;
  }

  /** Two operators over operands in [1,10] stay within [-99,1000]. */
  lemma {:induction false} MixedRange(a: int, op1: Op, b: int, op2: Op, c: int)
    requires 1 <= a <= 10 && 1 <= b <= 10 && 1 <= c <= 10
    ensures -99 <= MixedValue(a, op1, b, op2, c) <= 1000
  {
    MulBound(a, 10, b, 10);
    MulBound(b, 10, c, 10);
    MulBound(a * b, 100, c, 10);
  }

  /**
   * Easy tier: "x + y" or "x - y" over the two draws from [0,20], the operands
   * swapped for "-" so that the first is not smaller; the answer is the value
   * of the prompt and lies in [0,40].
   */
  lemma EasyTier(d: MathDraw)
    requires ValidDraw(EASY, d)
    ensures var qa := GenerateMath(EASY, d); var ts := Split(qa.prompt);
      && |ts| == 3 && ts[1] == OpText(d.op1) && (ts[1] == "+" || ts[1] == "-")
      && ParseNat(ts[0]).Some? && ParseNat(ts[2]).Some? && ParseInt(qa.answer).Some?
      && multiset{ParseNat(ts[0]).value as int, ParseNat(ts[2]).value as int} == multiset{d.a, d.b}
      && (ts[1] == "-" ==> ParseNat(ts[0]).value >= ParseNat(ts[2]).value)
      && Evaluate(qa.prompt) == ParseInt(qa.answer)
      && 0 <= ParseInt(qa.answer).value <= 40
  {
    var x, y := if d.op1 == Minus && d.a < d.b then d.b else d.a,
                if d.op1 == Minus && d.a < d.b then d.a else d.b;
    SpacedThree(x, OpText(d.op1), y);
    EvalThree(x, OpText(d.op1), y);
    ParseShow(x);
    ParseShow(y);
    ParseShow(Apply(d.op1, x, y));
  }

  /**
   * Medium tier: either "x * y" with x, y in [1,10] and answer x*y in [1,100],
   * or "x / y" with divisor y and answer in [2,9] and x exactly y times the
   * answer; either way the answer is the value of the prompt.
   */
  lemma MediumTier(d: MathDraw)
    requires ValidDraw(MEDIUM, d)
    ensures var qa := GenerateMath(MEDIUM, d); var ts := Split(qa.prompt);
      && |ts| == 3 && ParseNat(ts[0]).Some? && ParseNat(ts[2]).Some? && ParseInt(qa.answer).Some?
      && Evaluate(qa.prompt) == ParseInt(qa.answer)
      && var x, y, v := ParseNat(ts[0]).value, ParseNat(ts[2]).value, ParseInt(qa.answer).value;
      && (d.roll < 0.6 ==> ts[1] == "*" && 1 <= x <= 10 && 1 <= y <= 10 && v == x * y && 1 <= v <= 100)
      && (d.roll >= 0.6 ==> ts[1] == "/" && 2 <= y <= 9 && 2 <= v <= 9 && x == y * v)
  {
    if d.roll < 0.6 {
      SpacedThree(d.a, "*", d.b);
      EvalThree(d.a, "*", d.b);
      ParseShow(d.a);
      ParseShow(d.b);
      MulBound(d.a, 10, d.b, 10);
      ParseShow(d.a * d.b);
    } else {
      SpacedThree(d.b * d.c, "/", d.b);
      EvalThree(d.b * d.c, "/", d.b);
      DivExact(d.b, d.c);
      ParseShow(d.b * d.c);
      ParseShow(d.b);
      ParseShow(d.c);
    }
  }

  /** Hard tier, modulo: "x % y" with x in [10,50], y in [3,10] and 0 <= answer < y. */
  lemma HardModulo(d: MathDraw)
    requires ValidDraw(HARD, d) && !d.mixed
    ensures var qa := GenerateMath(HARD, d); var ts := Split(qa.prompt);
      && |ts| == 3 && ts[1] == "%" && ParseNat(ts[0]).Some? && ParseNat(ts[2]).Some? && ParseInt(qa.answer).Some?
      && Evaluate(qa.prompt) == ParseInt(qa.answer)
      && var x, y, v := ParseNat(ts[0]).value, ParseNat(ts[2]).value, ParseInt(qa.answer).value;
      && 10 <= x <= 50 && 3 <= y <= 10 && 0 <= v < y && v == x % y
  {
    SpacedThree(d.a, "%", d.b);
    EvalThree(d.a, "%", d.b);
    ParseShow(d.a);
    ParseShow(d.b);
    ParseShow(d.a % d.b);
  }

  /**
   * Hard tier, mixed: "x op1 y op2 z" with operands in [1,10] and operators
   * from + - *; the prompt always evaluates (so the `except` fallback is never
   * taken), the answer is its value with `*` binding tighter, in [-99,1000].
   */
  lemma HardMixed(d: MathDraw)
    requires ValidDraw(HARD, d) && d.mixed
    ensures var qa := GenerateMath(HARD, d); var ts := Split(qa.prompt);
      && |ts| == 5 && ts[1] == OpText(d.op1) && ts[3] == OpText(d.op2)
      && ParseNat(ts[0]).Some? && ParseNat(ts[2]).Some? && ParseNat(ts[4]).Some? && ParseInt(qa.answer).Some?
      && Evaluate(qa.prompt).Some? && Evaluate(qa.prompt) == ParseInt(qa.answer)
      && var x, y, z, v := ParseNat(ts[0]).value, ParseNat(ts[2]).value, ParseNat(ts[4]).value, ParseInt(qa.answer).value;
      && 1 <= x <= 10 && 1 <= y <= 10 && 1 <= z <= 10
      && v == MixedValue(x, d.op1, y, d.op2, z) && -99 <= v <= 1000
  {
    SpacedFive(d.a, d.op1, d.b, d.op2, d.c);
    EvalFive(d.a, d.op1, d.b, d.op2, d.c);
    ParseShow(d.a);
    ParseShow(d.b);
    ParseShow(d.c);
    MixedRange(d.a, d.op1, d.b, d.op2, d.c);
    ParseShow(MixedValue(d.a, d.op1, d.b, d.op2, d.c));
  }

  /**
   * For every tier, known or not, the answer read back as an integer is the
   * value of the prompt text.
   */
  lemma AnswerIsPromptValue(difficulty: string, d: MathDraw)
    requires ValidDraw(difficulty, d)
    ensures var qa := GenerateMath(difficulty, d);
      Evaluate(qa.prompt).Some? && Evaluate(qa.prompt) == ParseInt(qa.answer)
  {
    if difficulty == EASY {
      EasyTier(d);
    } else if difficulty == MEDIUM {
      MediumTier(d);
    } else if difficulty == HARD {
      if d.mixed { HardMixed(d); } else { HardModulo(d); }
    } else {
      SpacedThree(1, "+", 1);
      assert Show(1) == "1";
      EvalThree(1, "+", 1);
      assert Show(2) == "2";
      ParseShow(2);
    }
  }

  // ---- static pools and the tier fallback (get_question) ----

  /** prompt -> answer */
  type Pool = map<string, string>
  /** tier -> pool, one category of the question data */
  type CategoryPools = map<string, Pool>
  /** category -> tier -> pool: the loaded question data */
  type QuestionData = map<string, CategoryPools>

  /** Position of a tier in the order easy < medium < hard. */
  function Rank(tier: string): nat
  {
    if tier == HARD then 2 else if tier == MEDIUM then 1 else 0
  }

  /**
   * The tiers `get_question` tries, in order: a known tier and then every
   * easier one, hardest first; an unknown tier only itself.
   */
  function FallbackOrder(difficulty: string): (order: seq<string>)
    ensures |order| >= 1 && order[0] == difficulty
    ensures difficulty in {EASY, MEDIUM, HARD} ==>
      |order| == Rank(difficulty) + 1 &&
      forall i :: 0 <= i < |order| ==> order[i] in {EASY, MEDIUM, HARD} && Rank(order[i]) + i == Rank(difficulty)
    ensures difficulty !in {EASY, MEDIUM, HARD} ==> order == [difficulty]
  {
    if difficulty == HARD then [HARD, MEDIUM, EASY]
    else if difficulty == MEDIUM then [MEDIUM, EASY]
    else [difficulty]
  }

  /** A tier is usable when the category has a pool for it and the pool is not empty. */
  predicate Usable(pools: CategoryPools, tier: string)
  {
    tier in pools && |pools[tier]| > 0
  }

  /** Index of the first usable tier of `order`, if any. */
  function FirstUsable(pools: CategoryPools, order: seq<string>): (r: Option<nat>)
    ensures r.Some? ==> r.value < |order| && Usable(pools, order[r.value])
    ensures r.Some? ==> forall j :: 0 <= j < r.value ==> !Usable(pools, order[j])
    ensures r.None? <==> forall j :: 0 <= j < |order| ==> !Usable(pools, order[j])
    decreases |order|
  {
    if |order| == 0 then None
    else if Usable(pools, order[0]) then Some(0)
    else
      match FirstUsable(pools, order[1..])
      case None => None
      case Some(i) => Some(i + 1)
  }

  /** What one call of `get_question` may return for the given draw. */
  ghost predicate QuestionOutcome(data: QuestionData, category: string, difficulty: string, draw: MathDraw, r: Option<QA>)
  {
    if category == MATH then
      ValidDraw(difficulty, draw) && r == Some(GenerateMath(difficulty, draw))
    else if category !in data then
      r == None
    else
      var order := FallbackOrder(difficulty);
      match FirstUsable(data[category], order)
      case None => r == None
      case Some(i) =>
        var pool := data[category][order[i]];
        r.Some? && r.value.prompt in pool && r.value.answer == pool[r.value.prompt]
  }

  /**
   * `get_question`: arithmetic categories are generated; an unknown category
   * gives None; otherwise the first usable tier of the fallback order is
   * chosen and any one of its prompts is returned with its answer.
   */
  method GetQuestion(data: QuestionData, category: string, difficulty: string, draw: MathDraw)
    returns (r: Option<QA>)
    requires category == MATH ==> ValidDraw(difficulty, draw)
    ensures QuestionOutcome(data, category, difficulty, draw, r)
    ensures category == MATH ==> r.Some?
    ensures category != MATH && category !in data ==> r == None
  {
    if category == MATH {
      return Some(GenerateMath(difficulty, draw));
    }
    if category !in data {
      return None;
    }
    var targets := FallbackOrder(difficulty);
    var selected: Option<Pool> := None;
    var i := 0;
    while i < |targets|
      invariant 0 <= i <= |targets|
      invariant forall j :: 0 <= j < i ==> !Usable(data[category], targets[j])
    {
      if targets[i] in data[category] && |data[category][targets[i]]| > 0 {
        selected := Some(data[category][targets[i]]);
        break;
      }
      i := i + 1;
    }
    assert selected.Some? ==> FirstUsable(data[category], targets) == Some(i) && selected.value == data[category][targets[i]];
    if selected.Some? {
      var pool := selected.value;
      var q :| q in pool.Keys;
      return Some(QA(q, pool[q]));
    }
    return None;
  }

  /**
   * A category whose only non-empty pool is the easy one still serves every
   * request for the medium or hard tier, from the easy pool.
   */
  lemma EasyPoolServesHarderTiers(data: QuestionData, category: string, difficulty: string, draw: MathDraw, r: Option<QA>)
    requires category != MATH && category in data
    requires Usable(data[category], EASY) && !Usable(data[category], MEDIUM) && !Usable(data[category], HARD)
    requires difficulty in {EASY, MEDIUM, HARD}
    requires QuestionOutcome(data, category, difficulty, draw, r)
    ensures r.Some? && r.value.prompt in data[category][EASY]
    ensures r.value.answer == data[category][EASY][r.value.prompt]
  {
    var order := FallbackOrder(difficulty);
    assert order[|order| - 1] == EASY;
    assert FirstUsable(data[category], order) == Some(|order| - 1);
  }
}
