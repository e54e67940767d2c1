/**
 * A reference reading of the arithmetic prompts: what Python's `eval` gives for
 * space-separated non-negative integer literals joined by `+ - * / %`, with
 * `* / %` binding tighter than `+ -` and equal levels grouped left to right.
 * Only integer results are modelled: a `/` that leaves a remainder, a zero
 * divisor or a malformed token gives None.
 */
module Expr {
  import opened Common
  import opened Decimal

  /** Python's `//` (rounds toward minus infinity). */
  function FloorDiv(a: int, b: int): int
    requires b != 0
  {
    if b > 0 then a / b else (-a) / (-b)
  }

  /** Python's `%`: the remainder takes the sign of the divisor. */
  function FloorMod(a: int, b: int): (r: int)
    requires b != 0
    ensures b > 0 ==> 0 <= r < b
  {
    if b > 0 then a % b else -((-a) % (-b))
  }

  /** Dividing an exact multiple: no remainder, and the other factor comes back. */
  lemma DivExact(b: int, c: int)
    requires b > 0
    ensures FloorMod(b * c, b) == 0 && FloorDiv(b * c, b) == c
  {
  }

  /** The value of a prompt's text. */
  function Evaluate(q: string): Option<int>
  {
    EvalTokens(Split(q))
  }

  function EvalTokens(ts: seq<string>): Option<int>
  {
    if |ts| == 0 then None
    else
      match ParseNat(ts[0])
      case None => None
      case Some(n) => EvalRest(0, 1, n, ts[1..])
  }

  /**
   * Left-to-right evaluation with two precedence levels: `sum` holds the
   * completed additive terms, `sign * term` the term still being multiplied.
   */
  function EvalRest(sum: int, sign: int, term: int, ts: seq<string>): Option<int>
    decreases |ts|
  {
    if |ts| == 0 then Some(sum + sign * term)
    else if |ts| == 1 then None
    else
      match ParseNat(ts[1])
      case None => None
      case Some(n) =>
        if ts[0] == "+" then EvalRest(sum + sign * term, 1, n, ts[2..])
        else if ts[0] == "-" then EvalRest(sum + sign * term, -1, n, ts[2..])
        else if ts[0] == "*" then EvalRest(sum, sign, term * n, ts[2..])
        else if ts[0] == "/" then
          (if n != 0 && FloorMod(term, n) == 0 then EvalRest(sum, sign, FloorDiv(term, n), ts[2..]) else None)
        else if ts[0] == "%" then
          (if n != 0 then EvalRest(sum, sign, FloorMod(term, n), ts[2..]) else None)
        else None
  }
}
