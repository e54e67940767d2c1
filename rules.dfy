/**
 * The pure rules of a round in main.py: the effective difficulty tier, the
 * spawn interval and speed that grow with the score, the enemy records with
 * their rectangles, and the specifications of the searches and the per-tick
 * advance that the engine runs.
 */
module Rules {
  import opened Common
  import opened Geometry
  import opened Questions

  const WIDTH := 800
  const HEIGHT := 600
  /** Enemies whose y passes this line are lost (HEIGHT - 90). */
  const GROUND: real := (HEIGHT - 90) as real
  const START_LIVES := 3
  const START_INTERVAL := 2000
  const MIN_INTERVAL := 600
  const MAX_SPEED: real := 5.0
  const FEEDBACK_TICKS := 15
  const SCORE_STEP := 10
  /** Horizontal margin of spawn positions, and the y of the placement candidate. */
  const MARGIN := 20
  const SPAWN_Y := -60
  const DYNAMIC := "dinamik"
  const CATEGORIES: seq<string> := [MATH, "ingilizce", "almanca", "baskentler", "tarih"]
  const DIFFICULTIES: seq<string> := [DYNAMIC, EASY, MEDIUM, HARD]

  datatype Screen = Menu | Playing | GameOver

  /** `get_difficulty`: a fixed mode is used as it is; the dynamic mode follows the score. */
  function GetDifficulty(score: int, mode: string): (tier: string)
    ensures mode != DYNAMIC ==> tier == mode
    ensures mode == DYNAMIC ==> tier in {EASY, MEDIUM, HARD}
    ensures mode == DYNAMIC ==> (tier == EASY <==> score < 50) && (tier == HARD <==> score >= 150)
  {
    if mode != DYNAMIC then mode
    else if score < 50 then EASY
    else if score < 150 then MEDIUM
    else HARD
  }

  /** In the dynamic mode a higher score never gives an easier tier. */
  lemma DynamicTierMonotone(s1: int, s2: int)
    requires s1 <= s2
    ensures Rank(GetDifficulty(s1, DYNAMIC)) <= Rank(GetDifficulty(s2, DYNAMIC))
  {
  }

  /** The spawn interval in milliseconds after a spawn at this score. */
  function SpawnInterval(score: int): (ms: int)
    requires score >= 0
    ensures MIN_INTERVAL <= ms <= START_INTERVAL
    ensures ms == MIN_INTERVAL || ms == START_INTERVAL - (score / 50) * 100
    ensures score < 50 ==> ms == START_INTERVAL
    ensures ms >= START_INTERVAL - (score / 50) * 100
  {
    if START_INTERVAL - (score / 50) * 100 > MIN_INTERVAL then START_INTERVAL - (score / 50) * 100
    else MIN_INTERVAL
  }

  /** Spawns never slow down as the score grows. */
  lemma {:induction false} SpawnIntervalNonIncreasing(s1: int, s2: int)
    requires 0 <= s1 <= s2
    ensures SpawnInterval(s2) <= SpawnInterval(s1)
  {
    assert s1 / 50 <= s2 / 50;
  }

  /** Each 50 points take 100 ms off the interval until the 600 ms floor. */
  lemma SpawnIntervalSamples()
    ensures SpawnInterval(49) == 2000 && SpawnInterval(250) == 1500
    ensures SpawnInterval(699) == 700 && SpawnInterval(700) == 600 && SpawnInterval(1500) == 600
    ensures forall score :: score >= 700 ==> SpawnInterval(score) == MIN_INTERVAL
  {
    forall score | score >= 700
      ensures SpawnInterval(score) == MIN_INTERVAL
    {
      assert score / 50 >= 14;
    }
  }

  /** 1.0 + (score // 50) * 0.1 */
  function SpeedMultiplier(score: int): (m: real)
    requires score >= 0
    ensures m >= 1.0
  {
    1.0 + (score / 50) as real * 0.1
  }

  /** The fall speed of a new enemy: the drawn base speed scaled by the score, capped. */
  function SpawnSpeed(score: int, base: real): (speed: real)
    requires score >= 0 && 0.5 <= base <= 1.5
    ensures 0.5 <= speed <= MAX_SPEED
    ensures speed <= base * SpeedMultiplier(score)
    ensures speed == MAX_SPEED || speed == base * SpeedMultiplier(score)
  {
    var m := SpeedMultiplier(score);
    var scaled := base * m;
    assert scaled >= base by {
      assert base * m - base == base * (m - 1.0);
    }
    if scaled < MAX_SPEED then scaled else MAX_SPEED
  }

  /**
   * A falling question. `y` is the exact position, `rect` the frame drawn
   * around the text; `x` is the spawn column.
   */
  datatype Enemy = Enemy(question: string, answer: string, speed: real, x: int, y: real, rect: Rect)

  /**
   * An enemy as the spawn handler creates it: the text's rect inflated by
   * 30 x 20 around its centre (so at y = -10), moved to column x, while the
   * exact position starts at -60.
   */
  function NewEnemy(qa: QA, x: int, tw: nat, th: nat, speed: real): (e: Enemy)
    ensures e.question == qa.prompt && e.answer == qa.answer && e.speed == speed
    ensures e.x == x && e.y == SPAWN_Y as real
    ensures e.rect == Rect(x, -10, tw + 30, th + 20)
    ensures 0.5 <= speed <= MAX_SPEED ==> WellFormed(e)
    ensures var c := Candidate(x, tw, th);
      c.x == e.rect.x && e.rect.x + e.rect.w + 24 == c.x + c.w
      && c.y + 50 == e.rect.y && e.rect.y + e.rect.h == c.y + c.h + 46
  {
    Enemy(qa.prompt, qa.answer, speed, x, SPAWN_Y as real, Rect(x, -10, tw + 30, th + 20))
  }

  /** `Enemy.update`: fall by the speed and move the rect to the truncated position. */
  function Advance(e: Enemy): (r: Enemy)
    ensures r.y == e.y + e.speed && r.rect.y == Trunc(r.y)
    ensures r == e.(y := r.y, rect := e.rect.(y := r.rect.y))
    ensures WellFormed(e) && !Landed(r) ==> WellFormed(r)
  {
    var y := e.y + e.speed;
    e.(y := y, rect := e.rect.(y := Trunc(y)))
  }

  /** What holds of every enemy on the field between events. */
  predicate WellFormed(e: Enemy)
  {
    && 0.5 <= e.speed <= MAX_SPEED
    && e.y <= GROUND
    && e.rect.x == e.x && e.rect.w >= 30 && e.rect.h >= 20
    && ((e.y == SPAWN_Y as real && e.rect.y == -10) || (e.y > SPAWN_Y as real && e.rect.y == Trunc(e.y)))
  }

  predicate AllWellFormed(es: seq<Enemy>)
  {
    forall i :: 0 <= i < |es| ==> WellFormed(es[i])
  }

  /** Some enemy on the field shows this prompt. */
  predicate IsActive(es: seq<Enemy>, prompt: string)
  {
    exists i :: 0 <= i < |es| && es[i].question == prompt
  }

  /** No two enemies on the field show the same prompt. */
  predicate DistinctPrompts(es: seq<Enemy>)
  {
    forall i, j :: 0 <= i < j < |es| ==> es[i].question != es[j].question
  }

  // ---- spawning ----

  /** A question attempt that is usable: present and not already on the field. */
  predicate Fresh(attempt: Option<QA>, es: seq<Enemy>)
  {
    attempt.Some? && !IsActive(es, attempt.value.prompt)
  }

  /** Index of the first fresh attempt. */
  function FirstFresh(attempts: seq<Option<QA>>, es: seq<Enemy>): (r: Option<nat>)
    ensures r.Some? ==> r.value < |attempts| && Fresh(attempts[r.value], es)
    ensures r.Some? ==> forall j :: 0 <= j < r.value ==> !Fresh(attempts[j], es)
    ensures r.None? <==> forall j :: 0 <= j < |attempts| ==> !Fresh(attempts[j], es)
    decreases |attempts|
  {
    if |attempts| == 0 then None
    else if Fresh(attempts[0], es) then Some(0)
    else
      match FirstFresh(attempts[1..], es)
      case None => None
      case Some(i) => Some(i + 1)
  }

  /** The rect tried at column x: the text size padded by 54 x 24, at y = -60. */
  function Candidate(x: int, tw: nat, th: nat): Rect
  {
    Rect(x, SPAWN_Y, tw + 54, th + 24)
  }

  /** The rect overlaps no enemy on the field. */
  predicate Free(r: Rect, es: seq<Enemy>)
  {
    forall i :: 0 <= i < |es| ==> !Collide(r, es[i].rect)
  }

  /** Index of the first drawn column whose candidate rect is free. */
  function FirstFree(xs: seq<int>, tw: nat, th: nat, es: seq<Enemy>): (r: Option<nat>)
    ensures r.Some? ==> r.value < |xs| && Free(Candidate(xs[r.value], tw, th), es)
    ensures r.Some? ==> forall j :: 0 <= j < r.value ==> !Free(Candidate(xs[j], tw, th), es)
    ensures r.None? <==> forall j :: 0 <= j < |xs| ==> !Free(Candidate(xs[j], tw, th), es)
    decreases |xs|
  {
    if |xs| == 0 then None
    else if Free(Candidate(xs[0], tw, th), es) then Some(0)
    else
      match FirstFree(xs[1..], tw, th, es)
      case None => None
      case Some(i) => Some(i + 1)
  }

  /**
   * The candidate box (y = -60, padded by 54 x 24) does not cover the frame the
   * new enemy actually gets (y = -10, padded by 30 x 20): its lower part is
   * never checked, so an accepted column can put the new frame over an enemy
   * that has fallen just below the box.
   */
  lemma PlacedFrameMayOverlap()
    ensures var below := Enemy("7 * 3", "21", 1.0, 100, 10.0, Rect(100, 10, 50, 40));
      && WellFormed(below)
      && FirstFree([100], 10, 20, [below]) == Some(0)
      && Collide(NewEnemy(QA("2 + 2", "4"), 100, 10, 20, 1.0).rect, below.rect)
  {
    var below := Enemy("7 * 3", "21", 1.0, 100, 10.0, Rect(100, 10, 50, 40));
    assert Trunc(10.0) == 10;
    assert Free(Candidate(100, 10, 20), [below]);
  }

  // ---- answering ----

  /** ASCII whitespace as `str.strip()` removes it. */
  predicate IsSpace(c: char)
  {
    c as int in {9, 10, 11, 12, 13, 28, 29, 30, 31, 32}
  }

  function StripLeft(s: string): string
  {
    if |s| > 0 && IsSpace(s[0]) then StripLeft(s[1..]) else s
  }

  function StripRight(s: string): string
  {
    if |s| > 0 && IsSpace(s[|s| - 1]) then StripRight(s[..|s| - 1]) else s
  }

  /** `s.strip()` */
  function Strip(s: string): string
  {
    StripRight(StripLeft(s))
  }

  /** Leading whitespace goes; what is left is a suffix of the input. */
  lemma {:induction false} StripLeftSuffix(s: string)
    ensures var t := StripLeft(s); |t| <= |s| && t == s[|s| - |t|..]
    ensures var t := StripLeft(s); |t| == 0 || !IsSpace(t[0])
    ensures forall i :: 0 <= i < |s| - |StripLeft(s)| ==> IsSpace(s[i])
    decreases |s|
  {
    if |s| > 0 && IsSpace(s[0]) {
      StripLeftSuffix(s[1..]);
    }
  }

  /** Trailing whitespace goes; what is left is a prefix of the input. */
  lemma {:induction false} StripRightPrefix(s: string)
    ensures var t := StripRight(s); |t| <= |s| && t == s[..|t|]
    ensures var t := StripRight(s); |t| == 0 || !IsSpace(t[|t| - 1])
    ensures |s| > 0 && !IsSpace(s[0]) ==> |StripRight(s)| > 0
    ensures forall i :: |StripRight(s)| <= i < |s| ==> IsSpace(s[i])
    decreases |s|
  {
    if |s| > 0 && IsSpace(s[|s| - 1]) {
      StripRightPrefix(s[..|s| - 1]);
      assert s[..|s| - 1][..|StripRight(s)|] == s[..|StripRight(s)|];
    }
  }

  /**
   * `strip()` removes whitespace, and only whitespace, from both ends: what
   * is left is a slice of its input with whitespace at neither end, so
   * stripping twice is stripping once.
   */
  lemma StripTrims(s: string)
    ensures var k, t := |s| - |StripLeft(s)|, Strip(s); 0 <= k <= k + |t| <= |s| && t == s[k..k + |t|]
    ensures var k := |s| - |StripLeft(s)|; forall i :: 0 <= i < k ==> IsSpace(s[i])
    ensures var k, t := |s| - |StripLeft(s)|, Strip(s); forall i :: k + |t| <= i < |s| ==> IsSpace(s[i])
    ensures var t := Strip(s); |t| == 0 || (!IsSpace(t[0]) && !IsSpace(t[|t| - 1]))
    ensures Strip(Strip(s)) == Strip(s)
  {
    var l := StripLeft(s);
    StripLeftSuffix(s);
    StripRightPrefix(l);
    var t := StripRight(l);
    var k := |s| - |l|;
    assert t == s[k..k + |t|] by {
      assert l[..|t|] == s[k..][..|t|];
    }
    forall i | k + |t| <= i < |s|
      ensures IsSpace(s[i])
    {
      assert s[i] == l[i - k];
    }
    if |t| > 0 {
      assert t[0] == l[0];
    }
    assert StripLeft(t) == t;
    StripRightPrefix(t);
    assert StripRight(t) == t;
  }

  function LowerChar(c: char): char
  {
    if 'A' <= c <= 'Z' then (c as int + 32) as char else c
  }

  /** `s.lower()` on ASCII letters. */
  function Lower(s: string): string
  {
    seq(|s|, i requires 0 <= i < |s| => LowerChar(s[i]))
  }

  /** The typed text answers an enemy: trimmed and case-folded, it equals the folded answer. */
  predicate Matches(text: string, answer: string)
  {
    Lower(Strip(text)) == Lower(answer)
  }

  /** Index of the first enemy, in list order, that the typed text answers. */
  function FirstMatch(es: seq<Enemy>, text: string): (r: Option<nat>)
    ensures r.Some? ==> r.value < |es| && Matches(text, es[r.value].answer)
    ensures r.Some? ==> forall j :: 0 <= j < r.value ==> !Matches(text, es[j].answer)
    ensures r.None? <==> forall j :: 0 <= j < |es| ==> !Matches(text, es[j].answer)
    decreases |es|
  {
    if |es| == 0 then None
    else if Matches(text, es[0].answer) then Some(0)
    else
      match FirstMatch(es[1..], text)
      case None => None
      case Some(i) => Some(i + 1)
  }

  // ---- the per-tick fall ----

  predicate Landed(e: Enemy)
  {
    e.y > GROUND
  }

  /** The enemies still on the field after every one has advanced once, in their order. */
  function Survivors(es: seq<Enemy>): seq<Enemy>
    decreases |es|
  {
    if |es| == 0 then []
    else
      var e := Advance(es[|es| - 1]);
      Survivors(es[..|es| - 1]) + (if Landed(e) then [] else [e])
  }

  /** How many enemies reach the ground when every one advances once. */
  function Fallen(es: seq<Enemy>): nat
    decreases |es|
  {
    if |es| == 0 then 0
    else Fallen(es[..|es| - 1]) + (if Landed(Advance(es[|es| - 1])) then 1 else 0)
  }

  /** Every enemy either stays on the field or is counted as fallen, never both. */
  lemma {:induction false} SurvivorsAndFallen(es: seq<Enemy>)
    ensures |Survivors(es)| + Fallen(es) == |es|
    decreases |es|
  {
    if |es| > 0 {
      SurvivorsAndFallen(es[..|es| - 1]);
    }
  }

  /**
   * The survivors are the advanced enemies that have not passed the ground,
   * still well formed; their prompts are prompts of the original enemies.
   */
  lemma {:induction false} SurvivorsStayWellFormed(es: seq<Enemy>)
    requires AllWellFormed(es)
    ensures AllWellFormed(Survivors(es))
    ensures forall k :: 0 <= k < |Survivors(es)| ==> exists j :: 0 <= j < |es| && Survivors(es)[k] == Advance(es[j])
    decreases |es|
  {
    if |es| > 0 {
      var init := es[..|es| - 1];
      SurvivorsStayWellFormed(init);
      var e := Advance(es[|es| - 1]);
      assert WellFormed(es[|es| - 1]);
      assert !Landed(e) ==> WellFormed(e);
      forall k | 0 <= k < |Survivors(es)|
        ensures exists j :: 0 <= j < |es| && Survivors(es)[k] == Advance(es[j])
      {
        if k < |Survivors(init)| {
          var j :| 0 <= j < |init| && Survivors(init)[k] == Advance(init[j]);
          assert es[j] == init[j];
        } else {
          assert Survivors(es)[k] == Advance(es[|es| - 1]);
        }
      }
    }
  }

  /** Falling keeps the prompts on the field distinct. */
  lemma {:induction false} SurvivorsStayDistinct(es: seq<Enemy>)
    requires DistinctPrompts(es)
    ensures DistinctPrompts(Survivors(es))
    ensures forall k :: 0 <= k < |Survivors(es)| ==> IsActive(es, Survivors(es)[k].question)
    decreases |es|
  {
    if |es| > 0 {
      var init := es[..|es| - 1];
      var last := es[|es| - 1];
      SurvivorsStayDistinct(init);
      forall k | 0 <= k < |Survivors(init)|
        ensures Survivors(init)[k].question != last.question
        ensures IsActive(es, Survivors(init)[k].question)
      {
        var j :| 0 <= j < |init| && init[j].question == Survivors(init)[k].question;
        assert es[j] == init[j];
      }
      assert Advance(last).question == last.question;
    }
  }
}
