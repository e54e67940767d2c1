# MinDefender game logic in Dafny

MinDefender is a typing arcade game. Questions fall from the top of the
screen as framed text. The player types an answer and presses Enter. A
correct answer removes that enemy and scores 10 points. An enemy that
reaches the ground costs one of three lives. This project models the two
pieces of game logic inside the pygame shell and proves their properties.

- **The question source** (`question_manager.py`).
  - `generate_math_question` builds arithmetic prompts for the tiers
    "kolay", "orta" and "zor".
  - `get_question` serves the category "matematik" from that generator.
  - Every other category is served from a static category → tier →
    {prompt: answer} table, falling back from harder tiers to easier ones.
- **The round engine** (`main.py`). The game's globals become one object,
  `Engine.Game`. Its methods are the event handlers:
  - the menu clicks and keys;
  - the spawn timer;
  - Enter, Backspace, Escape and the other keys while playing;
  - R and M on the game-over screen;
  - the per-frame update.

  These methods state the whole new state as a `Snapshot` value. They also
  keep an invariant, `Game.Valid`:
  - the score is a non-negative multiple of 10;
  - there are at most 3 lives, and at least one while playing;
  - the spawn interval lies in [600, 2000] ms;
  - the feedback timer lies in [0, 15];
  - every enemy is well formed;
  - no two enemies show the same prompt.

The modules follow the program:

| Module | File | Contents |
|---|---|---|
| `Common` | common.dfy | `Option` |
| `Decimal` | decimal.dfy | `str()` of an integer and its inverse; `split(' ')` and the f-strings it undoes |
| `Expr` | expr.dfy | A reference evaluator for prompt text: `+ - * / %`, with `* / %` binding tighter, otherwise left to right |
| `Questions` | questions.dfy | The question source |
| `Geometry` | geometry.dfy | pygame's integer `Rect`, `colliderect` and `int()` of a float |
| `Rules` | rules.dfy | The pure rules of a round, and the specification functions of the engine's loops |
| `Engine` | engine.dfy | The loops themselves, the `Game` class and a complete round as a client would play it |

Python's `eval` is replaced by direct arithmetic. For each tier, a lemma
reads the generated prompt back with `Split`/`ParseNat` and evaluates it
with `Expr.Evaluate`, then shows that the result is the answer string read
back as an integer.

`random` draws, the rendered text size, and the character a key produces
are parameters. Each parameter carries the range the source draws it from.

## Model

| member | source | states |
|---|---|---|
| Decimal.ParseShow | question_manager.py:28-29 | The decimal string `str(n)` of any integer reads back as `n`, and for `n >= 0` also as a natural number |
| Decimal.SplitSpaced | question_manager.py:28 | A prompt built as space-separated space-free tokens splits on `' '` back into exactly those tokens |
| Questions.GenerateMath | question_manager.py:78 | A difficulty other than kolay/orta/zor yields exactly ("1 + 1", "2") |
| Questions.EasyTier | question_manager.py:20-30 | Easy prompts are "x + y" or "x - y" with {x, y} the two draws from [0,20]. For "-" the operands are swapped so that x >= y. The answer is the prompt's value and lies in [0,40] |
| Questions.MediumTier | question_manager.py:32-45 | Below roll 0.6 the prompt is "x * y" with x, y in [1,10] and answer x*y in [1,100]. Otherwise it is "x / y" with y in [2,9], an answer in [2,9] and x = y * answer, so the division is exact. Either way the answer is the prompt's value |
| Questions.HardModulo | question_manager.py:51-55 | "x % y" with x in [10,50] and y in [3,10]; the answer is x % y, with 0 <= answer < y |
| Questions.HardMixed | question_manager.py:56-76 | "x op1 y op2 z" with operands in [1,10]. The prompt always evaluates, so the `except` fallback is unreachable. The answer is its value with `*` before `+`/`-`, and lies in [-99,1000] |
| Questions.MixedRange | question_manager.py:58-68 | Two operators from + - * over operands in [1,10] give a value in [-99,1000] |
| Questions.AnswerIsPromptValue | question_manager.py:16-78 | For every tier, known or not, the prompt text evaluates and its value is the answer read as an integer |
| Questions.FallbackOrder | question_manager.py:92-97 | zor tries zor, orta, kolay; orta tries orta, kolay; every other tier tries only itself. Each tier is followed by the next easier one |
| Questions.FirstUsable | question_manager.py:99-103 | Finds the first tier in order that has a non-empty pool; no earlier tier has one; none is found iff no tier has one |
| Questions.GetQuestion | question_manager.py:80-110 | "matematik" always yields the generated pair, never None. An unknown category yields None. Otherwise the result is (q, pool[q]) with q a key of the first usable tier's pool, or None when no tier is usable |
| Questions.EasyPoolServesHarderTiers | question_manager.py:92-108 | With only the easy pool filled, requests for kolay, orta or zor all return an item of the easy pool, never None |
| Geometry.Trunc | main.py:110 | `int()` rounds toward zero: within one of the real value, on the same side of zero |
| Rules.GetDifficulty | main.py:199-204 | A fixed mode is returned as it is. In "dinamik", the result is kolay iff score < 50, zor iff score >= 150, and orta otherwise |
| Rules.DynamicTierMonotone | main.py:199-204 | In the dynamic mode a higher score never gives an easier tier |
| Rules.SpawnInterval | main.py:428 | The interval is max(600, 2000 - (score // 50) * 100): it is at least both, equal to one of them, lies in [600, 2000], and is 2000 below score 50 |
| Rules.SpawnIntervalNonIncreasing | main.py:428 | A higher score never gives a longer interval |
| Rules.SpawnIntervalSamples | main.py:428 | Sample values: 2000 at 49, 1500 at 250 and 700 at 699. From score 700 on it is always 600 |
| Rules.SpeedMultiplier | main.py:418 | 1.0 + (score // 50) * 0.1 is at least 1 |
| Rules.SpawnSpeed | main.py:418-420 | The new speed is min(base * multiplier, 5.0). It lies in [0.5, 5.0] and never exceeds the scaled draw |
| Rules.NewEnemy | main.py:94-106 | A new enemy carries the question, its answer and the speed. Its column is x and its exact y is -60. Its frame is the text size inflated by 30 x 20 about the text's centre, at (x, -10), and it is well formed whenever the speed is in [0.5, 5]. Compared with the placement candidate at the same column, the frame starts at the same x and ends 24 px earlier. It starts 50 px lower and ends 46 px lower |
| Rules.Advance | main.py:108-110 | One update adds the speed to y and sets rect.y to int(y). Nothing else changes. An enemy that stays above the ground stays well formed |
| Rules.FirstFresh | main.py:385-398 | Finds the first attempt that is a question and not the prompt of an active enemy; earlier attempts are not; none is found iff no attempt qualifies |
| Rules.FirstFree | main.py:404-415 | Finds the first drawn column whose candidate rect (x, -60, w+54, h+24) collides with no enemy rect; earlier columns collide; none is found iff all 10 collide |
| Rules.PlacedFrameMayOverlap | main.py:399-417 | The candidate box is checked at y = -60 with +54/+24 padding. The stored frame sits at y = -10 with +30/+20 padding, so an accepted column can still overlap an enemy just below the box |
| Rules.StripTrims | main.py:438 | `strip()` removes only whitespace, from both ends. It returns a slice of its input; everything before and after the slice is whitespace, and the slice has whitespace at neither end. Stripping twice equals stripping once |
| Rules.FirstMatch | main.py:436-440 | Finds the first enemy, in list order, whose folded answer equals the stripped, folded text; no earlier enemy matches; none is found iff none matches |
| Rules.SurvivorsAndFallen | main.py:465-472 | In one frame each enemy either stays or is counted as fallen, never both |
| Rules.SurvivorsStayWellFormed | main.py:108-110 | Each survivor of a frame is an advanced copy of an enemy that was on the field, and is still well formed (rect.y = int(y), below the ground line) |
| Rules.SurvivorsStayDistinct | main.py:465-470 | Falling keeps prompts distinct, and every survivor's prompt was already active |
| Engine.IsDuplicate | main.py:388-393 | The duplicate scan reports true iff some active enemy shows the prompt |
| Engine.HitsAny | main.py:407-412 | The collision scan reports true iff the candidate rect collides with some enemy rect |
| Engine.FindMatch | main.py:436-440 | The answer scan returns the first matching enemy (`FirstMatch`) |
| Engine.DrawFresh | main.py:384-398 | Makes up to 5 `get_question` attempts, each a possible `get_question` outcome, and stops at the first fresh one. If none is fresh, all 5 are made and no question is chosen |
| Engine.PlaceColumn | main.py:404-415 | Tries up to 10 columns and returns the first free one (`FirstFree`) |
| Engine.FallAll | main.py:465-472 | The frame's loop yields the survivors in order and the number fallen; together they account for every enemy |
| Engine.RemovalKeepsInvariants | main.py:442 | Removing one enemy keeps every other enemy well formed and the prompts distinct |
| Engine.SubmitAccounts | main.py:434-448 | Enter never changes lives or screen. Every enemy it removes is paid for by exactly one 10-point step. It either clears the text or changes nothing |
| Engine.LooseAnswerHits | main.py:437-438 | " aNKARA\n" answers "Ankara": surrounding whitespace and letter case do not matter |
| Engine.TwoPlusTwoDrawn | question_manager.py:20-30 | The easy draw 2, +, 2 gives ("2 + 2", "4") |
| Engine.TypedDigits | main.py:438 | "4" answers "4" and "5" does not |
| Engine.Game.constructor | main.py:181-194 | Start-up: menu, first category and mode, score 0, 3 lives, no enemies, empty text, interval 2000, no feedback |
| Engine.Game.ResetGame | main.py:206-213 | Sets score 0, lives 3, no enemies, empty text and interval 2000. It keeps the screen, the selections and the feedback timer |
| Engine.Game.Click | main.py:355-371 | Only the menu reacts. A category or mode button selects it. Play resets the round and starts playing |
| Engine.Game.KeyDown | main.py:373-462 | Menu: Enter resets and plays. Playing: Enter submits; Backspace drops exactly the last character and does nothing on ""; Escape goes to the menu and keeps enemies and score; any other key appends its character. Game over: R resets and plays; M goes to the menu and keeps enemies and score. Entering play from another screen always goes through the reset |
| Engine.Game.Submit | main.py:434-448 | A match removes the first matching enemy, keeps the others in order, clears the text and adds exactly 10. With no match, non-empty text sets the feedback to 15 and clears the text; empty text changes nothing |
| Engine.Game.SpawnEvent | main.py:380-431 | Every attempt is a `get_question` outcome, at most 5 of them. A chosen question is fresh. With no fresh question, or no free column among 10, nothing changes, the interval included. Otherwise exactly one enemy is appended with that question, the first free column and the capped speed, and the interval becomes `SpawnInterval(score)` |
| Engine.Game.AddEnemy | main.py:424-431 | A successful spawn appends exactly one enemy at the end of the list. The interval becomes `SpawnInterval(score)`. Prompts stay distinct and every enemy stays well formed |
| Engine.Game.Tick | main.py:464-474 | Each enemy advances once. Those past y = 510 are removed and the rest keep their order. Lives drop by exactly the number removed and the score is unchanged. The screen becomes game over iff lives <= 0. The feedback counts down by 1 only when positive |
| Engine.StartTwoPlusTwo | main.py:373-431 | From start-up, Enter then one spawn drawing "2 + 2" gives one enemy ("2 + 2", "4") at the left margin, with score 0 and 3 lives |
| Engine.TwoPlusTwoRound | main.py:433-454 | Typing "4" and Enter then removes it and scores 10. Typing "5" instead sets the feedback to 15, leaves the score at 0 and keeps the enemy |

## Left out

- Rendering, fonts, colours, the matrix rain and button layout (`main.py` drawing functions, `Enemy.draw`). They draw and hold no game logic. `button.py` is not part of this model: it is hover and click colouring on a pygame rect.
- The enemy's random colour. It is only drawn.
- `_load_data`: file and JSON I/O. The question data is a parameter of the `Game` constructor, as a nested `map`.
- The pygame event queue, `set_timer`, `clock.tick` and mouse polling. Each event is a method call. When the interval changes, re-arming the timer is not modelled.
- Quitting the game (`pygame.QUIT`). It ends the program and changes no game state.
- Text measurement. The rendered width and height of a prompt are parameters of `SpawnEvent`.
- `random`. The draws are parameters with the source's ranges: `MathDraw` and `ValidDraw` for the generator, 10 columns, and a base speed in [0.5, 1.5]. The pick from a pool is any of its keys.
- IEEE floating point. Speed and y are exact reals, so float rounding of `y += speed` is not modelled.
- Engine.Game.SpawnEvent: requires every drawn column to lie in [20, 780 - (w + 54)] even when no question is chosen. If the text is wider than the screen, `random.randint` would raise, and that is not modelled.
- Rules.Matches: `strip()` and `lower()` cover ASCII only. Non-ASCII whitespace and case mappings are not modelled.
- Expr.Evaluate: reads `/` as exact integer division and fails otherwise. Python's float result `6 / 2 == 3.0` is not modelled. The medium division answer is `str(ans)` in the source, not `str(eval(...))`.
- Questions.GetQuestion: the pick from a pool may be any key of the pool; uniform randomness is not modelled.
- Enemy identity. `enemies.remove(enemy)` removes an object by identity. The model removes by position, which is the same enemy because the loops that find it stop at the first match.

Notes on the code:

- Escape while playing and M on the game-over screen keep the enemies and the score. Only `reset_game` clears them.
- The spawn interval at score 250 is 1500 ms (`Rules.SpawnIntervalSamples`).
- Placement checks the candidate box against the enemies' stored frames. It does not check the new enemy's own frame. So a newly placed frame can overlap an existing one (`Rules.PlacedFrameMayOverlap`).
