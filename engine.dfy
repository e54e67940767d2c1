/**
 * The round engine of main.py: the game's globals as one object, and the
 * event handlers and per-frame update that change them. Events are method
 * calls; the values pygame would supply (text size, random draws, the
 * character of a key) are parameters.
 */
module Engine {
  import opened Common
  import opened Geometry
  import opened Questions
  import opened Rules
  import opened Decimal

  /** The keys the handlers tell apart; every other key is `OtherKey`. */
  datatype Key = Return | Backspace | Escape | KeyR | KeyM | OtherKey

  /** Where a mouse click in the menu landed. */
  datatype Button = CategoryButton(index: nat) | DifficultyButton(index: nat) | PlayButton | Elsewhere

  /** Every variable of the game state, for stating what a handler changes. */
  datatype Snapshot = Snapshot(
    state: Screen, selectedCat: nat, selectedDiff: nat, enemies: seq<Enemy>, userText: string,
    score: int, lives: int, spawnInterval: int, wrongFeedback: int)

  /** What `reset_game` assigns; the feedback timer and the selections are kept. */
  function Reset(s: Snapshot): Snapshot
  {
    s.(score := 0, lives := START_LIVES, enemies := [], userText := "", spawnInterval := START_INTERVAL)
  }

  /**
   * Enter while playing: the first enemy the typed text answers is removed,
   * the score rises by 10 and the text is cleared; with no match, text that
   * was typed is cleared and the wrong-answer feedback starts; with no match
   * and no text nothing changes.
   */
  function AfterSubmit(s: Snapshot): Snapshot
  {
    match FirstMatch(s.enemies, s.userText)
    case Some(i) => s.(enemies := s.enemies[..i] + s.enemies[i + 1..], userText := "", score := s.score + SCORE_STEP)
    case None => if |s.userText| > 0 then s.(wrongFeedback := FEEDBACK_TICKS, userText := "") else s
  }

  /** Every enemy an answer removes is paid for with exactly one score step. */
  lemma SubmitAccounts(s: Snapshot)
    ensures |AfterSubmit(s).enemies| + AfterSubmit(s).score / SCORE_STEP == |s.enemies| + s.score / SCORE_STEP
    ensures AfterSubmit(s).lives == s.lives && AfterSubmit(s).state == s.state
    ensures AfterSubmit(s).userText == "" || AfterSubmit(s) == s
  {
  }

  /** Surrounding whitespace and letter case do not matter when answering. */
  lemma LooseAnswerHits(s: Snapshot, e: Enemy)
    requires s.enemies == [e] && e.answer == "Ankara" && s.userText == " aNKARA\n"
    ensures AfterSubmit(s) == s.(enemies := [], userText := "", score := s.score + SCORE_STEP)
  {
    assert StripLeft(s.userText) == "aNKARA\n";
    assert StripRight("aNKARA\n") == "aNKARA";
    assert Lower("aNKARA") == Lower("Ankara");
  }

  /** Scans for an active enemy with this prompt (the duplicate check of a spawn). */
  method IsDuplicate(es: seq<Enemy>, prompt: string) returns (dup: bool)
    ensures dup <==> IsActive(es, prompt)
  {
    dup := false;
    var i := 0;
    while i < |es|
      invariant 0 <= i <= |es|
      invariant forall j :: 0 <= j < i ==> es[j].question != prompt
    {
      if es[i].question == prompt {
        dup := true;
        return;
      }
      i := i + 1;
    }
  }

  /** Scans for an enemy whose rect the candidate rect collides with. */
  method HitsAny(r: Rect, es: seq<Enemy>) returns (collision: bool)
    ensures collision <==> !Free(r, es)
  {
    collision := false;
    var i := 0;
    while i < |es|
      invariant 0 <= i <= |es|
      invariant forall j :: 0 <= j < i ==> !Collide(r, es[j].rect)
    {
      if Collide(r, es[i].rect) {
        collision := true;
        return;
      }
      i := i + 1;
    }
  }

  /** The first enemy, in list order, that the typed text answers. */
  method FindMatch(es: seq<Enemy>, text: string) returns (m: Option<nat>)
    ensures m == FirstMatch(es, text)
  {
    var i := 0;
    while i < |es|
      invariant 0 <= i <= |es|
      invariant forall j :: 0 <= j < i ==> !Matches(text, es[j].answer)
    {
      if Matches(text, es[i].answer) {
        return Some(i);
      }
      i := i + 1;
    }
    return None;
  }

  lemma RemovalKeepsInvariants(es: seq<Enemy>, i: nat)
    requires i < |es| && AllWellFormed(es) && DistinctPrompts(es)
    ensures AllWellFormed(es[..i] + es[i + 1..]) && DistinctPrompts(es[..i] + es[i + 1..])
  {
    var r := es[..i] + es[i + 1..];
    forall a, b | 0 <= a < b < |r| ensures r[a].question != r[b].question {
      var a', b' := if a < i then a else a + 1, if b < i then b else b + 1;
      assert r[a] == es[a'] && r[b] == es[b'];
    }
  }

  /**
   * One step of the tick loop: the enemy at `i` advances and either leaves
   * the live list (costing a life) or replaces its old copy there.
   */
  lemma FallStep(s: seq<Enemy>, i: nat, live: seq<Enemy>, pos: nat)
    requires i < |s|
    requires pos == |Survivors(s[..i])| && live == Survivors(s[..i]) + s[i..]
    ensures pos < |live|
    ensures Landed(Advance(s[i])) ==>
      && live[..pos] + live[pos + 1..] == Survivors(s[..i + 1]) + s[i + 1..]
      && pos == |Survivors(s[..i + 1])|
      && Fallen(s[..i + 1]) == Fallen(s[..i]) + 1
    ensures !Landed(Advance(s[i])) ==>
      && live[pos := Advance(s[i])] == Survivors(s[..i + 1]) + s[i + 1..]
      && pos + 1 == |Survivors(s[..i + 1])|
      && Fallen(s[..i + 1]) == Fallen(s[..i])
  {
    assert s[..i + 1][..i] == s[..i];
    assert s[i..] == [s[i]] + s[i + 1..];
  }

  /**
   * The falling loop of one frame: every enemy advances once, in list order;
   * those past the ground leave the list and are counted.
   */
  method FallAll(s: seq<Enemy>) returns (live: seq<Enemy>, fallen: nat)
    ensures live == Survivors(s) && fallen == Fallen(s)
    ensures |live| + fallen == |s|
  {
    live := s;
    fallen := 0;
    var pos := 0;
    var i := 0;
    while i < |s|
      invariant 0 <= i <= |s|
      invariant pos == |Survivors(s[..i])|
      invariant live == Survivors(s[..i]) + s[i..]
      invariant fallen == Fallen(s[..i])
    {
      var e := Advance(s[i]);
      FallStep(s, i, live, pos);
      if e.y > GROUND {
        live := live[..pos] + live[pos + 1..];
        fallen := fallen + 1;
      } else {
        live := live[pos := e];
        pos := pos + 1;
      }
      i := i + 1;
    }
    assert s[..i] == s && s[i..] == [];
    SurvivorsAndFallen(s);
  }

  /**
   * The question loop of a spawn: up to five questions are drawn until one
   * is not already on the field.
   */
  method DrawFresh(data: QuestionData, category: string, difficulty: string, draws: seq<MathDraw>, es: seq<Enemy>)
    returns (attempts: seq<Option<QA>>, qa: Option<QA>)
    requires |draws| == 5
    requires category == MATH ==> forall t :: 0 <= t < 5 ==> ValidDraw(difficulty, draws[t])
    ensures |attempts| <= 5
    ensures forall t :: 0 <= t < |attempts| ==> QuestionOutcome(data, category, difficulty, draws[t], attempts[t])
    ensures match FirstFresh(attempts, es)
      case None => |attempts| == 5 && qa.None?
      case Some(t) => t == |attempts| - 1 && qa == attempts[t]
  {
    attempts := [];
    qa := None;
    var t := 0;
    while t < 5
      invariant 0 <= t <= 5 && |attempts| == t
      invariant forall u :: 0 <= u < t ==> QuestionOutcome(data, category, difficulty, draws[u], attempts[u])
      invariant forall u :: 0 <= u < t ==> !Fresh(attempts[u], es)
    {
      var candidate := GetQuestion(data, category, difficulty, draws[t]);
      attempts := attempts + [candidate];
      if candidate.Some? {
        var isDuplicate := IsDuplicate(es, candidate.value.prompt);
        if !isDuplicate {
          qa := candidate;
          assert Fresh(attempts[t], es);
          return;
        }
      }
      t := t + 1;
    }
  }

  /**
   * The placement loop of a spawn: up to ten drawn columns are tried until the
   * padded candidate rect collides with no enemy.
   */
  method PlaceColumn(xs: seq<int>, tw: nat, th: nat, es: seq<Enemy>) returns (column: Option<nat>)
    requires |xs| == 10
    ensures column == FirstFree(xs, tw, th, es)
  {
    var k := 0;
    while k < 10
      invariant 0 <= k <= 10
      invariant forall j :: 0 <= j < k ==> !Free(Candidate(xs[j], tw, th), es)
    {
      var collision := HitsAny(Candidate(xs[k], tw, th), es);
      if !collision {
        return Some(k);
      }
      k := k + 1;
    }
    return None;
  }

  class Game {
    var state: Screen
    var selectedCat: nat
    var selectedDiff: nat
    var enemies: seq<Enemy>
    var userText: string
    var score: int
    var lives: int
    var spawnInterval: int
    var wrongFeedback: int
    /** The question data loaded at start-up. */
    const data: QuestionData

    ghost function Snap(): Snapshot
      reads this
    {
      Snapshot(state, selectedCat, selectedDiff, enemies, userText, score, lives, spawnInterval, wrongFeedback)
    }

    ghost predicate Valid()
      reads this
    {
      && selectedCat < |CATEGORIES| && selectedDiff < |DIFFICULTIES|
      && score >= 0 && score % SCORE_STEP == 0
      && lives <= START_LIVES && (state == Playing ==> lives >= 1)
      && MIN_INTERVAL <= spawnInterval <= START_INTERVAL
      && 0 <= wrongFeedback <= FEEDBACK_TICKS
      && AllWellFormed(enemies) && DistinctPrompts(enemies)
    }

    /** The globals as the program starts: the menu, first category and mode selected. */
    constructor (data: QuestionData)
      ensures Valid() && this.data == data
      ensures Snap() == Snapshot(Menu, 0, 0, [], "", 0, START_LIVES, START_INTERVAL, 0)
    {
      this.data := data;
      state := Menu;
      selectedCat, selectedDiff := 0, 0;
      enemies := [];
      userText := "";
      score := 0;
      lives := START_LIVES;
      spawnInterval := START_INTERVAL;
      wrongFeedback := 0;
    }

    /** `reset_game`: a fresh round; the screen, feedback timer and selections stay. */
    method ResetGame()
      requires Valid()
      modifies this
      ensures Valid()
      ensures Snap() == Reset(old(Snap()))
    {
      score := 0;
      lives := START_LIVES;
      enemies := [];
      userText := "";
      spawnInterval := START_INTERVAL;
    }

    /** A mouse click: only the menu reacts, by selecting or by starting a round. */
    method Click(b: Button)
      requires Valid()
      requires b.CategoryButton? ==> b.index < |CATEGORIES|
      requires b.DifficultyButton? ==> b.index < |DIFFICULTIES|
      modifies this
      ensures Valid()
      ensures old(state) != Menu ==> Snap() == old(Snap())
      ensures old(state) == Menu ==>
        Snap() == (match b
                   case CategoryButton(i) => old(Snap()).(selectedCat := i)
                   case DifficultyButton(i) => old(Snap()).(selectedDiff := i)
                   case PlayButton => Reset(old(Snap())).(state := Playing)
                   case Elsewhere => old(Snap()))
    {
      if state == Menu {
        match b
        case CategoryButton(i) => selectedCat := i;
        case DifficultyButton(i) => selectedDiff := i;
        case PlayButton =>
          ResetGame();
          state := Playing;
        case Elsewhere =>
      }
    }

    /**
     * A key press. Menu: Enter starts a round. Playing: Enter submits the
     * typed text, Backspace drops its last character, Escape returns to the
     * menu and any other key appends its character. Game over: R starts a new
     * round, M returns to the menu.
     */
    method KeyDown(key: Key, unicode: string)
      requires Valid()
      modifies this
      ensures Valid()
      ensures old(state) == Menu ==>
        Snap() == if key == Return then Reset(old(Snap())).(state := Playing) else old(Snap())
      ensures old(state) == GameOver ==>
        Snap() == (match key
                   case KeyR => Reset(old(Snap())).(state := Playing)
                   case KeyM => old(Snap()).(state := Menu)
                   case _ => old(Snap()))
      ensures old(state) == Playing && key == Return ==> Snap() == AfterSubmit(old(Snap()))
      ensures old(state) == Playing && key == Backspace ==>
        Snap() == old(Snap()).(userText := if |old(userText)| == 0 then "" else old(userText)[..|old(userText)| - 1])
      ensures old(state) == Playing && key == Escape ==> Snap() == old(Snap()).(state := Menu)
      ensures old(state) == Playing && key !in {Return, Backspace, Escape} ==>
        Snap() == old(Snap()).(userText := old(userText) + unicode)
      ensures old(state) != Playing && state == Playing ==> Snap() == Reset(old(Snap())).(state := Playing)
    {
      if state == Menu {
        if key == Return {
          ResetGame();
          state := Playing;
        }
      } else if state == Playing {
        if key == Return {
          Submit();
        } else if key == Backspace {
          if |userText| > 0 {
            userText := userText[..|userText| - 1];
          }
        } else if key == Escape {
          state := Menu;
        } else {
          userText := userText + unicode;
        }
      } else {
        if key == KeyR {
          ResetGame();
          state := Playing;
        } else if key == KeyM {
          state := Menu;
        }
      }
    }

    method Submit()
      requires Valid() && state == Playing
      modifies this
      ensures Valid()
      ensures Snap() == AfterSubmit(old(Snap()))
    {
      var matched := FindMatch(enemies, userText);
      if matched.Some? {
        RemovalKeepsInvariants(enemies, matched.value);
        enemies := enemies[..matched.value] + enemies[matched.value + 1..];
        userText := "";
        score := score + SCORE_STEP;
      } else if |userText| > 0 {
        wrongFeedback := FEEDBACK_TICKS;
        userText := "";
      }
    }
  
    /**
     * The spawn timer firing while playing: up to five questions are drawn
     * until one is not already on the field; for it, up to ten columns are
     * tried until the padded candidate rect at y = -60 collides with no
     * enemy; then the new enemy is appended with the capped speed and the
     * spawn interval follows the score. Any failure leaves the state as it was.
     * `tw` x `th` is the rendered size of the chosen prompt, `xs` the drawn
     * columns, `baseSpeed` the drawn speed.
     */
    method SpawnEvent(draws: seq<MathDraw>, tw: nat, th: nat, xs: seq<int>, baseSpeed: real)
      returns (attempts: seq<Option<QA>>)
      requires Valid()
      requires |draws| == 5 && |xs| == 10
      requires CATEGORIES[selectedCat] == MATH ==>
        forall t :: 0 <= t < 5 ==> ValidDraw(GetDifficulty(score, DIFFICULTIES[selectedDiff]), draws[t])
      requires forall k :: 0 <= k < 10 ==> MARGIN <= xs[k] <= WIDTH - MARGIN - (tw + 54)
      requires 0.5 <= baseSpeed <= 1.5
      modifies this
      ensures Valid()
      ensures old(state) != Playing ==> Snap() == old(Snap()) && attempts == []
      ensures old(state) == Playing ==> |attempts| <= 5
      ensures old(state) == Playing ==> forall t :: 0 <= t < |attempts| ==>
        QuestionOutcome(data, CATEGORIES[selectedCat], GetDifficulty(score, DIFFICULTIES[selectedDiff]), draws[t], attempts[t])
      ensures old(state) == Playing ==>
        match FirstFresh(attempts, old(enemies))
        case None => |attempts| == 5 && Snap() == old(Snap())
        case Some(t) =>
          t == |attempts| - 1 &&
          match FirstFree(xs, tw, th, old(enemies))
          case None => Snap() == old(Snap())
          case Some(k) =>
            Snap() == old(Snap()).(
              enemies := old(enemies) + [NewEnemy(attempts[t].value, xs[k], tw, th, SpawnSpeed(score, baseSpeed))],
              spawnInterval := SpawnInterval(score))
    {
      attempts := [];
      if state != Playing {
        return;
      }
      var mode := DIFFICULTIES[selectedDiff];
      var currDiff := GetDifficulty(score, mode);
      var category := CATEGORIES[selectedCat];

      var qa;
      attempts, qa := DrawFresh(data, category, currDiff, draws, enemies);
      if qa.None? {
        return;
      }
      var column := PlaceColumn(xs, tw, th, enemies);
      if column.None? {
        return;
      }
      var finalX := xs[column.value];

      var speed := SpawnSpeed(score, baseSpeed);
      AddEnemy(NewEnemy(qa.value, finalX, tw, th, speed));
    }

    /**
     * The end of a successful spawn: the new enemy joins the field at the end
     * and the spawn interval follows the score.
     */
    method AddEnemy(e: Enemy)
      requires Valid() && WellFormed(e) && !IsActive(enemies, e.question)
      modifies this
      ensures Valid()
      ensures Snap() == old(Snap()).(enemies := old(enemies) + [e], spawnInterval := SpawnInterval(old(score)))
    {
      enemies := enemies + [e];
      var newInterval := SpawnInterval(score);
      if newInterval != spawnInterval {
        spawnInterval := newInterval;
      }
    }

    /**
     * The per-frame update while playing: every enemy falls once, in list
     * order; each one past the ground is removed and costs a life, and the
     * round is over once no life is left. The wrong-answer feedback then
     * counts down by one if it is running.
     */
    method Tick()
      requires Valid()
      modifies this
      ensures Valid()
      ensures old(state) != Playing ==> Snap() == old(Snap())
      ensures old(state) == Playing ==>
        Snap() == old(Snap()).(
          enemies := Survivors(old(enemies)),
          lives := old(lives) - Fallen(old(enemies)),
          state := if old(lives) - Fallen(old(enemies)) <= 0 then GameOver else Playing,
          wrongFeedback := if old(wrongFeedback) > 0 then old(wrongFeedback) - 1 else old(wrongFeedback))
    {
      if state != Playing {
        return;
      }
      var snapshot := enemies;
      var live, fallen := FallAll(snapshot);
      var left := lives - fallen;
      SurvivorsStayWellFormed(snapshot);
      SurvivorsStayDistinct(snapshot);
      var countdown := if wrongFeedback > 0 then wrongFeedback - 1 else wrongFeedback;
      enemies, lives := live, left;
      state := if left <= 0 then GameOver else Playing;
      wrongFeedback := countdown;
    }
  }

  /** The easy draw 2, +, 2 gives the prompt "2 + 2" with answer "4". */
  lemma TwoPlusTwoDrawn(d: MathDraw)
    requires d == MathDraw(Plus, Plus, 0.0, false, 2, 2, 0)
    ensures ValidDraw(EASY, d) && GenerateMath(EASY, d) == QA("2 + 2", "4")
  {
    assert Show(2) == "2" && Show(4) == "4";
    assert Spaced(["2", "+", "2"]) == "2" + " " + Spaced(["+", "2"]);
  }

  /** Typing "4" answers "4" and typing "5" does not. */
  lemma TypedDigits()
    ensures Matches("4", "4") && !Matches("5", "4")
  {
    assert Strip("4") == "4" && Strip("5") == "5";
    assert Lower("5")[0] == '5';
  }

  /**
   * The start of a round from start-up: Enter in the menu starts it (first
   * category "matematik", mode "dinamik", so the easy tier) and the first
   * spawn draws "2 + 2", placed at the left margin.
   */
  method StartTwoPlusTwo(data: QuestionData, tw: nat, th: nat) returns (g: Game)
    requires tw <= 706
    ensures g.Valid() && g.state == Playing && g.lives == START_LIVES && g.userText == ""
    ensures fresh(g) && g.score == 0 && g.wrongFeedback == 0
    ensures g.enemies == [NewEnemy(QA("2 + 2", "4"), MARGIN, tw, th, SpawnSpeed(0, 1.0))]
  {
    g := new Game(data);
    g.KeyDown(Return, "");
    var d := MathDraw(Plus, Plus, 0.0, false, 2, 2, 0);
    TwoPlusTwoDrawn(d);
    var xs := seq(10, _ => MARGIN);
    var attempts := g.SpawnEvent([d, d, d, d, d], tw, th, xs, 1.0);
    assert attempts[0] == Some(QA("2 + 2", "4"));
  }

  /**
   * Answering the first enemy of that round: "4" removes it and scores 10;
   * "5" starts the wrong-answer feedback and leaves the score at 0 and the
   * enemy on the field.
   */
  method TwoPlusTwoRound(data: QuestionData, tw: nat, th: nat, right: bool) returns (g: Game)
    requires tw <= 706
    ensures g.Valid() && g.state == Playing && g.lives == START_LIVES && g.userText == ""
    ensures right ==> g.score == 10 && g.enemies == [] && g.wrongFeedback == 0
    ensures !right ==>
      g.score == 0 && |g.enemies| == 1 && g.enemies[0].question == "2 + 2" && g.wrongFeedback == FEEDBACK_TICKS
  {
    g := StartTwoPlusTwo(data, tw, th);
    var typed := if right then "4" else "5";
    g.KeyDown(OtherKey, typed);
    assert g.userText == typed && g.state == Playing;
    TypedDigits();
    assert FirstMatch(g.enemies, typed) == if right then Some(0) else None;
    g.KeyDown(Return, "");
  }
}
