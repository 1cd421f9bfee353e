/** Properties of the game engine that relate several transitions: the
    found-word bound, when the completion signal fires, and the invariant
    every sequence of player events keeps. */
module GameLaws {
  import opened Seqs
  import opened Puzzles
  import opened Gesture
  import opened Game
  import opened Crossword

  /** The found words never outnumber the target words. */
  lemma {:induction false} FoundWithinTargets(g: State)
    requires Valid(g)
    ensures |g.found| <= |Targets(g)|
  {
    CatalogValid(g.level);
    NoDupCard(g.found);
    NoDupCard(Targets(g));
    var a, b := Elems(g.found), Elems(Targets(g));
    assert a <= b;
    assert b == a + (b - a);
    assert a * (b - a) == {};
  }

  /** The completion modal's test (found count equals target count) holds
      exactly when every target word has been found. */
  lemma {:induction false} CompleteIffCount(g: State)
    requires Valid(g)
    ensures Complete(g) <==> |g.found| == |Targets(g)|
  {
    CatalogValid(g.level);
    SameLengthIffSameElems(g.found, Targets(g));
  }

  /** A release that finds a new word raises the completion signal exactly
      when that word completes the level, which it was not before; the
      signal and the modal agree. */
  lemma {:induction false} CompletionSignalExact(g: State)
    requires Valid(g)
    requires Release(g).feedback.NewWord?
    ensures !Complete(g)
    ensures Release(g).feedback.levelComplete <==> Complete(Release(g).game)
    ensures Release(g).feedback.levelComplete <==> |Release(g).game.found| == |Targets(g)|
  {
    var r := Release(g);
    assert g.word in Targets(g) && g.word !in g.found;
    CompleteIffCount(r.game);
  }

  /** Once the level is complete no release adds a word or signals again. */
  lemma {:induction false} NothingAfterComplete(g: State)
    requires Valid(g) && Complete(g)
    ensures !Release(g).feedback.NewWord?
    ensures Release(g).game.found == g.found
  {
  }

  /** A release either leaves the found words alone or appends exactly the
      candidate word, which then is a target of at least the minimum length
      that was not found before. */
  lemma ReleaseFoundEffect(g: State)
    ensures var f := Release(g).game.found;
      f == g.found ||
      (f == g.found + [g.word] && g.drawing && |g.word| >= MinWordLength
       && g.word in Targets(g) && g.word !in g.found)
  {
  }

  /** The crossword square (r, c) is shown filled in this state. */
  predicate Revealed(g: State, r: nat, c: nat)
    requires r < |PuzzleOf(g).crossword| && c < |PuzzleOf(g).crossword[r]|
  {
    Filled(PuzzleOf(g).crossword, g.found, r, c)
  }

  /** A release never hides a revealed square; a reset hides them all. */
  lemma ReleaseNeverHides(g: State, r: nat, c: nat)
    requires r < |PuzzleOf(g).crossword| && c < |PuzzleOf(g).crossword[r]|
    ensures Revealed(g, r, c) ==> Revealed(Release(g).game, r, c)
    ensures !Revealed(ResetLevel(g), r, c)
  {
    if Revealed(g, r, c) {
      FilledMonotone(PuzzleOf(g).crossword, g.found, Release(g).game.found, r, c);
    }
  }

  lemma ToggleHintTwice(g: State)
    ensures ToggleHint(ToggleHint(g)) == g
  {
  }

  /** Player and caller input, as the level screen receives it. */
  datatype Event =
    | Down(index: nat)
    | Motion(positions: seq<Point>, pointer: Point)
    | Up
    | ResetPressed
    | HintPressed
    | LevelChanged(level: int)

  /** One event. The screen only delivers presses on letters it shows and a
      layout of one point per letter; anything else is dropped. */
  function Step(g: State, e: Event): State {
    match e
    case Down(i) => if i < |Letters(g)| then Press(g, i) else g
    case Motion(ps, p) => if |ps| <= |Letters(g)| then Move(g, ps, p) else g
    case Up => Release(g).game
    case ResetPressed => ResetLevel(g)
    case HintPressed => ToggleHint(g)
    case LevelChanged(l) => ChangeLevel(g, l)
  }

  function Run(g: State, events: seq<Event>): State
    decreases |events|
  {
    if events == [] then g else Run(Step(g, events[0]), events[1..])
  }

  /** Every state reachable from a valid one keeps the invariant: the
      selection is duplicate free and spells the candidate word, and the
      found words are distinct targets, no more of them than targets. */
  lemma {:induction false} RunKeepsValid(g: State, events: seq<Event>)
    requires Valid(g)
    ensures Valid(Run(g, events))
    ensures |Run(g, events).found| <= |Targets(Run(g, events))|
    decreases |events|
  {
    if events == [] {
      FoundWithinTargets(g);
    } else {
      RunKeepsValid(Step(g, events[0]), events[1..]);
    }
  }

  /** From a freshly mounted screen, every event sequence keeps the invariant. */
  lemma FromInitValid(level: int, events: seq<Event>)
    ensures Valid(Run(Init(level), events))
  {
    RunKeepsValid(Init(level), events);
  }

  /** Level 1 with six of its seven words found and P-E-A-R-L traced. */
  function PearlPending(): State {
    State(1, [1, 2, 0, 6, 3], "PEARL", true,
          ["PETAL", "LEAP", "STEAL", "PEAR", "PALE", "TALE"], false)
  }

  lemma PearlSpelled()
    ensures InRange("APELTSR", [1, 2, 0, 6, 3])
    ensures Spell("APELTSR", [1, 2, 0, 6, 3]) == "PEARL"
  {
  }

  lemma PearlPendingFoundDistinct()
    ensures NoDup(PearlPending().found)
  {
    var f := PearlPending().found;
    SevenFresh(f + ["PEARL"]);
    assert forall i, j :: 0 <= i < j < |f| ==> f[i] == (f + ["PEARL"])[i] && f[j] == (f + ["PEARL"])[j];
  }

  lemma PearlPendingValid()
    ensures Valid(PearlPending())
  {
    var g := PearlPending();
    assert Letters(g) == "APELTSR";
    assert Targets(g) == Words1;
    PearlSpelled();
    PearlPendingFoundDistinct();
  }

  /** Releasing there finds the last word, raises the completion signal and
      leaves all seven words found; a further release adds nothing. */
  lemma PearlCompletesLevelOne()
    ensures Release(PearlPending()).feedback == NewWord("PEARL", true)
    ensures |Release(PearlPending()).game.found| == 7
    ensures Complete(Release(PearlPending()).game)
    ensures forall g' :: Valid(g') && g'.level == 1 && g'.found == Release(PearlPending()).game.found ==>
      !Release(g').feedback.NewWord? && Release(g').game.found == g'.found
  {
    var g := PearlPending();
    assert Targets(g) == Words1;
    assert "PEARL" in Words1;
    PearlPendingValid();
    CompletionSignalExact(g);
    var done := Release(g).game;
    forall g' | Valid(g') && g'.level == 1 && g'.found == done.found
      ensures !Release(g').feedback.NewWord? && Release(g').game.found == g'.found
    {
      assert Targets(g') == Targets(done);
      NothingAfterComplete(g');
    }
  }
}
