/** The word-puzzle game engine of one level screen: the current selection
    and the word it spells, the drawing flag, the words found so far and the
    hint visibility, with the transitions the player's input drives. */
module Game {
  import opened Seqs
  import opened Puzzles
  import opened Gesture

  datatype State = State(
    level: int,              // chosen by the caller; selects the puzzle
    selection: seq<nat>,     // ring indices traced so far
    word: string,            // the candidate word
    drawing: bool,
    found: seq<string>,      // found words, in the order they were found
    showHint: bool)

  /** What a release reports to the player. */
  datatype Feedback =
    | Ignored                                    // release while not drawing
    | TooShort                                   // discarded without a message
    | NewWord(word: string, levelComplete: bool) // valid; `levelComplete` is the delayed completion signal
    | AlreadyFound(word: string)
    | NotTarget(word: string)

  datatype Outcome = Outcome(game: State, feedback: Feedback)

  function PuzzleOf(g: State): Puzzle {
    PuzzleForLevel(g.level)
  }

  function Letters(g: State): seq<char> {
    PuzzleOf(g).letters
  }

  function Targets(g: State): seq<string> {
    PuzzleOf(g).words
  }

  /** The invariant every reachable state keeps. */
  predicate Valid(g: State) {
    && InRange(Letters(g), g.selection)
    && NoDup(g.selection)
    && g.word == Spell(Letters(g), g.selection)
    && NoDup(g.found)
    && (forall w :: w in g.found ==> w in Targets(g))
  }

  /** Every target word has been found: the level is complete. */
  predicate Complete(g: State) {
    forall w :: w in Targets(g) ==> w in g.found
  }

  /** The state of a freshly mounted level screen. */
  function Init(level: int): (g: State)
    ensures Valid(g) && !g.drawing && !g.showHint
    ensures g.level == level && g.selection == [] && g.word == [] && g.found == []
  {
    State(level, [], [], false, [], false)
  }

  /** Pressing a letter starts a new trace at that letter unless the letter
      is already part of the current selection. */
  function Press(g: State, index: nat): (r: State)
    requires index < |Letters(g)|
    ensures index in g.selection ==> r == g
    ensures index !in g.selection ==>
      r.drawing && r.selection == [index] && r.word == [Letters(g)[index]]
      && r.level == g.level && r.found == g.found && r.showHint == g.showHint
    ensures Valid(g) ==> Valid(r)
  {
    if index in g.selection then g
    else g.(drawing := true, selection := [index], word := [Letters(g)[index]])
  }

  /** One pointer sample. While drawing, every letter not selected when the
      sample arrives and within the threshold of the pointer is appended, in
      ring-index order; otherwise the sample is ignored. `positions` holds
      the layout's point for each ring index. */
  function Move(g: State, positions: seq<Point>, pointer: Point): (r: State)
    requires |positions| <= |Letters(g)|
    ensures !g.drawing ==> r == g
    ensures g.drawing ==>
      && |g.selection| <= |r.selection|
      && r.selection[..|g.selection|] == g.selection
      && Ascending(r.selection[|g.selection|..])
      && (forall i: int :: i in r.selection[|g.selection|..] <==>
            0 <= i < |positions| && i !in g.selection && Near(positions[i], pointer))
      && r.level == g.level && r.drawing && r.found == g.found && r.showHint == g.showHint
    ensures Valid(g) ==> Valid(r)
  {
    if !g.drawing then g
    else
      var added := Reached(positions, g.selection, pointer);
      ReachedExactly(positions, g.selection, pointer);
      var r := g.(selection := g.selection + added, word := g.word + Spell(Letters(g), added));
      assert r.selection[|g.selection|..] == added;
      assert r.selection[..|g.selection|] == g.selection;
      if Valid(g) then
        SpellAppend(Letters(g), g.selection, added);
        ExtendNoDup(g.selection, added);
        r
      else r
  }

  /** Judges the candidate word against the level's targets and clears the
      selection. The completion signal is raised when the new word brings the
      found count up to the target count. */
  function CheckWord(g: State): (r: Outcome)
    ensures r.game.selection == [] && r.game.word == []
    ensures r.game.level == g.level && r.game.drawing == g.drawing && r.game.showHint == g.showHint
    ensures |g.word| < MinWordLength ==> r.game.found == g.found && r.feedback == TooShort
    ensures |g.word| >= MinWordLength && g.word in Targets(g) && g.word !in g.found ==>
      r.game.found == g.found + [g.word]
      && r.feedback == NewWord(g.word, |g.found| + 1 == |Targets(g)|)
    ensures |g.word| >= MinWordLength && g.word in g.found ==>
      r.game.found == g.found && r.feedback == AlreadyFound(g.word)
    ensures |g.word| >= MinWordLength && g.word !in Targets(g) && g.word !in g.found ==>
      r.game.found == g.found && r.feedback == NotTarget(g.word)
    ensures Valid(g) ==> Valid(r.game)
  {
    var cleared := g.(selection := [], word := []);
    if |g.word| < MinWordLength then
      Outcome(cleared, TooShort)
    else if g.word in Targets(g) && g.word !in g.found then
      Outcome(cleared.(found := g.found + [g.word]),
              NewWord(g.word, |g.found| + 1 == |Targets(g)|))
    else if g.word in g.found then
      Outcome(cleared, AlreadyFound(g.word))
    else
      Outcome(cleared, NotTarget(g.word))
  }

  /** Lifting the pointer, leaving the ring or ending a touch: ignored unless
      drawing; otherwise drawing stops and the candidate word is checked. */
  function Release(g: State): (r: Outcome)
    ensures !g.drawing ==> r == Outcome(g, Ignored)
    ensures g.drawing ==> !r.game.drawing && r.game.selection == [] && r.game.word == []
    ensures g.drawing ==> r == CheckWord(g.(drawing := false))
    ensures Valid(g) ==> Valid(r.game)
  {
    if !g.drawing then Outcome(g, Ignored)
    else CheckWord(g.(drawing := false))
  }

  function ToggleHint(g: State): (r: State)
    ensures r.showHint == !g.showHint
    ensures r.(showHint := g.showHint) == g
  {
    g.(showHint := !g.showHint)
  }

  /** The reset button: selection, candidate word, found words and hint are
      cleared; the level and the drawing flag stay as they are. */
  function ResetLevel(g: State): (r: State)
    ensures Valid(r)
    ensures r.selection == [] && r.word == [] && r.found == [] && !r.showHint
    ensures r.level == g.level && r.drawing == g.drawing
  {
    g.(selection := [], word := [], found := [], showHint := false)
  }

  /** The caller selecting a level: a different level number clears the
      screen as the reset button does; the same number changes nothing. */
  function ChangeLevel(g: State, level: int): (r: State)
    ensures r.level == level
    ensures level == g.level ==> r == g
    ensures level != g.level ==> r == ResetLevel(g).(level := level)
    ensures level != g.level ==> Valid(r)
  {
    if level == g.level then g
    else g.(level := level, selection := [], word := [], found := [], showHint := false)
  }
}
