# Word-connection puzzle engine, modelled in Dafny

This project models the game engine of a casual word puzzle. The player drags
across a ring of letters to spell words. Each word found is checked against
the level's target list, and squares of a small crossword are revealed as
words are found. The project also models the settings dialog's theme editor.

Both are modelled as immutable records with pure transition functions:

- `Puzzles` (`puzzles.dfy`): the three-level catalog (letters, target words,
  hint text, crossword grid) and the level lookup.
- `Gesture` (`gesture.dfy`): the proximity test, with integer points and
  squared distance against the 40-unit threshold. It also computes which ring
  indices one pointer sample adds to the selection, and the word a selection
  spells.
- `Game` (`game.dfy`): the level screen's state (selection, candidate word,
  drawing flag, found words, hint flag). Its transitions are press, move,
  release (and the word check behind it), hint toggle, level reset and level
  change. A release reports a `Feedback` value. Its `levelComplete` flag
  stands for the delayed completion callback.
- `GameLaws` (`game_laws.dfy`): the invariant every event sequence keeps,
  the found-word bound, when the completion signal fires, the crossword
  never un-revealing, and a worked level-1 scenario.
- `Crossword` (`crossword.dfy`): the reveal rule as a predicate. It also has
  the renderer's loop-and-break test as methods, proved equal to that
  predicate.
- `Themes` (`themes.dfy`): the predefined theme table and lower-casing.
- `Settings` and `SettingsLaws` (`settings.dfy`, `settings_laws.dfy`): the
  dialog state `(selected, colors)` with its open, choose, edit and apply
  transitions, and the round trips between them.
- `Seqs` (`seqs.dfy`): duplicate freedom and its cardinality facts.

Facts about the code that shape the model:

- The hint is a plain visibility toggle (`Game.ToggleHint`), as at
  src/components/MainFeature.jsx:195-197.
- The minimum candidate length is 3 (`MinWordLength`), as at
  src/components/MainFeature.jsx:150.
- Found words are an ordered list, not a set. That they never repeat is
  proved, not assumed.
- Reset and level change leave the drawing flag as it is, as the code does.
- In the theme table, the `ocean` entry lists its primary, secondary and
  accent colours twice. Object-literal semantics keep the later values, so
  ocean carries vibrant's three colours (`Themes.OceanShowsVibrantColors`).
  Its backgrounds are listed once and equal vibrant's.

## Model

| member | source | states |
|---|---|---|
| Puzzles.PuzzleForLevel | src/components/MainFeature.jsx:59 | levels 1 to 3 select their catalog entry; any other level number falls back to the first puzzle |
| Puzzles.CatalogValid | src/components/MainFeature.jsx:14-56 | whatever the level number, the selected puzzle's target words are pairwise distinct |
| Gesture.ReachedFrom | src/components/MainFeature.jsx:122-137 | the indices one motion sample reaches are strictly ascending, each unselected and within the threshold, and no unselected index within the threshold is missed |
| Gesture.ReachedExactly | src/components/MainFeature.jsx:122-137 | an index is appended by a sample if and only if it names a letter position, is not yet selected and lies closer than 40 units to the pointer |
| Gesture.NearBounds | src/components/MainFeature.jsx:124-130 | the proximity test `Gesture.Near` is a strict Euclidean bound of 40: symmetric, true for a letter under the pointer, false exactly 40 away along an axis, false unless both offsets are below 40, and true when both offsets are at most 28 |
| Gesture.Spell | src/components/MainFeature.jsx:111-133 | the word a selection spells has one letter per selected index, the k-th being the letter at the k-th selected ring index |
| Gesture.SpellAppend | src/components/MainFeature.jsx:131-134 | appending indices to the selection appends exactly their letters, in order, to the word |
| Game.Init | src/components/MainFeature.jsx:61-65 | a freshly mounted screen has an empty selection and word, no found words, no drawing and no hint, and satisfies the invariant |
| Game.Press | src/components/MainFeature.jsx:107-113 | pressing an unselected letter starts drawing with the selection `[index]` and the word being that letter; pressing a selected letter changes nothing; the invariant is kept |
| Game.Move | src/components/MainFeature.jsx:116-138 | a sample while not drawing changes nothing; while drawing the old selection stays a prefix and the appended part is, in ascending order, exactly the unselected indices within the threshold; nothing else changes; the invariant is kept |
| Game.CheckWord | src/components/MainFeature.jsx:149-179 | the selection and word always end empty; a candidate shorter than 3 never changes the found words; a new target word is appended once, with the completion flag set exactly when the found count reaches the target count; already-found and non-target candidates leave the found words unchanged; the invariant is kept |
| Game.Release | src/components/MainFeature.jsx:141-146 | releasing while not drawing changes nothing; otherwise drawing stops, the word is checked and the selection and word end empty |
| Game.ToggleHint | src/components/MainFeature.jsx:195-197 | the hint flag flips and every other field is unchanged |
| Game.ResetLevel | src/components/MainFeature.jsx:200-205 | selection, word, found words and hint are cleared, the level and drawing flag are kept, and the result satisfies the invariant |
| Game.ChangeLevel | src/components/MainFeature.jsx:88-94 | a different level number clears the screen as the reset does and keeps the invariant; the same number changes nothing |
| GameLaws.FoundWithinTargets | src/components/MainFeature.jsx:157-163 | in a valid state the found words never outnumber the targets |
| GameLaws.CompleteIffCount | src/components/MainFeature.jsx:449 | the modal's test (found count equals target count) holds exactly when every target word is found |
| GameLaws.CompletionSignalExact | src/components/MainFeature.jsx:157-167 | when a release finds a new word the level was incomplete before, and the completion signal is raised exactly when the level is complete after, which is exactly the modal's condition |
| GameLaws.NothingAfterComplete | src/components/MainFeature.jsx:157-174 | once every target is found, no release adds a word or raises the completion signal again |
| GameLaws.ReleaseFoundEffect | src/components/MainFeature.jsx:150-174 | a release either leaves the found words alone or appends exactly the candidate, which is then an unfound target of at least 3 letters |
| GameLaws.ReleaseNeverHides | src/components/MainFeature.jsx:212-244 | a release never un-reveals a crossword square, and after a reset no square is revealed |
| GameLaws.ToggleHintTwice | src/components/MainFeature.jsx:195-197 | toggling the hint twice is the identity |
| GameLaws.RunKeepsValid | src/components/MainFeature.jsx:107-205 | after any sequence of presses, samples, releases, resets, hint toggles and level changes, the selection is duplicate free and spells the word, and the found words are distinct targets, no more of them than targets |
| GameLaws.FromInitValid | src/components/MainFeature.jsx:61-65 | every event sequence from a freshly mounted screen reaches a state satisfying the invariant |
| GameLaws.PearlCompletesLevelOne | src/components/MainFeature.jsx:157-167 | on level 1 with six words found, releasing a trace of P-E-A-R-L reports the new word with the completion signal and leaves seven found words, all targets |
| Crossword.MatchRight | src/components/MainFeature.jsx:217-227 | the rightward loop answers true exactly when the word fits in the row from that column and every square matches its letter |
| Crossword.MatchDown | src/components/MainFeature.jsx:229-239 | the downward loop answers true exactly when the word fits in the row count and every row it crosses has the matching letter in that column, a missing column counting as a mismatch |
| Crossword.IsFilled | src/components/MainFeature.jsx:212-244 | the renderer's search marks a square exactly when it is non-blank and some found word is spelled from it rightward or downward |
| Crossword.At | src/components/MainFeature.jsx:233 | a square inside the grid reads as its cell; a column past the end of a row (JavaScript `undefined`) reads as blank, which matches no letter |
| Crossword.FilledMonotone | src/components/MainFeature.jsx:212-244 | finding more words never un-marks a square |
| Crossword.NothingFoundNothingFilled | src/components/MainFeature.jsx:212-216 | with no found words no square is marked |
| Crossword.PetalRevealsOnlyItsStart | src/components/MainFeature.jsx:20-26 | on level 1 with PETAL found, its first square is marked and the next square, which PETAL passes through, is not: only start squares are marked |
| Themes.WithColors | src/components/Settings.jsx:57-62 | the result has exactly the given colours and keeps the entry's name, description and backgrounds |
| Themes.Lower | src/components/Settings.jsx:8 | lower-casing keeps the length, maps each ASCII capital to its small letter and keeps every other character, leaves no capital behind, and is the identity on a string without capitals |
| Themes.NamesAreKeys | src/context/ThemeContext.jsx:4-71 | every table entry's name, lower-cased, is its own key |
| Themes.OceanShowsVibrantColors | src/context/ThemeContext.jsx:23-34 | with the later duplicate keys winning, the ocean entry has the vibrant entry's three colours, not its first-listed primary |
| Settings.Open | src/components/Settings.jsx:16-26 | opening loads the current theme's three colours and its lower-cased name as the selection |
| Settings.ChooseTheme | src/components/Settings.jsx:28-39 | choosing sets the selection; a non-custom choice copies that entry's three colours; choosing custom keeps the edited colours |
| Settings.EditColor | src/components/Settings.jsx:41-51 | the edited colour takes the value, the other two are unchanged, and the selection becomes custom |
| Settings.Apply | src/components/Settings.jsx:53-69 | with custom selected, the custom entry with the edited colours; with another table key, that entry unchanged; with a key the table lacks, no theme |
| SettingsLaws.ChooseThenApply | src/components/Settings.jsx:28-65 | choosing a non-custom theme and applying installs exactly that entry |
| SettingsLaws.EditThenApply | src/components/Settings.jsx:41-62 | editing then applying installs the custom entry's name, description and backgrounds, the edited colour and the other two colours as they were |
| SettingsLaws.EditTwiceLastWins | src/components/Settings.jsx:41-51 | a second edit of the same colour overrides the first, and the selection stays custom |
| SettingsLaws.EditsCommute | src/components/Settings.jsx:41-46 | edits of two different colours give the same dialog in either order |
| SettingsLaws.ChooseIdempotent | src/components/Settings.jsx:28-39 | choosing the same theme twice is the same as choosing it once |
| SettingsLaws.TransitionsKeepConsistent | src/components/Settings.jsx:28-51 | after choosing or editing, the selection is a table key, and unless custom the colours are that entry's |
| SettingsLaws.OpenThenApply | src/components/Settings.jsx:16-69 | opening on any table theme and applying at once reinstalls that theme unchanged |
| SettingsLaws.ApplyThenOpen | src/components/Settings.jsx:16-69 | for a consistent dialog, applying and reopening restores the dialog exactly |

## Left out

- Ring layout: the cos/sin placement of letters on a circle is floating
  point (src/components/MainFeature.jsx:74-83). Letter positions are inputs,
  one integer point per ring index.
- Gesture.Near: compares squared integer distance with 1600 in place of the
  floating-point `sqrt(...) < 40`. The two agree on integer coordinates.
  Fractional pixel coordinates are not modelled.
- Pointer coordinate extraction (`getBoundingClientRect`, touch lists) is
  left out, because it reads the page layout. The pointer point is an input.
- The element-mounted guard on the layout effect and on motion samples is
  left out: the model assumes the ring element exists.
- Animations, toasts, the SVG connector lines and both 1.5-second timers are
  left out, because they are presentation. The model's `Feedback` value
  carries what they would show. The delayed level-complete callback is the
  `levelComplete` flag.
- React batching, functional updaters and closures are not reproduced. Each
  handler is one atomic transition over the state the handler saw.
- GameLaws.Step drops presses on indices past the ring and layouts with more
  points than letters. The screen cannot deliver either.
- Settings.Open: lower-cases ASCII capitals only. JavaScript's
  `toLowerCase` also folds other Unicode capitals, and every table name is
  ASCII.
- Theme persistence (`localStorage`), dark-mode detection, CSS variable
  writes and class toggling in the theme provider are left out, because they
  are browser side effects. Only the table is modelled.
- The dialog's rendering, its open/close plumbing and the colour inputs are
  left out. The markup renders inputs for the primary colour only. The
  handler accepts any of the three keys, and the model follows the handler.
- Routing, the not-found page and the home page's layout and animations are
  left out. The home page's `level + 1` advance appears only as the `level`
  argument of `Game.ChangeLevel`.
- String lengths are counted in characters, not UTF-16 code units. All
  letters in the catalog are ASCII, so the two counts agree.
