/** The puzzle catalog: three fixed levels, each a letter ring, its target
    words, a hint text and a crossword layout. */
module Puzzles {
  import opened Seqs

  /** A crossword square: a transparent placeholder or a letter. */
  datatype Cell = Blank | Letter(ch: char)

  type Grid = seq<seq<Cell>>

  datatype Puzzle = Puzzle(
    letters: seq<char>,   // the ring, clockwise, one letter per index
    words: seq<string>,   // the target words
    hint: string,
    crossword: Grid)      // rows may differ in length

  /** Candidates shorter than this are discarded before any lookup. */
  const MinWordLength: nat := 3

  const Words1: seq<string> := ["PETAL", "LEAP", "STEAL", "PEAR", "PALE", "PEARL", "TALE"]

  const Level1: Puzzle := Puzzle(
    "APELTSR",
    Words1,
    "Think of flowers and gentle movements",
    [[Letter('P'), Letter('E'), Letter('T'), Letter('A'), Letter('L')],
     [Letter('E'), Blank, Blank, Blank, Letter('E')],
     [Letter('A'), Blank, Letter('T'), Blank, Letter('A')],
     [Letter('R'), Blank, Letter('A'), Blank, Letter('P')],
     [Letter('L'), Letter('E'), Letter('L'), Letter('E'), Blank]])

  const Words2: seq<string> := ["DREAM", "WADER", "WORE", "MODE", "ROAM", "MOWER", "WORD"]

  const Level2: Puzzle := Puzzle(
    "DREAMWO",
    Words2,
    "Words about thoughts and actions",
    [[Blank, Letter('D'), Letter('R'), Letter('E'), Letter('A'), Letter('M')],
     [Letter('W'), Letter('O'), Letter('R'), Letter('D'), Blank, Letter('O')],
     [Letter('A'), Blank, Letter('O'), Blank, Blank, Letter('D')],
     [Letter('D'), Blank, Letter('A'), Blank, Blank, Letter('E')],
     [Letter('E'), Blank, Letter('M'), Letter('O'), Letter('W'), Letter('E'), Letter('R')],
     [Letter('R'), Blank, Blank, Blank, Blank, Blank]])

  const Words3: seq<string> := ["BLOOM", "SOIL", "LIMB", "MOONS", "LOIN", "SLOB", "OILS"]

  const Level3: Puzzle := Puzzle(
    "BLOSMIN",
    Words3,
    "Garden and nature related words",
    [[Letter('B'), Letter('L'), Letter('O'), Letter('O'), Letter('M')],
     [Blank, Letter('I'), Letter('I'), Blank, Letter('O')],
     [Letter('S'), Letter('M'), Letter('L'), Blank, Letter('O')],
     [Letter('L'), Letter('B'), Letter('S'), Letter('O'), Letter('N')],
     [Letter('O'), Blank, Blank, Letter('I'), Letter('S')],
     [Letter('B'), Blank, Blank, Letter('L'), Blank]])

  const Catalog: seq<Puzzle> := [Level1, Level2, Level3]

  /** The puzzle shown for a level number: levels 1 to 3 select their entry,
      any other number falls back to the first puzzle. */
  function PuzzleForLevel(level: int): (p: Puzzle)
    ensures p in Catalog
    ensures 1 <= level <= |Catalog| ==> p == Catalog[level - 1]
    ensures !(1 <= level <= |Catalog|) ==> p == Level1
  {
    if 1 <= level <= |Catalog| then Catalog[level - 1] else Catalog[0]
  }

  /** What the game engine relies on in a puzzle: distinct target words. */
  predicate ValidPuzzle(p: Puzzle) {
    NoDup(p.words)
  }

  lemma Words1Distinct() ensures NoDup(Words1) { SevenFresh(Words1); }
  lemma Words2Distinct() ensures NoDup(Words2) { SevenFresh(Words2); }
  lemma Words3Distinct() ensures NoDup(Words3) { SevenFresh(Words3); }

  /** Every level number, in range or not, selects a puzzle whose target
      words are distinct. */
  lemma CatalogValid(level: int)
    ensures ValidPuzzle(PuzzleForLevel(level))
  {
    if level == 2 {
      Words2Distinct();
    } else if level == 3 {
      Words3Distinct();
    } else {
      Words1Distinct();
    }
  }
}
