/** The crossword reveal: which squares of a level's crossword are shown as
    filled, given the words found so far. A square is filled when it is not
    blank and some found word is spelled from it, rightward along its row or
    downward along its column. */
module Crossword {
  import opened Puzzles

  /** The square at row `r`, column `c`; a column past the end of a row reads
      as blank, which, like a real blank, matches no letter. */
  function At(grid: Grid, r: nat, c: nat): (cell: Cell)
    ensures r < |grid| && c < |grid[r]| ==> cell == grid[r][c]
    ensures !(r < |grid| && c < |grid[r]|) ==> cell == Blank
  {
    if r < |grid| && c < |grid[r]| then grid[r][c] else Blank
  }

  /** `w` is spelled rightward from (r, c) and fits in that row. */
  predicate RightMatch(grid: Grid, r: nat, c: nat, w: string)
    requires r < |grid|
  {
    && c + |w| <= |grid[r]|
    && forall i :: 0 <= i < |w| ==> grid[r][c + i] == Letter(w[i])
  }

  /** `w` is spelled downward from (r, c), fitting in the number of rows;
      every row it crosses must have a matching square in column `c`. */
  predicate DownMatch(grid: Grid, r: nat, c: nat, w: string) {
    && r + |w| <= |grid|
    && forall i :: 0 <= i < |w| ==> At(grid, r + i, c) == Letter(w[i])
  }

  predicate StartsAt(grid: Grid, r: nat, c: nat, w: string)
    requires r < |grid|
  {
    RightMatch(grid, r, c, w) || DownMatch(grid, r, c, w)
  }

  /** The reveal rule for one square. */
  predicate Filled(grid: Grid, found: seq<string>, r: nat, c: nat)
    requires r < |grid| && c < |grid[r]|
  {
    && grid[r][c] != Blank
    && exists k :: 0 <= k < |found| && StartsAt(grid, r, c, found[k])
  }

  /** The rightward test: a length check, then a character loop that stops at
      the first mismatch. */
  method MatchRight(grid: Grid, r: nat, c: nat, w: string) returns (m: bool)
    requires r < |grid|
    ensures m == RightMatch(grid, r, c, w)
  {
    if c + |w| > |grid[r]| {
      return false;
    }
    m := true;
    var i := 0;
    while i < |w|
      invariant 0 <= i <= |w|
      invariant forall j :: 0 <= j < i ==> grid[r][c + j] == Letter(w[j])
    {
      if grid[r][c + i] != Letter(w[i]) {
        m := false;
        break;
      }
      i := i + 1;
    }
  }

  /** The downward test, reading past-the-end columns as mismatches. */
  method MatchDown(grid: Grid, r: nat, c: nat, w: string) returns (m: bool)
    ensures m == DownMatch(grid, r, c, w)
  {
    if r + |w| > |grid| {
      return false;
    }
    m := true;
    var i := 0;
    while i < |w|
      invariant 0 <= i <= |w|
      invariant forall j :: 0 <= j < i ==> At(grid, r + j, c) == Letter(w[j])
    {
      var row := grid[r + i];
      if !(c < |row| && row[c] == Letter(w[i])) {
        assert At(grid, r + i, c) != Letter(w[i]);
        m := false;
        break;
      }
      i := i + 1;
    }
  }

  /** The square test as the renderer runs it: for each found word in turn,
      a non-blank square is tried rightward, then downward; the first hit
      ends the search. */
  method IsFilled(grid: Grid, found: seq<string>, r: nat, c: nat) returns (filled: bool)
    requires r < |grid| && c < |grid[r]|
    ensures filled == Filled(grid, found, r, c)
  {
    filled := false;
    var k := 0;
    while k < |found| && !filled
      invariant 0 <= k <= |found|
      invariant filled == (grid[r][c] != Blank && exists j :: 0 <= j < k && StartsAt(grid, r, c, found[j]))
    {
      if grid[r][c] != Blank {
        var right := MatchRight(grid, r, c, found[k]);
        if right {
          filled := true;
        } else {
          filled := MatchDown(grid, r, c, found[k]);
        }
      }
      k := k + 1;
    }
  }

  /** Finding more words never hides a square. */
  lemma FilledMonotone(grid: Grid, found: seq<string>, more: seq<string>, r: nat, c: nat)
    requires r < |grid| && c < |grid[r]|
    requires forall w :: w in found ==> w in more
    requires Filled(grid, found, r, c)
    ensures Filled(grid, more, r, c)
  {
    var k :| 0 <= k < |found| && StartsAt(grid, r, c, found[k]);
    assert found[k] in more;
    var k' :| 0 <= k' < |more| && more[k'] == found[k];
  }

  /** With nothing found, nothing is revealed. */
  lemma NothingFoundNothingFilled(grid: Grid, r: nat, c: nat)
    requires r < |grid| && c < |grid[r]|
    ensures !Filled(grid, [], r, c)
  {
  }

  /** Level 1 after finding PETAL: its first square is revealed, but only
      that one; the E next to it, which PETAL passes through, stays hidden. */
  lemma PetalRevealsOnlyItsStart()
    ensures Filled(Level1.crossword, ["PETAL"], 0, 0)
    ensures !Filled(Level1.crossword, ["PETAL"], 0, 1)
  {
    var g := Level1.crossword;
    assert StartsAt(g, 0, 0, ["PETAL"][0]);
    assert !RightMatch(g, 0, 1, "PETAL") by {
      assert g[0][1 + 0] != Letter('P');
    }
    assert !DownMatch(g, 0, 1, "PETAL") by {
      assert At(g, 0 + 0, 1) == Letter('E');
      assert "PETAL"[0] == 'P';
    }
  }
}
