/** Letter-ring gesture geometry: which letters a pointer sample reaches and
    the word a selection of ring indices spells. Positions are integer
    points supplied by the layout; the ring layout itself is not modelled. */
module Gesture {
  import opened Seqs

  datatype Point = Point(x: int, y: int)

  /** A letter is reached when the pointer is closer than this to it. */
  const Threshold: int := 40

  /** Euclidean distance below the threshold, compared on squares so that
      no square root is needed. */
  predicate Near(letter: Point, pointer: Point) {
    var dx, dy := pointer.x - letter.x, pointer.y - letter.y;
    dx * dx + dy * dy < Threshold * Threshold
  }

  /** A number at least `m` away from zero has a square of at least `m²`. */
  lemma {:induction false} SquareAtLeast(d: int, m: int)
    requires 0 <= m
    requires d >= m || d <= -m
    ensures d * d >= m * m
  {
    var a := if d >= 0 then d else -d;
    assert a * a == d * d;
    assert a * a >= m * a >= m * m;
  }

  /** A number at most `m` away from zero has a square of at most `m²`. */
  lemma {:induction false} SquareAtMost(d: int, m: int)
    requires 0 <= m
    requires -m <= d <= m
    ensures d * d <= m * m
  {
    var a := if d >= 0 then d else -d;
    assert a * a == d * d;
    assert a * a <= m * a <= m * m;
  }

  /** Nearness is a strict distance bound: it is symmetric, a letter under
      the pointer is near, a letter exactly the threshold away along an axis
      is not, nothing is near unless both offsets are below the threshold,
      and offsets of at most 28 on each axis (28² + 28² < 40²) are near. */
  lemma NearBounds(letter: Point, pointer: Point)
    ensures Near(letter, pointer) <==> Near(pointer, letter)
    ensures Near(letter, letter)
    ensures !Near(letter, Point(letter.x + Threshold, letter.y))
    ensures Near(letter, pointer) ==>
      -Threshold < pointer.x - letter.x < Threshold && -Threshold < pointer.y - letter.y < Threshold
    ensures -28 <= pointer.x - letter.x <= 28 && -28 <= pointer.y - letter.y <= 28 ==> Near(letter, pointer)
  {
    var dx, dy := pointer.x - letter.x, pointer.y - letter.y;
    assert (-dx) * (-dx) == dx * dx && (-dy) * (-dy) == dy * dy;
    SquareAtLeast(dx, 0);
    SquareAtLeast(dy, 0);
    if dx >= Threshold || dx <= -Threshold {
      SquareAtLeast(dx, Threshold);
    }
    if dy >= Threshold || dy <= -Threshold {
      SquareAtLeast(dy, Threshold);
    }
    if -28 <= dx <= 28 && -28 <= dy <= 28 {
      SquareAtMost(dx, 28);
      SquareAtMost(dy, 28);
    }
  }

  predicate Ascending(s: seq<nat>) {
    forall j, k :: 0 <= j < k < |s| ==> s[j] < s[k]
  }

  /** Every index names a letter of the ring. */
  predicate InRange(letters: seq<char>, selection: seq<nat>) {
    forall k :: 0 <= k < |selection| ==> selection[k] < |letters|
  }

  /** The ring indices at or after `from` that one pointer sample reaches:
      those not yet selected and within the threshold, in index order. */
  function ReachedFrom(positions: seq<Point>, selection: seq<nat>, pointer: Point, from: nat): (r: seq<nat>)
    decreases |positions| - from
    ensures Ascending(r)
    ensures forall k :: 0 <= k < |r| ==>
      from <= r[k] < |positions| && r[k] !in selection && Near(positions[r[k]], pointer)
    ensures forall i :: from <= i < |positions| && i !in selection && Near(positions[i], pointer) ==> i in r
  {
    if from >= |positions| then []
    else if from !in selection && Near(positions[from], pointer) then
      [from] + ReachedFrom(positions, selection, pointer, from + 1)
    else
      ReachedFrom(positions, selection, pointer, from + 1)
  }

  /** All ring indices one pointer sample adds to the selection. */
  function Reached(positions: seq<Point>, selection: seq<nat>, pointer: Point): seq<nat> {
    ReachedFrom(positions, selection, pointer, 0)
  }

  /** An index is reached exactly when it names a position, is not selected
      yet and lies within the threshold of the pointer. */
  lemma ReachedExactly(positions: seq<Point>, selection: seq<nat>, pointer: Point)
    ensures Ascending(Reached(positions, selection, pointer))
    ensures forall i: int :: i in Reached(positions, selection, pointer) <==>
      0 <= i < |positions| && i !in selection && Near(positions[i], pointer)
  {
    var r := Reached(positions, selection, pointer);
    forall i: int | i in r
      ensures 0 <= i < |positions| && i !in selection && Near(positions[i], pointer)
    {
      var k :| 0 <= k < |r| && r[k] == i;
    }
  }

  /** The word a selection spells: its letters in selection order. */
  function Spell(letters: seq<char>, selection: seq<nat>): (w: string)
    requires InRange(letters, selection)
    ensures |w| == |selection|
    ensures forall k :: 0 <= k < |selection| ==> w[k] == letters[selection[k]]
  {
    seq(|selection|, k requires 0 <= k < |selection| => letters[selection[k]])
  }

  /** Spelling distributes over concatenation of selections. */
  lemma SpellAppend(letters: seq<char>, a: seq<nat>, b: seq<nat>)
    requires InRange(letters, a) && InRange(letters, b)
    ensures InRange(letters, a + b)
    ensures Spell(letters, a + b) == Spell(letters, a) + Spell(letters, b)
  {
    assert InRange(letters, a + b) by {
      forall k | 0 <= k < |a + b| ensures (a + b)[k] < |letters| {
        if k >= |a| {
          assert (a + b)[k] == b[k - |a|];
        }
      }
    }
    var l, r := Spell(letters, a + b), Spell(letters, a) + Spell(letters, b);
    forall k | 0 <= k < |l| ensures l[k] == r[k] {
      if k >= |a| {
        assert (a + b)[k] == b[k - |a|];
      }
    }
  }

  /** Appending the reached indices to a duplicate-free selection keeps it
      duplicate free. */
  lemma ExtendNoDup(selection: seq<nat>, added: seq<nat>)
    requires NoDup(selection) && Ascending(added)
    requires forall k :: 0 <= k < |added| ==> added[k] !in selection
    ensures NoDup(selection + added)
  {
    var s := selection + added;
    forall i, j | 0 <= i < j < |s| ensures s[i] != s[j] {
      if j >= |selection| {
        assert s[j] == added[j - |selection|];
        if i >= |selection| {
          assert s[i] == added[i - |selection|];
        }
      }
    }
  }
}
