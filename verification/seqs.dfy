/** Small facts about sequences used across the model: duplicate freedom and
    the set of elements a sequence holds. */
module Seqs {

  /** No element occurs twice. */
  predicate NoDup<T(==)>(s: seq<T>) {
    forall i, j :: 0 <= i < j < |s| ==> s[i] != s[j]
  }

  /** The elements of a sequence, as a set. */
  function Elems<T>(s: seq<T>): set<T> {
    set x | x in s
  }

  /** A duplicate-free sequence has exactly as many distinct elements as entries. */
  lemma {:induction false} NoDupCard<T>(s: seq<T>)
    requires NoDup(s)
    ensures |Elems(s)| == |s|
  {
    if s != [] {
      var t := s[1..];
      assert NoDup(t) by {
        forall i, j | 0 <= i < j < |t| ensures t[i] != t[j] {
          assert t[i] == s[i + 1] && t[j] == s[j + 1];
        }
      }
      NoDupCard(t);
      assert s[0] !in t by {
        forall k | 0 <= k < |t| ensures t[k] != s[0] {
          assert t[k] == s[k + 1];
        }
      }
      assert s == [s[0]] + t;
      assert Elems(s) == {s[0]} + Elems(t);
    }
  }

  /** Two duplicate-free sequences, the first contained in the second, have
      the same length exactly when they hold the same elements. */
  lemma SameLengthIffSameElems<T>(sub: seq<T>, all: seq<T>)
    requires NoDup(sub) && NoDup(all)
    requires forall x :: x in sub ==> x in all
    ensures |sub| == |all| <==> (forall x :: x in all ==> x in sub)
  {
    NoDupCard(sub);
    NoDupCard(all);
    var a, b := Elems(sub), Elems(all);
    assert a <= b;
    if |sub| == |all| {
      assert |b - a| == |b| - |a|;
      assert b - a == {};
      assert b == a;
      forall x | x in all ensures x in sub {
        assert x in b;
      }
    }
    if forall x :: x in all ==> x in sub {
      assert a == b;
    }
  }

  /** Each element is absent from the elements after it: the shape in which a
      literal list can be checked one entry at a time. */
  predicate FreshAfter<T(==)>(s: seq<T>) {
    forall i :: 0 <= i < |s| ==> s[i] !in s[i + 1..]
  }

  lemma FreshAfterNoDup<T>(s: seq<T>)
    requires FreshAfter(s)
    ensures NoDup(s)
  {
    forall i, j | 0 <= i < j < |s| ensures s[i] != s[j] {
      assert s[j] in s[i + 1..];
    }
  }

  /** A seven-element list is checked entry by entry. */
  lemma SevenFresh<T>(w: seq<T>)
    requires |w| == 7
    requires w[0] !in w[1..] && w[1] !in w[2..] && w[2] !in w[3..] && w[3] !in w[4..]
    requires w[4] !in w[5..] && w[5] !in w[6..]
    ensures NoDup(w)
  {
    forall i | 0 <= i < |w| ensures w[i] !in w[i + 1..] {
      assert i == 0 || i == 1 || i == 2 || i == 3 || i == 4 || i == 5 || i == 6;
    }
    FreshAfterNoDup(w);
  }
}
