/** Sequences that arrive in pieces, are overwritten in place, or name their members once. */
module Sequences {

  /** All pieces, one after the other. */
  function Join<T>(pieces: seq<seq<T>>): seq<T> {
    if pieces == [] then [] else Join(pieces[..|pieces| - 1]) + pieces[|pieces| - 1]
  }

  lemma JoinNone<T>(pieces: seq<seq<T>>)
    ensures Join(pieces[..0]) == [] && pieces[..|pieces|] == pieces
  {
  }

  lemma JoinStep<T>(pieces: seq<seq<T>>, i: nat)
    requires i < |pieces|
    ensures Join(pieces[..i + 1]) == Join(pieces[..i]) + pieces[i]
  {
    assert pieces[..i + 1][..i] == pieces[..i];
  }

  /** The same element `n` times. */
  function Fill<T>(x: T, n: nat): (r: seq<T>)
    ensures |r| == n && forall i | 0 <= i < n :: r[i] == x
  {
    seq(n, i => x)
  }

  /** What is written behind `done` replaces as much of what was there. */
  lemma Overwritten<T>(done: seq<T>, was: seq<T>, w: seq<T>, before: seq<T>, after: seq<T>)
    requires |done| + |w| <= |was| && before == done + was[|done|..]
    requires after == before[..|done|] + w + before[|done| + |w|..]
    ensures after == (done + w) + was[|done| + |w|..]
  {
  }

  ghost predicate NoRepeats<T>(s: seq<T>) {
    forall i, j | 0 <= i < j < |s| :: s[i] != s[j]
  }
}
