/** Concatenating a sequence of pieces, and finding an element's piece again. */
module Flat {
  import opened Arithmetic

  function Lengths<T>(pieces: seq<seq<T>>): (w: seq<nat>)
    ensures |w| == |pieces| && forall k :: 0 <= k < |w| ==> w[k] == |pieces[k]|
  {
    if pieces == [] then [] else Lengths(pieces[..|pieces| - 1]) + [|pieces[|pieces| - 1]|]
  }

  /** The first `n` pieces in a row. */
  function Flatten<T>(pieces: seq<seq<T>>, n: nat): (all: seq<T>)
    requires n <= |pieces|
    ensures |all| == Prefix(Lengths(pieces), n)
  {
    if n == 0 then [] else Flatten(pieces, n - 1) + pieces[n - 1]
  }

  /** Element `j` of piece `k` stands `j` places after everything before the piece. */
  lemma {:induction false} FlattenAt<T>(pieces: seq<seq<T>>, n: nat, k: nat, j: nat)
    requires k < n <= |pieces| && j < |pieces[k]|
    ensures Prefix(Lengths(pieces), k) + j < Prefix(Lengths(pieces), n)
    ensures Flatten(pieces, n)[Prefix(Lengths(pieces), k) + j] == pieces[k][j]
    decreases n
  {
    if k < n - 1 {
      FlattenAt(pieces, n - 1, k, j);
    }
  }

  lemma {:induction false} FindPiece(sizes: seq<nat>, n: nat, i: nat) returns (k: nat, j: nat)
    requires n <= |sizes| && i < Prefix(sizes, n)
    ensures k < n && j < sizes[k] && i == Prefix(sizes, k) + j
  {
    if i < Prefix(sizes, n - 1) {
      k, j := FindPiece(sizes, n - 1, i);
    } else {
      k, j := n - 1, i - Prefix(sizes, n - 1);
    }
  }

  lemma {:induction false} FlattenAgrees<T>(pieces: seq<seq<T>>, more: seq<seq<T>>, n: nat)
    requires n <= |pieces| && n <= |more| && pieces[..n] == more[..n]
    ensures Flatten(pieces, n) == Flatten(more, n)
  {
    if n > 0 {
      assert pieces[..n - 1] == pieces[..n][..n - 1] == more[..n][..n - 1] == more[..n - 1];
      assert pieces[n - 1] == pieces[..n][n - 1] == more[n - 1];
      FlattenAgrees(pieces, more, n - 1);
    }
  }

  lemma {:induction false} FlattenNothing<T>()
    ensures Flatten<T>([], 0) == []
  {
  }

  lemma {:induction false} FlattenAppend<T>(pieces: seq<seq<T>>, last: seq<T>)
    ensures Flatten(pieces + [last], |pieces| + 1) == Flatten(pieces, |pieces|) + last
  {
    var more := pieces + [last];
    assert pieces[..|pieces|] == more[..|pieces|];
    FlattenAgrees(pieces, more, |pieces|);
  }
}
