/** Rust's `Option`, as returned by `match_file`, `Path::extension` and `Path::file_name`. */
module Options {
  datatype Option<+T> = None | Some(value: T)
}

/**
 * Keeping and transforming the elements of a sequence in order. The three loops of the
 * tool that push into a vector they own (extension filter, name extraction, playlist
 * assembly) all have this shape, so they are specified by `FilterMap` and share one
 * lemma about where each kept element came from.
 */
module Seqs {
  import opened Options

  /** The values `f` keeps, in the order of `s`; built from the end, as a loop that pushes. */
  function FilterMap<T, U>(s: seq<T>, f: T -> Option<U>): seq<U>
  {
    if s == [] then []
    else
      var rest := FilterMap(s[..|s| - 1], f);
      match f(s[|s| - 1])
      case Some(v) => rest + [v]
      case None => rest
  }

  /** The positions of `s` whose element `f` keeps, in increasing order. */
  function Positions<T, U>(s: seq<T>, f: T -> Option<U>): seq<nat>
  {
    if s == [] then []
    else
      var rest := Positions(s[..|s| - 1], f);
      if f(s[|s| - 1]).Some? then rest + [|s| - 1] else rest
  }

  /** Strictly increasing positions: an order-preserving choice of elements. */
  predicate Increasing(pos: seq<nat>)
  {
    forall k1, k2 :: 0 <= k1 < k2 < |pos| ==> pos[k1] < pos[k2]
  }

  /**
   * `FilterMap(s, f)` is exactly the subsequence of `s` at the positions `f` keeps, mapped
   * through `f`: one element per kept position, in order, and no other.
   */
  lemma {:induction false} FilterMapPositions<T, U>(s: seq<T>, f: T -> Option<U>)
    ensures |FilterMap(s, f)| == |Positions(s, f)| <= |s|
    ensures Increasing(Positions(s, f))
    ensures forall k :: 0 <= k < |Positions(s, f)| ==>
              Positions(s, f)[k] < |s| && f(s[Positions(s, f)[k]]) == Some(FilterMap(s, f)[k])
    ensures forall j :: 0 <= j < |s| ==> (f(s[j]).Some? <==> j in Positions(s, f))
  {
    if s != [] {
      var front := s[..|s| - 1];
      FilterMapPositions(front, f);
      assert forall j :: 0 <= j < |front| ==> front[j] == s[j];
      var pos, out := Positions(s, f), FilterMap(s, f);
      var pos', out' := Positions(front, f), FilterMap(front, f);
      if f(s[|s| - 1]).Some? {
        assert pos == pos' + [|s| - 1] && out == out' + [f(s[|s| - 1]).value];
      } else {
        assert pos == pos' && out == out';
      }
    }
  }

  /** `FilterMap` distributes over appending one element: the step of a pushing loop. */
  lemma FilterMapSnoc<T, U>(s: seq<T>, x: T, f: T -> Option<U>)
    ensures FilterMap(s + [x], f) == FilterMap(s, f) + (if f(x).Some? then [f(x).value] else [])
  {
    assert (s + [x])[..|s + [x]| - 1] == s;
  }
}
