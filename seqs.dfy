/** Small facts about sequence concatenation that the proofs call explicitly. */
module Seqs {

  /** Regrouping a concatenation of three parts. */
  lemma AppendAssoc<T>(a: seq<T>, b: seq<T>, c: seq<T>)
    ensures (a + b) + c == a + (b + c)
  {
  }

  /** Appending nothing changes nothing. */
  lemma AppendNil<T>(s: seq<T>)
    ensures s + [] == s
  {
  }

  /** Peeling the last element off the second half of a concatenation. */
  lemma SnocSplit<T>(s: seq<T>, ds: seq<T>)
    requires |ds| >= 1
    ensures s + ds == (s + ds[..|ds| - 1]) + [ds[|ds| - 1]]
    ensures |ds| == 1 ==> s + ds[..|ds| - 1] == s
  {
  }

  /** A suffix is the slice up to any later point followed by the rest. */
  lemma SliceSplit<T>(s: seq<T>, i: nat, j: nat)
    requires i <= j <= |s|
    ensures s[i..] == s[i..j] + s[j..]
  {
  }

  /** A prefix is a shorter prefix followed by the slice between them. */
  lemma PrefixSplit<T>(s: seq<T>, i: nat, j: nat)
    requires i <= j <= |s|
    ensures s[..j] == s[..i] + s[i..j]
  {
  }

  /** The lists one after the other. */
  function Flatten<T>(parts: seq<seq<T>>): seq<T> {
    if parts == [] then [] else Flatten(parts[..|parts| - 1]) + parts[|parts| - 1]
  }

  /** An element is in the flattened lists exactly when it is in one of them. */
  lemma FlattenMembers<T>(parts: seq<seq<T>>, m: T)
    ensures m in Flatten(parts) <==> exists i :: 0 <= i < |parts| && m in parts[i]
  {
    FlattenSound(parts, m);
    if exists i :: 0 <= i < |parts| && m in parts[i] {
      var i :| 0 <= i < |parts| && m in parts[i];
      FlattenComplete(parts, i, m);
    }
  }

  /** Every element of the flattened lists comes from one of them. */
  lemma {:induction false} FlattenSound<T>(parts: seq<seq<T>>, m: T)
    ensures m in Flatten(parts) ==> exists i :: 0 <= i < |parts| && m in parts[i]
    decreases |parts|
  {
    if parts != [] && m in Flatten(parts) {
      var init := parts[..|parts| - 1];
      if m in Flatten(init) {
        FlattenSound(init, m);
        var i :| 0 <= i < |init| && m in init[i];
        assert parts[i] == init[i];
      } else {
        assert m in parts[|parts| - 1];
      }
    }
  }

  /** Every element of one of the lists is in the flattened lists. */
  lemma {:induction false} FlattenComplete<T>(parts: seq<seq<T>>, i: nat, m: T)
    requires i < |parts| && m in parts[i]
    ensures m in Flatten(parts)
    decreases |parts|
  {
    var init := parts[..|parts| - 1];
    if i < |init| {
      assert init[i] == parts[i];
      FlattenComplete(init, i, m);
    }
  }

  /** Flattening a prefix one list longer appends that list. */
  lemma FlattenSnoc<T>(parts: seq<seq<T>>, i: nat)
    requires i < |parts|
    ensures Flatten(parts[..i + 1]) == Flatten(parts[..i]) + parts[i]
  {
    assert parts[..i + 1][..i] == parts[..i];
  }
}
