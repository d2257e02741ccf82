/** Shared vocabulary: optional values, results, and a few facts about sequences. */
module Prelude {

  const SECONDS_PER_DAY: int := 86400

  datatype Option<+T> = None | Some(value: T)

  datatype Result<+T, +E> = Ok(value: T) | Err(error: E)

  ghost predicate Distinct<T>(s: seq<T>) {
    forall i, j :: 0 <= i < j < |s| ==> s[i] != s[j]
  }

  ghost function Elements<T>(s: seq<T>): set<T> {
    set x | x in s
  }

  /** A sequence without repetitions has as many members as positions. */
  lemma {:induction false} DistinctCardinality<T>(s: seq<T>)
    requires Distinct(s)
    ensures |Elements(s)| == |s|
  {
    if s == [] {
    } else {
      var last := |s| - 1;
      DistinctCardinality(s[..last]);
      assert s == s[..last] + [s[last]];
      assert Elements(s) == Elements(s[..last]) + {s[last]};
      assert s[last] !in s[..last];
    }
  }

  lemma DistinctConcat<T>(s: seq<T>, t: seq<T>)
    requires Distinct(s) && Distinct(t) && forall x :: x in s ==> x !in t
    ensures Distinct(s + t)
  {
    forall i, j | 0 <= i < j < |s + t| ensures (s + t)[i] != (s + t)[j] {
      if i < |s| <= j {
        assert s[i] in s && t[j - |s|] in t;
      }
    }
  }

  lemma {:induction false} DistinctMultiplicity<T>(s: seq<T>)
    requires Distinct(s)
    ensures forall x :: multiset(s)[x] == if x in s then 1 else 0
  {
    if s == [] {
    } else {
      var most, last := s[..|s| - 1], s[|s| - 1];
      DistinctMultiplicity(most);
      assert s == most + [last] && last !in most;
    }
  }

  /** Two sequences without repetitions and with the same members are permutations of each other. */
  lemma DistinctPermutation<T>(s: seq<T>, t: seq<T>)
    requires Distinct(s) && Distinct(t)
    requires forall x :: x in s <==> x in t
    ensures multiset(s) == multiset(t)
  {
    DistinctMultiplicity(s);
    DistinctMultiplicity(t);
  }

  /** Places in a list, in their order. */
  ghost predicate Ascending(at: seq<nat>) {
    forall j, k :: 0 <= j < k < |at| ==> at[j] < at[k]
  }

  lemma AscendingSnoc(at: seq<nat>, n: nat)
    requires Ascending(at) && forall k :: 0 <= k < |at| ==> at[k] < n
    ensures Ascending(at + [n]) && n in at + [n] && forall i :: i in at ==> i in at + [n]
  {
  }

  /** The position of the first id that is not in the table, or the length of the list. */
  function FirstUnknown(known: set<nat>, ids: seq<nat>): (i: nat)
    ensures i <= |ids| && (i < |ids| ==> ids[i] !in known)
    ensures forall k :: 0 <= k < i ==> ids[k] in known
  {
    if ids == [] then 0
    else
      var i := FirstUnknown(known, ids[..|ids| - 1]);
      if i < |ids| - 1 || ids[i] !in known then i else |ids|
  }

  /** Looking one position further from within the known prefix. */
  lemma FirstUnknownFrom(known: set<nat>, ids: seq<nat>, i: nat)
    requires i < |ids| && i <= FirstUnknown(known, ids)
    ensures if ids[i] in known then i < FirstUnknown(known, ids) else i == FirstUnknown(known, ids)
  {
  }

  ghost predicate IsPrefix<T>(done: seq<T>, all: seq<T>, i: nat) {
    i <= |all| && done == all[..i]
  }

  lemma WholePrefix<T>(done: seq<T>, all: seq<T>)
    requires IsPrefix(done, all, |all|)
    ensures done == all
  {
  }

  lemma PrefixGrows<T>(done: seq<T>, all: seq<T>, i: nat)
    requires i < |all| && IsPrefix(done, all, i)
    ensures IsPrefix(done + [all[i]], all, i + 1)
  {
  }

  lemma RepeatCountsTwice<T>(s: seq<T>, i: nat, j: nat)
    requires i < j < |s| && s[i] == s[j]
    ensures multiset(s)[s[i]] >= 2
  {
    assert s == s[..i] + [s[i]] + s[i + 1..j] + [s[j]] + s[j + 1..];
  }

  function Lower(s: string): (r: string)
    ensures |r| == |s|
    ensures forall i :: 0 <= i < |s| ==> r[i] == LowerChar(s[i])
  {
    if s == [] then [] else [LowerChar(s[0])] + Lower(s[1..])
  }

  function LowerChar(c: char): char {
    if 'A' <= c <= 'Z' then ((c as int) + 32) as char else c
  }

  /** The same letter, or the two cases of one. */
  predicate SameLetter(a: char, b: char) {
    || a == b
    || ('A' <= a <= 'Z' && b as int == a as int + 32)
    || ('A' <= b <= 'Z' && a as int == b as int + 32)
  }

  lemma LowerCharFolds(a: char, b: char)
    ensures LowerChar(a) == LowerChar(b) <==> SameLetter(a, b)
  {
  }

  /** Two texts are equal up to case exactly when they are letter by letter. */
  lemma LowerFolds(s: string, t: string)
    ensures Lower(s) == Lower(t) <==> |s| == |t| && forall i :: 0 <= i < |s| ==> SameLetter(s[i], t[i])
  {
    var a, b := Lower(s), Lower(t);
    if |s| == |t| {
      forall i | 0 <= i < |s| ensures a[i] == b[i] <==> SameLetter(s[i], t[i]) {
        LowerCharFolds(s[i], t[i]);
      }
    } else {
      assert |a| != |b|;
    }
  }
}
