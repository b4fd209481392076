/** Duplicate-free sequences and the `seen` idiom that builds them. */
module Sequences {

  ghost predicate Distinct<T>(s: seq<T>) {
    forall i, j | 0 <= i < j < |s| :: s[i] != s[j]
  }

  /** `acc` followed by the elements of `s` it lacks, each at its first occurrence. */
  function AddNew<T(==)>(acc: seq<T>, s: seq<T>): seq<T>
    decreases |s|
  {
    if s == [] then acc else AddNew(if s[0] in acc then acc else acc + [s[0]], s[1..])
  }

  function Dedup<T(==)>(s: seq<T>): seq<T> { AddNew([], s) }

  lemma {:induction false} AddNewConcat<T>(acc: seq<T>, s: seq<T>, t: seq<T>)
    ensures AddNew(acc, s + t) == AddNew(AddNew(acc, s), t)
    decreases |s|
  {
    if s == [] {
      assert s + t == t;
    } else {
      assert (s + t)[1..] == s[1..] + t;
      AddNewConcat(if s[0] in acc then acc else acc + [s[0]], s[1..], t);
    }
  }

  lemma {:induction false} AddNewContents<T>(acc: seq<T>, s: seq<T>)
    ensures acc <= AddNew(acc, s)
    ensures forall x :: x in AddNew(acc, s) <==> x in acc || x in s
    ensures Distinct(acc) ==> Distinct(AddNew(acc, s))
    decreases |s|
  {
    if s != [] {
      AddNewContents(if s[0] in acc then acc else acc + [s[0]], s[1..]);
      assert s == [s[0]] + s[1..];
    }
  }

  /** Nothing is added when everything is there already. */
  lemma {:induction false} AddNewAbsorbs<T>(acc: seq<T>, s: seq<T>)
    requires forall x | x in s :: x in acc
    ensures AddNew(acc, s) == acc
    decreases |s|
  {
    if s != [] {
      AddNewAbsorbs(acc, s[1..]);
    }
  }

  lemma {:induction false} AddNewDistinct<T>(acc: seq<T>, s: seq<T>)
    requires Distinct(acc + s)
    ensures AddNew(acc, s) == acc + s
    decreases |s|
  {
    if s != [] {
      assert (acc + s)[|acc|] == s[0];
      forall i | 0 <= i < |acc| ensures acc[i] != s[0] {
        assert (acc + s)[i] == acc[i];
      }
      assert acc + [s[0]] + s[1..] == acc + s;
      AddNewDistinct(acc + [s[0]], s[1..]);
    }
  }

  /** Deduplication leaves a sequence alone exactly when it repeats nothing. */
  lemma DedupIsIdentityIffDistinct<T>(s: seq<T>)
    ensures Dedup(s) == s <==> Distinct(s)
  {
    if Distinct(s) {
      assert [] + s == s;
      AddNewDistinct([], s);
    }
    AddNewContents([], s);
  }

  /** Position of the first `x` in `s`. */
  function FirstIndex<T(==)>(s: seq<T>, x: T): (i: nat)
    requires x in s
    ensures i < |s| && s[i] == x
    ensures forall j | 0 <= j < i :: s[j] != x
  {
    if s[0] == x then 0 else FirstIndex(s[1..], x) + 1
  }

  ghost predicate InOrderOfFirst<T>(r: seq<T>, s: seq<T>) {
    && (forall x | x in r :: x in s)
    && (forall i, j | 0 <= i < j < |r| :: FirstIndex(s, r[i]) < FirstIndex(s, r[j]))
  }

  lemma FirstIndexInPrefix<T>(s: seq<T>, k: nat, x: T)
    requires k <= |s| && x in s[..k]
    ensures x in s && FirstIndex(s, x) < k
  {
    var i :| 0 <= i < k && s[..k][i] == x;
    assert s[i] == x;
  }

  /** The elements of `s`, without repetition, by first occurrence: what `Dedup` means. */
  lemma DedupKeepsFirstOccurrences<T>(s: seq<T>)
    ensures Distinct(Dedup(s)) && InOrderOfFirst(Dedup(s), s)
    ensures forall x :: x in Dedup(s) <==> x in s
  {
    AddNewContents([], s);
    DedupPrefix(s, |s|);
    assert s[..|s|] == s;
  }

  lemma {:induction false} DedupPrefix<T>(s: seq<T>, k: nat)
    requires k <= |s|
    ensures InOrderOfFirst(Dedup(s[..k]), s)
  {
    AddNewContents([], s[..k]);
    if k > 0 {
      var before := Dedup(s[..k - 1]);
      DedupPrefix(s, k - 1);
      AddNewContents([], s[..k - 1]);
      assert s[..k] == s[..k - 1] + [s[k - 1]];
      AddNewConcat([], s[..k - 1], [s[k - 1]]);
      assert [s[k - 1]][1..] == [];
      if s[k - 1] !in before {
        NewElementComesLast(s, k - 1, before);
      }
    }
  }

  lemma NewElementComesLast<T>(s: seq<T>, k: nat, before: seq<T>)
    requires k < |s| && InOrderOfFirst(before, s) && s[k] !in before
    requires forall x :: x in before <==> x in s[..k]
    ensures InOrderOfFirst(before + [s[k]], s)
  {
    var after := before + [s[k]];
    assert forall h | 0 <= h < k :: s[..k][h] == s[h];
    forall i, j | 0 <= i < j < |after|
      ensures FirstIndex(s, after[i]) < FirstIndex(s, after[j])
    {
      if j == |before| {
        FirstIndexInPrefix(s, k, after[i]);
      }
    }
  }

  /** Deduplicating twice, adding nothing new the second time, changes nothing. */
  lemma DedupAgain<T>(s: seq<T>, t: seq<T>)
    ensures Dedup(Dedup(s + t) + t) == Dedup(s + t)
  {
    var once := Dedup(s + t);
    AddNewContents([], s + t);
    AddNewConcat([], once, t);
    assert [] + once == once;
    AddNewDistinct([], once);
    AddNewAbsorbs(once, t);
  }
}
