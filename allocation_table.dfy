/**
 * The two operations the interface performs on its `std::vector`s of
 * allocated resources: `std::find_if` (the first position whose entry
 * satisfies a predicate) and `erase` at that position.
 */
module AllocationTable {

  /** `std::find_if` over `s`: the first index whose element satisfies `p`, or `|s|` (the end iterator). */
  function FirstIndex<T>(s: seq<T>, p: T -> bool): (k: nat)
    ensures k <= |s|
    ensures k < |s| ==> p(s[k])
    ensures forall j :: 0 <= j < k ==> !p(s[j])
    decreases |s|
  {
    if |s| == 0 then 0
    else if p(s[0]) then 0
    else 1 + FirstIndex(s[1..], p)
  }

  /** How many elements of `s` satisfy `p`. */
  function CountMatches<T>(s: seq<T>, p: T -> bool): (n: nat)
    ensures n <= |s|
    decreases |s|
  {
    if |s| == 0 then 0
    else (if p(s[0]) then 1 else 0) + CountMatches(s[1..], p)
  }

  /** `std::vector::erase` at position `k`: the elements before and after `k`, in order. */
  function RemoveAt<T>(s: seq<T>, k: nat): (r: seq<T>)
    requires k < |s|
    ensures |r| == |s| - 1
    ensures forall j :: 0 <= j < k ==> r[j] == s[j]
    ensures forall j :: k <= j < |r| ==> r[j] == s[j + 1]
  {
    s[..k] + s[k + 1..]
  }

  /** The search comes back with the end iterator exactly when no element matches. */
  lemma {:induction false} FirstIndexMissesIffNoMatch<T>(s: seq<T>, p: T -> bool)
    ensures FirstIndex(s, p) == |s| <==> CountMatches(s, p) == 0
    ensures CountMatches(s, p) == 0 <==> forall j :: 0 <= j < |s| ==> !p(s[j])
    decreases |s|
  {
    if |s| > 0 {
      FirstIndexMissesIffNoMatch(s[1..], p);
      if !p(s[0]) {
        forall j | 0 <= j < |s| && p(s[j])
          ensures p(s[1..][j - 1])
        {
          assert j != 0;
        }
      }
    }
  }

  /** Counting distributes over concatenation. */
  lemma {:induction false} CountMatchesAppend<T>(s: seq<T>, t: seq<T>, p: T -> bool)
    ensures CountMatches(s + t, p) == CountMatches(s, p) + CountMatches(t, p)
    decreases |s|
  {
    if |s| > 0 {
      assert (s + t)[1..] == s[1..] + t;
      CountMatchesAppend(s[1..], t, p);
    } else {
      assert s + t == t;
    }
  }

  /** Erasing the first match removes exactly one matching element. */
  lemma {:induction false} RemoveFirstMatchCount<T>(s: seq<T>, p: T -> bool)
    requires FirstIndex(s, p) < |s|
    ensures CountMatches(RemoveAt(s, FirstIndex(s, p)), p) == CountMatches(s, p) - 1
  {
    var k := FirstIndex(s, p);
    assert s == s[..k] + [s[k]] + s[k + 1..];
    CountMatchesAppend(s[..k] + [s[k]], s[k + 1..], p);
    CountMatchesAppend(s[..k], [s[k]], p);
    CountMatchesAppend(s[..k], s[k + 1..], p);
    assert CountMatches([s[k]], p) == 1 by {
      assert [s[k]][1..] == [];
    }
  }

  /** Appending a matching element to a table with no match makes it the first match, and erasing it restores the table. */
  lemma {:induction false} FirstIndexAppend<T>(s: seq<T>, x: T, p: T -> bool)
    requires forall j :: 0 <= j < |s| ==> !p(s[j])
    requires p(x)
    ensures FirstIndex(s + [x], p) == |s|
    ensures RemoveAt(s + [x], |s|) == s
    decreases |s|
  {
    if |s| > 0 {
      assert (s + [x])[1..] == s[1..] + [x];
      FirstIndexAppend(s[1..], x, p);
    }
    assert (s + [x])[..|s|] == s;
  }

  /** Replacing an element by one the predicate judges the same way does not move the first match. */
  lemma {:induction false} FirstIndexReplace<T>(s: seq<T>, k: nat, x: T, p: T -> bool)
    requires k < |s|
    requires p(x) == p(s[k])
    ensures FirstIndex(s[k := x], p) == FirstIndex(s, p)
    decreases |s|
  {
    if k > 0 && !p(s[0]) {
      assert s[k := x][1..] == s[1..][k - 1 := x];
      FirstIndexReplace(s[1..], k - 1, x, p);
    }
  }
}
