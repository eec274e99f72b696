/**
 * The order in which a `std::set<std::string>` is iterated (ascending by
 * `std::string::compare`), and the separator-joined lists the segment
 * printer builds from such a set.
 */
module StringOrder {

  /** `a <= b` as `std::string` compares them: character by character, a proper prefix first. */
  predicate Below(a: string, b: string)
    decreases |a|
  {
    |a| == 0 || (|b| > 0 && (a[0] < b[0] || (a[0] == b[0] && Below(a[1..], b[1..]))))
  }

  lemma {:induction false} BelowReflexive(a: string)
    ensures Below(a, a)
    decreases |a|
  {
    if |a| > 0 {
      BelowReflexive(a[1..]);
    }
  }

  lemma {:induction false} BelowAntisymmetric(a: string, b: string)
    requires Below(a, b) && Below(b, a)
    ensures a == b
    decreases |a|
  {
    if |a| > 0 {
      BelowAntisymmetric(a[1..], b[1..]);
      assert a == [a[0]] + a[1..] && b == [b[0]] + b[1..];
    }
  }

  lemma {:induction false} BelowTransitive(a: string, b: string, c: string)
    requires Below(a, b) && Below(b, c)
    ensures Below(a, c)
    decreases |a|
  {
    if |a| > 0 && a[0] == b[0] && b[0] == c[0] {
      BelowTransitive(a[1..], b[1..], c[1..]);
    }
  }

  lemma {:induction false} BelowTotal(a: string, b: string)
    ensures Below(a, b) || Below(b, a)
    decreases |a|
  {
    if |a| > 0 && |b| > 0 && a[0] == b[0] {
      BelowTotal(a[1..], b[1..]);
    }
  }

  /** Every element of `t` is at or above `m`. */
  predicate LowerBound(m: string, t: set<string>)
  {
    forall y :: y in t ==> Below(m, y)
  }

  lemma LowerBoundBelow(x: string, m: string, t: set<string>)
    requires Below(x, m) && LowerBound(m, t)
    ensures LowerBound(x, t)
  {
    forall y | y in t
      ensures Below(x, y)
    {
      BelowTransitive(x, m, y);
    }
  }

  /** The first element a `std::set<std::string>` iteration visits. */
  ghost function Least(s: set<string>): (m: string)
    requires s != {}
    ensures m in s && LowerBound(m, s)
    decreases s
  {
    var x :| x in s;
    if s == {x} then
      BelowReflexive(x);
      x
    else
      var m := Least(s - {x});
      BelowTotal(x, m);
      if Below(x, m) then
        LowerBoundBelow(x, m, s - {x});
        BelowReflexive(x);
        x
      else
        m
  }

  /** A set has only one least element. */
  lemma LeastUnique(s: set<string>, m: string)
    requires m in s && LowerBound(m, s)
    ensures m == Least(s)
  {
    BelowAntisymmetric(m, Least(s));
  }

  /** The elements of `s` in the order a `std::set<std::string>` iteration visits them. */
  ghost function SetOrder(s: set<string>): (r: seq<string>)
    ensures |r| == |s|
    decreases s
  {
    if s == {} then []
    else
      var m := Least(s);
      [m] + SetOrder(s - {m})
  }

  /** The iteration visits exactly the elements of the set. */
  lemma {:induction false} SetOrderElements(s: set<string>)
    ensures forall x :: x in SetOrder(s) <==> x in s
    decreases s
  {
    if s != {} {
      var m := Least(s);
      SetOrderElements(s - {m});
      assert SetOrder(s) == [m] + SetOrder(s - {m});
    }
  }

  /** The iteration order is strictly ascending, so it visits every element exactly once. */
  lemma {:induction false} SetOrderAscending(s: set<string>, i: nat, j: nat)
    requires i < j < |SetOrder(s)|
    ensures Below(SetOrder(s)[i], SetOrder(s)[j])
    ensures SetOrder(s)[i] != SetOrder(s)[j]
    decreases s
  {
    var m := Least(s);
    var rest := SetOrder(s - {m});
    assert SetOrder(s) == [m] + rest;
    if i == 0 {
      SetOrderElements(s - {m});
      assert SetOrder(s)[j] == rest[j - 1];
      assert rest[j - 1] in s - {m};
    } else {
      SetOrderAscending(s - {m}, i - 1, j - 1);
    }
  }

  /** The elements of `xs` separated by `sep`, with no separator after the last one. */
  function Join(xs: seq<string>, sep: string): string
    decreases |xs|
  {
    if |xs| == 0 then ""
    else if |xs| == 1 then xs[0]
    else xs[0] + sep + Join(xs[1..], sep)
  }

  /** Joining one more element appends one separator and the element. */
  lemma {:induction false} JoinSnoc(xs: seq<string>, y: string, sep: string)
    requires |xs| > 0
    ensures Join(xs + [y], sep) == Join(xs, sep) + sep + y
    decreases |xs|
  {
    if |xs| > 1 {
      assert (xs + [y])[1..] == xs[1..] + [y];
      JoinSnoc(xs[1..], y, sep);
    }
  }

  /** The position of the first comma in `s`, or `|s|` when there is none. */
  function FirstComma(s: string): (k: nat)
    ensures k <= |s|
    ensures k < |s| ==> s[k] == ','
    ensures forall i :: 0 <= i < k ==> s[i] != ','
    decreases |s|
  {
    if |s| == 0 || s[0] == ',' then 0 else 1 + FirstComma(s[1..])
  }

  /** Reads a ", "-separated list back into its elements. */
  function SplitTopics(s: string): seq<string>
    decreases |s|
  {
    var k := FirstComma(s);
    if k == |s| then [s]
    else [s[..k]] + SplitTopics(s[if k + 2 <= |s| then k + 2 else |s|..])
  }

  ghost predicate CommaFree(x: string)
  {
    forall i :: 0 <= i < |x| ==> x[i] != ','
  }

  lemma {:induction false} FirstCommaAfter(x: string, t: string)
    requires CommaFree(x) && |t| > 0 && t[0] == ','
    ensures FirstComma(x + t) == |x|
  {
    var k := FirstComma(x + t);
    assert (x + t)[|x|] == ',';
  }

  /** A non-empty ", "-joined list of comma-free names splits back into exactly those names. */
  lemma {:induction false} SplitJoin(xs: seq<string>)
    requires |xs| > 0
    requires forall i :: 0 <= i < |xs| ==> CommaFree(xs[i])
    ensures SplitTopics(Join(xs, ", ")) == xs
    decreases |xs|
  {
    if |xs| == 1 {
      assert Join(xs, ", ") == xs[0];
      assert FirstComma(xs[0]) == |xs[0]|;
    } else {
      var x, rest := xs[0], Join(xs[1..], ", ");
      var s := x + ", " + rest;
      assert Join(xs, ", ") == s;
      FirstCommaAfter(x, ", " + rest);
      assert x + ", " + rest == x + (", " + rest);
      assert s[..|x|] == x;
      assert s[|x| + 2..] == rest;
      SplitJoin(xs[1..]);
      assert xs == [x] + xs[1..];
    }
  }
}
