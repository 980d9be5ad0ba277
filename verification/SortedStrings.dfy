/** Strings in code-unit order, and the sorted list without repeats of any list. */
module SortedStrings {
  /** Code unit by code unit, a proper prefix first. */
  predicate Less(a: string, b: string) {
    if b == "" then false
    else if a == "" then true
    else a[0] < b[0] || (a[0] == b[0] && Less(a[1..], b[1..]))
  }

  lemma {:induction false} LessTotal(a: string, b: string)
    ensures Less(a, b) || a == b || Less(b, a)
    ensures !(Less(a, b) && Less(b, a)) && (a == b ==> !Less(a, b))
  {
    if a != "" && b != "" && a[0] == b[0] {
      LessTotal(a[1..], b[1..]);
      if a[1..] == b[1..] { assert a == [a[0]] + a[1..] == b; }
    }
  }

  lemma {:induction false} LessTransitive(a: string, b: string, c: string)
    requires Less(a, b) && Less(b, c)
    ensures Less(a, c)
  {
    if a != "" && a[0] == b[0] && b[0] == c[0] { LessTransitive(a[1..], b[1..], c[1..]); }
  }

  ghost predicate StrictlySorted(xs: seq<string>) {
    forall i, j :: 0 <= i < j < |xs| ==> Less(xs[i], xs[j])
  }

  function SetOf(xs: seq<string>): set<string> {
    set x | x in xs
  }

  lemma {:induction false} EmptyExactly(xs: seq<string>)
    ensures SetOf(xs) == {} <==> xs == []
  {
    if xs != [] { assert xs[0] in SetOf(xs); }
  }

  /** There is one strictly sorted list of a set. */
  lemma {:induction false} SortedUnique(a: seq<string>, b: seq<string>)
    requires StrictlySorted(a) && StrictlySorted(b) && SetOf(a) == SetOf(b)
    ensures a == b
    decreases |a|
  {
    EmptyExactly(a);
    EmptyExactly(b);
    if a != [] {
      assert a[0] in SetOf(a) && b[0] in SetOf(b);
      FirstIsLeast(a, b[0]);
      FirstIsLeast(b, a[0]);
      LessTotal(a[0], b[0]);
      forall x ensures x in SetOf(a[1..]) <==> x in SetOf(b[1..]) {
        RestOf(a, x);
        RestOf(b, x);
      }
      SortedUnique(a[1..], b[1..]);
      assert a == [a[0]] + a[1..] && b == [b[0]] + b[1..];
    }
  }

  lemma {:induction false} FirstIsLeast(a: seq<string>, x: string)
    requires StrictlySorted(a) && a != [] && x in SetOf(a)
    ensures x == a[0] || Less(a[0], x)
  {
    var i :| 0 <= i < |a| && a[i] == x;
  }

  lemma {:induction false} RestOf(a: seq<string>, x: string)
    requires StrictlySorted(a) && a != []
    ensures x in SetOf(a[1..]) <==> x in SetOf(a) && x != a[0]
  {
    if x in SetOf(a[1..]) {
      var i :| 0 <= i < |a[1..]| && a[1..][i] == x;
      assert a[i + 1] == x;
      LessTotal(a[0], x);
    }
    if x in SetOf(a) && x != a[0] {
      var i :| 0 <= i < |a| && a[i] == x;
      assert a[1..][i - 1] == x;
    }
  }

  /** Into its place, unless it is there already. */
  function Insert(x: string, xs: seq<string>): seq<string> {
    if xs == [] then [x]
    else if x == xs[0] then xs
    else if Less(x, xs[0]) then [x] + xs
    else [xs[0]] + Insert(x, xs[1..])
  }

  function SortedDistinct(xs: seq<string>): seq<string> {
    if xs == [] then [] else Insert(xs[0], SortedDistinct(xs[1..]))
  }

  lemma {:induction false} PrependSorted(x: string, t: seq<string>)
    requires StrictlySorted(t) && forall y :: y in t ==> Less(x, y)
    ensures StrictlySorted([x] + t) && SetOf([x] + t) == {x} + SetOf(t)
  {
    var r := [x] + t;
    forall i, j | 0 <= i < j < |r| ensures Less(r[i], r[j]) {
      if i == 0 { assert t[j - 1] in t; }
    }
  }

  lemma {:induction false} InsertSorted(x: string, xs: seq<string>)
    requires StrictlySorted(xs)
    ensures StrictlySorted(Insert(x, xs)) && SetOf(Insert(x, xs)) == SetOf(xs) + {x}
  {
    if xs == [] {
    } else if x == xs[0] {
      assert x in SetOf(xs);
    } else if Less(x, xs[0]) {
      forall y | y in xs ensures Less(x, y) {
        FirstIsLeast(xs, y);
        if y != xs[0] { LessTransitive(x, xs[0], y); }
      }
      PrependSorted(x, xs);
    } else {
      LessTotal(x, xs[0]);
      InsertSorted(x, xs[1..]);
      var t := Insert(x, xs[1..]);
      forall y | y in t ensures Less(xs[0], y) {
        assert y in SetOf(t);
        if y != x { RestOf(xs, y); FirstIsLeast(xs, y); }
      }
      PrependSorted(xs[0], t);
      assert SetOf(xs) == {xs[0]} + SetOf(xs[1..]) by { assert xs == [xs[0]] + xs[1..]; }
    }
  }

  lemma {:induction false} SortedDistinctSorts(xs: seq<string>)
    ensures StrictlySorted(SortedDistinct(xs)) && SetOf(SortedDistinct(xs)) == SetOf(xs)
  {
    if xs != [] {
      SortedDistinctSorts(xs[1..]);
      InsertSorted(xs[0], SortedDistinct(xs[1..]));
      assert SetOf(xs) == {xs[0]} + SetOf(xs[1..]) by { assert xs == [xs[0]] + xs[1..]; }
    }
  }
}
