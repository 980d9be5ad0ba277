/** The key under which the webhook remembers its last dispatch: the event id and the subjects of
    the alert group, sorted and without repeats. */
module CooldownKey {
  import opened SortedStrings

  /** The labels and the status of one alert; an absent one reads as the empty string. */
  datatype Alert = Alert(event: string, spoke: string, instance: string, status: string)

  function Subject(a: Alert): string {
    if a.spoke != "" then a.spoke else a.instance
  }

  // ----- joining

  function Join(xs: seq<string>): string {
    if xs == [] then ""
    else if |xs| == 1 then xs[0]
    else xs[0] + "," + Join(xs[1..])
  }

  predicate Free(s: string, c: char) {
    forall i :: 0 <= i < |s| ==> s[i] != c
  }

  /** A separator that does not occur in the left parts splits a string in one way. */
  lemma {:induction false} SplitUnique(a: string, x: string, b: string, y: string, c: char)
    requires Free(a, c) && Free(b, c) && a + [c] + x == b + [c] + y
    ensures a == b && x == y
  {
    var s := a + [c] + x;
    assert s[|a|] == c && s[|b|] == c;
    assert forall i :: 0 <= i < |a| ==> s[i] == a[i];
    assert forall i :: 0 <= i < |b| ==> s[i] == b[i];
    assert a == s[..|a|] && b == s[..|b|];
    assert x == s[|a| + 1..] && y == s[|b| + 1..];
  }

  predicate Plain(xs: seq<string>) {
    forall i :: 0 <= i < |xs| ==> xs[i] != "" && Free(xs[i], ',')
  }

  /** The empty string is the empty list's, and a comma shows a longer one. */
  lemma {:induction false} JoinShape(xs: seq<string>)
    requires Plain(xs)
    ensures Join(xs) == "" <==> xs == []
    ensures Free(Join(xs), ',') <==> |xs| <= 1
  {
    if |xs| > 1 { assert Join(xs)[|xs[0]|] == ','; }
  }

  lemma {:induction false} JoinInjective(a: seq<string>, b: seq<string>)
    requires Plain(a) && Plain(b) && Join(a) == Join(b)
    ensures a == b
    decreases |a|
  {
    JoinShape(a);
    JoinShape(b);
    if |a| > 1 {
      assert Join(a) == a[0] + [','] + Join(a[1..]) && Join(b) == b[0] + [','] + Join(b[1..]);
      SplitUnique(a[0], Join(a[1..]), b[0], Join(b[1..]), ',');
      JoinInjective(a[1..], b[1..]);
      assert a == [a[0]] + a[1..] && b == [b[0]] + b[1..];
    }
  }

  // ----- the key

  function Subjects(alerts: seq<Alert>): seq<string> {
    if alerts == [] then []
    else (if Subject(alerts[0]) == "" then [] else [Subject(alerts[0])]) + Subjects(alerts[1..])
  }

  function EventCooldownKey(eventId: string, alerts: seq<Alert>): string {
    var joined := Join(SortedDistinct(Subjects(alerts)));
    eventId + ":" + if joined == "" then "global" else joined
  }

  /** The subjects of a group, as a set: the spoke of each alert that names one, the instance of each that
      names only that. */
  function SubjectSet(alerts: seq<Alert>): set<string> {
    (set a | a in alerts && a.spoke != "" :: a.spoke)
    + set a | a in alerts && a.spoke == "" && a.instance != "" :: a.instance
  }

  lemma {:induction false} SubjectsSet(alerts: seq<Alert>)
    ensures SetOf(Subjects(alerts)) == SubjectSet(alerts)
  {
    if alerts != [] {
      SubjectsSet(alerts[1..]);
      assert alerts == [alerts[0]] + alerts[1..];
      var here: set<string> := if Subject(alerts[0]) == "" then {} else {Subject(alerts[0])};
      assert SetOf(Subjects(alerts)) == here + SetOf(Subjects(alerts[1..]));
      assert SubjectSet(alerts) == here + SubjectSet(alerts[1..]);
    }
  }

  predicate CommaFree(alerts: seq<Alert>) {
    forall a :: a in alerts ==> Free(Subject(a), ',')
  }

  lemma {:induction false} SortedSubjects(alerts: seq<Alert>)
    requires CommaFree(alerts)
    ensures var xs := SortedDistinct(Subjects(alerts));
      StrictlySorted(xs) && SetOf(xs) == SubjectSet(alerts) && Plain(xs)
    ensures Join(SortedDistinct(Subjects(alerts))) == "" <==> SubjectSet(alerts) == {}
  {
    SubjectsSet(alerts);
    SortedDistinctSorts(Subjects(alerts));
    var xs := SortedDistinct(Subjects(alerts));
    forall i | 0 <= i < |xs| ensures xs[i] != "" && Free(xs[i], ',') {
      assert xs[i] in SetOf(xs);
    }
    if xs != [] { assert xs[0] in SetOf(xs); }
  }

  /** Two groups share a key exactly when they have the same event and the same set of subjects; the
      one other pair is no subject at all against the single subject "global". Order and repeats do
      not matter. */
  lemma {:induction false} KeyIsCanonical(e1: string, g1: seq<Alert>, e2: string, g2: seq<Alert>)
    requires Free(e1, ':') && Free(e2, ':') && CommaFree(g1) && CommaFree(g2)
    ensures EventCooldownKey(e1, g1) == EventCooldownKey(e2, g2) <==>
      e1 == e2 &&
      (SubjectSet(g1) == SubjectSet(g2)
       || (SubjectSet(g1) == {} && SubjectSet(g2) == {"global"})
       || (SubjectSet(g1) == {"global"} && SubjectSet(g2) == {}))
  {
    SortedSubjects(g1);
    SortedSubjects(g2);
    var a, b := SortedDistinct(Subjects(g1)), SortedDistinct(Subjects(g2));
    var x, y := if Join(a) == "" then "global" else Join(a), if Join(b) == "" then "global" else Join(b);
    TailExact(a, b);
    if EventCooldownKey(e1, g1) == EventCooldownKey(e2, g2) {
      assert e1 + [':'] + x == e2 + [':'] + y;
      SplitUnique(e1, x, e2, y, ':');
    }
  }

  /** The part after the colon. */
  lemma {:induction false} TailExact(a: seq<string>, b: seq<string>)
    requires StrictlySorted(a) && StrictlySorted(b) && Plain(a) && Plain(b)
    ensures (if Join(a) == "" then "global" else Join(a)) == (if Join(b) == "" then "global" else Join(b)) <==>
      (SetOf(a) == SetOf(b) || (SetOf(a) == {} && SetOf(b) == {"global"}) || (SetOf(a) == {"global"} && SetOf(b) == {}))
  {
    GlobalExact(a);
    GlobalExact(b);
    if SetOf(a) == SetOf(b) { SortedUnique(a, b); }
    if Join(a) == Join(b) { JoinInjective(a, b); }
  }

  lemma {:induction false} GlobalExact(a: seq<string>)
    requires StrictlySorted(a) && Plain(a)
    ensures Join(a) == "global" <==> SetOf(a) == {"global"}
    ensures Join(a) == "" <==> SetOf(a) == {}
  {
    if Join(a) == "global" { JoinInjective(a, ["global"]); }
    if SetOf(a) == {"global"} { SortedUnique(a, ["global"]); }
    if a != [] { assert a[0] in SetOf(a); }
  }

  /** With a comma in a subject two different groups share a key. */
  lemma {:induction false} CommaCollides()
    ensures exists g1, g2 :: SubjectSet(g1) != SubjectSet(g2) && EventCooldownKey("e", g1) == EventCooldownKey("e", g2)
  {
    var g1 := [Alert("e", "a,b", "", "firing")];
    var g2 := [Alert("e", "a", "", "firing"), Alert("e", "b", "", "firing")];
    assert g1[1..] == [] && g2[1..] == [Alert("e", "b", "", "firing")] && g2[1..][1..] == [];
    assert Subjects(g2) == ["a", "b"] && Subjects(g1) == ["a,b"];
    assert ["a", "b"][1..] == ["b"] && ["b"][1..] == [];
    assert SortedDistinct(["b"]) == ["b"] && SortedDistinct(["a", "b"]) == ["a", "b"];
    assert Join(["b"]) == "b" && Join(["a", "b"]) == "a" + "," + "b" == "a,b";
    assert "a,b" in SubjectSet(g1) by { assert g1[0] in g1; }
    assert "a,b" !in SubjectSet(g2);
    assert EventCooldownKey("e", g1) == EventCooldownKey("e", g2);
  }
}
