/** Path: parser, printer, join, and the in-place resolver of `..` components. */
module Paths {
  import opened Seqs

  const SEP: char := '/'
  const CURRENT: string := "."
  const PARENT: string := ".."

  datatype Path = Path(absolute: bool, route: seq<string>)

  // ---------------------------------------------------------------- Strip and Join

  function StripLeft(s: string): (r: string)
    ensures |r| <= |s| && (r != [] ==> r[0] != ' ') && (s != [] && s[0] != ' ' ==> r == s)
  {
    if s == [] || s[0] != ' ' then s else StripLeft(s[1..])
  }

  function StripRight(s: string): (r: string)
    ensures r <= s && (r != [] ==> r[|r| - 1] != ' ') && (s != [] && s[|s| - 1] != ' ' ==> r == s)
  {
    if s == [] || s[|s| - 1] != ' ' then s else StripRight(s[..|s| - 1])
  }

  /** The text without the spaces at its two ends. */
  function Strip(s: string): (r: string)
    ensures |r| <= |s|
    ensures r != [] ==> r[0] != ' ' && r[|r| - 1] != ' '
  {
    var l := StripLeft(s);
    var r := StripRight(l);
    assert r != [] ==> r[0] == l[0];
    r
  }

  function Join(route: seq<string>): (r: string)
  {
    if route == [] then [] else if |route| == 1 then route[0] else route[0] + [SEP] + Join(route[1..])
  }

  // ---------------------------------------------------------------- the parser

  /** The end of the component that starts at i. */
  function ComponentEnd(s: string, i: nat): (j: nat)
    requires i <= |s|
    ensures i <= j <= |s| && (j < |s| ==> s[j] == SEP)
    ensures forall k :: i <= k < j ==> s[k] != SEP
    decreases |s| - i
  {
    if i == |s| || s[i] == SEP then i else ComponentEnd(s, i + 1)
  }

  /** The non-empty components of s from i on, without those equal to ".". */
  function Components(s: string, i: nat): (r: seq<string>)
    requires i <= |s|
    decreases |s| - i
  {
    if i == |s| then []
    else if s[i] == SEP then Components(s, i + 1)
    else
      var j := ComponentEnd(s, i);
      Kept(s[i..j]) + Components(s, j)
  }

  function Kept(c: string): (r: seq<string>) {
    if c == CURRENT then [] else [c]
  }

  function Parsed(text: string): (p: Path) {
    var s := Strip(text);
    Path(s != [] && s[0] == SEP, Components(s, 0))
  }

  /** The constructor from a string. */
  method Parse(text: string) returns (p: Path)
    ensures p == Parsed(text)
  {
    var s := Strip(text);
    var absolute, route := false, [];
    if s == [] {
      return Path(false, []);
    }
    if s[0] == SEP {
      absolute := true;
    }
    var i := 0;
    while i < |s|
      invariant 0 <= i <= |s|
      invariant route + Components(s, i) == Components(s, 0)
      decreases |s| - i
    {
      var j := i + 1;
      if s[i] == SEP {
        i := j;
        continue;
      }
      while j < |s| && s[j] != SEP
        invariant i < j <= |s| && ComponentEnd(s, i) == ComponentEnd(s, j)
      {
        j := j + 1;
      }
      assert j == ComponentEnd(s, i);
      var component := s[i..j];
      ghost var rest := Components(s, j);
      assert Components(s, i) == Kept(component) + rest;
      hide Components, ComponentEnd;
      if component != CURRENT {
        assert route + ([component] + rest) == (route + [component]) + rest;
        route := route + [component];
      } else {
        assert [] + rest == rest;
      }
      i := j;
    }
    p := Path(absolute, route);
  }

  function ToString(p: Path): (s: string)
  {
    if p.absolute then [SEP] + Join(p.route)
    else if p.route == [] then CURRENT
    else Join(p.route)
  }

  // ---------------------------------------------------------------- parser and printer

  predicate Component(c: string) {
    c != [] && SEP !in c && c != CURRENT
  }

  predicate WellFormed(p: Path) {
    forall i :: 0 <= i < |p.route| ==> Component(p.route[i])
  }

  /** No space at the two ends of the printed path, which the parser would strip. */
  predicate Unstrippable(p: Path) {
    p.route != [] ==>
      var last := p.route[|p.route| - 1];
      && (p.absolute || p.route[0] == [] || p.route[0][0] != ' ')
      && (last == [] || last[|last| - 1] != ' ')
  }

  lemma {:induction false} ComponentsWellFormed(s: string, i: nat)
    requires i <= |s|
    ensures forall k :: 0 <= k < |Components(s, i)| ==> Component(Components(s, i)[k])
    decreases |s| - i
  {
    if i < |s| {
      if s[i] == SEP {
        ComponentsWellFormed(s, i + 1);
      } else {
        var j := ComponentEnd(s, i);
        assert forall k :: 0 <= k < j - i ==> s[i..j][k] != SEP;
        ComponentsWellFormed(s, j);
      }
    }
  }

  /** b is the part of s that starts at o. */
  ghost predicate Tail(s: string, o: nat, b: string) {
    |s| == o + |b| && forall k :: 0 <= k < |b| ==> s[o + k] == b[k]
  }

  lemma TailSlice(s: string, o: nat, b: string, i: nat, j: nat)
    requires Tail(s, o, b) && i <= j <= |b|
    ensures s[o + i..o + j] == b[i..j] && |s| == o + |b| && (i < |b| ==> s[o + i] == b[i])
  {
  }

  lemma Unfold(s: string, i: nat)
    requires i <= |s|
    ensures i == |s| ==> Components(s, i) == []
    ensures i < |s| && s[i] == SEP ==> Components(s, i) == Components(s, i + 1)
    ensures i < |s| && s[i] != SEP ==>
              var j := ComponentEnd(s, i);
              i < j && Components(s, i) == Kept(s[i..j]) + Components(s, j)
  {
  }

  lemma {:induction false} ComponentsShift(s: string, o: nat, b: string, i: nat)
    requires Tail(s, o, b) && i <= |b|
    ensures Components(s, o + i) == Components(b, i)
    decreases |b| - i
  {
    hide *;
    TailSlice(s, o, b, i, ComponentEnd(b, i));
    ComponentEndShift(s, o, b, i);
    Unfold(b, i);
    Unfold(s, o + i);
    if i < |b| {
      if b[i] == SEP {
        ComponentsShift(s, o, b, i + 1);
      } else {
        ComponentsShift(s, o, b, ComponentEnd(b, i));
      }
    }
  }

  lemma {:induction false} ComponentEndShift(s: string, o: nat, b: string, i: nat)
    requires Tail(s, o, b) && i <= |b|
    ensures ComponentEnd(s, o + i) == o + ComponentEnd(b, i)
    decreases |b| - i
  {
    if i < |b| {
      assert s[o + i] == b[i];
      if b[i] != SEP {
        ComponentEndShift(s, o, b, i + 1);
      }
    }
  }

  lemma {:induction false} ComponentEndOf(s: string, i: nat, j: nat)
    requires i <= j <= |s| && (j < |s| ==> s[j] == SEP)
    requires forall k :: i <= k < j ==> s[k] != SEP
    ensures ComponentEnd(s, i) == j
    decreases j - i
  {
    if i < j {
      ComponentEndOf(s, i + 1, j);
    }
  }

  /** One component in front of a separator, or at the end of the text. */
  lemma FirstComponent(s: string, c: string)
    requires Component(c) && c <= s && (|c| < |s| ==> s[|c|] == SEP)
    ensures Components(s, 0) == [c] + Components(s, |c|)
  {
    assert forall k :: 0 <= k < |c| ==> s[k] == c[k] && c[k] in c;
    ComponentEndOf(s, 0, |c|);
    assert s[0..|c|] == c;
  }

  /** Splitting a joined route gives the route back. */
  lemma {:induction false} SplitJoin(route: seq<string>)
    requires forall i :: 0 <= i < |route| ==> Component(route[i])
    ensures Components(Join(route), 0) == route
  {
    if route != [] {
      var s, c := Join(route), route[0];
      FirstComponent(s, c);
      if |route| > 1 {
        SplitJoin(route[1..]);
        SkipSeparator(s, |c|, Join(route[1..]));
        assert route == [c] + route[1..];
      } else {
        assert Components(s, |c|) == [];
      }
    }
  }

  lemma SkipSeparator(s: string, o: nat, b: string)
    requires o < |s| && s[o] == SEP && Tail(s, o + 1, b)
    ensures Components(s, o) == Components(b, 0)
  {
    ComponentsShift(s, o + 1, b, 0);
  }

  lemma {:induction false} JoinEnds(route: seq<string>)
    requires route != [] && forall i :: 0 <= i < |route| ==> route[i] != []
    ensures var s, last := Join(route), route[|route| - 1];
            s != [] && s[0] == route[0][0] && s[|s| - 1] == last[|last| - 1]
  {
    if |route| > 1 {
      var rest := Join(route[1..]);
      JoinEnds(route[1..]);
      assert route[1..][|route| - 2] == route[|route| - 1];
      JoinedEnds(route[0], rest);
    }
  }

  lemma JoinedEnds(a: string, b: string)
    requires a != [] && b != []
    ensures var s := a + [SEP] + b; s[0] == a[0] && s[|s| - 1] == b[|b| - 1]
  {
  }

  lemma StripKeeps(s: string)
    requires s == [] || (s[0] != ' ' && s[|s| - 1] != ' ')
    ensures Strip(s) == s
  {
  }

  /** If the ends carry no space the parser reads a printed path back. */
  lemma PrintParse(p: Path)
    requires WellFormed(p) && Unstrippable(p)
    ensures Parsed(ToString(p)) == p
  {
    var s := ToString(p);
    if p.route == [] {
      StripKeeps(s);
      if p.absolute {
        assert Components(s, 0) == Components(s, 1) == [];
      } else {
        assert forall k :: 0 <= k < 1 ==> s[k] != SEP;
        ComponentEndOf(s, 0, 1);
        assert s[0..1] == CURRENT && Kept(CURRENT) == [] && Components(s, 1) == [];
        assert Components(s, 0) == Kept(CURRENT) + Components(s, 1);
      }
    } else {
      JoinEnds(p.route);
      StripKeeps(s);
      SplitJoin(p.route);
      assert Component(p.route[0]);
      if p.absolute {
        SkipSeparator(s, 0, Join(p.route));
      } else {
        assert s[0] == p.route[0][0] && p.route[0][0] in p.route[0];
      }
    }
  }

  // The printed form of what is parsed from s is no longer than s.
  lemma {:induction false} ComponentsShorter(s: string, i: nat)
    requires i <= |s|
    ensures |Join(Components(s, i))| <= |s| - i
    ensures i < |s| && s[i] == SEP && Components(s, i) != [] ==> |Join(Components(s, i))| + 1 <= |s| - i
    decreases |s| - i
  {
    if i < |s| {
      if s[i] == SEP {
        ComponentsShorter(s, i + 1);
      } else {
        var j := ComponentEnd(s, i);
        ComponentsShorter(s, j);
        var c, rest := s[i..j], Components(s, j);
        if c != CURRENT {
          assert Components(s, i) == [c] + rest;
          if rest != [] {
            assert j < |s|;
            assert Join([c] + rest) == c + [SEP] + Join(rest) by {
              assert ([c] + rest)[1..] == rest;
            }
          } else {
            assert [c] + rest == [c];
          }
        } else {
          assert Components(s, i) == rest;
        }
      }
    }
  }

  lemma PrintShorter(text: string)
    requires Strip(text) != []
    ensures |ToString(Parsed(text))| <= |Strip(text)|
  {
    ComponentsShorter(Strip(text), 0);
  }

  lemma StripShortens(s: string)
    requires s != [] && (s[0] == ' ' || s[|s| - 1] == ' ')
    ensures |Strip(s)| < |s|
  {
    if s[0] == ' ' {
      assert StripLeft(s) == StripLeft(s[1..]);
    } else {
      assert StripRight(s) == StripRight(s[..|s| - 1]);
    }
  }

  /** What stripping costs: a printed path with a space at an end does not come back. */
  lemma StrippedPrintDiffers(p: Path)
    requires WellFormed(p) && !Unstrippable(p)
    ensures ToString(Parsed(ToString(p))) != ToString(p)
  {
    var s := ToString(p);
    assert forall i :: 0 <= i < |p.route| ==> Component(p.route[i]);
    JoinEnds(p.route);
    StripShortens(s);
    if Strip(s) != [] {
      PrintShorter(s);
    }
  }

  /** Path(p.ToString()) is p exactly for well-formed components without spaces at the ends. */
  lemma RoundTripIff(p: Path)
    ensures Parsed(ToString(p)) == p <==> WellFormed(p) && Unstrippable(p)
  {
    ComponentsWellFormed(Strip(ToString(p)), 0);
    if WellFormed(p) {
      if Unstrippable(p) {
        PrintParse(p);
      } else {
        StrippedPrintDiffers(p);
      }
    }
  }

  /** Where the first component other than "." starts, from i on; the end of the text if there is none. */
  function FirstKept(s: string, i: nat): (r: nat)
    requires i <= |s|
    ensures i <= r <= |s|
    decreases |s| - i
  {
    if i == |s| then i
    else if s[i] == SEP then FirstKept(s, i + 1)
    else
      var j := ComponentEnd(s, i);
      if s[i..j] == CURRENT then FirstKept(s, j) else i
  }

  /** Where the last component other than "." ends, from i on; 0 if there is none. */
  function LastKept(s: string, i: nat): (r: nat)
    requires i <= |s|
    ensures r == 0 || i < r <= |s|
    decreases |s| - i
  {
    if i == |s| then 0
    else if s[i] == SEP then LastKept(s, i + 1)
    else
      var j := ComponentEnd(s, i);
      var rest := LastKept(s, j);
      if rest > 0 then rest else if s[i..j] == CURRENT then 0 else j
  }

  /** The first kept component of a relative text starts, and the last kept one ends, without a space. */
  predicate CleanEnds(text: string) {
    var s := Strip(text);
    LastKept(s, 0) > 0 ==>
      && s[LastKept(s, 0) - 1] != ' '
      && (s[0] == SEP || FirstKept(s, 0) == |s| || s[FirstKept(s, 0)] != ' ')
  }

  lemma UnfoldKept(s: string, i: nat)
    requires i < |s|
    ensures s[i] == SEP ==> FirstKept(s, i) == FirstKept(s, i + 1) && LastKept(s, i) == LastKept(s, i + 1)
    ensures s[i] != SEP ==>
              var j := ComponentEnd(s, i);
              && i < j
              && FirstKept(s, i) == (if s[i..j] == CURRENT then FirstKept(s, j) else i)
              && LastKept(s, i) == if LastKept(s, j) > 0 then LastKept(s, j) else if s[i..j] == CURRENT then 0 else j
  {
  }

  /** The scans find the two ends of what the parser keeps. */
  lemma {:induction false} KeptEnds(s: string, i: nat)
    requires i <= |s|
    ensures var r := Components(s, i);
            && (r == [] <==> LastKept(s, i) == 0)
            && (r != [] ==>
                  && FirstKept(s, i) < |s| && r[0] != [] && r[0][0] == s[FirstKept(s, i)]
                  && r[|r| - 1] != [] && r[|r| - 1][|r[|r| - 1]| - 1] == s[LastKept(s, i) - 1])
    decreases |s| - i
  {
    hide Components, ComponentEnd, FirstKept, LastKept;
    Unfold(s, i);
    if i < |s| {
      UnfoldKept(s, i);
      if s[i] == SEP {
        KeptEnds(s, i + 1);
      } else {
        KeptEnds(s, ComponentEnd(s, i));
      }
    } else {
      KeptNothing(s);
    }
  }

  lemma KeptNothing(s: string)
    ensures LastKept(s, |s|) == 0
  {
  }

  /** Printing a parsed path is idempotent exactly if what the text keeps has no space at its ends. */
  lemma PrintIdempotentIff(text: string)
    ensures ToString(Parsed(ToString(Parsed(text)))) == ToString(Parsed(text)) <==> CleanEnds(text)
  {
    hide Components, ToString, Strip, LastKept, FirstKept;
    KeptEnds(Strip(text), 0);
    ComponentsWellFormed(Strip(text), 0);
    assert Unstrippable(Parsed(text)) <==> CleanEnds(text);
    if Unstrippable(Parsed(text)) {
      PrintParse(Parsed(text));
    } else {
      StrippedPrintDiffers(Parsed(text));
    }
  }

  /** So it is not idempotent on every text: a space before a trailing slash is stripped later. */
  lemma PrintNotIdempotent()
    ensures var once := ToString(Parsed("a /"));
            once == "a " && ToString(Parsed(once)) == "a"
  {
    assert Strip("a /") == "a /";
    assert ComponentEnd("a /", 0) == 2 by { ComponentEndOf("a /", 0, 2); }
    assert "a /"[0..2] == "a ";
    assert Components("a /", 2) == Components("a /", 3) == [];
    assert StripRight("a ") == StripRight("a ") == "a" by { assert "a "[..1] == "a"; }
    assert Strip("a ") == "a";
    assert ComponentEnd("a", 0) == 1 by { ComponentEndOf("a", 0, 1); }
    assert "a"[0..1] == "a";
  }

  // ---------------------------------------------------------------- join

  function Joined(lhs: Path, rhs: Path): Path {
    if rhs.absolute then rhs else Path(lhs.absolute, lhs.route + rhs.route)
  }

  method Slash(lhs: Path, rhs: Path) returns (p: Path)
    ensures p == Joined(lhs, rhs)
  {
    if rhs.absolute {
      return rhs;
    }
    var route := lhs.route;
    for i := 0 to |rhs.route|
      invariant route == lhs.route + rhs.route[..i]
    {
      route := route + [rhs.route[i]];
    }
    assert rhs.route[..|rhs.route|] == rhs.route;
    p := Path(lhs.absolute, route);
  }

  lemma {:induction false} ComponentEndBefore(a: string, b: string, i: nat)
    requires i <= |a|
    ensures ComponentEnd(a + [SEP] + b, i) == ComponentEnd(a, i)
    decreases |a| - i
  {
    if i < |a| && a[i] != SEP {
      ComponentEndBefore(a, b, i + 1);
    }
  }

  /** A separator between two texts separates their components. */
  lemma {:induction false} ComponentsConcat(a: string, b: string, i: nat)
    requires i <= |a|
    ensures Components(a + [SEP] + b, i) == Components(a, i) + Components(b, 0)
    decreases |a| - i
  {
    hide Components, ComponentEnd, Kept;
    var s := a + [SEP] + b;
    Unfold(s, i);
    Unfold(a, i);
    if i == |a| {
      assert Tail(s, |a| + 1, b);
      SkipSeparator(s, |a|, b);
    } else if a[i] == SEP {
      ComponentsConcat(a, b, i + 1);
    } else {
      ComponentEndBefore(a, b, i);
      var j := ComponentEnd(a, i);
      assert s[i..j] == a[i..j];
      ComponentsConcat(a, b, j);
    }
  }

  lemma {:induction false} StripLeftConcat(a: string, b: string)
    requires b != [] && b[0] != ' '
    ensures StripLeft(a + b) == StripLeft(a) + b
  {
    if a == [] {
      assert a + b == b;
    } else if a[0] == ' ' {
      assert (a + b)[1..] == a[1..] + b;
      StripLeftConcat(a[1..], b);
    }
  }

  lemma {:induction false} StripRightConcat(a: string, b: string)
    requires a != [] && a[|a| - 1] != ' '
    ensures StripRight(a + b) == a + StripRight(b)
  {
    if b == [] {
      assert a + b == a;
    } else if b[|b| - 1] == ' ' {
      assert (a + b)[..|a + b| - 1] == a + b[..|b| - 1];
      StripRightConcat(a, b[..|b| - 1]);
    }
  }

  /** Around a separator in the middle each end is stripped for itself. */
  lemma StripConcat(a: string, b: string)
    ensures Strip(a + [SEP] + b) == StripLeft(a) + [SEP] + StripRight(b)
  {
    assert a + [SEP] + b == a + ([SEP] + b);
    StripLeftConcat(a, [SEP] + b);
    assert StripLeft(a) + ([SEP] + b) == StripLeft(a) + [SEP] + b;
    StripRightConcat(StripLeft(a) + [SEP], b);
  }

  /** The room that components take in a text, with a separator behind each. */
  function Weight(route: seq<string>): (r: nat) {
    if route == [] then 0 else |route[0]| + 1 + Weight(route[1..])
  }

  lemma {:induction false} WeightConcat(a: seq<string>, b: seq<string>)
    ensures Weight(a + b) == Weight(a) + Weight(b)
  {
    if a == [] {
      assert a + b == b;
    } else {
      assert (a + b)[1..] == a[1..] + b;
      WeightConcat(a[1..], b);
    }
  }

  lemma {:induction false} JoinWeight(route: seq<string>)
    requires route != []
    ensures Weight(route) == |Join(route)| + 1
  {
    if |route| > 1 {
      JoinWeight(route[1..]);
    } else {
      assert route[1..] == [];
    }
  }

  lemma {:induction false} ComponentsWeight(s: string, i: nat)
    requires i <= |s|
    ensures Weight(Components(s, i)) <= |s| - i + 1
    ensures i < |s| && s[i] == SEP ==> Weight(Components(s, i)) <= |s| - i
    decreases |s| - i
  {
    hide Components;
    Unfold(s, i);
    if i == |s| {
      assert Weight([]) == 0;
    } else if s[i] == SEP {
      ComponentsWeight(s, i + 1);
    } else {
      var j := ComponentEnd(s, i);
      ComponentsWeight(s, j);
      WeightConcat(Kept(s[i..j]), Components(s, j));
      assert Weight(Kept(s[i..j])) <= j - i + 1 by {
        assert [s[i..j]][1..] == [];
      }
      Unfold(s, j);
    }
  }

  /** The components of a printed path, before anything is stripped. */
  lemma PrintComponents(p: Path)
    requires WellFormed(p)
    ensures ToString(p) != [] && (ToString(p)[0] == SEP <==> p.absolute)
    ensures Components(ToString(p), 0) == p.route
  {
    var s := ToString(p);
    SplitJoin(p.route);
    if p.absolute {
      SkipSeparator(s, 0, Join(p.route));
    } else if p.route == [] {
      assert forall k :: 0 <= k < 1 ==> s[k] != SEP;
      ComponentEndOf(s, 0, 1);
      assert s[0..1] == CURRENT && Components(s, 1) == [];
    } else {
      JoinEnds(p.route);
      assert Component(p.route[0]) && p.route[0][0] in p.route[0];
    }
  }

  /** The text of the path does not start with a space, or does not end with one. */
  predicate StartsClean(p: Path) {
    p.absolute || p.route == [] || p.route[0] == [] || p.route[0][0] != ' '
  }

  predicate EndsClean(p: Path) {
    p.route != [] ==> var last := p.route[|p.route| - 1]; last == [] || last[|last| - 1] != ' '
  }

  lemma CleanText(p: Path)
    requires WellFormed(p)
    ensures StartsClean(p) <==> StripLeft(ToString(p)) == ToString(p)
    ensures EndsClean(p) <==> StripRight(ToString(p)) == ToString(p)
    ensures !StartsClean(p) || !EndsClean(p) ==> p.route != []
  {
    if p.route != [] {
      assert forall i :: 0 <= i < |p.route| ==> Component(p.route[i]);
      JoinEnds(p.route);
    }
  }

  /** Stripping loses something that the components held. */
  lemma StrippedLighter(p: Path, text: string)
    requires WellFormed(p)
    requires text == ToString(p) || (p.route != [] && !p.absolute && |text| < |ToString(p)|)
    ensures text == ToString(p) ==> Components(text, 0) == p.route
    ensures text != ToString(p) ==> Weight(Components(text, 0)) < Weight(p.route)
  {
    PrintComponents(p);
    if text != ToString(p) {
      JoinWeight(p.route);
      ComponentsWeight(text, 0);
    }
  }

  /** What is parsed from two printed paths with a separator between them. */
  lemma ParsedConcat(a: string, b: string)
    ensures var a', p := StripLeft(a), Parsed(a + [SEP] + b);
            && p.route == Components(a', 0) + Components(StripRight(b), 0)
            && p.absolute == (a' == [] || a'[0] == SEP)
  {
    hide Components, StripLeft, StripRight, Strip;
    StripConcat(a, b);
    ComponentsConcat(StripLeft(a), StripRight(b), 0);
  }

  lemma StripLeftShorter(s: string)
    ensures StripLeft(s) == s || |StripLeft(s)| < |s|
  {
  }

  /** A relative right operand: the texts can be written one behind the other exactly if no outer end is a space. */
  lemma RelativeJoinIsTextualIff(lhs: Path, rhs: Path)
    requires !rhs.absolute
    ensures Parsed(ToString(lhs) + [SEP] + ToString(rhs)) == Joined(lhs, rhs)
       <==> WellFormed(lhs) && WellFormed(rhs) && StartsClean(lhs) && EndsClean(rhs)
  {
    hide Components, ToString, StripLeft, StripRight, Strip, StartsClean, EndsClean, Weight;
    var a, b := ToString(lhs), ToString(rhs);
    var a', b' := StripLeft(a), StripRight(b);
    var parsed := Parsed(a + [SEP] + b);
    if WellFormed(lhs) && WellFormed(rhs) {
      ParsedConcat(a, b);
      CleanText(lhs);
      CleanText(rhs);
      PrintComponents(lhs);
      LeftAbsoluteClean(lhs);
      StripLeftShorter(a);
      StrippedLighter(lhs, a');
      StrippedLighter(rhs, b');
      WeightConcat(Components(a', 0), Components(b', 0));
      WeightConcat(lhs.route, rhs.route);
    } else {
      ParsedWellFormed(a + [SEP] + b);
      JoinedWellFormed(lhs, rhs);
    }
  }

  lemma LeftAbsoluteClean(p: Path)
    ensures p.absolute ==> StartsClean(p)
  {
  }

  lemma ParsedWellFormed(text: string)
    ensures WellFormed(Parsed(text))
  {
    ComponentsWellFormed(Strip(text), 0);
  }

  lemma JoinedWellFormed(lhs: Path, rhs: Path)
    requires !rhs.absolute
    ensures WellFormed(Joined(lhs, rhs)) ==> WellFormed(lhs) && WellFormed(rhs)
  {
    var route := lhs.route + rhs.route;
    assert forall i :: 0 <= i < |lhs.route| ==> route[i] == lhs.route[i];
    assert forall i :: 0 <= i < |rhs.route| ==> route[|lhs.route| + i] == rhs.route[i];
  }

  /**
   * Joining paths is writing their texts with a separator between them, or the right one alone if it is
   * absolute, exactly if all components are proper and the outer ends of what is written are not spaces.
   */
  lemma JoinIsTextualIff(lhs: Path, rhs: Path)
    ensures Parsed(if rhs.absolute then ToString(rhs) else ToString(lhs) + [SEP] + ToString(rhs)) == Joined(lhs, rhs)
       <==> WellFormed(rhs) && EndsClean(rhs) && (rhs.absolute || (WellFormed(lhs) && StartsClean(lhs)))
  {
    if rhs.absolute {
      RoundTripIff(rhs);
    } else {
      RelativeJoinIsTextualIff(lhs, rhs);
    }
  }

  lemma SlashAssociative(a: Path, b: Path, c: Path)
    ensures Joined(Joined(a, b), c) == Joined(a, Joined(b, c))
  {
    assert a.route + b.route + c.route == a.route + (b.route + c.route);
  }

  // ---------------------------------------------------------------- Resolved

  /** One component read against a stack of resolved ones: `..` pops, and does nothing at the root. */
  function Push(stack: seq<string>, c: string): seq<string> {
    if c != PARENT then stack + [c]
    else if stack != [] then stack[..|stack| - 1]
    else stack
  }

  function Reduce(stack: seq<string>, route: seq<string>): (r: seq<string>)
    decreases |route|
  {
    if route == [] then stack else Reduce(Push(stack, route[0]), route[1..])
  }

  /** The two-pointer loop over the component vector, in place; `slow` is the new length. */
  method ResolveInPlace(route: array<string>) returns (slow: nat)
    modifies route
    ensures slow <= route.Length && route[..slow] == Reduce([], old(route[..]))
  {
    slow := 0;
    for fast := 0 to route.Length
      invariant slow <= fast
      invariant route[fast..] == old(route[fast..])
      invariant Reduce(route[..slow], route[fast..]) == Reduce([], old(route[..]))
    {
      ghost var stack := route[..slow];
      assert route[fast..][0] == route[fast] && route[fast..][1..] == route[fast + 1..];
      if route[fast] != PARENT {
        route[slow] := route[fast];
        slow := slow + 1;
      } else if slow > 0 {
        slow := slow - 1;
      }
      assert route[..slow] == Push(stack, old(route[..])[fast]);
      assert route[fast + 1..] == old(route[fast + 1..]);
    }
    assert route[..slow] == Reduce(route[..slow], []);
  }

  /** Resolved: made absolute against the working directory, then reduced. */
  method Resolve(cwd: string, p: Path) returns (r: Path)
    ensures r == Resolved(cwd, p)
  {
    var base := Parse(cwd);
    var path := Slash(base, p);
    var route := new string[|path.route|](i requires 0 <= i < |path.route| => path.route[i]);
    assert route[..] == path.route;
    var slow := ResolveInPlace(route);
    r := Path(path.absolute, route[..slow]);
  }

  function Resolved(cwd: string, p: Path): Path {
    var path := Joined(Parsed(cwd), p);
    Path(path.absolute, Reduce([], path.route))
  }

  lemma {:induction false} ReduceAppend(stack: seq<string>, a: seq<string>, b: seq<string>)
    ensures Reduce(stack, a + b) == Reduce(Reduce(stack, a), b)
    decreases |a|
  {
    if a == [] {
      assert a + b == b;
    } else {
      assert (a + b)[1..] == a[1..] + b;
      ReduceAppend(Push(stack, a[0]), a[1..], b);
    }
  }

  lemma {:induction false} ReduceHasNoParent(stack: seq<string>, route: seq<string>)
    requires PARENT !in stack
    ensures PARENT !in Reduce(stack, route)
    decreases |route|
  {
    if route != [] {
      ReduceHasNoParent(Push(stack, route[0]), route[1..]);
    }
  }

  lemma {:induction false} ReduceOfResolved(stack: seq<string>, route: seq<string>)
    requires PARENT !in route
    ensures Reduce(stack, route) == stack + route
    decreases |route|
  {
    if route != [] {
      assert route[0] in route;
      ReduceOfResolved(stack + [route[0]], route[1..]);
      assert stack + [route[0]] + route[1..] == stack + route;
    }
  }

  /** The result has no `..`, resolving again changes nothing, and prefixes may be resolved first. */
  lemma ResolveLaws(a: seq<string>, b: seq<string>)
    ensures PARENT !in Reduce([], a)
    ensures Reduce([], Reduce([], a)) == Reduce([], a)
    ensures Reduce([], a + b) == Reduce([], Reduce([], a) + b)
  {
    ReduceHasNoParent([], a);
    ReduceOfResolved([], Reduce([], a));
    ReduceAppend([], a, b);
    ReduceAppend([], Reduce([], a), b);
  }

  lemma {:induction false} ParentCancels(stack: seq<string>, a: seq<string>, c: string, b: seq<string>)
    requires c != PARENT
    ensures Reduce(stack, a + [c, PARENT] + b) == Reduce(stack, a + b)
    decreases |a|
  {
    if a == [] {
      assert [] + [c, PARENT] + b == [c] + ([PARENT] + b) && [] + b == b;
      assert ([c] + ([PARENT] + b))[1..] == [PARENT] + b && ([PARENT] + b)[1..] == b;
      assert (stack + [c])[..|stack|] == stack;
    } else {
      var whole := a + [c, PARENT] + b;
      assert whole[0] == a[0] && whole[1..] == a[1..] + [c, PARENT] + b;
      assert (a + b)[0] == a[0] && (a + b)[1..] == a[1..] + b;
      ParentCancels(Push(stack, a[0]), a[1..], c, b);
    }
  }

  /** A `..` takes back the component before it, and nothing at the root; without any the list stays as it is. */
  lemma ParentLaws(a: seq<string>, c: string, b: seq<string>)
    ensures c != ".." ==> Reduce([], a + [c, ".."] + b) == Reduce([], a + b)
    ensures Reduce([], [".."] + b) == Reduce([], b)
    ensures ".." !in a ==> Reduce([], a) == a
  {
    if c != PARENT {
      ParentCancels([], a, c, b);
    }
    assert ([".."] + b)[1..] == b;
    if PARENT !in a {
      ReduceOfResolved([], a);
    }
  }

  /** The same for resolving whole paths, whatever the working directory. */
  lemma ResolvedParents(cwd: string, absolute: bool, a: seq<string>, c: string, b: seq<string>)
    ensures c != ".." ==> Resolved(cwd, Path(absolute, a + [c, ".."] + b)) == Resolved(cwd, Path(absolute, a + b))
    ensures Resolved(cwd, Path(true, [".."] + b)) == Resolved(cwd, Path(true, b))
    ensures ".." !in a ==> Resolved(cwd, Path(true, a)) == Path(true, a)
  {
    hide Reduce, Parsed;
    var base := Parsed(cwd).route;
    ParentLaws(a, c, b);
    ParentLaws(base + a, c, b);
    assert base + (a + [c, ".."] + b) == base + a + [c, ".."] + b && base + (a + b) == base + a + b;
  }

  /** Resolving an absolute path twice is resolving it once, whatever the working directories. */
  lemma ResolvedIdempotent(cwd: string, cwd': string, p: Path)
    requires Resolved(cwd, p).absolute
    ensures Resolved(cwd', Resolved(cwd, p)) == Resolved(cwd, p)
  {
    ResolveLaws(Joined(Parsed(cwd), p).route, []);
  }

  /** Resolving a joined path may resolve the left part first. */
  lemma ResolvedJoin(cwd: string, a: Path, b: Path)
    requires Resolved(cwd, a).absolute
    ensures Resolved(cwd, Joined(a, b)) == Resolved(cwd, Joined(Resolved(cwd, a), b))
  {
    var base := Parsed(cwd);
    if !b.absolute {
      ResolveLaws(Joined(base, a).route, b.route);
      SlashAssociative(base, a, b);
    }
  }
}
