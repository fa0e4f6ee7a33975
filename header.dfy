/**
 * The page header of src/components/header.tsx: the title chosen by path prefix and the avatar
 * initials taken from the profile name.
 */
module Header {
  import opened Lookup
  import opened Text

  datatype Route = Route(prefix: string, title: string)

  /** The prefixes `getPageTitle` tries, in order. */
  const Routes: seq<Route> := [
    Route("/dashboard", "Dashboard"),
    Route("/subjects", "Subjects & Syllabus"),
    Route("/goals", "Goals"),
    Route("/study-session", "Study Session"),
    Route("/routine", "Routine Planner"),
    Route("/progress", "Progress & Analytics"),
    Route("/revision", "Revision System"),
    Route("/settings", "Settings")]

  const DefaultTitle: string := "HSC Success Planner"

  /** `getPageTitle`: the title of the first route whose prefix starts the path, tried in the
      order of `routes`; the default title when none does. */
  function TitleIn(routes: seq<Route>, pathname: string): string {
    if routes == [] then DefaultTitle
    else if StartsWith(pathname, routes[0].prefix) then routes[0].title
    else TitleIn(routes[1..], pathname)
  }

  function PageTitle(pathname: string): string {
    TitleIn(Routes, pathname)
  }

  lemma {:induction false} TitleOfFirstMatch(routes: seq<Route>, pathname: string, i: int)
    requires 0 <= i < |routes| && StartsWith(pathname, routes[i].prefix)
    requires forall j :: 0 <= j < i ==> !StartsWith(pathname, routes[j].prefix)
    ensures TitleIn(routes, pathname) == routes[i].title
  {
    if i > 0 {
      assert !StartsWith(pathname, routes[0].prefix);
      TitleOfFirstMatch(routes[1..], pathname, i - 1);
    }
  }

  lemma {:induction false} TitleOfNoMatch(routes: seq<Route>, pathname: string)
    requires forall j :: 0 <= j < |routes| ==> !StartsWith(pathname, routes[j].prefix)
    ensures TitleIn(routes, pathname) == DefaultTitle
  {
    if routes != [] {
      assert !StartsWith(pathname, routes[0].prefix);
      TitleOfNoMatch(routes[1..], pathname);
    }
  }

  /** A path under a section gets that section's title, whatever the order of the tests, since at
      most one prefix matches; a path under none gets the default title. */
  lemma PageTitleMeaning(pathname: string, i: int)
    ensures (forall j :: 0 <= j < |Routes| ==> !StartsWith(pathname, Routes[j].prefix)) ==> PageTitle(pathname) == DefaultTitle
    ensures 0 <= i < |Routes| && StartsWith(pathname, Routes[i].prefix) ==> PageTitle(pathname) == Routes[i].title
  {
    if forall j :: 0 <= j < |Routes| ==> !StartsWith(pathname, Routes[j].prefix) {
      TitleOfNoMatch(Routes, pathname);
    }
    if 0 <= i < |Routes| && StartsWith(pathname, Routes[i].prefix) {
      forall j | 0 <= j < i
        ensures !StartsWith(pathname, Routes[j].prefix)
      {
        if StartsWith(pathname, Routes[j].prefix) {
          RoutesExclude(pathname, i, j);
          assert false;
        }
      }
      TitleOfFirstMatch(Routes, pathname, i);
    }
  }

  /** No prefix in the table starts with another, so at most one matches any path and the order
      of the tests does not matter. */
  lemma RoutesExclude(pathname: string, i: int, j: int)
    requires 0 <= i < |Routes| && 0 <= j < |Routes|
    requires StartsWith(pathname, Routes[i].prefix) && StartsWith(pathname, Routes[j].prefix)
    ensures i == j
  {
    if i != j {
      var p, q := Routes[i].prefix, Routes[j].prefix;
      if |p| <= |q| {
        PrefixesNest(pathname, p, q);
        PrefixFree(i, j);
      } else {
        PrefixesNest(pathname, q, p);
        PrefixFree(j, i);
      }
    }
  }

  lemma PrefixFree(i: int, j: int)
    requires 0 <= i < |Routes| && 0 <= j < |Routes| && i != j
    ensures !StartsWith(Routes[j].prefix, Routes[i].prefix)
  {
    var p, q := Routes[i].prefix, Routes[j].prefix;
    assert p[1] != q[1] || p[2] != q[2] || p[3] != q[3] || p[4] != q[4];
  }

  /** What some paths are titled: a nested page takes its section's title. */
  lemma TitlesOfRoutes()
    ensures PageTitle("/subjects/physics") == "Subjects & Syllabus"
    ensures PageTitle("/") == DefaultTitle
  {
    var path := "/subjects/physics";
    assert path[..|Routes[1].prefix|] == Routes[1].prefix;
    PageTitleMeaning(path, 1);
    forall j | 0 <= j < |Routes|
      ensures !StartsWith("/", Routes[j].prefix)
    {
      assert |Routes[j].prefix| > 1;
    }
    PageTitleMeaning("/", 0);
  }

  // ---------------------------------------------------------------- initials

  /** `part[0]` inside a template literal: the first character, or the text "undefined" when
      the part is empty. */
  function FirstCharAsWritten(part: string): string {
    if part == "" then "undefined" else [part[0]]
  }

  /** `name.substring(0, 2)`. */
  function FirstTwo(name: string): (r: string)
    ensures |r| == if |name| < 2 then |name| else 2
    ensures r == name[..|r|]
  {
    if |name| < 2 then name else name[..2]
  }

  /** `getInitials` as written: with more than one space-separated part, the first characters of
      the first and the last part; otherwise the first two characters; all upper-cased. */
  function GetInitialsAsWritten(name: string): string {
    if name == "" then ""
    else
      var names := Split(name);
      if |names| > 1 then Upper(FirstCharAsWritten(names[0]) + FirstCharAsWritten(names[|names| - 1]))
      else Upper(FirstTwo(name))
  }

  /** A trailing space leaves an empty last part, whose missing first character renders as
      "undefined". */
  lemma InitialsOfTrailingSpaceAsWritten()
    ensures GetInitialsAsWritten("Ada ") == "AUNDEFINED"
  {
    RawInitialsOfAdaSpace();
    UpperUndefined();
  }

  lemma RawInitialsOfAdaSpace()
    ensures GetInitialsAsWritten("Ada ") == Upper("Aundefined")
  {
    AdaSpace();
    assert FirstCharAsWritten("Ada") + FirstCharAsWritten("") == "Aundefined";
  }

  lemma UpperUndefined()
    ensures Upper("Aundefined") == "AUNDEFINED"
  {
    UpperOfLetters("Aundefined");
  }

  lemma UpperOfLetters(s: string)
    requires s == "Aundefined"
    ensures Upper(s) == "AUNDEFINED"
  {
    var r := Upper(s);
    assert r[1] == 'U' && r[2] == 'N' && r[3] == 'D' && r[4] == 'E';
    assert r[5] == 'F' && r[6] == 'I' && r[7] == 'N' && r[8] == 'E' && r[9] == 'D';
  }

  lemma AdaSpace()
    ensures Split("Ada ") == ["Ada", ""]
  {
    DaSpace();
    SplitCons('A', "da ");
    assert "Ada " == ['A'] + "da ";
    assert ['A'] + "da" == "Ada";
  }

  lemma DaSpace()
    ensures Split("da ") == ["da", ""]
  {
    ASpace();
    SplitCons('d', "a ");
    assert "da " == ['d'] + "a ";
    assert ['d'] + "a" == "da";
  }

  lemma ASpace()
    ensures Split("a ") == ["a", ""]
  {
    assert Split(" ") == ["", ""];
    SplitCons('a', " ");
    assert "a " == ['a'] + " ";
  }

  /** The name without spaces at either end. */
  function Trim(s: string): (r: string)
    ensures r == "" || (r[0] != ' ' && r[|r| - 1] != ' ')
    ensures (s == "" || (s[0] != ' ' && s[|s| - 1] != ' ')) ==> r == s
    decreases |s|
  {
    if s == [] then []
    else if s[0] == ' ' then Trim(s[1..])
    else if s[|s| - 1] == ' ' then Trim(s[..|s| - 1])
    else s
  }

  /** What is trimmed is a slice of the name. */
  lemma {:induction false} TrimIsSlice(s: string) returns (i: int, j: int)
    ensures 0 <= i <= j <= |s| && Trim(s) == s[i..j]
    decreases |s|
  {
    if s == [] {
      i, j := 0, 0;
    } else if s[0] == ' ' {
      var i', j' := TrimIsSlice(s[1..]);
      i, j := i' + 1, j' + 1;
      assert s[1..][i'..j'] == s[i..j];
    } else if s[|s| - 1] == ' ' {
      i, j := TrimIsSlice(s[..|s| - 1]);
      assert s[..|s| - 1][i..j] == s[i..j];
    } else {
      i, j := 0, |s|;
      assert s[0..|s|] == s;
    }
  }

  /** The intended initials: the same rule applied to the name without surrounding spaces. */
  function GetInitials(name: string): string {
    GetInitialsAsWritten(Trim(name))
  }

  /** In a name without edge spaces, the first and the last part are not empty. */
  lemma EdgeParts(t: string)
    requires t != "" && t[0] != ' ' && t[|t| - 1] != ' ' && |Split(t)| > 1
    ensures var names := Split(t);
      var last := names[|names| - 1];
      && names[0] != "" && last != "" && |last| <= |t|
      && names[0][0] == t[0] && last[0] == t[|t| - |last|]
  {
    var names := Split(t);
    var last := names[|names| - 1];
    SplitLast(t);
    assert t[..|names[0]|] == names[0];
    if names[0] != "" {
      assert names[0][0] == t[..|names[0]|][0];
    }
    assert t[|t| - |last|..] == last;
    if last != "" {
      assert last[0] == t[|t| - |last|..][0];
    }
  }

  /** Each character of the initials is an upper-cased character of the name they came from. */
  predicate FromName(r: string, name: string) {
    forall k :: 0 <= k < |r| ==> UpperOfSome(r[k], name)
  }

  predicate UpperOfSome(c: char, name: string) {
    exists j :: 0 <= j < |name| && c == UpperChar(name[j])
  }

  /** The rule applied to a name without edge spaces gives at most two of its characters. */
  lemma InitialsOfTrimmed(t: string)
    requires t == "" || (t[0] != ' ' && t[|t| - 1] != ' ')
    ensures |GetInitialsAsWritten(t)| <= 2 && FromName(GetInitialsAsWritten(t), t)
  {
    if t != "" {
      if |Split(t)| > 1 {
        InitialsOfSeveralParts(t);
      } else {
        InitialsOfOnePart(t);
      }
    }
  }

  lemma InitialsOfSeveralParts(t: string)
    requires t != "" && t[0] != ' ' && t[|t| - 1] != ' ' && |Split(t)| > 1
    ensures |GetInitialsAsWritten(t)| == 2 && FromName(GetInitialsAsWritten(t), t)
  {
    var k := RawInitialsOfSeveralParts(t);
    UpperPair(t[0], t[k]);
    PairFromName(t, k);
  }

  lemma PairFromName(t: string, k: nat)
    requires 0 < |t| && k < |t|
    ensures FromName([UpperChar(t[0]), UpperChar(t[k])], t)
  {
    var r := [UpperChar(t[0]), UpperChar(t[k])];
    forall i | 0 <= i < |r|
      ensures UpperOfSome(r[i], t)
    {
      if i == 0 {
        assert r[i] == UpperChar(t[0]);
      } else {
        assert r[i] == UpperChar(t[k]);
      }
    }
  }

  /** Several parts, both end parts non-empty: the initials are the first character and the
      first character of the last part, at index `k`. */
  lemma RawInitialsOfSeveralParts(t: string) returns (k: nat)
    requires t != "" && t[0] != ' ' && t[|t| - 1] != ' ' && |Split(t)| > 1
    ensures k < |t| && GetInitialsAsWritten(t) == Upper([t[0], t[k]])
  {
    var names := Split(t);
    EdgeParts(t);
    var last := names[|names| - 1];
    k := |t| - |last|;
    assert FirstCharAsWritten(names[0]) + FirstCharAsWritten(last) == [t[0], t[k]];
  }

  lemma UpperPair(x: char, y: char)
    ensures Upper([x, y]) == [UpperChar(x), UpperChar(y)]
  {
  }

  lemma InitialsOfOnePart(t: string)
    requires t != "" && |Split(t)| == 1
    ensures |GetInitialsAsWritten(t)| <= 2 && FromName(GetInitialsAsWritten(t), t)
  {
    var r := GetInitialsAsWritten(t);
    var x := FirstTwo(t);
    assert r == Upper(x);
    forall k | 0 <= k < |r|
      ensures UpperOfSome(r[k], t)
    {
      assert x[k] == t[k];
    }
  }

  /** Characters of a slice are characters of the whole. */
  lemma FromSlice(r: string, name: string, a: int, b: int)
    requires 0 <= a <= b <= |name| && FromName(r, name[a..b])
    ensures FromName(r, name)
  {
    forall k | 0 <= k < |r|
      ensures UpperOfSome(r[k], name)
    {
      var j :| 0 <= j < |name[a..b]| && r[k] == UpperChar(name[a..b][j]);
      assert name[a..b][j] == name[a + j];
    }
  }

  /** The initials are at most two characters, each an upper-cased character of the name. */
  lemma InitialsComeFromTheName(name: string)
    ensures |GetInitials(name)| <= 2
    ensures FromName(GetInitials(name), name)
    ensures name == "" ==> GetInitials(name) == ""
  {
    var t := Trim(name);
    var a, b := TrimIsSlice(name);
    InitialsOfTrimmed(t);
    FromSlice(GetInitials(name), name, a, b);
  }

  /** Which characters they are, read off the trimmed name: with several parts, the end parts
      are not empty and the initials are their first characters, upper-cased; with one part,
      its first two characters; for a name of spaces only, nothing. */
  lemma InitialsOfTheParts(name: string)
    ensures Trim(name) == "" ==> GetInitials(name) == ""
    ensures var parts := Split(Trim(name));
      |parts| > 1 ==>
        && parts[0] != "" && parts[|parts| - 1] != ""
        && GetInitials(name) == [UpperChar(parts[0][0]), UpperChar(parts[|parts| - 1][0])]
    ensures Trim(name) != "" && |Split(Trim(name))| == 1 ==> GetInitials(name) == Upper(FirstTwo(Trim(name)))
  {
    var t := Trim(name);
    if t != "" && |Split(t)| > 1 {
      InitialsOfEndParts(t);
    }
  }

  lemma InitialsOfEndParts(t: string)
    requires t != "" && t[0] != ' ' && t[|t| - 1] != ' ' && |Split(t)| > 1
    ensures var parts := Split(t);
      && parts[0] != "" && parts[|parts| - 1] != ""
      && GetInitialsAsWritten(t) == [UpperChar(parts[0][0]), UpperChar(parts[|parts| - 1][0])]
  {
    EdgeParts(t);
    var k := RawInitialsOfSeveralParts(t);
    UpperPair(t[0], t[k]);
  }

  /** The correction changes nothing for a name without edge spaces. */
  lemma InitialsAgreeWithoutEdgeSpaces(name: string)
    requires name == "" || (name[0] != ' ' && name[|name| - 1] != ' ')
    ensures GetInitials(name) == GetInitialsAsWritten(name)
  {
  }

  /** With the correction, the trailing space is ignored. */
  lemma InitialsOfTrailingSpace()
    ensures GetInitials("Ada ") == "AD"
  {
    assert "Ada "[..3] == "Ada";
    assert Trim("Ada ") == Trim("Ada") == "Ada";
    assert ' ' !in "Ada";
    assert FirstTwo("Ada") == "Ad";
    assert Upper("Ad") == "AD";
  }
}
