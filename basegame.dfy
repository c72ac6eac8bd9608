/** The set of base-game placement names (scan.js:31-39) and the membership test that decides
    whether a placement file is base-game content (scan.js:53). */
module BaseGame {
  import opened Wrappers
  import opened Text

  /** `new Set(data.split(/\r?\n/).map(l => l.trim()).filter(Boolean))`. */
  function ParseBaseList(text: string): (r: set<string>)
    ensures "" !in r
    ensures forall n :: n in r ==> Trim(n) == n && '\n' !in n
    ensures forall l :: l in SplitLines(text) && Trim(l) != "" ==> Trim(l) in r
    ensures forall n :: n in r ==> exists l :: l in SplitLines(text) && Trim(l) == n
  {
    var lines := SplitLines(text);
    forall l | l in lines ensures Trim(Trim(l)) == Trim(l) && '\n' !in Trim(l) {
      TrimmedHasNoOuterSpace(l);
      SplitLinesHaveNoLF(text, l);
    }
    set l | l in lines && Trim(l) != "" :: Trim(l)
  }

  lemma {:induction false} SplitLinesHaveNoLF(text: string, l: string)
    requires l in SplitLines(text)
    ensures '\n' !in Trim(l)
  {
    SplitLinesIsSplitLessCR(text);
    var i :| 0 <= i < |SplitLines(text)| && SplitLines(text)[i] == l;
    SplitPieceHasNo(text, '\n', i);
    var piece := Split(text, '\n')[i];
    assert piece == l || piece == l + ['\r'];
    assert forall j :: 0 <= j < |l| ==> l[j] == piece[j] && piece[j] in piece;
    NotInTrim(l, '\n');
  }

  /** `loadBaseGameYmapNames`: the file's text, or an empty set when it cannot be read. */
  function LoadBaseGameYmapNames(file: Option<string>): (r: set<string>)
    ensures file.None? ==> r == {}
    ensures file.Some? ==> r == ParseBaseList(file.value)
  {
    match file
    case None => {}
    case Some(text) => ParseBaseList(text)
  }

  /** `isBaseGameYmap`: exact membership, no prefix matching. */
  predicate IsBaseGameYmap(baseSet: set<string>, baseName: string)
  {
    baseName in baseSet
  }

  /** Windows and Unix line endings give the same set: the carriage return left at the end of
      a line by a plain split on "\n" is removed by the trim. */
  lemma LineEndingsDoNotMatter(text: string)
    ensures ParseBaseList(text) == set l | l in Split(text, '\n') && Trim(l) != "" :: Trim(l)
  {
    var a, b := SplitLines(text), Split(text, '\n');
    SplitLinesIsSplitLessCR(text);
    forall i | 0 <= i < |a| ensures Trim(a[i]) == Trim(b[i]) {
      TrimDropsCR(a[i]);
    }
    SameTrimmedLines(a, b);
  }

  lemma SameTrimmedLines(a: seq<string>, b: seq<string>)
    requires |a| == |b|
    requires forall i :: 0 <= i < |a| ==> Trim(a[i]) == Trim(b[i])
    ensures (set l | l in a && Trim(l) != "" :: Trim(l)) == (set l | l in b && Trim(l) != "" :: Trim(l))
  {
    var sa := set l | l in a && Trim(l) != "" :: Trim(l);
    var sb := set l | l in b && Trim(l) != "" :: Trim(l);
    forall n | n in sa ensures n in sb {
      var l :| l in a && Trim(l) != "" && Trim(l) == n;
      var i :| 0 <= i < |a| && a[i] == l;
      assert b[i] in b;
    }
    forall n | n in sb ensures n in sa {
      var l :| l in b && Trim(l) != "" && Trim(l) == n;
      var i :| 0 <= i < |b| && b[i] == l;
      assert a[i] in a;
    }
  }

  /** A name that merely starts with a listed name is not base-game content. */
  lemma ExactMatchOnly()
    ensures IsBaseGameYmap(ParseBaseList("foo\r\n"), "foo")
    ensures !IsBaseGameYmap(ParseBaseList("foo\r\n"), "foobar")
  {
    FooLines();
    NoOuterSpaceIsFixed("foo");
    OneNameList("foo\r\n", "foo");
  }

  /** A text of one trimmed, non-empty line followed by a line break lists that line alone. */
  lemma OneNameList(text: string, name: string)
    requires SplitLines(text) == [name, ""]
    requires name != "" && Trim(name) == name
    ensures ParseBaseList(text) == {name}
  {
    assert Trim("") == "";
    var lines, r := SplitLines(text), ParseBaseList(text);
    assert lines[0] in lines;
    assert forall l :: l in lines ==> l == name || l == "";
    forall n | n in r ensures n == name {
      var l :| l in lines && Trim(l) == n;
      assert n != "" && l != "";
      assert l == name;
    }
    assert name in r;
  }

  lemma FooLines()
    ensures SplitLines("foo\r\n") == ["foo", ""]
  {
    assert "\r\n"[2..] == "";
    assert SplitLines("\r\n") == ["", ""];
    SplitLinesOrdinary('o', "\r\n");
    assert ['o'] + "\r\n" == "o\r\n" && ['o'] + "" == "o";
    assert SplitLines("o\r\n") == ["o", ""];
    SplitLinesOrdinary('o', "o\r\n");
    assert ['o'] + "o\r\n" == "oo\r\n" && ['o'] + "o" == "oo";
    assert SplitLines("oo\r\n") == ["oo", ""];
    SplitLinesOrdinary('f', "oo\r\n");
    assert ['f'] + "oo\r\n" == "foo\r\n" && ['f'] + "oo" == "foo";
  }

  lemma SplitLinesOrdinary(ch: char, t: string)
    requires ch != '\n' && ch != '\r'
    ensures SplitLines([ch] + t) == [[ch] + SplitLines(t)[0]] + SplitLines(t)[1..]
  {
    assert ([ch] + t)[1..] == t;
  }
}
