/** The JavaScript string operations the scanner relies on: `trim`, `split` on one
    character, `split(/\r?\n/)`, `join`, `toLowerCase` (ASCII) and `endsWith`. */
module Text {

  /** The characters JavaScript's `trim` removes and the regular-expression class `\s`
      matches: WhiteSpace (including the Zs category) and LineTerminator. */
  predicate IsSpace(c: char)
  {
    c == '\t' || c == '\n' || c == '\U{B}' || c == '\U{C}' || c == '\r' || c == ' ' ||
    c == '\U{A0}' || c == '\U{1680}' || ('\U{2000}' <= c <= '\U{200A}') ||
    c == '\U{2028}' || c == '\U{2029}' || c == '\U{202F}' || c == '\U{205F}' ||
    c == '\U{3000}' || c == '\U{FEFF}'
  }

  /** Removes leading spaces. */
  function TrimStart(s: string): (r: string)
    ensures |r| <= |s| && r == s[|s| - |r|..]
    ensures r == [] || !IsSpace(r[0])
    ensures forall i :: 0 <= i < |s| - |r| ==> IsSpace(s[i])
  {
    if s != [] && IsSpace(s[0]) then TrimStart(s[1..]) else s
  }

  /** Removes trailing spaces. */
  function TrimEnd(s: string): (r: string)
    ensures |r| <= |s| && r == s[..|r|]
    ensures r == [] || !IsSpace(r[|r| - 1])
    ensures forall i :: |r| <= i < |s| ==> IsSpace(s[i])
  {
    if s != [] && IsSpace(s[|s| - 1]) then TrimEnd(s[..|s| - 1]) else s
  }

  /** `String.prototype.trim`. */
  function Trim(s: string): string
  {
    TrimStart(TrimEnd(s))
  }

  /** A trimmed string neither starts nor ends with a space, so trimming it again changes nothing. */
  lemma TrimmedHasNoOuterSpace(s: string)
    ensures var t := Trim(s); t == [] || (!IsSpace(t[0]) && !IsSpace(t[|t| - 1]))
    ensures Trim(Trim(s)) == Trim(s)
  {
    var e := TrimEnd(s);
    var t := TrimStart(e);
    assert t == e[|e| - |t|..];
    if t != [] {
      assert t[|t| - 1] == e[|e| - 1];
    }
    NoOuterSpaceIsFixed(t);
  }

  lemma NoOuterSpaceIsFixed(t: string)
    requires t == [] || (!IsSpace(t[0]) && !IsSpace(t[|t| - 1]))
    ensures Trim(t) == t
  {
  }

  /** Trimming adds no character. */
  lemma NotInTrim(s: string, c: char)
    requires c !in s
    ensures c !in Trim(s)
  {
    var e := TrimEnd(s);
    NotInSlice(s, 0, |e|, c);
    var t := TrimStart(e);
    NotInSlice(e, |e| - |t|, |e|, c);
  }

  lemma NotInSlice(s: string, i: nat, j: nat, c: char)
    requires c !in s && i <= j <= |s|
    ensures c !in s[i..j]
  {
    forall k | i <= k < j ensures s[k] != c {
      assert s[k] in s;
    }
    assert forall k :: 0 <= k < j - i ==> s[i..j][k] == s[i + k];
  }

  /** `String.prototype.toLowerCase`, restricted to ASCII letters. */
  function ToLower(s: string): (r: string)
    ensures |r| == |s|
    ensures forall i :: 0 <= i < |s| ==> r[i] == LowerChar(s[i])
  {
    if s == [] then [] else [LowerChar(s[0])] + ToLower(s[1..])
  }

  function LowerChar(c: char): char
  {
    if 'A' <= c <= 'Z' then (c as int - 'A' as int + 'a' as int) as char else c
  }

  predicate EndsWith(s: string, suffix: string)
  {
    |suffix| <= |s| && s[|s| - |suffix|..] == suffix
  }

  predicate StartsWith(s: string, prefix: string)
  {
    |prefix| <= |s| && s[..|prefix|] == prefix
  }

  /** `s.split(c)` for a one-character separator: the pieces between occurrences of `c`.
      Like JavaScript's, it yields at least one piece ("".split(c) is [""]). */
  function Split(s: string, c: char): (r: seq<string>)
    ensures |r| >= 1
  {
    if s == [] then [""]
    else
      var rest := Split(s[1..], c);
      if s[0] == c then [""] + rest else [[s[0]] + rest[0]] + rest[1..]
  }

  /** `parts.join(c)`. */
  function Join(parts: seq<string>, c: char): string
  {
    if |parts| == 0 then ""
    else if |parts| == 1 then parts[0]
    else parts[0] + [c] + Join(parts[1..], c)
  }

  /** No piece of a split contains the separator. */
  lemma {:induction false} SplitPieceHasNo(s: string, c: char, i: nat)
    requires i < |Split(s, c)|
    ensures c !in Split(s, c)[i]
  {
    if s != [] {
      var rest := Split(s[1..], c);
      if s[0] == c {
        if i > 0 { SplitPieceHasNo(s[1..], c, i - 1); }
      } else if i == 0 {
        SplitPieceHasNo(s[1..], c, 0);
      } else {
        SplitPieceHasNo(s[1..], c, i);
      }
    }
  }

  /** Joining the pieces of a split gives the string back. */
  lemma {:induction false} JoinSplit(s: string, c: char)
    ensures Join(Split(s, c), c) == s
  {
    if s != [] {
      JoinSplit(s[1..], c);
      var rest := Split(s[1..], c);
      if s[0] == c {
        assert Split(s, c) == [""] + rest;
        assert s == [c] + s[1..];
      } else {
        var r := Split(s, c);
        assert r[0] == [s[0]] + rest[0] && r[1..] == rest[1..];
        if |rest| == 1 {
          assert r == [[s[0]] + rest[0]];
        } else {
          assert r[1..][1..] == rest[1..][1..];
          assert Join(rest, c) == rest[0] + [c] + Join(rest[1..], c);
        }
      }
    }
  }

  /** Splitting a join of separator-free pieces gives the pieces back. */
  lemma {:induction false} SplitJoin(parts: seq<string>, c: char)
    requires |parts| >= 1
    requires forall i, j :: 0 <= i < |parts| && 0 <= j < |parts[i]| ==> parts[i][j] != c
    ensures Split(Join(parts, c), c) == parts
  {
    if |parts| == 1 {
      SplitNoSeparator(parts[0], c);
    } else {
      SplitJoin(parts[1..], c);
      SplitConcat(parts[0], Join(parts[1..], c), c);
      SplitNoSeparator(parts[0], c);
      assert [parts[0]] + parts[1..] == parts;
    }
  }

  /** A string without the separator splits into itself. */
  lemma {:induction false} SplitNoSeparator(s: string, c: char)
    requires forall j :: 0 <= j < |s| ==> s[j] != c
    ensures Split(s, c) == [s]
  {
    if s != [] {
      SplitNoSeparator(s[1..], c);
      assert [s[0]] + s[1..] == s;
    }
  }

  /** Splitting `a + c + b` splits `a` and `b` separately. */
  lemma {:induction false} SplitConcat(a: string, b: string, c: char)
    ensures Split(a + [c] + b, c) == Split(a, c) + Split(b, c)
  {
    if a == [] {
      assert a + [c] + b == [c] + b;
      SplitCons(c, b, c);
    } else {
      var t := a[1..] + [c] + b;
      assert a + [c] + b == [a[0]] + t;
      assert a == [a[0]] + a[1..];
      SplitConcat(a[1..], b, c);
      SplitCons(a[0], t, c);
      SplitCons(a[0], a[1..], c);
      SplitPrepend(a[0], Split(a[1..], c), Split(b, c), c);
    }
  }

  /** One step of `Split` on a string with a known first character. */
  lemma SplitCons(ch: char, t: string, c: char)
    ensures Split([ch] + t, c) ==
      if ch == c then [""] + Split(t, c) else [[ch] + Split(t, c)[0]] + Split(t, c)[1..]
  {
    assert ([ch] + t)[1..] == t;
  }

  lemma SplitPrepend(ch: char, ra: seq<string>, rb: seq<string>, c: char)
    requires |ra| >= 1
    ensures (if ch == c then [""] + (ra + rb) else [[ch] + (ra + rb)[0]] + (ra + rb)[1..]) ==
      (if ch == c then [""] + ra else [[ch] + ra[0]] + ra[1..]) + rb
  {
    if ch != c {
      assert (ra + rb)[0] == ra[0];
      assert (ra + rb)[1..] == ra[1..] + rb;
    }
  }

  /** `s.split(/\r?\n/)`: a line feed, together with one carriage return right before it,
      separates two pieces; a carriage return not followed by a line feed stays in its piece. */
  function SplitLines(s: string): (r: seq<string>)
    ensures |r| >= 1
  {
    if s == [] then [""]
    else if s[0] == '\n' then [""] + SplitLines(s[1..])
    else if |s| >= 2 && s[0] == '\r' && s[1] == '\n' then [""] + SplitLines(s[2..])
    else
      var rest := SplitLines(s[1..]);
      [[s[0]] + rest[0]] + rest[1..]
  }

  /** Piece by piece, `pieces` are `lines` each with possibly one final carriage return more. */
  predicate LessCR(pieces: seq<string>, lines: seq<string>)
  {
    |pieces| == |lines| && forall i :: 0 <= i < |lines| ==> pieces[i] == lines[i] || pieces[i] == lines[i] + ['\r']
  }

  /** Each piece of `split(/\r?\n/)` is the matching piece of `split("\n")`, possibly without
      that piece's final carriage return. */
  lemma {:induction false} SplitLinesIsSplitLessCR(s: string)
    ensures LessCR(Split(s, '\n'), SplitLines(s))
  {
    if s == [] {
    } else if s[0] == '\n' {
      SplitLinesIsSplitLessCR(s[1..]);
      LessCREmpty(Split(s[1..], '\n'), SplitLines(s[1..]), "");
    } else if |s| >= 2 && s[0] == '\r' && s[1] == '\n' {
      SplitLinesIsSplitLessCR(s[2..]);
      assert s[1..][1..] == s[2..];
      assert Split(s[1..], '\n') == [""] + Split(s[2..], '\n');
      var rest := Split(s[1..], '\n');
      assert rest[0] == "" && rest[1..] == Split(s[2..], '\n');
      assert ['\r'] + rest[0] == ['\r'];
      assert Split(s, '\n') == [['\r']] + Split(s[2..], '\n');
      LessCREmpty(Split(s[2..], '\n'), SplitLines(s[2..]), ['\r']);
    } else {
      SplitLinesIsSplitLessCR(s[1..]);
      LessCRCons(Split(s[1..], '\n'), SplitLines(s[1..]), s[0]);
    }
  }

  lemma LessCREmpty(pieces: seq<string>, lines: seq<string>, first: string)
    requires LessCR(pieces, lines) && (first == "" || first == ['\r'])
    ensures LessCR([first] + pieces, [""] + lines)
  {
    assert "" + ['\r'] == ['\r'];
  }

  lemma LessCRCons(pieces: seq<string>, lines: seq<string>, ch: char)
    requires LessCR(pieces, lines) && |lines| >= 1
    ensures LessCR([[ch] + pieces[0]] + pieces[1..], [[ch] + lines[0]] + lines[1..])
  {
    assert [ch] + (lines[0] + ['\r']) == ([ch] + lines[0]) + ['\r'];
  }

  /** A trailing carriage return does not survive trimming. */
  lemma TrimDropsCR(s: string)
    ensures Trim(s + ['\r']) == Trim(s)
  {
    assert (s + ['\r'])[..|s|] == s;
  }
}
