/**
 * The JavaScript string operations the routes and the page rely on: white space
 * as `\s` and `String.prototype.trim` see it, `trim`, `replace(/\s+/g, c)`,
 * `split(/\s+/)`, `split(c)`, `join(c)`, `includes` and `replace(c, "")`.
 */
module JsStrings {

  /**
   * The characters ECMAScript treats as white space in `\s` and in `trim`:
   * the WhiteSpace set (tab, vertical tab, form feed, space, no-break space,
   * the byte order mark and the space separators of Unicode category Zs)
   * and the LineTerminator set (line feed, carriage return, U+2028, U+2029).
   */
  predicate IsSpace(c: char) {
    || c == '\t' || c == '\n' || c == '\U{000B}' || c == '\U{000C}' || c == '\r' || c == ' '
    || c == '\U{00A0}' || c == '\U{1680}' || ('\U{2000}' <= c <= '\U{200A}')
    || c == '\U{2028}' || c == '\U{2029}' || c == '\U{202F}' || c == '\U{205F}'
    || c == '\U{3000}' || c == '\U{FEFF}'
  }

  /** No character of s is white space. */
  predicate NoSpace(s: string) {
    forall k :: 0 <= k < |s| ==> !IsSpace(s[k])
  }

  /** Every character of s is white space. */
  predicate AllSpace(s: string) {
    forall k :: 0 <= k < |s| ==> IsSpace(s[k])
  }

  /** `s.trimStart()`: the suffix of s after its leading run of white space. */
  function TrimStart(s: string): (r: string)
    ensures |r| <= |s| && r == s[|s| - |r|..]
    ensures r == [] || !IsSpace(r[0])
    ensures AllSpace(s[..|s| - |r|])
  {
    if |s| > 0 && IsSpace(s[0]) then
      var r := TrimStart(s[1..]);
      assert s[..|s| - |r|] == [s[0]] + s[1..][..|s| - 1 - |r|];
      r
    else s
  }

  /** `s.trimEnd()`: the prefix of s before its trailing run of white space. */
  function TrimEnd(s: string): (r: string)
    ensures |r| <= |s| && r == s[..|r|]
    ensures r == [] || !IsSpace(r[|r| - 1])
    ensures AllSpace(s[|r|..])
  {
    if |s| > 0 && IsSpace(s[|s| - 1]) then
      var r := TrimEnd(s[..|s| - 1]);
      assert s[|r|..] == s[..|s| - 1][|r|..] + [s[|s| - 1]];
      r
    else s
  }

  /** `s.trim()`: s without its leading and trailing white space. */
  function Trim(s: string): (r: string)
    ensures |r| <= |TrimStart(s)| <= |s|
    ensures r == [] || (!IsSpace(r[0]) && !IsSpace(r[|r| - 1]))
    ensures r == TrimStart(s)[..|r|]
  {
    TrimEnd(TrimStart(s))
  }

  /** The non-white-space characters of s, in order. */
  function Visible(s: string): string {
    if |s| == 0 then "" else (if IsSpace(s[0]) then "" else [s[0]]) + Visible(s[1..])
  }

  /**
   * `s.replace(/\s+/g, [c])`: every maximal run of white space in s becomes
   * the single character c; every other character is kept, in order.
   */
  function ReplaceRuns(s: string, c: char): (r: string)
    ensures |r| <= |s|
    ensures |r| == 0 <==> |s| == 0
    ensures |s| > 0 && !IsSpace(s[0]) ==> r[0] == s[0]
    ensures forall k :: 0 <= k < |r| && r[k] != c ==> !IsSpace(r[k])
    ensures IsSpace(c) ==> forall k :: 0 <= k < |r| - 1 ==> !(r[k] == c && r[k + 1] == c)
    decreases |s|
  {
    if |s| == 0 then ""
    else if IsSpace(s[0]) then [c] + ReplaceRuns(TrimStart(s), c)
    else [s[0]] + ReplaceRuns(s[1..], c)
  }

  /**
   * `s.replace(/\s+/g, " ").trim()`, the per-line normalisation both
   * transcript routes apply to caption and segment text.
   */
  function Collapse(s: string): string {
    Trim(ReplaceRuns(s, ' '))
  }

  /**
   * `s.split(/\s+/)`: the pieces of s between maximal runs of white space;
   * a leading or trailing run yields an empty first or last piece.
   */
  function SplitWs(s: string): (r: seq<string>)
    ensures |r| >= 1
    ensures forall i :: 0 <= i < |r| ==> NoSpace(r[i])
    ensures |s| > 0 && !IsSpace(s[0]) ==> |r[0]| > 0 && r[0][0] == s[0]
    decreases |s|
  {
    if |s| == 0 then [""]
    else if IsSpace(s[0]) then [""] + SplitWs(TrimStart(s))
    else
      var t := SplitWs(s[1..]);
      [[s[0]] + t[0]] + t[1..]
  }

  /** `parts.join(sep)` for a one-character separator. */
  function Join(parts: seq<string>, sep: char): string {
    if |parts| == 0 then ""
    else if |parts| == 1 then parts[0]
    else parts[0] + [sep] + Join(parts[1..], sep)
  }

  /** `s.split(sep)` for a one-character separator. */
  function Split(s: string, sep: char): (r: seq<string>)
    ensures |r| >= 1
    ensures forall i :: 0 <= i < |r| ==> sep !in r[i]
  {
    if |s| == 0 then [""]
    else if s[0] == sep then [""] + Split(s[1..], sep)
    else
      var t := Split(s[1..], sep);
      [[s[0]] + t[0]] + t[1..]
  }

  /** The index of the first occurrence of c in s (`s.indexOf(c)` when it is found). */
  function IndexOf(s: string, c: char): (r: nat)
    requires c in s
    ensures r < |s| && s[r] == c && c !in s[..r]
  {
    if s[0] == c then 0 else 1 + IndexOf(s[1..], c)
  }

  /** The first occurrence of c in `a + [c] + b`, when a has none, splits it back into a and b. */
  lemma IndexOfJoined(a: string, c: char, b: string)
    requires c !in a
    ensures c in a + [c] + b
    ensures IndexOf(a + [c] + b, c) == |a|
    ensures (a + [c] + b)[..|a|] == a && (a + [c] + b)[|a| + 1..] == b
  {
    var s := a + [c] + b;
    assert s[|a|] == c;
    assert s[..|a|] == a;
  }

  /** `a + [' '] + b` splits back, at index |a|, into a and b. */
  lemma PrefixSpaceSuffix(line: string, a: string, b: string)
    requires line == a + [' '] + b
    ensures |a| < |line| && line[|a|] == ' ' && line[..|a|] == a && line[|a| + 1..] == b
  {
  }

  /** A character absent from a and from b, and other than c, is absent from `a + [c] + b`. */
  lemma JoinedExcludes(a: string, c: char, b: string, x: char)
    requires x !in a && x !in b && x != c
    ensures x !in a + [c] + b
  {
  }

  /** The non-empty strings of xs, in order (`xs.filter(Boolean)`). */
  function NonEmpty(xs: seq<string>): (r: seq<string>)
    ensures |r| <= |xs|
    ensures forall i :: 0 <= i < |r| ==> r[i] != ""
    ensures forall i :: 0 <= i < |r| ==> r[i] in xs
  {
    if |xs| == 0 then [] else (if xs[0] == "" then [] else [xs[0]]) + NonEmpty(xs[1..])
  }

  /** Filtering a concatenation filters each part, in order. */
  lemma {:induction false} NonEmptyAppend(a: seq<string>, b: seq<string>)
    ensures NonEmpty(a + b) == NonEmpty(a) + NonEmpty(b)
  {
    if |a| == 0 {
      assert a + b == b;
    } else {
      assert (a + b)[0] == a[0];
      assert (a + b)[1..] == a[1..] + b;
      NonEmptyAppend(a[1..], b);
    }
  }

  /** Filtering one string keeps it exactly when it is non-empty. */
  lemma NonEmptySingleton(x: string)
    ensures NonEmpty([x]) == if x == "" then [] else [x]
  {
    assert [x][1..] == [];
  }

  /** `s.replace(c, "")` with a one-character pattern: the first occurrence of c is removed. */
  function RemoveFirst(s: string, c: char): (r: string)
    ensures c in s ==> r == s[..IndexOf(s, c)] + s[IndexOf(s, c) + 1..]
    ensures c !in s ==> r == s
  {
    if |s| == 0 then s
    else if s[0] == c then s[1..]
    else
      var t := s[1..];
      IndexOfTail(s, c);
      [s[0]] + RemoveFirst(t, c)
  }

  /** Past a first character other than c, the search goes on in the tail. */
  lemma IndexOfTail(s: string, c: char)
    requires |s| > 0 && s[0] != c
    ensures s == [s[0]] + s[1..]
    ensures c in s <==> c in s[1..]
    ensures c in s ==> IndexOf(s, c) == 1 + IndexOf(s[1..], c)
  {
    assert s == [s[0]] + s[1..];
  }

  /** `s.includes(sub)`. */
  predicate Contains(s: string, sub: string)
    decreases |s|
  {
    |sub| <= |s| && (s[..|sub|] == sub || Contains(s[1..], sub))
  }

  // ---------------------------------------------------------------------
  // Lemmas

  /** Whatever surrounds it, a string contains sub when sub occurs in it. */
  lemma {:induction false} ContainsInfix(p: string, sub: string, q: string)
    ensures Contains(p + sub + q, sub)
  {
    if |p| > 0 {
      assert (p + sub + q)[1..] == p[1..] + sub + q;
      ContainsInfix(p[1..], sub, q);
    } else {
      assert (p + sub + q)[..|sub|] == sub;
    }
  }

  /** Trimming yields the empty string exactly on a blank string. */
  lemma TrimBlank(s: string)
    ensures Trim(s) == [] <==> AllSpace(s)
  {
    var t := TrimStart(s);
    var r := TrimEnd(t);
    if r == [] {
      assert t[|r|..] == t;
      assert t == [];
      assert s[..|s|] == s;
    } else {
      assert r[0] == t[0];
      assert t[0] == s[|s| - |t|];
    }
  }

  /** A string that has no white space at either end is its own trim. */
  lemma TrimNoop(s: string)
    requires s == [] || (!IsSpace(s[0]) && !IsSpace(s[|s| - 1]))
    ensures Trim(s) == s
  {
    assert TrimStart(s) == s;
    assert TrimEnd(s) == s;
  }

  /** White space in front of a string is cut away by `trimStart` with the rest of the leading run. */
  lemma {:induction false} TrimStartBlankPrefix(a: string, x: string)
    requires AllSpace(a)
    ensures TrimStart(a + x) == TrimStart(x)
    decreases |a|
  {
    if |a| > 0 {
      assert (a + x)[0] == a[0];
      assert (a + x)[1..] == a[1..] + x;
      TrimStartBlankPrefix(a[1..], x);
    } else {
      assert a + x == x;
    }
  }

  /** White space after a string is cut away by `trimEnd` with the rest of the trailing run. */
  lemma {:induction false} TrimEndBlankSuffix(x: string, b: string)
    requires AllSpace(b)
    ensures TrimEnd(x + b) == TrimEnd(x)
    decreases |b|
  {
    if |b| > 0 {
      var s := x + b;
      assert s[|s| - 1] == b[|b| - 1];
      assert s[..|s| - 1] == x + b[..|b| - 1];
      TrimEndBlankSuffix(x, b[..|b| - 1]);
    } else {
      assert x + b == x;
    }
  }

  /** `trimStart` of a concatenation: the second part is kept whole unless the first part is blank. */
  lemma {:induction false} TrimStartAppend(x: string, b: string)
    ensures TrimStart(x) != [] ==> TrimStart(x + b) == TrimStart(x) + b
    ensures TrimStart(x) == [] ==> TrimStart(x + b) == TrimStart(b)
    decreases |x|
  {
    if |x| == 0 {
      assert x + b == b;
    } else if IsSpace(x[0]) {
      assert (x + b)[0] == x[0];
      assert (x + b)[1..] == x[1..] + b;
      TrimStartAppend(x[1..], b);
    } else {
      assert (x + b)[0] == x[0];
    }
  }

  /** Surrounding a string with white space does not change its trim. */
  lemma TrimPadded(a: string, x: string, b: string)
    requires AllSpace(a) && AllSpace(b)
    ensures Trim(a + x + b) == Trim(x)
  {
    assert a + x + b == a + (x + b);
    TrimStartBlankPrefix(a, x + b);
    TrimStartAppend(x, b);
    if TrimStart(x) != [] {
      TrimEndBlankSuffix(TrimStart(x), b);
    } else {
      TrimStartBlankPrefix(b, []);
      assert b + [] == b;
    }
  }

  /** Replacing white-space runs leaves a string without white space as it is. */
  lemma {:induction false} ReplaceRunsNoSpace(s: string, c: char)
    requires NoSpace(s)
    ensures ReplaceRuns(s, c) == s
    decreases |s|
  {
    if |s| > 0 {
      ReplaceRunsNoSpace(s[1..], c);
    }
  }

  lemma {:induction false} VisibleConcat(a: string, b: string)
    ensures Visible(a + b) == Visible(a) + Visible(b)
  {
    if |a| > 0 {
      assert (a + b)[1..] == a[1..] + b;
      VisibleConcat(a[1..], b);
    } else {
      assert a + b == b;
    }
  }

  lemma {:induction false} VisibleAllSpace(s: string)
    requires AllSpace(s)
    ensures Visible(s) == ""
  {
    if |s| > 0 {
      VisibleAllSpace(s[1..]);
    }
  }

  /** Trimming removes white space only. */
  lemma VisibleTrim(s: string)
    ensures Visible(Trim(s)) == Visible(s)
  {
    var t := TrimStart(s);
    VisibleBlankPrefix(s[..|s| - |t|], t);
    assert s[..|s| - |t|] + t == s;
    var r := TrimEnd(t);
    VisibleBlankSuffix(r, t[|r|..]);
    assert r + t[|r|..] == t;
  }

  lemma VisibleBlankPrefix(a: string, b: string)
    requires AllSpace(a)
    ensures Visible(a + b) == Visible(b)
  {
    VisibleConcat(a, b);
    VisibleAllSpace(a);
  }

  lemma VisibleBlankSuffix(a: string, b: string)
    requires AllSpace(b)
    ensures Visible(a + b) == Visible(a)
  {
    VisibleConcat(a, b);
    VisibleAllSpace(b);
  }

  /** Replacing white-space runs by a white-space character keeps every visible character, in order. */
  lemma {:induction false} VisibleReplaceRuns(s: string, c: char)
    requires IsSpace(c)
    ensures Visible(ReplaceRuns(s, c)) == Visible(s)
    decreases |s|
  {
    if |s| > 0 {
      if IsSpace(s[0]) {
        var t := TrimStart(s);
        var rt := ReplaceRuns(t, c);
        assert ReplaceRuns(s, c) == [c] + rt;
        VisibleReplaceRuns(t, c);
        VisibleCons(c, rt);
        var lead := s[..|s| - |t|];
        assert s == lead + t;
        VisibleBlankPrefix(lead, t);
      } else {
        var t := s[1..];
        var rt := ReplaceRuns(t, c);
        assert ReplaceRuns(s, c) == [s[0]] + rt;
        VisibleReplaceRuns(t, c);
        VisibleCons(s[0], rt);
        assert s == [s[0]] + t;
        VisibleCons(s[0], t);
      }
    }
  }

  lemma VisibleCons(x: char, r: string)
    ensures Visible([x] + r) == (if IsSpace(x) then "" else [x]) + Visible(r)
  {
    assert ([x] + r)[1..] == r;
  }

  /**
   * `Collapse` leaves one line with no white space other than single
   * interior spaces, and keeps every visible character of its input, in order.
   */
  lemma CollapseShape(s: string)
    ensures var r := Collapse(s);
      && (forall k :: 0 <= k < |r| && IsSpace(r[k]) ==> r[k] == ' ')
      && (forall k :: 0 <= k < |r| - 1 ==> !(r[k] == ' ' && r[k + 1] == ' '))
      && (r == [] || (r[0] != ' ' && r[|r| - 1] != ' '))
      && '\n' !in r
      && Visible(r) == Visible(s)
  {
    CollapseOnlySpaces(s);
    CollapseNoDoubleSpace(s);
    CollapseNoBreak(s);
    CollapseVisible(s);
  }

  lemma CollapseNoBreak(s: string)
    ensures '\n' !in Collapse(s)
  {
    CollapseOnlySpaces(s);
    var r := Collapse(s);
    assert IsSpace('\n');
    assert forall k :: 0 <= k < |r| ==> r[k] != '\n';
  }

  lemma CollapseVisible(s: string)
    ensures Visible(Collapse(s)) == Visible(s)
  {
    VisibleTrim(ReplaceRuns(s, ' '));
    VisibleReplaceRuns(s, ' ');
  }

  lemma TrimAt(x: string, k: nat)
    requires k < |Trim(x)|
    ensures Trim(x)[k] == x[|x| - |TrimStart(x)| + k]
  {
    var t := TrimStart(x);
    assert Trim(x)[k] == t[k];
    assert t == x[|x| - |t|..];
  }

  lemma CollapseOnlySpaces(s: string)
    ensures forall k :: 0 <= k < |Collapse(s)| && IsSpace(Collapse(s)[k]) ==> Collapse(s)[k] == ' '
  {
    var x := ReplaceRuns(s, ' ');
    forall k | 0 <= k < |Trim(x)| && IsSpace(Trim(x)[k])
      ensures Trim(x)[k] == ' '
    {
      TrimAt(x, k);
    }
  }

  lemma CollapseNoDoubleSpace(s: string)
    ensures forall k :: 0 <= k < |Collapse(s)| - 1 ==> !(Collapse(s)[k] == ' ' && Collapse(s)[k + 1] == ' ')
  {
    var x := ReplaceRuns(s, ' ');
    forall k | 0 <= k < |Trim(x)| - 1
      ensures !(Trim(x)[k] == ' ' && Trim(x)[k + 1] == ' ')
    {
      TrimAt(x, k);
      TrimAt(x, k + 1);
    }
  }

  /** Adding c to the front of the first piece adds c to the front of the joined string. */
  lemma JoinConsFirst(c: char, t: seq<string>, sep: char)
    requires |t| >= 1
    ensures Join([[c] + t[0]] + t[1..], sep) == [c] + Join(t, sep)
  {
    var u := [[c] + t[0]] + t[1..];
    if |t| > 1 {
      assert u[1..] == t[1..];
    }
  }

  /** Joining the pieces of a split gives back the string. */
  lemma {:induction false} JoinSplit(s: string, sep: char)
    ensures Join(Split(s, sep), sep) == s
  {
    if |s| > 0 {
      JoinSplit(s[1..], sep);
      if s[0] == sep {
        var t := Split(s[1..], sep);
        assert ([""] + t)[1..] == t;
        assert s == [sep] + s[1..];
      } else {
        JoinConsFirst(s[0], Split(s[1..], sep), sep);
        assert s == [s[0]] + s[1..];
      }
    }
  }

  lemma {:induction false} SplitPrefix(a: string, rest: string, sep: char)
    requires sep !in a
    ensures Split(a + rest, sep) == [a + Split(rest, sep)[0]] + Split(rest, sep)[1..]
  {
    if |a| > 0 {
      assert (a + rest)[0] == a[0];
      assert (a + rest)[1..] == a[1..] + rest;
      SplitPrefix(a[1..], rest, sep);
      assert [a[0]] + (a[1..] + Split(rest, sep)[0]) == a + Split(rest, sep)[0];
    } else {
      var t := Split(rest, sep);
      assert a + rest == rest;
      assert a + t[0] == t[0];
      assert t == [t[0]] + t[1..];
    }
  }

  /**
   * Splitting a join gives back the pieces, provided there is at least one
   * piece and no piece contains the separator.
   */
  lemma {:induction false} SplitJoin(parts: seq<string>, sep: char)
    requires |parts| >= 1
    requires forall i :: 0 <= i < |parts| ==> sep !in parts[i]
    ensures Split(Join(parts, sep), sep) == parts
  {
    if |parts| == 1 {
      SplitPrefix(parts[0], "", sep);
      assert Split("", sep) == [""];
      assert parts[0] + "" == parts[0];
    } else {
      var j := Join(parts[1..], sep);
      SplitJoin(parts[1..], sep);
      assert parts[0] + [sep] + j == parts[0] + ([sep] + j);
      SplitPrefix(parts[0], [sep] + j, sep);
      assert ([sep] + j)[1..] == j;
      assert Split([sep] + j, sep) == [""] + Split(j, sep);
      assert parts[0] + "" == parts[0];
      assert parts == [parts[0]] + parts[1..];
    }
  }

  /** Replacing each white-space run by c is splitting at the runs and joining with c. */
  lemma {:induction false} ReplaceRunsIsSplitJoin(s: string, c: char)
    ensures ReplaceRuns(s, c) == Join(SplitWs(s), c)
    decreases |s|
  {
    if |s| > 0 {
      if IsSpace(s[0]) {
        var t := SplitWs(TrimStart(s));
        ReplaceRunsIsSplitJoin(TrimStart(s), c);
        assert ([""] + t)[1..] == t;
      } else {
        ReplaceRunsIsSplitJoin(s[1..], c);
        JoinConsFirst(s[0], SplitWs(s[1..]), c);
      }
    }
  }
}
