/**
 * `get_standard_includes`: the system headers named by angle-bracket include
 * lines of the scanned header files, sorted and without duplicates. A line
 * contributes only when it matches `#include *<([a-zA-Z0-9\-_]*)>` at its
 * very start; the match ignores whatever follows the closing bracket.
 */
module IncludeScanner {
  import opened Wrappers
  import opened Strings

  const Directive: string := "#include"

  /** The characters of the bracketed token: `[a-zA-Z0-9\-_]`. */
  predicate IsTokenChar(c: char)
  {
    ('a' <= c <= 'z') || ('A' <= c <= 'Z') || ('0' <= c <= '9') || c == '-' || c == '_'
  }

  predicate IsToken(t: string)
  {
    forall i :: 0 <= i < |t| ==> IsTokenChar(t[i])
  }

  /** ` *`: drops the leading spaces (spaces only, not tabs). */
  function SkipSpaces(s: string): string
  {
    if |s| > 0 && s[0] == ' ' then SkipSpaces(s[1..]) else s
  }

  /** `[a-zA-Z0-9\-_]*`: the longest prefix made of token characters. */
  function TokenPrefix(s: string): string
  {
    if |s| > 0 && IsTokenChar(s[0]) then [s[0]] + TokenPrefix(s[1..]) else []
  }

  /**
   * `regex.match(line)` and `match.group(1)`. Both repetitions are greedy and
   * neither can give characters back to a successful match (a space is not
   * `<` and a token character is not `>`), so the first choice is the only one.
   */
  function MatchInclude(line: string): Option<string>
  {
    if |line| < |Directive| || line[..|Directive|] != Directive then None
    else
      var s := SkipSpaces(line[|Directive|..]);
      if |s| == 0 || s[0] != '<' then None
      else
        var t := TokenPrefix(s[1..]);
        if |t| + 1 < |s| && s[|t| + 1] == '>' then Some(t) else None
  }

  function Spaces(k: nat): string
  {
    if k == 0 then [] else [' '] + Spaces(k - 1)
  }

  /** A line the pattern accepts: the directive, `k` spaces, the bracketed token, any trailing text. */
  function IncludeLine(k: nat, t: string, rest: string): string
  {
    Directive + Spaces(k) + ['<'] + t + ['>'] + rest
  }

  lemma {:induction false} SkipSpacesAfter(k: nat, s: string)
    requires |s| == 0 || s[0] != ' '
    ensures SkipSpaces(Spaces(k) + s) == s
    decreases k
  {
    if k > 0 {
      assert (Spaces(k) + s)[1..] == Spaces(k - 1) + s;
      SkipSpacesAfter(k - 1, s);
    }
  }

  lemma SpacesCons(n: nat, r: string)
    ensures [' '] + (Spaces(n) + r) == Spaces(n + 1) + r
  {
  }

  lemma {:induction false} SkipSpacesSplit(s: string)
    ensures var r := SkipSpaces(s);
      |r| <= |s| && s == Spaces(|s| - |r|) + r && (|r| == 0 || r[0] != ' ')
    decreases |s|
  {
    if |s| > 0 && s[0] == ' ' {
      SkipSpacesSplit(s[1..]);
      var r := SkipSpaces(s[1..]);
      var n := |s[1..]| - |r|;
      assert s == [' '] + s[1..];
      SpacesCons(n, r);
    } else {
      assert s == Spaces(0) + s;
    }
  }

  lemma {:induction false} TokenPrefixAfter(t: string, c: char, rest: string)
    requires IsToken(t) && !IsTokenChar(c)
    ensures TokenPrefix(t + [c] + rest) == t
    decreases |t|
  {
    var s := t + [c] + rest;
    if |t| > 0 {
      assert s[1..] == t[1..] + [c] + rest;
      TokenPrefixAfter(t[1..], c, rest);
      assert s[0] == t[0];
      assert t == [t[0]] + t[1..];
    } else {
      assert s[0] == c;
    }
  }

  lemma {:induction false} TokenPrefixSplit(s: string)
    ensures var t := TokenPrefix(s);
      IsToken(t) && |t| <= |s| && s[..|t|] == t && (|t| == |s| || !IsTokenChar(s[|t|]))
    decreases |s|
  {
    if |s| > 0 && IsTokenChar(s[0]) {
      TokenPrefixSplit(s[1..]);
      var t := TokenPrefix(s[1..]);
      assert TokenPrefix(s) == [s[0]] + t;
      assert s == [s[0]] + s[1..];
    }
  }

  /** Every line of the accepted shape yields its token, whatever trails the bracket. */
  lemma MatchIncludeComplete(k: nat, t: string, rest: string)
    requires IsToken(t)
    ensures MatchInclude(IncludeLine(k, t, rest)) == Some(t)
  {
    var line := IncludeLine(k, t, rest);
    var after := ['<'] + t + ['>'] + rest;
    assert line == Directive + (Spaces(k) + after);
    assert line[..|Directive|] == Directive;
    assert line[|Directive|..] == Spaces(k) + after;
    SkipSpacesAfter(k, after);
    assert after[1..] == t + ['>'] + rest;
    TokenPrefixAfter(t, '>', rest);
  }

  lemma BracketSplit(s: string, t: string)
    requires |s| >= |t| + 2 && s[0] == '<' && s[1..][..|t|] == t && s[|t| + 1] == '>'
    ensures s == ['<'] + t + ['>'] + s[|t| + 2..]
  {
    forall i | 0 <= i < |t|
      ensures s[i + 1] == t[i]
    {
      assert s[1..][..|t|][i] == t[i];
    }
  }

  /** The accepted shape, grouped as the matcher reads it: the directive, then the spaces, then the bracket. */
  lemma IncludeLineShape(k: nat, t: string, rest: string)
    ensures IncludeLine(k, t, rest) == Directive + (Spaces(k) + (['<'] + t + ['>'] + rest))
  {
  }

  /** What a successful match tells about the line: the directive, then after the spaces the bracketed token. */
  lemma MatchIncludeParts(line: string, t: string)
    requires MatchInclude(line) == Some(t)
    ensures |line| >= |Directive| && line == Directive + line[|Directive|..]
    ensures var s := SkipSpaces(line[|Directive|..]);
      IsToken(t) && |s| >= |t| + 2 && s == ['<'] + t + ['>'] + s[|t| + 2..]
  {
    assert |line| >= |Directive| && line[..|Directive|] == Directive;
    var s := SkipSpaces(line[|Directive|..]);
    assert |s| > 0 && s[0] == '<';
    assert t == TokenPrefix(s[1..]);
    assert |t| + 1 < |s| && s[|t| + 1] == '>';
    TokenPrefixSplit(s[1..]);
    BracketSplit(s, t);
  }

  /** Only lines of the accepted shape match, and the captured text is a token. */
  lemma MatchIncludeSound(line: string, t: string)
    requires MatchInclude(line) == Some(t)
    ensures IsToken(t)
    ensures exists k: nat, rest :: line == IncludeLine(k, t, rest)
  {
    MatchIncludeParts(line, t);
    var tail := line[|Directive|..];
    var s := SkipSpaces(tail);
    SkipSpacesSplit(tail);
    var k := |tail| - |s|;
    var rest := s[|t| + 2..];
    assert tail == Spaces(k) + s;
    IncludeLineShape(k, t, rest);
    assert line == IncludeLine(k, t, rest);
  }

  /** The matcher in full: a line yields `t` exactly when it has the accepted shape with token `t`. */
  lemma MatchIncludeIff(line: string, t: string)
    ensures MatchInclude(line) == Some(t) <==> IsToken(t) && exists k: nat, rest :: line == IncludeLine(k, t, rest)
  {
    if MatchInclude(line) == Some(t) {
      MatchIncludeSound(line, t);
    }
    if IsToken(t) && exists k: nat, rest :: line == IncludeLine(k, t, rest) {
      var k: nat, rest :| line == IncludeLine(k, t, rest);
      MatchIncludeComplete(k, t, rest);
    }
  }

  /** An indented directive is not matched: the pattern is anchored at the start of the line. */
  lemma IndentedRejected(indent: string, line: string)
    requires |indent| > 0 && indent[0] != '#'
    ensures MatchInclude(indent + line) == None
  {
    assert (indent + line)[0] == indent[0];
  }

  /** A quoted (local) include is not matched. */
  lemma QuotedRejected(k: nat, rest: string)
    ensures MatchInclude(Directive + Spaces(k) + ['"'] + rest) == None
  {
    var line := Directive + Spaces(k) + ['"'] + rest;
    assert line == Directive + (Spaces(k) + (['"'] + rest));
    assert line[|Directive|..] == Spaces(k) + (['"'] + rest);
    SkipSpacesAfter(k, ['"'] + rest);
  }

  /** A bracketed name holding any other character, such as `.` or `/`, is not matched. */
  lemma NonTokenCharRejected(k: nat, t: string, c: char, rest: string)
    requires IsToken(t) && !IsTokenChar(c) && c != '>'
    ensures MatchInclude(Directive + Spaces(k) + ['<'] + t + [c] + rest) == None
  {
    var after := ['<'] + t + [c] + rest;
    var line := Directive + Spaces(k) + ['<'] + t + [c] + rest;
    assert line == Directive + (Spaces(k) + after);
    assert line[|Directive|..] == Spaces(k) + after;
    SkipSpacesAfter(k, after);
    assert after[1..] == t + [c] + rest;
    TokenPrefixAfter(t, c, rest);
  }

  /** A directive at the start of the line with a bracketed token matches. */
  lemma PlainIncludeAccepted()
    ensures MatchInclude("#include <baz>") == Some("baz")
  {
    MatchIncludeComplete(1, "baz", "");
    assert IncludeLine(1, "baz", "") == "#include <baz>";
  }

  /** No space is needed before the bracket, and the line break read with the line is ignored. */
  lemma UnspacedIncludeAccepted()
    ensures MatchInclude("#include<vector>\n") == Some("vector")
  {
    MatchIncludeComplete(0, "vector", "\n");
    assert IncludeLine(0, "vector", "\n") == "#include<vector>\n";
  }

  /** The pattern's `*` admits an empty token. */
  lemma EmptyTokenAccepted()
    ensures MatchInclude("#include <>") == Some("")
  {
    MatchIncludeComplete(1, "", "");
    assert IncludeLine(1, "", "") == "#include <>";
  }

  /** A header name with an extension is not matched. */
  lemma DottedNameRejected()
    ensures MatchInclude("#include <uv.h>") == None
  {
    NonTokenCharRejected(1, "uv", '.', "h>");
    assert Directive + Spaces(1) + ['<'] + "uv" + ['.'] + "h>" == "#include <uv.h>";
  }

  /** An indented directive is not matched. */
  lemma IndentedExampleRejected()
    ensures MatchInclude("  #include <foo>") == None
  {
    IndentedRejected(" ", " #include <foo>");
    assert " " + " #include <foo>" == "  #include <foo>";
  }

  /** A quoted include is not matched. */
  lemma QuotedExampleRejected()
    ensures MatchInclude("#include \"bar\"") == None
  {
    QuotedRejected(1, "bar\"");
    assert Directive + Spaces(1) + ['"'] + "bar\"" == "#include \"bar\"";
  }

  /** A tab is not a space: the pattern allows spaces only before the bracket. */
  lemma TabRejected()
    ensures MatchInclude("#include\t<map>") == None
  {
    var line := "#include\t<map>";
    assert line[..|Directive|] == Directive;
    assert line[|Directive|..] == "\t<map>";
  }

  /** The token a line contributes, if any. */
  function CaptureOf(line: string): set<string>
  {
    match MatchInclude(line)
    case Some(t) => {t}
    case None => {}
  }

  /** The tokens of a file's lines. */
  function LineCaptures(lines: seq<string>): set<string>
  {
    if |lines| == 0 then {} else LineCaptures(lines[..|lines| - 1]) + CaptureOf(lines[|lines| - 1])
  }

  /** The tokens of every line of every file. */
  function Captures(files: seq<seq<string>>): set<string>
  {
    if |files| == 0 then {} else Captures(files[..|files| - 1]) + LineCaptures(files[|files| - 1])
  }

  lemma {:induction false} LineCapturesMembership(lines: seq<string>, t: string)
    ensures t in LineCaptures(lines) <==> exists j :: 0 <= j < |lines| && MatchInclude(lines[j]) == Some(t)
    decreases |lines|
  {
    if |lines| > 0 {
      var init := lines[..|lines| - 1];
      LineCapturesMembership(init, t);
      if t in LineCaptures(init) {
        var j :| 0 <= j < |init| && MatchInclude(init[j]) == Some(t);
        assert lines[j] == init[j];
      }
      if exists j :: 0 <= j < |lines| && MatchInclude(lines[j]) == Some(t) {
        var j :| 0 <= j < |lines| && MatchInclude(lines[j]) == Some(t);
        if j < |init| {
          assert init[j] == lines[j];
        }
      }
    }
  }

  /** A token is captured exactly when some line of some file matches with it. */
  lemma {:induction false} CapturesMembership(files: seq<seq<string>>, t: string)
    ensures t in Captures(files) <==>
      exists i, j :: 0 <= i < |files| && 0 <= j < |files[i]| && MatchInclude(files[i][j]) == Some(t)
    decreases |files|
  {
    if |files| > 0 {
      var init := files[..|files| - 1];
      var last := files[|files| - 1];
      CapturesMembership(init, t);
      LineCapturesMembership(last, t);
      if t in Captures(init) {
        var i, j :| 0 <= i < |init| && 0 <= j < |init[i]| && MatchInclude(init[i][j]) == Some(t);
        assert files[i] == init[i];
      }
      if t in LineCaptures(last) {
        var j :| 0 <= j < |last| && MatchInclude(last[j]) == Some(t);
        assert MatchInclude(files[|files| - 1][j]) == Some(t);
      }
      if exists i, j :: 0 <= i < |files| && 0 <= j < |files[i]| && MatchInclude(files[i][j]) == Some(t) {
        var i, j :| 0 <= i < |files| && 0 <= j < |files[i]| && MatchInclude(files[i][j]) == Some(t);
        if i < |init| {
          assert init[i] == files[i];
        }
      }
    }
  }

  /** Every captured name is a token, so it holds no line break. */
  lemma CapturesAreTokens(files: seq<seq<string>>, t: string)
    requires t in Captures(files)
    ensures IsToken(t) && '\n' !in t
  {
    CapturesMembership(files, t);
    var i, j :| 0 <= i < |files| && 0 <= j < |files[i]| && MatchInclude(files[i][j]) == Some(t);
    MatchIncludeSound(files[i][j], t);
  }

  /** The standard include list: `sorted(includes)` over the captured tokens. */
  ghost predicate IsStandardIncludeList(r: seq<string>, files: seq<seq<string>>)
  {
    StrictlySorted(r) && forall t :: t in r <==> t in Captures(files)
  }

  /** `sorted(includes)`: repeatedly takes the least remaining string. */
  method SortedList(s: set<string>) returns (r: seq<string>)
    ensures StrictlySorted(r)
    ensures forall x :: x in r <==> x in s
  {
    var rest := s;
    r := [];
    while rest != {}
      invariant StrictlySorted(r)
      invariant forall x :: x in s <==> x in r || x in rest
      invariant forall i, y :: 0 <= i < |r| && y in rest ==> Less(r[i], y)
      decreases |rest|
    {
      LeastExists(rest);
      var m :| m in rest && IsLeast(m, rest);
      forall i | 0 <= i < |r| ensures Less(r[i], m) { }
      r := r + [m];
      rest := rest - {m};
    }
  }

  predicate IsLeast(m: string, s: set<string>)
  {
    forall y :: y in s ==> y == m || Less(m, y)
  }

  lemma LeastExists(s: set<string>)
    requires s != {}
    ensures exists m :: m in s && IsLeast(m, s)
  {
    var x :| x in s;
    if s != {x} {
      LeastExists(s - {x});
      var m :| m in s - {x} && IsLeast(m, s - {x});
      LessTotal(x, m);
      if Less(x, m) {
        forall y | y in s ensures y == x || Less(x, y) {
          if y != x && y != m {
            LessTransitive(x, m, y);
          }
        }
      } else {
        assert IsLeast(m, s);
      }
    }
  }

  /**
   * The scanning loops of `get_standard_includes` over the header files'
   * lines (the files of both source trees, in walk order), then the sort.
   */
  method GetStandardIncludes(files: seq<seq<string>>) returns (r: seq<string>)
    ensures IsStandardIncludeList(r, files)
    ensures NoDups(r)
  {
    var includes: set<string> := {};
    for i := 0 to |files|
      invariant includes == Captures(files[..i])
    {
      var lines := files[i];
      for j := 0 to |lines|
        invariant includes == Captures(files[..i]) + LineCaptures(lines[..j])
      {
        var m := MatchInclude(lines[j]);
        assert lines[..j + 1][..j] == lines[..j];
        if m.Some? {
          includes := includes + {m.value};
        }
      }
      assert lines[..|lines|] == lines;
      assert files[..i + 1][..i] == files[..i];
    }
    assert files[..|files|] == files;
    r := SortedList(includes);
    SortedNoDups(r);
  }

  /**
   * The standard include list does not depend on the order in which the
   * files are walked, nor on how often a file is visited.
   */
  lemma StandardIncludesDeterministic(files1: seq<seq<string>>, files2: seq<seq<string>>, r1: seq<string>, r2: seq<string>)
    requires forall f :: f in files1 <==> f in files2
    requires IsStandardIncludeList(r1, files1) && IsStandardIncludeList(r2, files2)
    ensures r1 == r2
  {
    forall t
      ensures t in Captures(files1) <==> t in Captures(files2)
    {
      CapturesMembership(files1, t);
      CapturesMembership(files2, t);
      if t in Captures(files1) {
        var i, j :| 0 <= i < |files1| && 0 <= j < |files1[i]| && MatchInclude(files1[i][j]) == Some(t);
        assert files1[i] in files2;
        var i' :| 0 <= i' < |files2| && files2[i'] == files1[i];
        assert MatchInclude(files2[i'][j]) == Some(t);
      }
      if t in Captures(files2) {
        var i, j :| 0 <= i < |files2| && 0 <= j < |files2[i]| && MatchInclude(files2[i][j]) == Some(t);
        assert files2[i] in files1;
        var i' :| 0 <= i' < |files1| && files1[i'] == files2[i];
        assert MatchInclude(files1[i'][j]) == Some(t);
      }
    }
    SortedUnique(r1, r2);
  }
}
