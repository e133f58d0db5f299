/** Route patterns such as /a/:id: the compiler from patterns to regular-expression text, the small
    fragment of that language it uses, and what matching means for paths. */
module RoutePattern {
  import opened Wrappers

  // ---------- patterns ----------

  datatype Token = Literal(c: char) | Parameter(name: string)

  /** A colon that starts a path segment and is followed by a name. */
  predicate BeginsParameter(p: string, i: nat)
    requires i < |p|
  {
    p[i] == ':' && (i == 0 || p[i - 1] == '/') && i + 1 < |p| && p[i + 1] != '/'
  }

  /** The next slash at or after i, or the end. */
  function NextSlash(p: string, i: nat): (j: nat)
    requires i <= |p|
    ensures i <= j <= |p| && (j < |p| ==> p[j] == '/') && forall k :: i <= k < j ==> p[k] != '/'
    decreases |p| - i
  {
    if i == |p| || p[i] == '/' then i else NextSlash(p, i + 1)
  }

  function Tokens(p: string, i: nat): seq<Token>
    requires i <= |p|
    decreases |p| - i
  {
    if i == |p| then []
    else if BeginsParameter(p, i) then [Parameter(p[i + 1..NextSlash(p, i)])] + Tokens(p, NextSlash(p, i))
    else [Literal(p[i])] + Tokens(p, i + 1)
  }

  function Names(ts: seq<Token>): seq<string> {
    if ts == [] then [] else (if ts[0].Parameter? then [ts[0].name] else []) + Names(ts[1..])
  }

  /** The pattern with its parameters replaced by the given strings, in order. */
  function Substitute(ts: seq<Token>, values: seq<string>): string
    requires |values| == |Names(ts)|
  {
    if ts == [] then ""
    else if ts[0].Literal? then [ts[0].c] + Substitute(ts[1..], values)
    else values[0] + Substitute(ts[1..], values[1..])
  }

  predicate SlashFree(s: string) { forall i :: 0 <= i < |s| ==> s[i] != '/' }

  predicate Fits(values: seq<string>) { forall i :: 0 <= i < |values| ==> values[i] != "" && SlashFree(values[i]) }

  // ---------- compiling to text ----------

  predicate IsMeta(c: char) { c in "\\^$.|?*+()[]{}" }

  const GROUP := "([^/]+)"

  function Escaped(c: char): string { if IsMeta(c) then ['\\', c] else [c] }

  function TokenText(t: Token): string { if t.Parameter? then GROUP else Escaped(t.c) }

  function BodyText(ts: seq<Token>): string {
    if ts == [] then "" else TokenText(ts[0]) + BodyText(ts[1..])
  }

  function Compiled(p: string): string { "^" + BodyText(Tokens(p, 0)) + "$" }

  // ---------- the regular expressions it uses ----------

  datatype Atom = Char(c: char) | Segment

  /** SyntaxCharacter of ECMA-262: what has a meaning of its own unless it is escaped. */
  predicate SyntaxCharacter(c: char) {
    || c == '^' || c == '$' || c == '\\' || c == '.' || c == '*' || c == '+' || c == '?' || c == '|'
    || c == '(' || c == ')' || c == '[' || c == ']' || c == '{' || c == '}'
  }

  /** The compiler escapes exactly the characters that need it. */
  lemma EscapesExactly(c: char)
    ensures IsMeta(c) <==> SyntaxCharacter(c)
    ensures Escaped(c) == if SyntaxCharacter(c) then ['\\', c] else [c]
  {
  }

  /** Reading an expression: escapes, the capturing group, ordinary characters and the end anchor.
      Any other use of a special character is outside this fragment. */
  function ReadBody(text: string): Option<seq<Atom>>
    decreases |text|
  {
    if text == "" then None
    else if text == "$" then Some([])
    else if text[0] == '\\' && |text| >= 2 && SyntaxCharacter(text[1]) then Prefixed(Char(text[1]), ReadBody(text[2..]))
    else if GROUP <= text then Prefixed(Segment, ReadBody(text[|GROUP|..]))
    else if SyntaxCharacter(text[0]) then None
    else Prefixed(Char(text[0]), ReadBody(text[1..]))
  }

  function Prefixed(a: Atom, rest: Option<seq<Atom>>): Option<seq<Atom>> {
    match rest case None => None case Some(r) => Some([a] + r)
  }

  function ReadRegex(text: string): Option<seq<Atom>> {
    if |text| > 0 && text[0] == '^' then ReadBody(text[1..]) else None
  }

  /** Length of the longest slash-free prefix. */
  function RunLength(s: string): (n: nat)
    ensures n <= |s| && SlashFree(s[..n]) && (n < |s| ==> s[n] == '/')
  {
    if s == "" || s[0] == '/' then 0
    else
      var n := RunLength(s[1..]);
      assert s[..n + 1] == [s[0]] + s[1..][..n];
      n + 1
  }

  /** Backtracking match of the whole string with its captures: a group first takes as much as it
      can, then one character less each time. */
  function Match(atoms: seq<Atom>, s: string): Option<seq<string>>
    decreases |atoms|, 0, 0
  {
    if atoms == [] then if s == "" then Some([]) else None
    else if atoms[0].Char? then if s != "" && s[0] == atoms[0].c then Match(atoms[1..], s[1..]) else None
    else MatchSegment(atoms, s, RunLength(s))
  }

  function MatchSegment(atoms: seq<Atom>, s: string, n: nat): Option<seq<string>>
    requires atoms != [] && n <= |s|
    decreases |atoms| - 1, 1, n
  {
    if n == 0 then None
    else
      match Match(atoms[1..], s[n..])
      case Some(rest) => Some([s[..n]] + rest)
      case None => MatchSegment(atoms, s, n - 1)
  }

  /** std::regex_match with the compiled expression: the captures, if the path matches. */
  function MatchPath(p: string, path: string): Option<seq<string>> {
    match ReadRegex(Compiled(p)) case None => None case Some(atoms) => Match(atoms, path)
  }

  // ---------- compiling preserves meaning ----------

  function AtomOf(t: Token): Atom { if t.Parameter? then Segment else Char(t.c) }

  function AtomsOf(ts: seq<Token>): seq<Atom> {
    if ts == [] then [] else [AtomOf(ts[0])] + AtomsOf(ts[1..])
  }

  lemma ReadToken(t: Token, rest: string)
    requires rest != ""
    ensures ReadBody(TokenText(t) + rest) == Prefixed(AtomOf(t), ReadBody(rest))
  {
    var text := TokenText(t) + rest;
    if t.Parameter? {
      assert text[0] == '(' && |text| > 1 && GROUP <= text;
      assert text[|GROUP|..] == rest;
    } else if IsMeta(t.c) {
      assert text[0] == '\\' && text[1] == t.c;
      assert text[2..] == rest;
    } else {
      assert text[0] == t.c && text != "$";
      assert GROUP[0] == '(';
      assert text[1..] == rest;
    }
  }

  lemma {:induction false} ReadBack(ts: seq<Token>)
    ensures ReadBody(BodyText(ts) + "$") == Some(AtomsOf(ts))
  {
    if ts != [] {
      ReadBack(ts[1..]);
      hide ReadBody, TokenText;
      var rest := BodyText(ts[1..]) + "$";
      assert BodyText(ts) + "$" == TokenText(ts[0]) + rest;
      ReadToken(ts[0], rest);
    }
  }

  /** The compiled text reads back as the pattern's tokens: nothing is misread as an operator. */
  lemma CompilesToTokens(p: string)
    ensures ReadRegex(Compiled(p)) == Some(AtomsOf(Tokens(p, 0)))
  {
    hide BodyText, ReadBody, Tokens;
    var body := BodyText(Tokens(p, 0)) + "$";
    assert Compiled(p) == "^" + body;
    assert Compiled(p)[1..] == body;
    ReadBack(Tokens(p, 0));
  }

  // ---------- matching ----------

  /** A parameter runs up to a slash or the end. */
  predicate Separated(ts: seq<Token>) {
    forall i :: 0 <= i < |ts| - 1 && ts[i].Parameter? ==> ts[i + 1] == Literal('/')
  }

  lemma {:induction false} TokensSeparated(p: string, i: nat)
    requires i <= |p|
    ensures Separated(Tokens(p, i))
    ensures i < |p| && p[i] == '/' ==> |Tokens(p, i)| > 0 && Tokens(p, i)[0] == Literal('/')
    decreases |p| - i
  {
    if i < |p| {
      var j := if BeginsParameter(p, i) then NextSlash(p, i) else i + 1;
      TokensSeparated(p, j);
      assert Tokens(p, i)[1..] == Tokens(p, j);
      var ts := Tokens(p, i);
      forall k | 0 <= k < |ts| - 1 && ts[k].Parameter?
        ensures ts[k + 1] == Literal('/')
      {
        if k > 0 { assert ts[k] == Tokens(p, j)[k - 1] && ts[k + 1] == Tokens(p, j)[k]; }
      }
    }
  }

  predicate Matches(ts: seq<Token>, values: seq<string>, s: string) {
    |values| == |Names(ts)| && Fits(values) && Substitute(ts, values) == s
  }

  lemma {:induction false} MatchSound(ts: seq<Token>, s: string)
    requires Match(AtomsOf(ts), s).Some?
    ensures Matches(ts, Match(AtomsOf(ts), s).value, s)
    decreases |ts|, 0, 0
  {
    if ts != [] {
      assert AtomsOf(ts)[1..] == AtomsOf(ts[1..]);
      if ts[0].Literal? {
        MatchSound(ts[1..], s[1..]);
        assert s == [s[0]] + s[1..];
      } else {
        SegmentSound(ts, s, RunLength(s));
      }
    }
  }

  lemma {:induction false} SegmentSound(ts: seq<Token>, s: string, n: nat)
    requires ts != [] && ts[0].Parameter? && n <= |s| && SlashFree(s[..n]) && MatchSegment(AtomsOf(ts), s, n).Some?
    ensures Matches(ts, MatchSegment(AtomsOf(ts), s, n).value, s)
    decreases |ts| - 1, 1, n
  {
    assert AtomsOf(ts)[1..] == AtomsOf(ts[1..]);
    if Match(AtomsOf(ts[1..]), s[n..]).Some? {
      MatchSound(ts[1..], s[n..]);
      var rest := Match(AtomsOf(ts[1..]), s[n..]).value;
      var values := [s[..n]] + rest;
      assert values[1..] == rest;
      assert s == s[..n] + s[n..];
      FitsCons(s[..n], rest);
    } else {
      assert SlashFree(s[..n - 1]) by { assert forall i :: 0 <= i < n - 1 ==> s[..n - 1][i] == s[..n][i]; }
      SegmentSound(ts, s, n - 1);
    }
  }

  lemma FitsCons(v: string, rest: seq<string>)
    ensures Fits([v] + rest) <==> v != "" && SlashFree(v) && Fits(rest)
  {
    var all := [v] + rest;
    assert all[0] == v && forall i :: 0 <= i < |rest| ==> all[i + 1] == rest[i];
    hide SlashFree;
  }

  /** A slash-free string before a slash or the end is the whole run. */
  lemma {:induction false} RunIsValue(v: string, rest: string)
    requires SlashFree(v) && (rest == "" || rest[0] == '/')
    ensures RunLength(v + rest) == |v|
  {
    if v == "" {
      assert v + rest == rest;
    } else {
      assert (v + rest)[0] == v[0] && (v + rest)[1..] == v[1..] + rest;
      RunIsValue(v[1..], rest);
    }
  }

  lemma {:induction false} MatchComplete(ts: seq<Token>, values: seq<string>, s: string)
    requires Separated(ts) && Matches(ts, values, s)
    ensures Match(AtomsOf(ts), s) == Some(values)
    decreases |ts|
  {
    if ts != [] {
      assert AtomsOf(ts)[1..] == AtomsOf(ts[1..]);
      assert Separated(ts[1..]) by { assert forall i :: 0 <= i < |ts[1..]| ==> ts[1..][i] == ts[i + 1]; }
      if ts[0].Literal? {
        assert s[1..] == Substitute(ts[1..], values);
        MatchComplete(ts[1..], values, s[1..]);
      } else {
        var v, rest := values[0], values[1..];
        var tail := Substitute(ts[1..], rest);
        assert values == [v] + rest;
        FitsCons(v, rest);
        assert s == v + tail && s[|v|..] == tail && s[..|v|] == v;
        assert tail == "" || tail[0] == '/' by { if |ts| > 1 { assert ts[1] == Literal('/'); } }
        RunIsValue(v, tail);
        MatchComplete(ts[1..], rest, tail);
      }
    }
  }

  /** Compiling a pattern preserves its meaning: a path matches, with these captures, exactly when it
      is the pattern with each parameter replaced by the captured non-empty slash-free string. */
  lemma MatchesExactly(p: string, path: string, values: seq<string>)
    ensures MatchPath(p, path) == Some(values) <==> Matches(Tokens(p, 0), values, path)
  {
    CompilesToTokens(p);
    TokensSeparated(p, 0);
    var ts := Tokens(p, 0);
    hide Tokens, Compiled, Match, AtomsOf, Separated, Matches;
    if Matches(ts, values, path) { MatchComplete(ts, values, path); }
    if Match(AtomsOf(ts), path).Some? { MatchSound(ts, path); }
  }

  /** The strings that fill the parameters are determined by the path. */
  lemma CapturesAreUnique(p: string, path: string, u: seq<string>, v: seq<string>)
    requires Matches(Tokens(p, 0), u, path) && Matches(Tokens(p, 0), v, path)
    ensures u == v
  {
    MatchesExactly(p, path, u);
    MatchesExactly(p, path, v);
  }

  // ---------- the loops ----------

  /** isDynamicPattern: whether any parameter begins. */
  method IsDynamicPattern(p: string) returns (dynamic: bool)
    ensures dynamic <==> Names(Tokens(p, 0)) != []
  {
    var index := 0;
    while index < |p|
      invariant index <= |p| && Names(Tokens(p, 0)) == Names(Tokens(p, index))
    {
      assert |Tokens(p, index)| > 0;
      if p[index] == ':' && (index == 0 || p[index - 1] == '/') && index + 1 < |p| && p[index + 1] != '/' {
        return true;
      }
      assert Tokens(p, index)[1..] == Tokens(p, index + 1);
      index := index + 1;
    }
    return false;
  }

  /** What is compiled so far, with the rest of the pattern still to come. */
  ghost predicate Progress(p: string, i: nat, text: string, names: seq<string>) {
    && i <= |p| && text + BodyText(Tokens(p, i)) == "^" + BodyText(Tokens(p, 0))
    && names + Names(Tokens(p, i)) == Names(Tokens(p, 0))
  }

  function NextToken(p: string, i: nat): Token
    requires i < |p|
  {
    if BeginsParameter(p, i) then Parameter(p[i + 1..NextSlash(p, i)]) else Literal(p[i])
  }

  lemma ProgressStep(p: string, i: nat, j: nat, text: string, names: seq<string>)
    requires Progress(p, i, text, names) && i < |p| && j == if BeginsParameter(p, i) then NextSlash(p, i) else i + 1
    ensures var t := NextToken(p, i);
            Progress(p, j, text + TokenText(t), names + if t.Parameter? then [t.name] else [])
  {
    hide Tokens, BodyText, Names, TokenText;
    var t := NextToken(p, i);
    TokenStep(p, i, j);
    assert text + (TokenText(t) + BodyText(Tokens(p, j))) == text + TokenText(t) + BodyText(Tokens(p, j));
    var more := if t.Parameter? then [t.name] else [];
    assert names + (more + Names(Tokens(p, j))) == names + more + Names(Tokens(p, j));
  }

  lemma TokenStep(p: string, i: nat, j: nat)
    requires i < |p| && j == if BeginsParameter(p, i) then NextSlash(p, i) else i + 1
    ensures var t := NextToken(p, i);
            && BodyText(Tokens(p, i)) == TokenText(t) + BodyText(Tokens(p, j))
            && Names(Tokens(p, i)) == (if t.Parameter? then [t.name] else []) + Names(Tokens(p, j))
  {
    assert Tokens(p, i)[1..] == Tokens(p, j);
  }

  method CompileDynamicPattern(p: string) returns (text: string, names: seq<string>)
    ensures text == Compiled(p) && names == Names(Tokens(p, 0))
  {
    text, names := "^", [];
    var index := 0;
    while index < |p|
      invariant Progress(p, index, text, names)
      decreases |p| - index
    {
      assert index <= |p|;
      hide Progress;
      var begins := p[index] == ':' && (index == 0 || p[index - 1] == '/') && index + 1 < |p| && p[index + 1] != '/';
      if begins {
        var end := NextSlash(p, index);
        ProgressStep(p, index, end, text, names);
        names := names + [p[index + 1..end]];
        text := text + GROUP;
        index := end;
      } else {
        ProgressStep(p, index, index + 1, text, names);
        assert names + [] == names;
        if IsMeta(p[index]) {
          text := text + ['\\', p[index]];
        } else {
          text := text + [p[index]];
        }
        index := index + 1;
      }
    }
    assert BodyText(Tokens(p, index)) == "" && text + "" == text && Names(Tokens(p, index)) == []
           && names + [] == names;
    text := text + "$";
  }

  // ---------- segment by segment ----------

  function SegmentsFrom(p: string, i: nat): (segments: seq<string>)
    requires i <= |p|
    ensures |segments| > 0 && forall k :: 0 <= k < |segments| ==> SlashFree(segments[k])
    decreases |p| - i
  {
    var j := NextSlash(p, i);
    [p[i..j]] + if j == |p| then [] else SegmentsFrom(p, j + 1)
  }

  function Segments(p: string): seq<string> { SegmentsFrom(p, 0) }

  function Join(segments: seq<string>): string
    requires |segments| > 0
  {
    if |segments| == 1 then segments[0] else segments[0] + "/" + Join(segments[1..])
  }

  predicate IsParameter(segment: string) { |segment| >= 2 && segment[0] == ':' }

  function Parameters(segments: seq<string>): nat {
    if segments == [] then 0 else (if IsParameter(segments[0]) then 1 else 0) + Parameters(segments[1..])
  }

  /** Parameter segments replaced, the others kept. */
  function Filled(segments: seq<string>, values: seq<string>): (r: seq<string>)
    requires |values| == Parameters(segments)
    ensures |r| == |segments|
  {
    if segments == [] then []
    else if IsParameter(segments[0]) then [values[0]] + Filled(segments[1..], values[1..])
    else [segments[0]] + Filled(segments[1..], values)
  }

  lemma LiteralStep(p: string, i: nat, values: seq<string>)
    requires i < |p| && !BeginsParameter(p, i)
    ensures Names(Tokens(p, i)) == Names(Tokens(p, i + 1))
    ensures |values| == |Names(Tokens(p, i))| ==>
              Substitute(Tokens(p, i), values) == [p[i]] + Substitute(Tokens(p, i + 1), values)
  {
    assert Tokens(p, i)[1..] == Tokens(p, i + 1);
  }

  lemma Assoc(a: string, b: string, c: string)
    ensures a + (b + c) == a + b + c
  {
  }

  /** Characters up to the next slash, once no parameter begins, stand for themselves. */
  lemma {:induction false} LiteralRun(p: string, i: nat, values: seq<string>)
    requires i <= |p| && (i < |p| ==> !BeginsParameter(p, i))
    ensures var j := NextSlash(p, i);
            && Names(Tokens(p, i)) == Names(Tokens(p, j))
            && (|values| == |Names(Tokens(p, i))| ==>
                  Substitute(Tokens(p, i), values) == p[i..j] + Substitute(Tokens(p, j), values))
    decreases |p| - i
  {
    hide Tokens, Names, Substitute;
    var j := NextSlash(p, i);
    if i == j {
      assert p[i..j] == "";
    } else {
      LiteralStep(p, i, values);
      LiteralRun(p, i + 1, values);
      assert p[i..j] == [p[i]] + p[i + 1..j];
      if |values| == |Names(Tokens(p, i))| { Assoc([p[i]], p[i + 1..j], Substitute(Tokens(p, j), values)); }
    }
  }

  /** What a segment becomes, and the values left for the later ones. */
  function HeadText(segment: string, values: seq<string>): string {
    if IsParameter(segment) && values != [] then values[0] else segment
  }

  function Rest(segment: string, values: seq<string>): seq<string> {
    if IsParameter(segment) && values != [] then values[1..] else values
  }

  /** One segment of the pattern. */
  lemma SegmentStep(p: string, i: nat, values: seq<string>)
    requires i <= |p| && (i == 0 || p[i - 1] == '/')
    ensures var j := NextSlash(p, i); var segment := p[i..j];
            && |Names(Tokens(p, i))| == (if IsParameter(segment) then 1 else 0) + |Names(Tokens(p, j))|
            && (|values| == |Names(Tokens(p, i))| ==>
                  && |Rest(segment, values)| == |Names(Tokens(p, j))|
                  && Substitute(Tokens(p, i), values) ==
                       HeadText(segment, values) + Substitute(Tokens(p, j), Rest(segment, values)))
  {
    var j := NextSlash(p, i);
    assert i < |p| ==> (BeginsParameter(p, i) <==> IsParameter(p[i..j]));
    if i < |p| && BeginsParameter(p, i) {
      assert Tokens(p, i)[1..] == Tokens(p, j);
    } else {
      hide Tokens, Names, Substitute;
      LiteralRun(p, i, values);
    }
  }

  lemma SlashStep(p: string, j: nat, values: seq<string>)
    requires j < |p| && p[j] == '/'
    ensures Names(Tokens(p, j)) == Names(Tokens(p, j + 1))
    ensures |values| == |Names(Tokens(p, j))| ==>
              Substitute(Tokens(p, j), values) == "/" + Substitute(Tokens(p, j + 1), values)
  {
    LiteralStep(p, j, values);
  }

  lemma AtEnd(p: string)
    ensures Names(Tokens(p, |p|)) == [] && Substitute(Tokens(p, |p|), []) == ""
  {
  }

  lemma SegmentsStep(p: string, i: nat)
    requires i <= |p|
    ensures var j := NextSlash(p, i); var segments := SegmentsFrom(p, i);
            segments[0] == p[i..j] && segments[1..] == if j == |p| then [] else SegmentsFrom(p, j + 1)
  {
  }

  lemma FilledStep(segments: seq<string>, values: seq<string>)
    requires |segments| > 0 && |values| == Parameters(segments)
    ensures var rest := Rest(segments[0], values);
            var filled := Filled(segments, values);
            && |rest| == Parameters(segments[1..]) && filled[1..] == Filled(segments[1..], rest)
            && filled[0] == HeadText(segments[0], values)
  {
  }

  lemma {:induction false} NamesCount(p: string, i: nat)
    requires i <= |p| && (i == 0 || p[i - 1] == '/')
    ensures |Names(Tokens(p, i))| == Parameters(SegmentsFrom(p, i))
    decreases |p| - i
  {
    hide Tokens, Names, Substitute, SegmentsFrom, IsParameter;
    var j := NextSlash(p, i);
    SegmentStep(p, i, []);
    SegmentsStep(p, i);
    if j == |p| {
      AtEnd(p);
    } else {
      SlashStep(p, j, []);
      NamesCount(p, j + 1);
    }
  }

  lemma {:induction false} SubstituteIsFilled(p: string, i: nat, values: seq<string>)
    requires i <= |p| && (i == 0 || p[i - 1] == '/')
    requires |values| == |Names(Tokens(p, i))| == Parameters(SegmentsFrom(p, i))
    ensures Substitute(Tokens(p, i), values) == Join(Filled(SegmentsFrom(p, i), values))
    decreases |p| - i
  {
    hide Tokens, Names, Substitute, SegmentsFrom, Filled, IsParameter, Parameters, Join, HeadText, Rest;
    var j := NextSlash(p, i);
    var segments := SegmentsFrom(p, i);
    SegmentStep(p, i, values);
    SegmentsStep(p, i);
    FilledStep(segments, values);
    var filled := Filled(segments, values);
    JoinStep(filled);
    var head, rest := HeadText(segments[0], values), Rest(segments[0], values);
    if j == |p| {
      AtEnd(p);
      assert head + "" == head;
    } else {
      NamesCount(p, j + 1);
      SlashStep(p, j, rest);
      SubstituteIsFilled(p, j + 1, rest);
      Assoc(head, "/", Join(filled[1..]));
    }
  }

  lemma JoinStep(segments: seq<string>)
    requires |segments| > 0
    ensures Join(segments) == if |segments| == 1 then segments[0] else segments[0] + "/" + Join(segments[1..])
  {
  }

  lemma {:induction false} JoinSegments(p: string, i: nat)
    requires i <= |p|
    ensures Join(SegmentsFrom(p, i)) == p[i..]
    decreases |p| - i
  {
    hide SegmentsFrom, Join;
    var j := NextSlash(p, i);
    SegmentsStep(p, i);
    JoinStep(SegmentsFrom(p, i));
    if j < |p| {
      JoinSegments(p, j + 1);
      assert p[i..] == p[i..j] + "/" + p[j + 1..];
    } else {
      assert p[i..] == p[i..j];
    }
  }

  /** A slash-free string followed by the end or a slash is the next segment. */
  lemma NextSegment(before: string, s: string, after: string)
    requires SlashFree(s) && (after == "" || after[0] == '/')
    ensures var p, i := before + s + after, |before|;
            NextSlash(p, i) == i + |s| && p[i..i + |s|] == s
  {
    var p, i := before + s + after, |before|;
    assert forall k :: i <= k < i + |s| ==> p[k] == s[k - i];
    assert after != "" ==> p[i + |s|] == after[0];
    assert after == "" ==> |p| == i + |s|;
    SlashAt(p, i, i + |s|);
    assert p[i..i + |s|] == s;
  }

  lemma {:induction false} SegmentsOfJoin(before: string, segments: seq<string>)
    requires |segments| > 0 && forall k :: 0 <= k < |segments| ==> SlashFree(segments[k])
    ensures SegmentsFrom(before + Join(segments), |before|) == segments
    decreases |segments|
  {
    hide SegmentsFrom, Join, SlashFree, NextSlash;
    var p, i, s := before + Join(segments), |before|, segments[0];
    JoinStep(segments);
    SegmentsStep(p, i);
    var r := SegmentsFrom(p, i);
    var after := if |segments| == 1 then "" else "/" + Join(segments[1..]);
    assert p == before + s + after;
    NextSegment(before, s, after);
    if |segments| > 1 {
      var next := before + s + "/";
      assert p == next + Join(segments[1..]);
      SegmentsOfJoin(next, segments[1..]);
    }
    assert r == [r[0]] + r[1..] && segments == [s] + segments[1..];
  }

  lemma SlashAt(p: string, i: nat, j: nat)
    requires i <= j <= |p| && (forall k :: i <= k < j ==> p[k] != '/') && (j < |p| ==> p[j] == '/')
    ensures NextSlash(p, i) == j
  {
    var n := NextSlash(p, i);
  }

  lemma {:induction false} FilledSlashFree(segments: seq<string>, values: seq<string>)
    requires |values| == Parameters(segments) && Fits(values)
    requires forall k :: 0 <= k < |segments| ==> SlashFree(segments[k])
    ensures forall k :: 0 <= k < |segments| ==> SlashFree(Filled(segments, values)[k])
  {
    hide SlashFree;
    if segments != [] {
      FilledSlashFree(segments[1..], if IsParameter(segments[0]) then values[1..] else values);
    }
  }

  /** Read without the compiler: a path matches with these captures exactly when its segments are
      the pattern's, each parameter segment replaced by its non-empty capture. */
  lemma MatchesSegmentwise(p: string, path: string, values: seq<string>)
    ensures MatchPath(p, path) == Some(values) <==>
            |values| == Parameters(Segments(p)) && Fits(values) && Segments(path) == Filled(Segments(p), values)
  {
    MatchesExactly(p, path, values);
    NamesCount(p, 0);
    if |values| == |Names(Tokens(p, 0))| { SubstituteIsFilled(p, 0, values); }
    JoinSegments(path, 0);
    assert path[0..] == path;
    hide MatchPath, Tokens, Names, SlashFree, SegmentsFrom, Filled, Fits, Join;
    if |values| == Parameters(Segments(p)) && Fits(values) {
      var filled := Filled(Segments(p), values);
      FilledSlashFree(Segments(p), values);
      SegmentsOfJoin("", filled);
      assert "" + Join(filled) == Join(filled);
    }
  }
}
