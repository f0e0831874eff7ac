/** Reducing a migration file to the text PostgreSQL would execute: comments
    removed, the bodies of string literals and dollar quotes blanked.

    The scanner is one loop over a position and three flags. Its meaning is given
    here by a grammar: a file is a sequence of segments, each with the text it
    stands for and the image it leaves in the output. */
module SqlText {
  datatype Segment =
    | Code(c: char)
    | LineComment(body: string, closed: bool)
    | BlockComment(body: string, closed: bool)
    | Literal(body: string, closed: bool)
    | DollarQuote(tag: string, body: string, closed: bool)
  {
    /** The source text of the segment. */
    function Text(): string {
      match this
      case Code(c) => [c]
      case LineComment(body, closed) => "--" + body + (if closed then "\n" else "")
      case BlockComment(body, closed) => "/*" + body + (if closed then "*/" else "")
      case Literal(body, closed) => "'" + body + (if closed then "'" else "")
      case DollarQuote(tag, body, closed) => tag + body + (if closed then tag else "")
    }

    function Length(): nat {
      match this
      case Code(_) => 1
      case LineComment(body, closed) => 2 + |body| + (if closed then 1 else 0)
      case BlockComment(body, closed) => 2 + |body| + (if closed then 2 else 0)
      case Literal(body, closed) => 1 + |body| + (if closed then 1 else 0)
      case DollarQuote(tag, body, closed) => |tag| + |body| + (if closed then |tag| else 0)
    }

    /** What the scanner keeps of it. */
    function Image(): string {
      match this
      case Code(c) => [c]
      case LineComment(_, closed) => if closed then "\n" else ""
      case BlockComment(_, _) => ""
      case Literal(_, closed) => if closed then "''" else "'"
      case DollarQuote(tag, _, _) => tag + tag
    }

    predicate Unclosed() { !Code? && !closed }
  }

  function Texts(segments: seq<Segment>): string {
    if segments == [] then "" else segments[0].Text() + Texts(segments[1..])
  }

  function Images(segments: seq<Segment>): string {
    if segments == [] then "" else segments[0].Image() + Images(segments[1..])
  }

  // ---------------------------------------------------------------- character classes

  predicate IsTagStart(c: char) { 'A' <= c <= 'Z' || 'a' <= c <= 'z' || c == '_' }

  /** Python's word characters: the ASCII ones, and whatever others `unicode` lists. */
  predicate IsWord(c: char, unicode: set<char>) {
    IsTagStart(c) || '0' <= c <= '9' || (c as int >= 128 && c in unicode)
  }

  /** The length of the run of word characters `s` starts with. */
  function WordRun(s: string, unicode: set<char>): (n: nat)
    ensures n <= |s|
  {
    if s == "" || !IsWord(s[0], unicode) then 0 else 1 + WordRun(s[1..], unicode)
  }

  lemma WordRunIs(s: string, n: nat, unicode: set<char>)
    requires n <= |s| && (n < |s| ==> !IsWord(s[n], unicode))
    requires forall i :: 0 <= i < n ==> IsWord(s[i], unicode)
    ensures WordRun(s, unicode) == n
  {
    if n > 0 {
      assert forall i :: 0 <= i < n - 1 ==> s[1..][i] == s[i+1];
      WordRunIs(s[1..], n - 1, unicode);
    }
  }

  lemma WordRunIsWords(s: string, unicode: set<char>)
    ensures forall i :: 0 <= i < WordRun(s, unicode) ==> IsWord(s[i], unicode)
  {
    if s != "" && IsWord(s[0], unicode) {
      WordRunIsWords(s[1..], unicode);
      assert forall i :: 1 <= i < |s| ==> s[i] == s[1..][i-1];
    }
  }

  /** A dollar-quote delimiter: `$$`, or an identifier between dollar signs. */
  ghost predicate IsTag(t: string, unicode: set<char>) {
    && |t| >= 2 && t[0] == '$' && t[|t|-1] == '$'
    && (forall i :: 0 < i < |t| - 1 ==> IsWord(t[i], unicode))
    && (|t| > 2 ==> IsTagStart(t[1]))
  }

  /** The length of the delimiter `s` starts with, 0 when it starts with none. */
  function TagLength(s: string, unicode: set<char>): (n: nat)
    ensures n <= |s| && n != 1
  {
    if s == "" || s[0] != '$' then 0
    else
      var k := WordRun(s[1..], unicode);
      if 1 + k < |s| && s[1 + k] == '$' && (k == 0 || IsTagStart(s[1])) then k + 2 else 0
  }

  lemma TagLengthIsTag(s: string, unicode: set<char>)
    requires TagLength(s, unicode) > 0
    ensures IsTag(s[..TagLength(s, unicode)], unicode)
  {
    WordRunIsWords(s[1..], unicode);
    forall i | 0 < i < TagLength(s, unicode) - 1 ensures IsWord(s[i], unicode) {
      assert s[i] == s[1..][i-1];
    }
  }

  lemma TagIsFound(tag: string, rest: string, unicode: set<char>)
    requires IsTag(tag, unicode)
    ensures TagLength(tag + rest, unicode) == |tag|
  {
    var s := tag + rest;
    assert forall i :: 0 <= i < |tag| - 1 ==> s[1..][i] == tag[i+1];
    WordRunIs(s[1..], |tag| - 2, unicode);
  }

  // ---------------------------------------------------------------- where a segment ends

  /** `s` starts with the characters `a` and `b`. */
  predicate Opens(s: string, a: char, b: char) { |s| >= 2 && s[0] == a && s[1] == b }

  /** The position of the newline that ends a line comment, or |s|. */
  function LineEnd(s: string): (n: nat)
    ensures n <= |s| && (n < |s| ==> s[n] == '\n')
  {
    if s == "" || s[0] == '\n' then 0 else 1 + LineEnd(s[1..])
  }

  lemma LineEndIs(s: string, n: nat)
    requires n <= |s| && '\n' !in s[..n] && (n < |s| ==> s[n] == '\n')
    ensures LineEnd(s) == n
  {
    if n > 0 {
      assert s[0] == s[..n][0] && s[1..][..n-1] == s[..n][1..];
      LineEndIs(s[1..], n - 1);
    }
  }

  lemma LineEndIsFirst(s: string)
    ensures '\n' !in s[..LineEnd(s)]
  {
    if s != "" && s[0] != '\n' {
      LineEndIsFirst(s[1..]);
      assert s[..LineEnd(s)] == [s[0]] + s[1..][..LineEnd(s[1..])];
    }
  }

  /** The position of the delimiter that ends a block comment, or |s|. */
  function BlockEnd(s: string): (n: nat)
    ensures n <= |s| && (n < |s| ==> Opens(s[n..], '*', '/'))
  {
    if s == "" || Opens(s, '*', '/') then 0 else 1 + BlockEnd(s[1..])
  }

  /** A comment body: the closing delimiter does not occur in it, nor across its
      end when one follows. */
  predicate BlockBody(s: string) { BlockEnd(s + "*/") == |s| }

  lemma BlockEndIs(body: string, rest: string)
    requires BlockBody(body)
    ensures BlockEnd(body + "*/" + rest) == |body|
  {
    var s := body + "*/" + rest;
    if body == "" {
      assert s[0] == '*' && s[1] == '/';
    } else {
      assert (body + "*/")[1..] == body[1..] + "*/";
      assert s[1..] == body[1..] + "*/" + rest;
      BlockEndIs(body[1..], rest);
    }
  }

  lemma {:induction false} BlockEndIsFirst(s: string)
    ensures BlockEnd(s) < |s| ==> BlockBody(s[..BlockEnd(s)])
  {
    var n := BlockEnd(s);
    if n == 0 {
      assert s[..n] + "*/" == "*/";
    } else if n < |s| {
      BlockEndIsFirst(s[1..]);
      var t := s[..n] + "*/";
      assert t[1..] == s[1..][..n-1] + "*/";
      assert Opens(s[1..][n-1..], '*', '/');
      assert t[0] == s[0] && t[1] == s[1];
    }
  }

  /** The first position of `mark` in `s`, or |s| when there is none. */
  function Find(s: string, mark: string): (n: nat)
    ensures n <= |s|
    ensures n < |s| ==> mark <= s[n..]
  {
    if s == "" || mark <= s then 0 else 1 + Find(s[1..], mark)
  }

  lemma FindIsFirst(s: string, mark: string)
    ensures forall i :: 0 <= i < Find(s, mark) ==> !(mark <= s[i..])
  {
    if s != "" && !(mark <= s) {
      FindIsFirst(s[1..], mark);
      assert forall i :: 1 <= i < |s| ==> s[i..] == s[1..][i-1..];
      assert s[0..] == s;
    }
  }

  lemma FindIs(s: string, mark: string, n: nat)
    requires n <= |s| && (n < |s| ==> mark <= s[n..])
    requires forall i :: 0 <= i < n ==> !(mark <= s[i..])
    ensures Find(s, mark) == n
  {
    assert s[0..] == s;
    if n > 0 {
      assert forall i :: 0 <= i < |s| - 1 ==> s[1..][i..] == s[i+1..];
      FindIs(s[1..], mark, n - 1);
    }
  }

  /** Literal text: every quote in it is doubled. */
  predicate Doubled(s: string) {
    s == "" || (if s[0] != '\'' then Doubled(s[1..]) else |s| >= 2 && s[1] == '\'' && Doubled(s[2..]))
  }

  /** The position of the quote that ends the literal `s` continues, or |s|. */
  function LiteralEnd(s: string): (n: nat)
    ensures n <= |s|
    ensures n < |s| ==> s[n] == '\'' && (n + 1 < |s| ==> s[n+1] != '\'')
    ensures Doubled(s[..n])
  {
    if s == "" then 0
    else if s[0] != '\'' then
      var n := LiteralEnd(s[1..]);
      assert s[..n+1][1..] == s[1..][..n];
      n + 1
    else if |s| >= 2 && s[1] == '\'' then
      var n := LiteralEnd(s[2..]);
      assert s[..n+2][2..] == s[2..][..n];
      n + 2
    else 0
  }

  // ---------------------------------------------------------------- the grammar

  /** What makes `g` the segment at the front of `g.Text() + rest`: a closed
      segment ends at the first place it can, an unclosed one runs to the end of
      the file, and a character is code only when nothing opens there. */
  ghost predicate Fits(g: Segment, rest: string, unicode: set<char>) {
    && (g.Unclosed() ==> rest == "")
    && match g
       case Code(c) =>
         && c != '\'' && !Opens([c] + rest, '-', '-') && !Opens([c] + rest, '/', '*')
         && TagLength([c] + rest, unicode) == 0
       case LineComment(body, _) => '\n' !in body
       case BlockComment(body, closed) => if closed then BlockBody(body) else BlockEnd(body) == |body|
       case Literal(body, closed) => Doubled(body) && (closed ==> rest == "" || rest[0] != '\'')
       case DollarQuote(tag, body, closed) =>
         IsTag(tag, unicode) && Find(body + (if closed then tag else ""), tag) == |body|
  }

  ghost predicate Segmentation(segments: seq<Segment>, unicode: set<char>) {
    segments != [] ==>
      Fits(segments[0], Texts(segments[1..]), unicode) && Segmentation(segments[1..], unicode)
  }

  function LineCommentAt(s: string): (g: Segment)
    requires Opens(s, '-', '-')
    ensures g.Length() <= |s| && (g.Unclosed() ==> g.Length() == |s|)
  {
    var n := LineEnd(s[2..]);
    LineComment(s[2..][..n], n < |s| - 2)
  }

  function BlockCommentAt(s: string): (g: Segment)
    requires Opens(s, '/', '*')
    ensures g.Length() <= |s| && (g.Unclosed() ==> g.Length() == |s|)
  {
    var n := BlockEnd(s[2..]);
    BlockComment(s[2..][..n], n < |s| - 2)
  }

  function LiteralAt(s: string): (g: Segment)
    requires s != "" && s[0] == '\''
    ensures g.Length() <= |s| && (g.Unclosed() ==> g.Length() == |s|)
  {
    var n := LiteralEnd(s[1..]);
    Literal(s[1..][..n], n < |s| - 1)
  }

  function DollarQuoteAt(s: string, tag: string): (g: Segment)
    requires tag != "" && tag <= s
    ensures g.Length() <= |s| && (g.Unclosed() ==> g.Length() == |s|)
  {
    var n := Find(s[|tag|..], tag);
    DollarQuote(tag, s[|tag|..][..n], n < |s| - |tag|)
  }

  /** The first segment of a non-empty text. */
  function First(s: string, unicode: set<char>): (g: Segment)
    requires s != ""
    ensures 0 < g.Length() <= |s| && (g.Unclosed() ==> g.Length() == |s|)
  {
    if Opens(s, '-', '-') then LineCommentAt(s)
    else if Opens(s, '/', '*') then BlockCommentAt(s)
    else if s[0] == '\'' then LiteralAt(s)
    else if TagLength(s, unicode) > 0 then DollarQuoteAt(s, s[..TagLength(s, unicode)])
    else Code(s[0])
  }

  /** The segments of a text, front to back. */
  function Split(s: string, unicode: set<char>): seq<Segment>
    decreases |s|
  {
    if s == "" then [] else
      var g := First(s, unicode);
      [g] + Split(s[g.Length()..], unicode)
  }

  // ---------------------------------------------------------------- the grammar is exact

  lemma TextLength(g: Segment)
    ensures |g.Text()| == g.Length()
  {}

  /** A text cut at `n` and after what follows there, or at its end. */
  lemma CutAt(s: string, open: string, mark: string, n: nat)
    requires open <= s && n <= |s| - |open|
    requires n < |s| - |open| ==> mark <= s[|open|..][n..]
    ensures open + s[|open|..][..n] + (if n < |s| - |open| then mark else "") <= s
    ensures n == |s| - |open| ==> open + s[|open|..][..n] + "" == s
  {}

  lemma FirstIsPrefix(s: string, unicode: set<char>)
    requires s != ""
    ensures First(s, unicode).Text() <= s
  {
    var g := First(s, unicode);
    if Opens(s, '-', '-') {
      CutAt(s, "--", "\n", LineEnd(s[2..]));
    } else if Opens(s, '/', '*') {
      CutAt(s, "/*", "*/", BlockEnd(s[2..]));
    } else if s[0] == '\'' {
      CutAt(s, "'", "'", LiteralEnd(s[1..]));
    } else if g.DollarQuote? {
      CutAt(s, g.tag, g.tag, Find(s[|g.tag|..], g.tag));
    }
  }

  lemma FirstAndRest(s: string, unicode: set<char>)
    requires s != ""
    ensures var g := First(s, unicode); g.Text() + s[g.Length()..] == s
  {
    FirstIsPrefix(s, unicode);
    TextLength(First(s, unicode));
  }

  /** Text after a mark does not change where the mark is first found. */
  lemma FindBeforeMark(body: string, rest: string, mark: string)
    requires mark != "" && Find(body + mark, mark) == |body|
    ensures Find(body + mark + rest, mark) == |body|
  {
    hide Find;
    var s := body + mark + rest;
    assert s[|body|..] == mark + rest;
    FindIsFirst(body + mark, mark);
    forall i | 0 <= i < |body| ensures !(mark <= s[i..]) {
      assert s[i..][..|mark|] == (body + mark)[i..][..|mark|];
    }
    FindIs(s, mark, |body|);
  }

  lemma EndOfNothing()
    ensures LiteralEnd("") == 0
  {}

  lemma EndSteps(s: string)
    requires s != ""
    ensures s[0] != '\'' ==> LiteralEnd(s) == LiteralEnd(s[1..]) + 1
    ensures s[0] == '\'' && |s| >= 2 && s[1] == '\'' ==> LiteralEnd(s) == LiteralEnd(s[2..]) + 2
    ensures s[0] == '\'' && (|s| < 2 || s[1] != '\'') ==> LiteralEnd(s) == 0
  {}

  lemma {:induction false} DoubledEnd(body: string, rest: string)
    requires Doubled(body) && (rest == "" || rest[0] != '\'')
    ensures LiteralEnd(body + "'" + rest) == |body|
    ensures LiteralEnd(body) == |body|
    decreases |body|
  {
    EndOfNothing();
    hide LiteralEnd;
    var s := body + "'" + rest;
    EndSteps(s);
    if body == "" {
      assert s == "'" + rest;
    } else {
      EndSteps(body);
      var k := if body[0] != '\'' then 1 else 2;
      assert s[k..] == body[k..] + "'" + rest;
      DoubledEnd(body[k..], rest);
    }
  }

  lemma Opened(s: string, open: string, body: string, close: string, rest: string)
    requires s == open + body + close + rest
    ensures open <= s && s[|open|..] == body + close + rest && s[|open|..][..|body|] == body
  {}

  lemma LineCommentIsForced(s: string, body: string, closed: bool, rest: string, unicode: set<char>)
    requires '\n' !in body && (closed || rest == "")
    requires s == "--" + body + (if closed then "\n" else "") + rest
    ensures s != "" && First(s, unicode) == LineComment(body, closed)
  {
    Opened(s, "--", body, if closed then "\n" else "", rest);
    LineEndIs(s[2..], |body|);
  }

  lemma BlockCommentIsForced(s: string, body: string, closed: bool, rest: string, unicode: set<char>)
    requires (if closed then BlockBody(body) else BlockEnd(body) == |body|) && (closed || rest == "")
    requires s == "/*" + body + (if closed then "*/" else "") + rest
    ensures s != "" && First(s, unicode) == BlockComment(body, closed)
  {
    Opened(s, "/*", body, if closed then "*/" else "", rest);
    if closed { BlockEndIs(body, rest); } else { assert s[2..] == body; }
  }

  lemma LiteralIsForced(s: string, body: string, closed: bool, rest: string, unicode: set<char>)
    requires Doubled(body) && (rest == "" || rest[0] != '\'') && (closed || rest == "")
    requires s == "'" + body + (if closed then "'" else "") + rest
    ensures s != "" && First(s, unicode) == Literal(body, closed)
  {
    Opened(s, "'", body, if closed then "'" else "", rest);
    DoubledEnd(body, rest);
    if !closed { assert s[1..] == body; }
  }

  lemma DollarBodyIsForced(s: string, tag: string, body: string, closed: bool, rest: string)
    requires tag != "" && Find(body + (if closed then tag else ""), tag) == |body| && (closed || rest == "")
    requires s == tag + body + (if closed then tag else "") + rest
    ensures tag <= s && DollarQuoteAt(s, tag) == DollarQuote(tag, body, closed)
  {
    Opened(s, tag, body, if closed then tag else "", rest);
    if closed { FindBeforeMark(body, rest, tag); } else { assert s[|tag|..] == body == body + ""; }
  }

  lemma TagOpensDollarQuote(s: string, tag: string, tail: string, unicode: set<char>)
    requires IsTag(tag, unicode) && s == tag + tail
    ensures tag <= s && First(s, unicode) == DollarQuoteAt(s, tag)
  {
    hide DollarQuoteAt;
    TagIsFound(tag, tail, unicode);
    assert s[..|tag|] == tag;
  }

  lemma Regroup(a: string, b: string, c: string, d: string)
    ensures a + b + c + d == a + (b + c + d)
  {}

  lemma DollarQuoteIsForced(s: string, tag: string, body: string, closed: bool, rest: string, unicode: set<char>)
    requires IsTag(tag, unicode) && Find(body + (if closed then tag else ""), tag) == |body| && (closed || rest == "")
    requires s == tag + body + (if closed then tag else "") + rest
    ensures s != "" && First(s, unicode) == DollarQuote(tag, body, closed)
  {
    var close := if closed then tag else "";
    Regroup(tag, body, close, rest);
    TagOpensDollarQuote(s, tag, body + close + rest, unicode);
    DollarBodyIsForced(s, tag, body, closed, rest);
  }

  /** The scanner recognises exactly the segment the grammar allows. */
  lemma FirstIsForced(g: Segment, rest: string, unicode: set<char>)
    requires Fits(g, rest, unicode)
    ensures g.Text() + rest != "" && First(g.Text() + rest, unicode) == g
  {
    var s := g.Text() + rest;
    match g
    case Code(c) => assert s == [c] + rest;
    case LineComment(body, closed) => LineCommentIsForced(s, body, closed, rest, unicode);
    case BlockComment(body, closed) => BlockCommentIsForced(s, body, closed, rest, unicode);
    case Literal(body, closed) => LiteralIsForced(s, body, closed, rest, unicode);
    case DollarQuote(tag, body, closed) => DollarQuoteIsForced(s, tag, body, closed, rest, unicode);
  }

  lemma FindUpToMark(s: string, mark: string)
    ensures var n := Find(s, mark); Find(s[..n] + (if n < |s| then mark else ""), mark) == n
  {
    hide Find;
    var n := Find(s, mark);
    FindIsFirst(s, mark);
    if n < |s| {
      var cut := s[..n] + mark;
      assert cut == s[..n + |mark|] && cut[n..] == mark;
      forall i | 0 <= i < n ensures !(mark <= cut[i..]) {
        if |mark| <= |cut[i..]| { assert cut[i..][..|mark|] == s[i..][..|mark|]; }
      }
      FindIs(cut, mark, n);
    } else {
      assert s[..n] + "" == s;
    }
  }

  /** What the scanner takes first is a segment the grammar allows there. */
  lemma FirstFits(s: string, unicode: set<char>)
    requires s != ""
    ensures var g := First(s, unicode); Fits(g, s[g.Length()..], unicode)
  {
    var g := First(s, unicode);
    var rest := s[g.Length()..];
    assert g.Unclosed() ==> rest == "";
    if Opens(s, '-', '-') {
      LineEndIsFirst(s[2..]);
    } else if Opens(s, '/', '*') {
      BlockEndIsFirst(s[2..]);
      assert g.body == s[2..] || g.closed;
    } else if s[0] == '\'' {
    } else if TagLength(s, unicode) > 0 {
      FindUpToMark(s[|g.tag|..], g.tag);
      TagLengthIsTag(s, unicode);
    } else {
      assert [s[0]] + rest == s;
    }
  }

  /** Every text has a segmentation: the scanner's own. */
  lemma {:induction false} SplitIsSegmentation(s: string, unicode: set<char>)
    ensures Segmentation(Split(s, unicode), unicode) && Texts(Split(s, unicode)) == s
    decreases |s|
  {
    if s != "" {
      var g := First(s, unicode);
      SplitIsSegmentation(s[g.Length()..], unicode);
      FirstAndRest(s, unicode);
      FirstFits(s, unicode);
    }
  }

  /** ... and it has no other. */
  lemma {:induction false} SegmentationIsUnique(segments: seq<Segment>, unicode: set<char>)
    requires Segmentation(segments, unicode)
    ensures Split(Texts(segments), unicode) == segments
    decreases segments
  {
    if segments != [] {
      var rest := Texts(segments[1..]);
      FirstIsForced(segments[0], rest, unicode);
      TextLength(segments[0]);
      assert Texts(segments)[segments[0].Length()..] == rest;
      SegmentationIsUnique(segments[1..], unicode);
    }
  }

  // ---------------------------------------------------------------- the scanner

  /** Where the scan stands: between segments, or inside one. */
  datatype Mode = InCode | InLine | InBlock | InString

  /** `kept` gives what the scanner keeps of a text that starts between segments. */
  ghost predicate Unrolls(kept: string -> string, s: string, unicode: set<char>) {
    && kept("") == ""
    && (s != "" ==> var g := First(s, unicode); kept(s) == g.Image() + kept(s[g.Length()..]))
  }

  ghost function Kept(unicode: set<char>): string -> string { s => Images(Split(s, unicode)) }

  lemma KeptUnrolls(s: string, unicode: set<char>)
    ensures Unrolls(Kept(unicode), s, unicode)
  {
    if s != "" {
      var g := First(s, unicode);
      var rest := Split(s[g.Length()..], unicode);
      assert ([g] + rest)[1..] == rest;
    }
  }

  function Tail(s: string, i: nat): string { if i < |s| then s[i..] else "" }

  /** What the scanner still has to emit when it reads `s` in a mode. */
  ghost function Rest(mode: Mode, s: string, kept: string -> string): string {
    match mode
    case InCode => kept(s)
    case InLine => var n := LineEnd(s); if n < |s| then "\n" + kept(Tail(s, n + 1)) else ""
    case InBlock => var n := BlockEnd(s); if n < |s| then kept(Tail(s, n + 2)) else ""
    case InString => var n := LiteralEnd(s); if n < |s| then "'" + kept(Tail(s, n + 1)) else ""
  }

  lemma TailOfTail(s: string, i: nat, j: nat)
    ensures Tail(Tail(s, i), j) == Tail(s, i + j)
  {}

  lemma CodeToLine(s: string, kept: string -> string, unicode: set<char>)
    requires Opens(s, '-', '-') && Unrolls(kept, s, unicode)
    ensures kept(s) == Rest(InLine, Tail(s, 2), kept)
  {
    var g := LineCommentAt(s);
    TailOfTail(s, 2, LineEnd(s[2..]) + 1);
    assert Tail(s, g.Length()) == s[g.Length()..];
    assert |s| == 2 ==> Tail(s, 2) == s[2..] == "";
  }

  lemma CodeToBlock(s: string, kept: string -> string, unicode: set<char>)
    requires Opens(s, '/', '*') && Unrolls(kept, s, unicode)
    ensures kept(s) == Rest(InBlock, Tail(s, 2), kept)
  {
    var g := BlockCommentAt(s);
    TailOfTail(s, 2, BlockEnd(s[2..]) + 2);
    assert Tail(s, g.Length()) == s[g.Length()..];
    assert |s| == 2 ==> Tail(s, 2) == s[2..] == "";
  }

  lemma StringRest(s: string, kept: string -> string)
    requires s != "" && s[0] == '\'' && kept("") == ""
    ensures var g := LiteralAt(s); g.Image() + kept(s[g.Length()..]) == "'" + Rest(InString, Tail(s, 1), kept)
  {
    var g := LiteralAt(s);
    TailOfTail(s, 1, LiteralEnd(s[1..]) + 1);
    assert Tail(s, g.Length()) == s[g.Length()..];
    assert |s| == 1 ==> Tail(s, 1) == s[1..] == "";
    assert "''" == "'" + "'";
  }

  lemma CodeToString(s: string, kept: string -> string, unicode: set<char>)
    requires s != "" && s[0] == '\'' && Unrolls(kept, s, unicode)
    ensures kept(s) == "'" + Rest(InString, Tail(s, 1), kept)
  {
    StringRest(s, kept);
  }

  /** How far the position moves over a dollar quote; past the end when it is unclosed. */
  function DollarQuoteEnd(s: string, tag: string): nat
    requires |tag| <= |s|
  {
    var n := Find(s[|tag|..], tag);
    if n < |s| - |tag| then n + 2 * |tag| else |s| + 1
  }

  lemma CodeOverDollar(s: string, tag: string, kept: string -> string)
    requires tag != "" && tag <= s && kept("") == ""
    requires var g := DollarQuoteAt(s, tag); kept(s) == g.Image() + kept(s[g.Length()..])
    ensures kept(s) == tag + tag + kept(Tail(s, DollarQuoteEnd(s, tag)))
  {
    hide DollarQuoteAt, DollarQuoteEnd, Tail;
    DollarQuoteIsOver(s, tag);
  }

  lemma DollarQuoteIsOver(s: string, tag: string)
    requires tag != "" && tag <= s
    ensures DollarQuoteAt(s, tag).Image() == tag + tag
    ensures Tail(s, DollarQuoteEnd(s, tag)) == s[DollarQuoteAt(s, tag).Length()..]
  {
    hide Find;
  }

  lemma LineStep(s: string, kept: string -> string)
    requires s != ""
    ensures Rest(InLine, s, kept) == if s[0] == '\n' then "\n" + kept(Tail(s, 1)) else Rest(InLine, Tail(s, 1), kept)
  {
    TailOfTail(s, 1, LineEnd(s[1..]) + 1);
    assert |s| == 1 ==> Tail(s, 1) == s[1..] == "";
  }

  lemma BlockStep(s: string, kept: string -> string)
    requires s != ""
    ensures Rest(InBlock, s, kept) == if Opens(s, '*', '/') then kept(Tail(s, 2)) else Rest(InBlock, Tail(s, 1), kept)
  {
    TailOfTail(s, 1, BlockEnd(s[1..]) + 2);
    assert |s| == 1 ==> Tail(s, 1) == s[1..] == "";
  }

  lemma StringStep(s: string, kept: string -> string)
    requires s != ""
    ensures Rest(InString, s, kept)
         == if s[0] != '\'' then Rest(InString, Tail(s, 1), kept)
            else if Opens(s, '\'', '\'') then Rest(InString, Tail(s, 2), kept)
            else "'" + kept(Tail(s, 1))
  {
    assert |s| == 1 ==> Tail(s, 1) == s[1..] == "";
    assert |s| == 2 ==> Tail(s, 2) == s[2..] == "";
    if s[0] != '\'' {
      TailOfTail(s, 1, LiteralEnd(s[1..]) + 1);
    } else if Opens(s, '\'', '\'') {
      TailOfTail(s, 2, LiteralEnd(s[2..]) + 1);
    }
  }

  /** One turn of the loop over what is left: the next mode, how far the position
      moves, and what is emitted. */
  function Turn(mode: Mode, s: string, unicode: set<char>): (Mode, nat, string)
    requires s != ""
  {
    match mode
    case InLine => if s[0] == '\n' then (InCode, 1, "\n") else (InLine, 1, "")
    case InBlock => if Opens(s, '*', '/') then (InCode, 2, "") else (InBlock, 1, "")
    case InString =>
      if s[0] != '\'' then (InString, 1, "")
      else if Opens(s, '\'', '\'') then (InString, 2, "")
      else (InCode, 1, "'")
    case InCode =>
      if Opens(s, '-', '-') then (InLine, 2, "")
      else if Opens(s, '/', '*') then (InBlock, 2, "")
      else if s[0] == '\'' then (InString, 1, "'")
      else if TagLength(s, unicode) > 0 then
        var tag := s[..TagLength(s, unicode)];
        (InCode, DollarQuoteEnd(s, tag), tag + tag)
      else (InCode, 1, [s[0]])
  }

  lemma PlainTurn(s: string, kept: string -> string, unicode: set<char>)
    requires s != "" && Unrolls(kept, s, unicode)
    requires !Opens(s, '-', '-') && !Opens(s, '/', '*') && s[0] != '\''
    ensures TagLength(s, unicode) > 0 ==>
      var tag := s[..TagLength(s, unicode)];
      kept(s) == tag + tag + kept(Tail(s, DollarQuoteEnd(s, tag)))
    ensures TagLength(s, unicode) == 0 ==> kept(s) == [s[0]] + kept(Tail(s, 1))
  {
    if TagLength(s, unicode) > 0 {
      CodeOverDollar(s, s[..TagLength(s, unicode)], kept);
    } else {
      assert Tail(s, 1) == s[1..];
    }
  }

  /** `rest` gives what remains to be emitted, whatever the mode. */
  ghost predicate Follows(rest: (Mode, string) -> string, mode: Mode, s: string, unicode: set<char>) {
    if s == "" then rest(mode, s) == ""
    else
      var (next, step, emitted) := Turn(mode, s, unicode);
      rest(mode, s) == emitted + rest(next, Tail(s, step))
  }

  lemma RestFollows(mode: Mode, s: string, kept: string -> string, unicode: set<char>)
    requires Unrolls(kept, s, unicode)
    ensures s == "" ==> Rest(mode, s, kept) == ""
    ensures s != "" ==>
      var (next, step, emitted) := Turn(mode, s, unicode);
      Rest(mode, s, kept) == emitted + Rest(next, Tail(s, step), kept)
  {
    if s != "" {
      match mode
      case InLine => LineStep(s, kept);
      case InBlock => BlockStep(s, kept);
      case InString => StringStep(s, kept);
      case InCode =>
        if Opens(s, '-', '-') { CodeToLine(s, kept, unicode); }
        else if Opens(s, '/', '*') { CodeToBlock(s, kept, unicode); }
        else if s[0] == '\'' { CodeToString(s, kept, unicode); }
        else { PlainTurn(s, kept, unicode); }
    }
  }

  lemma KeptText(sql: string, unicode: set<char>) returns (rest: (Mode, string) -> string)
    ensures rest(InCode, sql) == Images(Split(sql, unicode))
    ensures forall mode, s :: Follows(rest, mode, s, unicode)
  {
    var kept := Kept(unicode);
    rest := (mode, s) => Rest(mode, s, kept);
    forall mode, s ensures Follows(rest, mode, s, unicode) {
      KeptUnrolls(s, unicode);
      RestFollows(mode, s, kept, unicode);
    }
  }

  lemma Carry(all: string, out: string, emitted: string, left: string, right: string)
    requires all == out + left && left == emitted + right
    ensures all == out + emitted + right
  {}

  /** The position of the last character of the dollar quote that opens at `i`, or
      the end of the file when it never closes. */
  method LastOfDollarQuote(sql: string, i: nat, tag: string) returns (last: nat)
    requires i < |sql| && tag <= sql[i..] && tag != ""
    ensures last + 1 == i + DollarQuoteEnd(sql[i..], tag) && i <= last <= |sql|
  {
    var end := i + |tag| + Find(sql[i..][|tag|..], tag);
    last := if end < |sql| then end + |tag| - 1 else |sql|;
  }

  /** The loop's flags: at most one is set. */
  datatype Flags = Flags(lineComment: bool, blockComment: bool, inString: bool) {
    ghost predicate Valid() {
      !(lineComment && blockComment) && !(lineComment && inString) && !(blockComment && inString)
    }

    ghost function Mode(): Mode {
      if lineComment then InLine else if blockComment then InBlock else if inString then InString else InCode
    }
  }

  /** The body of the scanner's loop at position `i`. */
  method ScanTurn(sql: string, i: nat, f: Flags, unicode: set<char>) returns (next: nat, f': Flags, emitted: string)
    requires i < |sql| && f.Valid()
    ensures f'.Valid() && i < next <= |sql| + 1
    ensures (f'.Mode(), next - i, emitted) == Turn(f.Mode(), sql[i..], unicode)
  {
    hide DollarQuoteEnd;
    var ch := sql[i];
    var nxt := if i + 1 < |sql| then [sql[i+1]] else "";
    next, f', emitted := i, f, "";
    if f.lineComment {
      if ch == '\n' {
        f', emitted := f.(lineComment := false), [ch];
      }
    } else if f.blockComment {
      if ch == '*' && nxt == "/" {
        f', next := f.(blockComment := false), i + 1;
      }
    } else if f.inString {
      if ch == '\'' {
        if nxt == "'" {
          next := i + 1;
        } else {
          f', emitted := f.(inString := false), [ch];
        }
      }
    } else if ch == '-' && nxt == "-" {
      f', next := f.(lineComment := true), i + 1;
    } else if ch == '/' && nxt == "*" {
      f', next := f.(blockComment := true), i + 1;
    } else if ch == '\'' {
      f', emitted := f.(inString := true), [ch];
    } else if ch == '$' && TagLength(sql[i..], unicode) > 0 {
      var tag := sql[i..][..TagLength(sql[i..], unicode)];
      next := LastOfDollarQuote(sql, i, tag);
      emitted := tag + tag;
    } else {
      emitted := [ch];
    }
    next := next + 1;
  }

  lemma WholeTail(s: string)
    ensures Tail(s, 0) == s
  {}

  lemma TurnIsEmitted(rest: (Mode, string) -> string, sql: string, i: nat, mode: Mode, next: nat, mode': Mode,
                      emitted: string, unicode: set<char>)
    requires i < |sql| && i < next && Follows(rest, mode, sql[i..], unicode)
    requires (mode', next - i, emitted) == Turn(mode, sql[i..], unicode)
    ensures rest(mode, Tail(sql, i)) == emitted + rest(mode', Tail(sql, next))
  {
    hide Turn;
    TailOfTail(sql, i, next - i);
  }

  lemma NothingLeft(rest: (Mode, string) -> string, sql: string, i: nat, mode: Mode, unicode: set<char>)
    requires i >= |sql| && Follows(rest, mode, "", unicode)
    ensures rest(mode, Tail(sql, i)) == ""
  {}

  /** The scanner: its output is the images of the file's segments, in order. */
  method ExecutableSql(sql: string, unicode: set<char>) returns (out: string)
    ensures out == Images(Split(sql, unicode))
  {
    hide Turn, Follows, Tail, Split, Images;
    ghost var rest := KeptText(sql, unicode);
    out := "";
    var i, n := 0, |sql|;
    var f := Flags(false, false, false);
    WholeTail(sql);
    while i < n
      invariant 0 <= i <= n + 1 && f.Valid()
      invariant rest(InCode, sql) == out + rest(f.Mode(), Tail(sql, i))
    {
      var next, f', emitted := ScanTurn(sql, i, f, unicode);
      assert Follows(rest, f.Mode(), sql[i..], unicode);
      TurnIsEmitted(rest, sql, i, f.Mode(), next, f'.Mode(), emitted, unicode);
      Carry(rest(InCode, sql), out, emitted, rest(f.Mode(), Tail(sql, i)), rest(f'.Mode(), Tail(sql, next)));
      i, f, out := next, f', out + emitted;
    }
    assert Follows(rest, f.Mode(), "", unicode);
    NothingLeft(rest, sql, i, f.Mode(), unicode);
  }

  // ---------------------------------------------------------------- what the output says

  /** Two segments that differ at most in text the server does not execute as SQL
      of this file: a comment's, a literal's or a dollar quote's body. */
  predicate SameButBody(a: Segment, b: Segment) {
    match a
    case Code(_) => a == b
    case LineComment(_, closed) => b.LineComment? && closed == b.closed
    case BlockComment(_, _) => b.BlockComment?
    case Literal(_, closed) => b.Literal? && closed == b.closed
    case DollarQuote(tag, _, _) => b.DollarQuote? && tag == b.tag
  }

  lemma {:induction false} SameImages(a: seq<Segment>, b: seq<Segment>)
    requires |a| == |b| && forall i :: 0 <= i < |a| ==> SameButBody(a[i], b[i])
    ensures Images(a) == Images(b)
    decreases a
  {
    if a != [] {
      SameImages(a[1..], b[1..]);
    }
  }

  /** Nothing inside a comment, a literal or a dollar quote reaches the output:
      rewriting any of it, in any number of segments, changes no character. */
  lemma BodiesNeverLeak(a: seq<Segment>, b: seq<Segment>, unicode: set<char>)
    requires Segmentation(a, unicode) && Segmentation(b, unicode)
    requires |a| == |b| && forall i :: 0 <= i < |a| ==> SameButBody(a[i], b[i])
    ensures Images(Split(Texts(a), unicode)) == Images(Split(Texts(b), unicode)) == Images(a)
  {
    SegmentationIsUnique(a, unicode);
    SegmentationIsUnique(b, unicode);
    SameImages(a, b);
  }

  lemma SegmentLeaves(g: Segment, rest: string, unicode: set<char>)
    requires Fits(g, rest, unicode)
    ensures Images(Split(g.Text() + rest, unicode)) == g.Image() + Images(Split(rest, unicode))
  {
    var s := g.Text() + rest;
    FirstIsForced(g, rest, unicode);
    TextLength(g);
    assert s[g.Length()..] == rest;
    assert ([g] + Split(rest, unicode))[1..] == Split(rest, unicode);
  }

  /** A line comment leaves its line break. */
  lemma LineCommentLeavesBreak(body: string, rest: string, unicode: set<char>)
    requires '\n' !in body
    ensures Images(Split("--" + body + "\n" + rest, unicode)) == "\n" + Images(Split(rest, unicode))
  {
    SegmentLeaves(LineComment(body, true), rest, unicode);
  }

  lemma {:induction false} NoEndInside(body: string)
    requires forall i :: 0 <= i < |body| ==> !("*/" <= (body + "*/")[i..])
    ensures BlockBody(body)
    decreases body
  {
    var s := body + "*/";
    if body == "" {
      assert s[0] == '*' && s[1] == '/';
    } else {
      var t := body[1..] + "*/";
      assert s[1..] == t && s[0..] == s;
      assert Opens(s, '*', '/') ==> "*/" <= s;
      forall i | 0 <= i < |body[1..]| ensures !("*/" <= t[i..]) { assert t[i..] == s[i+1..]; }
      NoEndInside(body[1..]);
    }
  }

  /** A block comment leaves nothing; it ends at the first place it can, so it does not
      nest. */
  lemma BlockCommentLeavesNothing(body: string, rest: string, unicode: set<char>)
    requires forall i :: 0 <= i < |body| ==> !("*/" <= (body + "*/")[i..])
    ensures Images(Split("/*" + body + "*/" + rest, unicode)) == Images(Split(rest, unicode))
  {
    NoEndInside(body);
    SegmentLeaves(BlockComment(body, true), rest, unicode);
    assert "" + Images(Split(rest, unicode)) == Images(Split(rest, unicode));
  }

  lemma {:induction false} NoQuoteInside(body: string)
    requires '\'' !in body
    ensures Doubled(body)
  {
    if body != "" { NoQuoteInside(body[1..]); }
  }

  /** A literal leaves its two quotes. */
  lemma LiteralLeavesQuotes(body: string, rest: string, unicode: set<char>)
    requires '\'' !in body && (rest == "" || rest[0] != '\'')
    ensures Images(Split("'" + body + "'" + rest, unicode)) == "''" + Images(Split(rest, unicode))
  {
    NoQuoteInside(body);
    SegmentLeaves(Literal(body, true), rest, unicode);
  }

  /** A dollar quote leaves its two delimiters, whether the tag is empty or a name of
      ASCII letters, digits and underscores that does not start with a digit. */
  lemma DollarQuoteLeavesDelimiters(name: string, body: string, rest: string, unicode: set<char>)
    requires forall c :: c in name ==> 'a' <= c <= 'z' || 'A' <= c <= 'Z' || '0' <= c <= '9' || c == '_'
    requires name != "" ==> !('0' <= name[0] <= '9')
    requires var tag := "$" + name + "$"; forall i :: 0 <= i < |body| ==> !(tag <= (body + tag)[i..])
    ensures var tag := "$" + name + "$";
      Images(Split(tag + body + tag + rest, unicode)) == tag + tag + Images(Split(rest, unicode))
  {
    var tag := "$" + name + "$";
    NameMakesTag(name, unicode);
    assert (body + tag)[|body|..] == tag;
    FindIs(body + tag, tag, |body|);
    SegmentLeaves(DollarQuote(tag, body, true), rest, unicode);
  }

  lemma NameMakesTag(name: string, unicode: set<char>)
    requires forall c :: c in name ==> 'a' <= c <= 'z' || 'A' <= c <= 'Z' || '0' <= c <= '9' || c == '_'
    requires name != "" ==> !('0' <= name[0] <= '9')
    ensures IsTag("$" + name + "$", unicode)
  {
    var tag := "$" + name + "$";
    forall i | 0 < i < |tag| - 1 ensures IsWord(tag[i], unicode) { assert tag[i] == name[i-1] && name[i-1] in name; }
    if name != "" { assert name[0] in name; }
  }

  /** Everything else stays as it is. */
  lemma CodeStays(c: char, rest: string, unicode: set<char>)
    requires c != '\'' && c != '$' && c != '-' && c != '/'
    ensures Images(Split([c] + rest, unicode)) == [c] + Images(Split(rest, unicode))
  {
    SegmentLeaves(Code(c), rest, unicode);
  }

  predicate Blank(s: string, blank: set<char>) { forall c :: c in s ==> c in blank }

  predicate RunsNothing(g: Segment, blank: set<char>) {
    g.LineComment? || g.BlockComment? || (g.Code? && g.c in blank)
  }

  lemma {:induction false} BlankImages(segments: seq<Segment>, blank: set<char>)
    requires '\n' in blank && '\'' !in blank && '$' !in blank
    requires forall g :: g in segments && g.DollarQuote? ==> |g.tag| > 0 && g.tag[0] == '$'
    ensures Blank(Images(segments), blank) <==> forall g :: g in segments ==> RunsNothing(g, blank)
    decreases segments
  {
    if segments != [] {
      var g, rest := segments[0], Images(segments[1..]);
      BlankImages(segments[1..], blank);
      assert forall h :: h in segments <==> h == g || h in segments[1..];
      assert Images(segments) == g.Image() + rest;
      assert Blank(Images(segments), blank) <==> Blank(g.Image(), blank) && Blank(rest, blank);
      BlankImage(g, blank);
    }
  }

  lemma BlankImage(g: Segment, blank: set<char>)
    requires '\n' in blank && '\'' !in blank && '$' !in blank
    requires g.DollarQuote? ==> |g.tag| > 0 && g.tag[0] == '$'
    ensures Blank(g.Image(), blank) <==> RunsNothing(g, blank)
  {
    if g.Code? || g.Literal? || g.DollarQuote? {
      assert g.Image()[0] in g.Image();
    }
  }

  lemma {:induction false} TagsOpenWithDollar(segments: seq<Segment>, unicode: set<char>)
    requires Segmentation(segments, unicode)
    ensures forall g :: g in segments && g.DollarQuote? ==> |g.tag| > 0 && g.tag[0] == '$'
    decreases segments
  {
    if segments != [] {
      TagsOpenWithDollar(segments[1..], unicode);
    }
  }

  /** Nothing but blanks is left of a text exactly when its segments are comments and
      blank code: any literal or dollar quote, empty ones included, leaves its
      delimiters behind. */
  lemma OnlyCommentsExactly(sql: string, unicode: set<char>, blank: set<char>)
    requires '\n' in blank && '\'' !in blank && '$' !in blank
    ensures Blank(Images(Split(sql, unicode)), blank)
      <==> forall g :: g in Split(sql, unicode) ==> RunsNothing(g, blank)
  {
    SplitIsSegmentation(sql, unicode);
    TagsOpenWithDollar(Split(sql, unicode), unicode);
    BlankImages(Split(sql, unicode), blank);
  }
}
