/** user/sh.c: gettoken, peek, the parse functions over one shared cursor, and
    nulterminate. The line is the characters before its NUL; a word is the pair of places
    the parser stores in argv and eargv. */
module ShellParser {
  import opened ShellGrammar
  import opened ShellSyntax

  datatype Span = Span(q: nat, eq: nat)

  const WHITESPACE := " \t\r\n\U{0B}"
  const SYMBOLS := "<|>&;()"

  predicate IsSpace(c: char) {
    c in WHITESPACE
  }

  predicate InWord(c: char) {
    !IsSpace(c) && c !in SYMBOLS
  }

  predicate Blank(c: char) { c == ' ' || c == '\t' || c == '\r' || c == '\n' || c == '\U{0B}' }

  /** Which characters are skipped, and which are part of words. */
  lemma CharClasses(c: char)
    ensures IsSpace(c) <==> Blank(c)
    ensures InWord(c) <==>
      !Blank(c) && c != '<' && c != '|' && c != '>' && c != '&' && c != ';' && c != '(' && c != ')'
  {
    assert WHITESPACE[0] == ' ' && WHITESPACE[1] == '\t' && WHITESPACE[2] == '\r' && WHITESPACE[3] == '\n';
    assert WHITESPACE[4] == '\U{0B}' && |WHITESPACE| == 5;
    assert SYMBOLS[0] == '<' && SYMBOLS[1] == '|' && SYMBOLS[2] == '>' && SYMBOLS[3] == '&';
    assert SYMBOLS[4] == ';' && SYMBOLS[5] == '(' && SYMBOLS[6] == ')' && |SYMBOLS| == 7;
  }

  // ---------- the tokens of a line ----------

  function Skip(line: string, s: nat): (r: nat)
    requires s <= |line|
    ensures s <= r <= |line| && (r < |line| ==> !IsSpace(line[r]))
    ensures forall i :: s <= i < r ==> IsSpace(line[i])
    decreases |line| - s
  {
    if s < |line| && IsSpace(line[s]) then Skip(line, s + 1) else s
  }

  function WordEnd(line: string, s: nat): (r: nat)
    requires s <= |line|
    ensures s <= r <= |line| && (r < |line| ==> !InWord(line[r]))
    ensures forall i :: s <= i < r ==> InWord(line[i])
    decreases |line| - s
  {
    if s < |line| && InWord(line[s]) then WordEnd(line, s + 1) else s
  }

  /** The token at a place that is no white space, and where it ends. */
  function TokenAt(line: string, s: nat): (r: (Tok<Span>, nat))
    requires s < |line| && !IsSpace(line[s])
    ensures s < r.1 <= |line|
  {
    if InWord(line[s]) then (Word(Span(s, WordEnd(line, s))), WordEnd(line, s + 1))
    else if line[s] == '>' && s + 1 < |line| && line[s + 1] == '>' then (Sym('+'), s + 2)
    else (Sym(line[s]), s + 1)
  }

  function Tokens(line: string, s: nat): (r: seq<Tok<Span>>)
    requires s <= |line|
    decreases |line| - s
  {
    var p := Skip(line, s);
    if p == |line| then [] else [TokenAt(line, p).0] + Tokens(line, TokenAt(line, p).1)
  }

  lemma SkipTwice(line: string, s: nat)
    requires s <= |line|
    ensures Skip(line, Skip(line, s)) == Skip(line, s) && Tokens(line, Skip(line, s)) == Tokens(line, s)
  {
  }

  // ---------- words ----------

  /** A nonempty word that ends where no word goes on. */
  predicate GoodSpan(line: string, w: Span) {
    w.q < w.eq <= |line| && (forall i :: w.q <= i < w.eq ==> InWord(line[i])) && (w.eq < |line| ==> !InWord(line[w.eq]))
  }

  lemma {:induction false} TokensGood(line: string, s: nat)
    requires s <= |line|
    ensures ToksHave(Good(line), Tokens(line, s))
    decreases |line| - s
  {
    var p := Skip(line, s);
    if p < |line| {
      TokensGood(line, TokenAt(line, p).1);
    }
  }

  function TextOf(line: string, w: Span): string {
    if w.q <= w.eq <= |line| then line[w.q..w.eq] else ""
  }

  ghost function Good(line: string): Span -> bool {
    w => GoodSpan(line, w)
  }

  function Texts(line: string): Span -> string {
    w => TextOf(line, w)
  }

  // ---------- writing a line ----------

  function Text(tok: Tok<string>): string {
    match tok
    case Sym(c) => if c == '+' then ">>" else [c]
    case Word(w) => w
  }

  predicate LegalWord(w: string) {
    w != "" && forall i :: 0 <= i < |w| ==> InWord(w[i]) && w[i] != '\0'
  }

  ghost predicate Legal(tok: Tok<string>) {
    match tok
    case Sym(c) => c in SYMBOLS || c == '+'
    case Word(w) => LegalWord(w)
  }

  ghost predicate AllLegal(ts: seq<Tok<string>>) {
    forall i :: 0 <= i < |ts| ==> Legal(ts[i])
  }

  predicate AllBlank(gap: string) { forall i :: 0 <= i < |gap| ==> Blank(gap[i]) }

  /** Two tokens that would be read differently with nothing between them. */
  predicate Touching(a: Tok<string>, b: Tok<string>) {
    if a.Word? then b.Word? else a.c == '>' && b.Sym? && (b.c == '>' || b.c == '+')
  }

  /** Blanks for a line: in front of every token, and at the end. */
  ghost predicate Spaced(gaps: seq<string>, ts: seq<Tok<string>>) {
    && |gaps| == |ts| + 1 && (forall i :: 0 <= i < |gaps| ==> AllBlank(gaps[i]))
    && forall i :: 0 < i < |ts| && Touching(ts[i - 1], ts[i]) ==> gaps[i] != ""
  }

  /** The line with these blanks and tokens. */
  function Laid(gaps: seq<string>, ts: seq<Tok<string>>): string
    requires |gaps| == |ts| + 1
  {
    if ts == [] then gaps[0] else gaps[0] + (Text(ts[0]) + Laid(gaps[1..], ts[1..]))
  }

  lemma SpacedTail(gaps: seq<string>, ts: seq<Tok<string>>)
    requires Spaced(gaps, ts) && ts != []
    ensures Spaced(gaps[1..], ts[1..]) && AllBlank(gaps[0])
  {
  }

  lemma {:induction false} WordEnds(line: string, s: nat, e: nat)
    requires s <= e <= |line| && (e < |line| ==> !InWord(line[e])) && forall i :: s <= i < e ==> InWord(line[i])
    ensures WordEnd(line, s) == e
    decreases e - s
  {
    if s < e {
      WordEnds(line, s + 1, e);
    }
  }

  lemma {:induction false} SkipOver(line: string, s: nat, e: nat)
    requires s <= e <= |line| && (e < |line| ==> !IsSpace(line[e])) && forall i :: s <= i < e ==> IsSpace(line[i])
    ensures Skip(line, s) == e
    decreases e - s
  {
    if s < e {
      SkipOver(line, s + 1, e);
    }
  }

  /** What follows a token does not belong to it. */
  predicate Apart(tok: Tok<string>, after: string) {
    after != "" ==> (tok.Word? ==> !InWord(after[0])) && (tok == Sym('>') ==> after[0] != '>')
  }

  /** A token written at place p is the token there. */
  lemma LexOne(line: string, p: nat, tok: Tok<string>)
    requires Legal(tok) && p + |Text(tok)| <= |line| && line[p..p + |Text(tok)|] == Text(tok)
    requires Apart(tok, line[p + |Text(tok)|..])
    ensures p < |line| && !IsSpace(line[p]) && TokenAt(line, p).1 == p + |Text(tok)|
    ensures MapTok(Texts(line), TokenAt(line, p).0) == tok
  {
    var e := p + |Text(tok)|;
    assert line[p..e][0] == line[p] && (e < |line| ==> line[e..][0] == line[e]);
    match tok
    case Sym(c) =>
      CharClasses(c);
      assert c == '+' ==> line[p..e][1] == line[p + 1];
    case Word(w) =>
      assert forall i :: p <= i < e ==> line[i] == w[i - p];
      WordEnds(line, p, e);
      WordEnds(line, p + 1, e);
  }

  lemma NextApart(tok: Tok<string>, gaps: seq<string>, ts: seq<Tok<string>>)
    requires |gaps| == |ts| + 1 && AllBlank(gaps[0]) && AllLegal(ts)
    requires ts != [] && Touching(tok, ts[0]) ==> gaps[0] != ""
    ensures Apart(tok, Laid(gaps, ts))
  {
    var after := Laid(gaps, ts);
    if gaps[0] != "" {
      assert after[0] == gaps[0][0];
      CharClasses(after[0]);
    } else if ts != [] {
      assert Legal(ts[0]) && after[0] == Text(ts[0])[0];
      CharClasses(after[0]);
    }
  }

  /** The blanks between two places. */
  lemma BlankSpaces(line: string, s: nat, e: nat)
    requires s <= e <= |line|
    ensures AllBlank(line[s..e]) <==> forall i :: s <= i < e ==> IsSpace(line[i])
  {
    forall i | s <= i < e ensures line[s..e][i - s] == line[i] && (IsSpace(line[i]) <==> Blank(line[i])) {
      CharClasses(line[i]);
    }
    if AllBlank(line[s..e]) {
      forall i | s <= i < e ensures IsSpace(line[i]) {
        assert Blank(line[s..e][i - s]);
      }
    }
  }

  lemma LexStep(line: string, s: nat, p: nat, tok: Tok<string>)
    requires s <= p && p + |Text(tok)| <= |line| && line[p..p + |Text(tok)|] == Text(tok)
    requires Legal(tok) && AllBlank(line[s..p]) && Apart(tok, line[p + |Text(tok)|..])
    ensures var ts := Tokens(line, s);
      ts != [] && MapTok(Texts(line), ts[0]) == tok && ts[1..] == Tokens(line, p + |Text(tok)|)
  {
    LexOne(line, p, tok);
    BlankSpaces(line, s, p);
    hide IsSpace, TokenAt, Text, Legal, MapTok, Apart, AllBlank;
    SkipOver(line, s, p);
  }

  lemma Slices(a: string, b: string, c: string, d: string)
    ensures var s := a + (b + (c + d));
      && |s| == |a| + |b| + |c| + |d| && s == a + (b + c) + d && s[|a|..|a| + |b|] == b
      && s[|a| + |b|..|a| + |b| + |c|] == c && s[|a| + |b| + |c|..] == d
  {
  }

  lemma Cut(line: string, s: nat, p: nat, e: nat)
    requires s <= p <= e <= |line|
    ensures line[s..] == line[s..p] + (line[p..e] + line[e..])
  {
  }

  lemma LexJoined(before: string, gap: string, tok: Tok<string>, rest: string)
    requires Legal(tok) && AllBlank(gap) && Apart(tok, rest)
    ensures var line, next := before + (gap + (Text(tok) + rest)), before + (gap + Text(tok));
      && line == next + rest && |next| <= |line|
      && var toks := Tokens(line, |before|);
      toks != [] && MapTok(Texts(line), toks[0]) == tok && toks[1..] == Tokens(line, |next|)
  {
    hide Tokens, Text, Texts, Legal, Apart, AllBlank, MapTok;
    var t := Text(tok);
    Slices(before, gap, t, rest);
    LexStep(before + (gap + (t + rest)), |before|, |before| + |gap|, tok);
    assert |before| + |gap| + |t| == |before + (gap + t)|;
  }

  lemma LexFirst(before: string, gaps: seq<string>, ts: seq<Tok<string>>)
    requires AllLegal(ts) && Spaced(gaps, ts) && ts != []
    ensures var line, next := before + Laid(gaps, ts), before + (gaps[0] + Text(ts[0]));
      && line == next + Laid(gaps[1..], ts[1..]) && |next| <= |line|
      && var toks := Tokens(line, |before|);
      toks != [] && MapTok(Texts(line), toks[0]) == ts[0] && toks[1..] == Tokens(line, |next|)
  {
    SpacedTail(gaps, ts);
    NextApart(ts[0], gaps[1..], ts[1..]);
    assert Legal(ts[0]);
    hide Tokens, Text, Texts, Spaced, AllLegal, Legal, Touching, Apart, AllBlank, MapTok;
    LexJoined(before, gaps[0], ts[0], Laid(gaps[1..], ts[1..]));
  }

  lemma LexNothing(before: string, gap: string)
    requires AllBlank(gap)
    ensures Tokens(before + gap, |before|) == []
  {
    var line := before + gap;
    assert line[|before|..|line|] == gap;
    BlankSpaces(line, |before|, |line|);
    hide IsSpace, AllBlank;
    SkipOver(line, |before|, |line|);
  }

  lemma MapsTo(f: Span -> string, toks: seq<Tok<Span>>, ts: seq<Tok<string>>)
    requires toks != [] && ts != [] && MapTok(f, toks[0]) == ts[0] && MapToks(f, toks[1..]) == ts[1..]
    ensures MapToks(f, toks) == ts
  {
    MapTail(f, toks, 1);
    assert ts == [ts[0]] + ts[1..];
  }

  /** Whatever blanks a line has, its tokens are the ones written. */
  lemma {:induction false} LexLaid(before: string, gaps: seq<string>, ts: seq<Tok<string>>)
    requires AllLegal(ts) && Spaced(gaps, ts)
    ensures var line := before + Laid(gaps, ts); MapToks(Texts(line), Tokens(line, |before|)) == ts
    decreases |ts|
  {
    var line := before + Laid(gaps, ts);
    if ts == [] {
      LexNothing(before, gaps[0]);
    } else {
      var next := before + (gaps[0] + Text(ts[0]));
      SpacedTail(gaps, ts);
      LexFirst(before, gaps, ts);
      hide Tokens, Texts, Text, Spaced, Laid, MapTok, MapToks, AllBlank;
      LexLaid(next, gaps[1..], ts[1..]);
      MapsTo(Texts(line), Tokens(line, |before|), ts);
    }
  }

  /** And every line is one such writing of its tokens. */
  lemma {:induction false} LineIsLaid(line: string, s: nat) returns (gaps: seq<string>)
    requires s <= |line|
    ensures var ts := MapToks(Texts(line), Tokens(line, s)); Spaced(gaps, ts) && Laid(gaps, ts) == line[s..]
    ensures gaps[0] == line[s..Skip(line, s)]
    decreases |line| - s
  {
    var p := Skip(line, s);
    BlankSpaces(line, s, p);
    hide Texts, AllBlank, IsSpace;
    if p == |line| {
      gaps := [line[s..p]];
    } else {
      var e := TokenAt(line, p).1;
      var more := LineIsLaid(line, e);
      TokenText(line, p);
      NotTouching(line, p);
      hide TokenAt;
      var rest, tok := MapToks(Texts(line), Tokens(line, e)), MapTok(Texts(line), TokenAt(line, p).0);
      Mapped(line, s);
      hide Tokens, MapToks, Skip, Touching, Text, MapTok;
      gaps := [line[s..p]] + more;
      SpacedMore(line[s..p], tok, more, rest);
      hide Laid, Spaced;
      Cut(line, s, p, e);
    }
  }

  lemma Mapped(line: string, s: nat)
    requires s <= |line| && Skip(line, s) < |line|
    ensures var (tok, e) := TokenAt(line, Skip(line, s));
      MapToks(Texts(line), Tokens(line, s)) == [MapTok(Texts(line), tok)] + MapToks(Texts(line), Tokens(line, e))
  {
    hide TokenAt, MapTok, Texts;
  }

  lemma SpacedMore(gap: string, tok: Tok<string>, gaps: seq<string>, ts: seq<Tok<string>>)
    requires AllBlank(gap) && Spaced(gaps, ts) && (ts != [] && Touching(tok, ts[0]) ==> gaps[0] != "")
    ensures Spaced([gap] + gaps, [tok] + ts) && Laid([gap] + gaps, [tok] + ts) == gap + (Text(tok) + Laid(gaps, ts))
  {
    var all, toks := [gap] + gaps, [tok] + ts;
    assert all[1..] == gaps && toks[1..] == ts;
    hide Touching, AllBlank, Text;
    forall i | 0 < i < |toks| && Touching(toks[i - 1], toks[i]) ensures all[i] != "" {
      assert i > 1 ==> toks[i - 1] == ts[i - 2];
    }
  }

  lemma TokenText(line: string, p: nat)
    requires p < |line| && !IsSpace(line[p])
    ensures Text(MapTok(Texts(line), TokenAt(line, p).0)) == line[p..TokenAt(line, p).1]
  {
    CharClasses(line[p]);
  }

  /** What the first character of a token tells, and the one behind it. */
  lemma TokenFacts(line: string, p: nat)
    requires p < |line| && !IsSpace(line[p])
    ensures var (tok, e) := TokenAt(line, p);
      && (tok.Word? <==> InWord(line[p])) && (tok.Word? && e < |line| ==> !InWord(line[e]))
      && (tok.Sym? && (tok.c == '>' || tok.c == '+') ==> line[p] == '>')
      && (tok == Sym('>') && e < |line| ==> line[e] != '>')
  {
    CharClasses(line[p]);
    hide IsSpace;
  }

  /** Two tokens of a line that would be read differently together stand apart. */
  lemma NotTouching(line: string, p: nat)
    requires p < |line| && !IsSpace(line[p])
    ensures var (tok, e) := TokenAt(line, p); var ts := MapToks(Texts(line), Tokens(line, e));
      ts != [] && Touching(MapTok(Texts(line), tok), ts[0]) ==> Skip(line, e) != e
  {
    var e := TokenAt(line, p).1;
    TokenFacts(line, p);
    if e < |line| && Skip(line, e) == e {
      TokenFacts(line, e);
    }
    hide TokenAt, IsSpace, InWord;
  }

  // ---------- the printed form of any command ----------

  ghost predicate LegalCmd(t: Cmd<string>) {
    WordsHave(LegalWord, t)
  }

  lemma LegalAppend(a: seq<Tok<string>>, b: seq<Tok<string>>)
    requires AllLegal(a) && AllLegal(b)
    ensures AllLegal(a + b)
  {
  }

  lemma {:induction false} LegalWords(ws: seq<string>)
    requires forall i :: 0 <= i < |ws| ==> LegalWord(ws[i])
    ensures AllLegal(Words(ws))
  {
    if ws != [] {
      LegalWords(ws[1..]);
    }
  }

  lemma {:induction false} LegalPrint(level: Level, t: Cmd<string>)
    requires LegalCmd(t)
    ensures AllLegal(Print(level, t))
    decreases t, if Fits(level, t) then 0 else 1
  {
    if !Fits(level, t) {
      LegalPrint(LineLevel, t);
      LegalAppend([Sym('(')], Print(LineLevel, t));
    } else {
      match t
      case Exec(argv) => LegalWords(argv);
      case Redir(cmd, r) =>
        LegalPrint(ExecLevel, cmd);
        assert RedirToks([r]) == [Sym(SymOf(r.mode)), Word(r.file)];
      case Pipe(left, right) =>
        LegalPrint(ExecLevel, left);
        LegalPrint(PipeLevel, right);
      case Back(cmd) => LegalPrint(BackLevel, cmd);
      case List(left, right) =>
        LegalPrint(BackLevel, left);
        LegalPrint(LineLevel, right);
    }
  }

  /** parsecmd() on a line. */
  function ParseCmd(line: string): Out<Span> {
    ParseAll(Tokens(line, 0))
  }

  /** Every command of legal words, written as a line with any blanks, is parsed back to
      itself, with its nesting and its words, exactly when no command in it has more than
      nine arguments. */
  lemma ParserInvertsPrinter(t: Cmd<string>, gaps: seq<string>)
    requires LegalCmd(t) && Spaced(gaps, Print(LineLevel, t))
    ensures var line := Laid(gaps, Print(LineLevel, t));
      MapOut(Texts(line), ParseCmd(line)) == Ok(t, []) <==> FewArgs(t)
  {
    var ts := Print(LineLevel, t);
    LegalPrint(LineLevel, t);
    ParseLaid(gaps, ts);
    ParseInvertsPrint(t);
  }

  /** The parse of a line depends on its tokens alone, not on the blanks. */
  lemma ParseLaid(gaps: seq<string>, ts: seq<Tok<string>>)
    requires AllLegal(ts) && Spaced(gaps, ts)
    ensures var line := Laid(gaps, ts); MapOut(Texts(line), ParseCmd(line)) == ShellGrammar.ParseAll(ts)
  {
    var line := Laid(gaps, ts);
    LexLaid("", gaps, ts);
    assert "" + line == line;
    MapParseLine(Texts(line), Tokens(line, 0));
  }

  /** Every line of the grammar, its words and redirections in any order and with any blanks,
      is parsed to what it means there. */
  lemma LinesMean(x: Line<string>, gaps: seq<string>)
    requires AllLegal(LineToks(x)) && Spaced(gaps, LineToks(x))
    ensures var line := Laid(gaps, LineToks(x));
      MapOut(Texts(line), ParseCmd(line)) == LineOutcome(Few(x), LineCmd(x), [])
  {
    hide LineToks, LineCmd, Few, Laid, Texts, MapOut, ParseCmd;
    ParseLaid(gaps, LineToks(x));
    LineAccepted(x, []);
    assert LineToks(x) + [] == LineToks(x);
  }

  // ---------- nulterminate ----------

  /** The places at which the words of a command end. */
  function Ends(t: Cmd<Span>): (r: set<nat>) {
    match t
    case Exec(argv) => set i: nat | i < |argv| :: argv[i].eq
    case Redir(cmd, r) => Ends(cmd) + {r.file.eq}
    case Pipe(left, right) => Ends(left) + Ends(right)
    case List(left, right) => Ends(left) + Ends(right)
    case Back(cmd) => Ends(cmd)
  }

  ghost predicate GoodCmd(line: string, t: Cmd<Span>) {
    WordsHave(Good(line), t)
  }

  lemma {:induction false} EndsGood(line: string, t: Cmd<Span>)
    requires GoodCmd(line, t)
    ensures forall e :: e in Ends(t) ==> e <= |line| && (e < |line| ==> !InWord(line[e]))
  {
    match t
    case Exec(argv) =>
    case Redir(cmd, r) => EndsGood(line, cmd);
    case Pipe(left, right) => EndsGood(line, left); EndsGood(line, right);
    case List(left, right) => EndsGood(line, left); EndsGood(line, right);
    case Back(cmd) => EndsGood(line, cmd);
  }

  ghost function Ending(ends: set<nat>): Span -> bool {
    (w: Span) => w.eq in ends
  }

  lemma {:induction false} EndsCover(t: Cmd<Span>, ends: set<nat>)
    requires Ends(t) <= ends
    ensures WordsHave(Ending(ends), t)
  {
    match t
    case Exec(argv) =>
    case Redir(cmd, r) => EndsCover(cmd, ends);
    case Pipe(left, right) => EndsCover(left, ends); EndsCover(right, ends);
    case List(left, right) => EndsCover(left, ends); EndsCover(right, ends);
    case Back(cmd) => EndsCover(cmd, ends);
  }

  /** The buffer with a NUL at every end. */
  predicate Terminated(line: string, ends: set<nat>, buf: seq<char>) {
    |buf| == |line| + 1 && forall i :: 0 <= i < |buf| ==> buf[i] == if i in ends || i == |line| then '\0' else line[i]
  }

  /** The C string at a place of the buffer. */
  predicate IsCString(buf: seq<char>, q: nat, text: string) {
    && q + |text| < |buf| && buf[q + |text|] == '\0'
    && (forall i :: 0 <= i < |text| ==> buf[q + i] == text[i] && text[i] != '\0')
  }

  ghost function Stringy(line: string, buf: seq<char>): Span -> bool {
    (w: Span) => w.q < w.eq <= |line| && IsCString(buf, w.q, line[w.q..w.eq])
  }

  /** Once the ends are written, every word of the command is a C string with exactly its
      own characters, whatever the line was. */
  lemma WordsAreStrings(line: string, buf: seq<char>)
    requires '\0' !in line
    ensures var r := ParseCmd(line); r.Ok? && Terminated(line, Ends(r.cmd), buf) ==>
      WordsHave(Stringy(line, buf), r.cmd)
  {
    var r := ParseCmd(line);
    TokensGood(line, 0);
    MadeLine(Good(line), Tokens(line, 0));
    if r.Ok? && Terminated(line, Ends(r.cmd), buf) {
      EndsGood(line, r.cmd);
      EndsCover(r.cmd, Ends(r.cmd));
      Both(line, buf, r.cmd, r.cmd);
    }
  }

  lemma {:induction false} Both(line: string, buf: seq<char>, t: Cmd<Span>, all: Cmd<Span>)
    requires '\0' !in line && Terminated(line, Ends(all), buf) && GoodCmd(line, t)
    requires WordsHave(Ending(Ends(all)), t)
    requires forall e :: e in Ends(all) ==> e <= |line| && (e < |line| ==> !InWord(line[e]))
    ensures WordsHave(Stringy(line, buf), t)
  {
    match t
    case Exec(argv) =>
    case Redir(cmd, r) => Both(line, buf, cmd, all);
    case Pipe(left, right) => Both(line, buf, left, all); Both(line, buf, right, all);
    case List(left, right) => Both(line, buf, left, all); Both(line, buf, right, all);
    case Back(cmd) => Both(line, buf, cmd, all);
  }

  // ---------- the parser ----------

  datatype Result = Parsed(cmd: Cmd<Span>) | Died(panic: Panic)

  /** The method came to the same end as the function, at the same token. */
  predicate Agrees(out: Out<Span>, r: Result, rest: seq<Tok<Span>>) {
    match out
    case Ok(cmd, left) => r == Parsed(cmd) && rest == left
    case Failed(panic) => r == Died(panic)
  }

  lemma {:induction false} WrapAppend(t: Cmd<Span>, rs: seq<Redirection<Span>>, more: seq<Redirection<Span>>)
    ensures Wrap(Wrap(t, rs), more) == Wrap(t, rs + more)
    decreases |rs|
  {
    if rs == [] {
      assert rs + more == more;
    } else {
      assert (rs + more)[1..] == rs[1..] + more;
      WrapAppend(Redir(t, rs[0]), rs[1..], more);
    }
  }

  /** cmd->argv of the innermost command, seen through its redirections. */
  function WithArgs(t: Cmd<Span>, argv: seq<Span>): Cmd<Span> {
    match t
    case Redir(cmd, r) => Redir(WithArgs(cmd, argv), r)
    case _ => Exec(argv)
  }

  lemma {:induction false} WithArgsWrap(t: Cmd<Span>, rs: seq<Redirection<Span>>, argv: seq<Span>)
    ensures WithArgs(Wrap(t, rs), argv) == Wrap(WithArgs(t, argv), rs)
    decreases |rs|
  {
    if rs != [] {
      WithArgsWrap(Redir(t, rs[0]), rs[1..], argv);
    }
  }

  /** The first token, by its first character. */
  lemma FirstToken(line: string, s: nat)
    requires s < |line| && !IsSpace(line[s])
    ensures Tokens(line, s) == [TokenAt(line, s).0] + Tokens(line, TokenAt(line, s).1)
  {
  }

  /** The parse functions share the cursor `s`. */
  class Parser {
    const line: string
    var s: nat

    constructor (text: string)
      ensures line == text && s == 0
    {
      line, s := text, 0;
    }

    predicate Valid()
      reads this
    {
      s <= |line|
    }

    ghost function Left(): seq<Tok<Span>>
      reads this
      requires Valid()
    {
      Tokens(line, s)
    }

    method SkipBlanks()
      requires Valid()
      modifies this
      ensures Valid() && s == Skip(line, old(s)) && Left() == old(Left())
    {
      SkipTwice(line, s);
      while s < |line| && IsSpace(line[s])
        invariant Valid() && Skip(line, s) == Skip(line, old(s))
        decreases |line| - s
      {
        s := s + 1;
      }
    }

    /** gettoken()'s loop over the characters of a word. */
    method ScanWord()
      requires Valid()
      modifies this
      ensures Valid() && s == WordEnd(line, old(s))
    {
      while s < |line| && !IsSpace(line[s]) && line[s] !in SYMBOLS
        invariant old(s) <= s <= |line| && WordEnd(line, s) == WordEnd(line, old(s))
        decreases |line| - s
      {
        s := s + 1;
      }
    }

    /** gettoken(): 0 at the end, 'a' for a word between q and eq, '+' for >>, or the
        character itself. */
    method GetToken() returns (ret: char, q: nat, eq: nat)
      requires Valid()
      modifies this
      ensures Valid() && old(s) <= s
      ensures old(Left()) == [] ==> ret == '\0' && Left() == []
      ensures old(Left()) != [] ==> Left() == old(Left())[1..] && s > old(s)
      ensures old(Left()) != [] ==> old(Left())[0] == if ret == 'a' then Word(Span(q, eq)) else Sym(ret)
      ensures ret == '\0' ==> old(Left()) == []
    {
      hide TokenAt;
      SkipBlanks();
      q := s;
      if s == |line| {
        return '\0', q, s;
      }
      FirstToken(line, s);
      ret := ScanToken();
      eq := s;
      SkipBlanks();
    }

    /** gettoken()'s switch. */
    method ScanToken() returns (ret: char)
      requires s < |line| && !IsSpace(line[s])
      modifies this
      ensures Valid() && s == TokenAt(line, old(s)).1 && ret != '\0'
      ensures TokenAt(line, old(s)).0 == if ret == 'a' then Word(Span(old(s), s)) else Sym(ret)
    {
      ret := line[s];
      if ret in "|();&<" {
        s := s + 1;
      } else if ret == '>' {
        s := s + 1;
        if s < |line| && line[s] == '>' {
          ret := '+';
          s := s + 1;
        }
      } else {
        ret := 'a';
        ScanWord();
      }
    }

    /** peek(): whether the next token starts with one of the symbols. */
    method Peek(toks: string) returns (r: bool)
      requires Valid() && forall c :: c in toks ==> c in SYMBOLS
      modifies this
      ensures Valid() && old(s) <= s == Skip(line, old(s)) && Left() == old(Left())
      ensures r <==> Starts(Left(), toks) || ('>' in toks && Starts(Left(), "+"))
    {
      SkipBlanks();
      if s < |line| {
        FirstToken(line, s);
      }
      r := s < |line| && line[s] in toks;
    }

    /** parsecmd() */
    method ParseAll() returns (r: Result)
      requires s == 0
      modifies this
      ensures Agrees(ParseCmd(line), r, [])
    {
      r := ParseLine();
      if r.Parsed? {
        var more := Peek("");
        SkipTwice(line, s);
        AtEnd(line, s);
        if s != |line| {
          r := Died(Syntax);
        }
      }
    }

    /** parseline() */
    method ParseLine() returns (r: Result)
      requires Valid()
      modifies this
      ensures Valid() && old(s) <= s && Agrees(ShellGrammar.ParseLine(old(Left())), r, Left())
      decreases |line| - s, 3
    {
      r := ParsePipe();
      if r.Died? {
        return;
      }
      ghost var pipe, ts := r.cmd, Left();
      var more := Peek("&");
      while more
        invariant Valid() && old(s) <= s && r.Parsed? && more == Starts(Left(), "&")
        invariant ParseBacks(r.cmd, Left()) == ParseBacks(pipe, ts)
        decreases |Left()|
      {
        var tok, q, eq := GetToken();
        r := Parsed(Back(r.cmd));
        more := Peek("&");
      }
      more := Peek(";");
      if more {
        var tok, q, eq := GetToken();
        var right := ParseLine();
        r := if right.Died? then right else Parsed(List(r.cmd, right.cmd));
      }
    }

    /** parsepipe() */
    method ParsePipe() returns (r: Result)
      requires Valid()
      modifies this
      ensures Valid() && old(s) <= s && Agrees(ShellGrammar.ParsePipe(old(Left())), r, Left())
      decreases |line| - s, 2
    {
      r := ParseExec();
      if r.Died? {
        return;
      }
      var more := Peek("|");
      if more {
        var tok, q, eq := GetToken();
        var right := ParsePipe();
        r := if right.Died? then right else Parsed(Pipe(r.cmd, right.cmd));
      }
    }

    /** parseredirs() */
    method ParseRedirs(cmd: Cmd<Span>) returns (r: Result)
      requires Valid()
      modifies this
      ensures Valid() && old(s) <= s
      ensures match ShellGrammar.ParseRedirs(old(Left()))
        case NoFile => r == Died(MissingFile)
        case Redirs(list, rest) => r == Parsed(Wrap(cmd, list)) && Left() == rest
    {
      hide ShellGrammar.ParseRedirs, Wrap, Tokens, Onward;
      r := Parsed(cmd);
      ghost var done: seq<Redirection<Span>> := [];
      ghost var all := ShellGrammar.ParseRedirs(Left());
      NothingDone(cmd, all);
      var more := Peek("<>");
      while more
        invariant Valid() && old(s) <= s && r == Parsed(Wrap(cmd, done)) && more == Starts(Left(), "<>+")
        invariant Onward(all, done, ShellGrammar.ParseRedirs(Left()))
        decreases |Left()|
      {
        ghost var ts := Left();
        NoMore(all, done, ts);
        var tok, q0, eq0 := GetToken();
        var word, q, eq := GetToken();
        if word != 'a' {
          return Died(MissingFile);
        }
        var mode := if tok == '<' then Read else if tok == '>' then Truncate else Keep;
        var next := Redirection(Span(q, eq), mode);
        WrapSnoc(cmd, done, next);
        OneMore(all, done, ts, next);
        r := Parsed(Redir(r.cmd, next));
        done := done + [next];
        more := Peek("<>");
      }
      NoMore(all, done, Left());
    }

    /** parseblock() */
    method ParseBlock() returns (r: Result)
      requires Valid() && Starts(Left(), "(")
      modifies this
      ensures Valid() && old(s) <= s && Agrees(ShellGrammar.ParseExec(old(Left())), r, Left())
      decreases |line| - s, 0
    {
      var tok, q, eq := GetToken();
      r := ParseLine();
      if r.Died? {
        return;
      }
      var closed := Peek(")");
      if !closed {
        return Died(MissingParen);
      }
      tok, q, eq := GetToken();
      r := ParseRedirs(r.cmd);
    }

    /** parseexec() */
    method ParseExec() returns (r: Result)
      requires Valid()
      modifies this
      ensures Valid() && old(s) <= s && Agrees(ShellGrammar.ParseExec(old(Left())), r, Left())
      decreases |line| - s, 1
    {
      var block := Peek("(");
      if block {
        r := ParseBlock();
        return;
      }
      r := ParseSimple();
    }

    /** The argument loop of parseexec(). */
    method ParseSimple() returns (r: Result)
      requires Valid() && !Starts(Left(), "(")
      modifies this
      ensures Valid() && old(s) <= s && Agrees(ShellGrammar.ParseExec(old(Left())), r, Left())
      decreases |line| - s, 0
    {
      ghost var all := ShellGrammar.ParseExec(Left());
      ghost var first := ShellGrammar.ParseRedirs(Left());
      r := ParseRedirs(Exec([]));
      if r.Died? {
        return;
      }
      ghost var rs := first.list;
      var args: seq<Span> := [];
      var stop := Peek("|)&;");
      while !stop
        invariant Valid() && old(s) <= s && |args| < MAXARGS && r == Parsed(Wrap(Exec(args), rs))
        invariant all == ShellGrammar.ParseArgs(args, rs, Left()) && stop == Starts(Left(), "|)&;")
        decreases |Left()|
      {
        ghost var ts := Left();
        var tok, q, eq := GetToken();
        if tok == '\0' {
          break;
        }
        if tok != 'a' {
          return Died(Syntax);
        }
        WithArgsWrap(Exec(args), rs, args + [Span(q, eq)]);
        args := args + [Span(q, eq)];
        r := Parsed(WithArgs(r.cmd, args));
        if |args| >= MAXARGS {
          return Died(TooManyArgs);
        }
        ghost var more := ShellGrammar.ParseRedirs(Left());
        assert ts[1..] == Left() && ts[0] == Word(Span(q, eq));
        r := ParseRedirs(r.cmd);
        if r.Died? {
          return;
        }
        WrapAppend(Exec(args), rs, more.list);
        rs := rs + more.list;
        stop := Peek("|)&;");
      }
    }
  }

  lemma AtEnd(line: string, s: nat)
    requires s <= |line| && Skip(line, s) == s
    ensures Tokens(line, s) == [] <==> s == |line|
  {
  }

  /** How far a redirection loop is. */
  ghost predicate Onward(all: Redirs<Span>, done: seq<Redirection<Span>>, rest: Redirs<Span>) {
    match rest
    case NoFile => all == NoFile
    case Redirs(list, ts) => all == Redirs(done + list, ts)
  }

  lemma OneMore(all: Redirs<Span>, done: seq<Redirection<Span>>, ts: seq<Tok<Span>>, next: Redirection<Span>)
    requires Onward(all, done, ShellGrammar.ParseRedirs(ts))
    requires Starts(ts, "<>+") && |ts| >= 2 && ts[1] == Word(next.file) && next.mode == ModeOf(ts[0].c)
    ensures Onward(all, done + [next], ShellGrammar.ParseRedirs(ts[2..]))
  {
    hide ShellGrammar.ParseRedirs, Starts, Onward;
    var r := ShellGrammar.ParseRedirs(ts[2..]);
    FirstRedir(ts, next);
    OneFurther(all, done, next, r);
  }

  lemma OneFurther(all: Redirs<Span>, done: seq<Redirection<Span>>, next: Redirection<Span>, r: Redirs<Span>)
    requires Onward(all, done, if r.NoFile? then NoFile else Redirs([next] + r.list, r.rest))
    ensures Onward(all, done + [next], r)
  {
    if r.Redirs? {
      assert done + ([next] + r.list) == done + [next] + r.list;
    }
  }

  lemma FirstRedir(ts: seq<Tok<Span>>, next: Redirection<Span>)
    requires Starts(ts, "<>+") && |ts| >= 2 && ts[1] == Word(next.file) && next.mode == ModeOf(ts[0].c)
    ensures var r := ShellGrammar.ParseRedirs(ts[2..]);
      ShellGrammar.ParseRedirs(ts) == if r.NoFile? then NoFile else Redirs([next] + r.list, r.rest)
  {
  }

  lemma NothingDone(cmd: Cmd<Span>, all: Redirs<Span>)
    ensures Wrap(cmd, []) == cmd && Onward(all, [], all)
  {
    if all.Redirs? {
      assert [] + all.list == all.list;
    }
  }

  lemma NoMore(all: Redirs<Span>, done: seq<Redirection<Span>>, ts: seq<Tok<Span>>)
    requires Onward(all, done, ShellGrammar.ParseRedirs(ts))
    ensures !Starts(ts, "<>+") ==> all == Redirs(done, ts)
    ensures Starts(ts, "<>+") && (|ts| < 2 || !ts[1].Word?) ==> all == NoFile
  {
    assert done + [] == done;
  }

  // ---------- the words become strings ----------

  /** nulterminate(): a NUL at the end of every word of the command, and nowhere else. */
  method NulTerminate(buf: array<char>, cmd: Cmd<Span>)
    requires forall e :: e in Ends(cmd) ==> e < buf.Length
    modifies buf
    ensures forall i :: 0 <= i < buf.Length ==> buf[i] == if i in Ends(cmd) then '\0' else old(buf[i])
    decreases cmd
  {
    match cmd
    case Exec(argv) =>
      assert forall k: nat :: k < |argv| ==> argv[k].eq in Ends(cmd);
      for i := 0 to |argv|
        invariant forall j :: 0 <= j < buf.Length ==>
          buf[j] == if exists k :: 0 <= k < i && argv[k].eq == j then '\0' else old(buf[j])
      {
        buf[argv[i].eq] := '\0';
      }
    case Redir(inner, r) =>
      assert Ends(inner) <= Ends(cmd) && r.file.eq in Ends(cmd);
      NulTerminate(buf, inner);
      buf[r.file.eq] := '\0';
    case Pipe(left, right) =>
      assert Ends(left) <= Ends(cmd) && Ends(right) <= Ends(cmd);
      NulTerminate(buf, left);
      NulTerminate(buf, right);
    case List(left, right) =>
      assert Ends(left) <= Ends(cmd) && Ends(right) <= Ends(cmd);
      NulTerminate(buf, left);
      NulTerminate(buf, right);
    case Back(inner) =>
      assert Ends(inner) == Ends(cmd);
      NulTerminate(buf, inner);
  }

  /** parsecmd() on a NUL-terminated buffer: the parse of its line, with every word of the
      command left as a C string of exactly its characters. */
  method RunParser(buf: array<char>, line: string) returns (r: Result)
    requires buf.Length == |line| + 1 && buf[..|line|] == line && buf[|line|] == '\0' && '\0' !in line
    modifies buf
    ensures Agrees(ParseCmd(line), r, [])
    ensures r.Died? ==> buf[..] == old(buf[..])
    ensures r.Parsed? ==> WordsHave(Stringy(line, buf[..]), r.cmd)
  {
    var parser := new Parser(line);
    r := parser.ParseAll();
    if r.Parsed? {
      TokensGood(line, 0);
      MadeLine(Good(line), Tokens(line, 0));
      EndsGood(line, r.cmd);
      NulTerminate(buf, r.cmd);
      assert Terminated(line, Ends(r.cmd), buf[..]);
      WordsAreStrings(line, buf[..]);
    }
  }
}
