/**
 Service command lines (quantra/src/process.rs): a five-mode tokenizer that
 splits a command into arguments without a shell.  `SplitCommandLine` is the
 loop; the grammar of quoted words below is independent of it, and the theorems
 say that the tokenizer is exactly that grammar's inverse.
 */
module CommandLine {
  datatype Mode = Normal | SingleQuoted | DoubleQuoted | Escaped | DoubleEscaped

  datatype Error = UnterminatedSingle | UnterminatedDouble | TrailingEscape | Empty

  datatype Result = Args(argv: seq<string>) | Failed(error: Error)

  datatype Lexer = Lexer(mode: Mode, current: string, argv: seq<string>)

  const START := Lexer(Normal, "", [])

  predicate IsBlank(c: char) { c == ' ' || c == '\t' || c == '\n' }

  function Flush(l: Lexer): Lexer {
    if l.current == "" then l else l.(argv := l.argv + [l.current], current := "")
  }

  /** One character. */
  function Feed(l: Lexer, c: char): Lexer {
    match l.mode
    case Normal =>
      if IsBlank(c) then Flush(l)
      else if c == '\\' then l.(mode := Escaped)
      else if c == '\'' then l.(mode := SingleQuoted)
      else if c == '"' then l.(mode := DoubleQuoted)
      else l.(current := l.current + [c])
    case SingleQuoted =>
      if c == '\'' then l.(mode := Normal) else l.(current := l.current + [c])
    case DoubleQuoted =>
      if c == '"' then l.(mode := Normal)
      else if c == '\\' then l.(mode := DoubleEscaped)
      else l.(current := l.current + [c])
    case Escaped => l.(current := l.current + [c], mode := Normal)
    case DoubleEscaped => l.(current := l.current + [c], mode := DoubleQuoted)
  }

  function FeedAll(l: Lexer, s: string): Lexer
    decreases |s|
  {
    if s == [] then l else FeedAll(Feed(l, s[0]), s[1..])
  }

  function Finish(l: Lexer): Result {
    match l.mode
    case SingleQuoted => Failed(UnterminatedSingle)
    case DoubleQuoted => Failed(UnterminatedDouble)
    case DoubleEscaped => Failed(UnterminatedDouble)
    case Escaped => Failed(TrailingEscape)
    case Normal => if Flush(l).argv == [] then Failed(Empty) else Args(Flush(l).argv)
  }

  function Split(command: string): Result { Finish(FeedAll(START, command)) }

  lemma {:induction false} FeedConcat(l: Lexer, a: string, b: string)
    ensures FeedAll(l, a + b) == FeedAll(FeedAll(l, a), b)
    decreases |a|
  {
    if a == [] {
      assert a + b == b;
    } else {
      FeedConcat(Feed(l, a[0]), a[1..], b);
      assert (a + b)[1..] == a[1..] + b;
    }
  }

  method SplitCommandLine(command: string) returns (r: Result)
    ensures r == Split(command)
  {
    var mode := Normal;
    var current := "";
    var argv := [];
    for i := 0 to |command|
      invariant Lexer(mode, current, argv) == FeedAll(START, command[..i])
    {
      var ch := command[i];
      assert command[..i + 1] == command[..i] + [ch];
      FeedConcat(START, command[..i], [ch]);
      FeedOne(Lexer(mode, current, argv), ch);
      match mode
      case Normal =>
        if ch == ' ' || ch == '\t' || ch == '\n' {
          if current != "" {
            argv := argv + [current];
            current := "";
          }
        } else if ch == '\\' {
          mode := Escaped;
        } else if ch == '\'' {
          mode := SingleQuoted;
        } else if ch == '"' {
          mode := DoubleQuoted;
        } else {
          current := current + [ch];
        }
      case SingleQuoted =>
        if ch == '\'' { mode := Normal; } else { current := current + [ch]; }
      case DoubleQuoted =>
        if ch == '"' {
          mode := Normal;
        } else if ch == '\\' {
          mode := DoubleEscaped;
        } else {
          current := current + [ch];
        }
      case Escaped =>
        current := current + [ch];
        mode := Normal;
      case DoubleEscaped =>
        current := current + [ch];
        mode := DoubleQuoted;
    }
    assert command[..|command|] == command;
    match mode {
      case Normal =>
      case SingleQuoted => return Failed(UnterminatedSingle);
      case DoubleQuoted => return Failed(UnterminatedDouble);
      case DoubleEscaped => return Failed(UnterminatedDouble);
      case Escaped => return Failed(TrailingEscape);
    }
    if current != "" {
      argv := argv + [current];
    }
    if argv == [] { return Failed(Empty); }
    return Args(argv);
  }

  // ------------------------------------------------------------- the grammar

  /** A character inside double quotes, bare or behind a backslash. */
  datatype Inner = Plain(c: char) | Behind(c: char)

  datatype Piece =
    | Bare(c: char)
    | Backslash(c: char)
    | Single(text: string)
    | Double(inner: seq<Inner>)

  predicate InnerOk(i: Inner) { i.Plain? ==> i.c != '"' && i.c != '\\' }

  predicate PieceOk(p: Piece) {
    match p
    case Bare(c) => !IsBlank(c) && c != '\\' && c != '\'' && c != '"'
    case Backslash(_) => true
    case Single(text) => '\'' !in text
    case Double(inner) => forall i :: 0 <= i < |inner| ==> InnerOk(inner[i])
  }

  function InnerText(inner: seq<Inner>): string {
    if inner == [] then ""
    else InnerChars(inner[0]) + InnerText(inner[1..])
  }

  function InnerMeaning(inner: seq<Inner>): string {
    if inner == [] then "" else [inner[0].c] + InnerMeaning(inner[1..])
  }

  function PieceText(p: Piece): string {
    match p
    case Bare(c) => [c]
    case Backslash(c) => ['\\', c]
    case Single(text) => ['\''] + text + ['\'']
    case Double(inner) => ['"'] + InnerText(inner) + ['"']
  }

  function PieceMeaning(p: Piece): string {
    match p
    case Bare(c) => [c]
    case Backslash(c) => [c]
    case Single(text) => text
    case Double(inner) => InnerMeaning(inner)
  }

  /** A word is any run of pieces; blanks separate words. */
  type Word = w: seq<Piece> | forall i :: 0 <= i < |w| ==> PieceOk(w[i]) witness []

  function WordText(w: Word): string { if w == [] then "" else PieceText(w[0]) + WordText(w[1..]) }
  function WordMeaning(w: Word): string { if w == [] then "" else PieceMeaning(w[0]) + WordMeaning(w[1..]) }

  type Blanks = b: string | |b| > 0 && forall i :: 0 <= i < |b| ==> IsBlank(b[i]) witness " "

  /** Words, each followed by at least one blank. */
  datatype Token = Token(word: Word, after: Blanks)

  function LineText(tokens: seq<Token>): string {
    if tokens == [] then "" else WordText(tokens[0].word) + tokens[0].after + LineText(tokens[1..])
  }

  /** The meanings that are not empty: an empty quoted word disappears. */
  function NonEmpty(s: string): seq<string> { if s == "" then [] else [s] }

  function LineMeaning(tokens: seq<Token>): seq<string> {
    if tokens == [] then [] else NonEmpty(WordMeaning(tokens[0].word)) + LineMeaning(tokens[1..])
  }

  // ------------------------------------------------------------ pieces and words

  lemma FeedOne(l: Lexer, c: char)
    ensures FeedAll(l, [c]) == Feed(l, c)
  {
    assert [c][1..] == [];
  }

  lemma FeedNone(l: Lexer)
    ensures FeedAll(l, "") == l
  {
  }

  lemma {:induction false} FeedSingle(l: Lexer, text: string)
    requires l.mode == SingleQuoted && '\'' !in text
    ensures FeedAll(l, text) == l.(current := l.current + text)
    decreases |text|
  {
    if text != [] {
      FeedSingle(Feed(l, text[0]), text[1..]);
      assert l.current + [text[0]] + text[1..] == l.current + text;
    } else {
      assert l.current + text == l.current;
    }
  }

  function InnerChars(i: Inner): string { if i.Plain? then [i.c] else ['\\', i.c] }

  lemma FeedInnerChar(l: Lexer, i: Inner)
    requires l.mode == DoubleQuoted && InnerOk(i)
    ensures FeedAll(l, InnerChars(i)) == l.(current := l.current + [i.c])
  {
    hide FeedAll;
    if i.Plain? {
      FeedOne(l, i.c);
    } else {
      assert InnerChars(i) == ['\\'] + [i.c];
      FeedConcat(l, ['\\'], [i.c]);
      FeedOne(l, '\\');
      FeedOne(l.(mode := DoubleEscaped), i.c);
    }
  }

  lemma {:induction false} FeedInner(l: Lexer, inner: seq<Inner>)
    requires l.mode == DoubleQuoted && forall i :: 0 <= i < |inner| ==> InnerOk(inner[i])
    ensures FeedAll(l, InnerText(inner)) == l.(current := l.current + InnerMeaning(inner))
    decreases |inner|
  {
    hide FeedAll, InnerChars;
    if inner == [] {
      FeedNone(l);
      assert l.current + "" == l.current;
    } else {
      var i := inner[0];
      FeedInnerChar(l, i);
      FeedConcat(l, InnerChars(i), InnerText(inner[1..]));
      FeedInner(l.(current := l.current + [i.c]), inner[1..]);
      assert l.current + [i.c] + InnerMeaning(inner[1..]) == l.current + InnerMeaning(inner);
    }
  }

  lemma FeedPiece(l: Lexer, p: Piece)
    requires l.mode == Normal && PieceOk(p)
    ensures FeedAll(l, PieceText(p)) == l.(current := l.current + PieceMeaning(p))
  {
    match p
    case Bare(c) => FeedOne(l, c);
    case Backslash(c) =>
      assert ['\\', c] == ['\\'] + [c];
      FeedConcat(l, ['\\'], [c]);
      FeedOne(l, '\\');
      FeedOne(l.(mode := Escaped), c);
    case Single(text) =>
      var q := l.(mode := SingleQuoted);
      FeedConcat(l, ['\''] + text, ['\'']);
      FeedConcat(l, ['\''], text);
      FeedOne(l, '\'');
      FeedSingle(q, text);
      FeedOne(q.(current := q.current + text), '\'');
    case Double(inner) =>
      var q := l.(mode := DoubleQuoted);
      FeedConcat(l, ['"'] + InnerText(inner), ['"']);
      FeedConcat(l, ['"'], InnerText(inner));
      FeedOne(l, '"');
      FeedInner(q, inner);
      FeedOne(q.(current := q.current + InnerMeaning(inner)), '"');
  }

  lemma {:induction false} FeedWord(l: Lexer, w: Word)
    requires l.mode == Normal
    ensures FeedAll(l, WordText(w)) == l.(current := l.current + WordMeaning(w))
    decreases |w|
  {
    hide FeedAll, PieceText, PieceMeaning, PieceOk;
    if w == [] {
      FeedNone(l);
      assert l.current + "" == l.current;
    } else {
      assert PieceOk(w[0]);
      FeedPiece(l, w[0]);
      FeedConcat(l, PieceText(w[0]), WordText(w[1..]));
      FeedWord(l.(current := l.current + PieceMeaning(w[0])), w[1..]);
      assert l.current + PieceMeaning(w[0]) + WordMeaning(w[1..]) == l.current + WordMeaning(w);
    }
  }

  lemma {:induction false} FeedBlanks(l: Lexer, b: Blanks)
    requires l.mode == Normal
    ensures FeedAll(l, b) == Flush(l)
    decreases |b|
  {
    assert IsBlank(b[0]);
    assert Feed(l, b[0]) == Flush(l);
    if |b| > 1 {
      FeedBlanks(Flush(l), b[1..]);
    } else {
      assert b[1..] == [];
    }
  }

  lemma FeedToken(argv: seq<string>, t: Token)
    ensures FeedAll(Lexer(Normal, "", argv), WordText(t.word) + t.after) ==
            Lexer(Normal, "", argv + NonEmpty(WordMeaning(t.word)))
  {
    hide FeedAll, WordText, WordMeaning;
    var l, m := Lexer(Normal, "", argv), WordMeaning(t.word);
    FeedConcat(l, WordText(t.word), t.after);
    FeedWord(l, t.word);
    assert "" + m == m;
    FeedBlanks(Lexer(Normal, m, argv), t.after);
    assert argv + [] == argv;
  }

  lemma {:induction false} FeedLine(argv: seq<string>, tokens: seq<Token>)
    ensures FeedAll(Lexer(Normal, "", argv), LineText(tokens)) == Lexer(Normal, "", argv + LineMeaning(tokens))
    decreases |tokens|
  {
    hide FeedAll, WordText, WordMeaning, NonEmpty;
    if tokens == [] {
      FeedNone(Lexer(Normal, "", argv));
      assert argv + [] == argv;
    } else {
      var t := tokens[0];
      var m := NonEmpty(WordMeaning(t.word));
      FeedConcat(Lexer(Normal, "", argv), WordText(t.word) + t.after, LineText(tokens[1..]));
      FeedToken(argv, t);
      FeedLine(argv + m, tokens[1..]);
      assert argv + m + LineMeaning(tokens[1..]) == argv + (m + LineMeaning(tokens[1..]));
    }
  }

  /** Any rendering of words, any blanks around and between them: the tokenizer returns the non-empty meanings. */
  lemma SplitInvertsRendering(tokens: seq<Token>, last: Word)
    ensures var argv := LineMeaning(tokens) + NonEmpty(WordMeaning(last));
            Split(LineText(tokens) + WordText(last)) == if argv == [] then Failed(Empty) else Args(argv)
  {
    FeedConcat(START, LineText(tokens), WordText(last));
    FeedLine([], tokens);
    assert [] + LineMeaning(tokens) == LineMeaning(tokens);
    var l := Lexer(Normal, "", LineMeaning(tokens));
    FeedWord(l, last);
    assert "" + WordMeaning(last) == WordMeaning(last);
    assert LineMeaning(tokens) + [] == LineMeaning(tokens);
  }

  /** A quoting that works for every text: double quotes, every character behind a backslash. */
  function BehindAll(s: string): (r: seq<Inner>)
    ensures forall i :: 0 <= i < |r| ==> InnerOk(r[i])
  {
    if s == [] then [] else [Behind(s[0])] + BehindAll(s[1..])
  }

  lemma {:induction false} BehindMeans(s: string)
    ensures InnerMeaning(BehindAll(s)) == s
    decreases |s|
  {
    if s != [] {
      BehindMeans(s[1..]);
      assert BehindAll(s)[1..] == BehindAll(s[1..]);
    }
  }

  function ArgTokens(args: seq<string>): seq<Token> {
    if args == [] then [] else [Token([Double(BehindAll(args[0]))], " ")] + ArgTokens(args[1..])
  }

  lemma {:induction false} ArgTokensMean(args: seq<string>)
    requires forall i :: 0 <= i < |args| ==> args[i] != ""
    ensures LineMeaning(ArgTokens(args)) == args
    decreases |args|
  {
    if args != [] {
      ArgTokensMean(args[1..]);
      BehindMeans(args[0]);
      var w: Word := [Double(BehindAll(args[0]))];
      assert w[1..] == [] && WordMeaning([]) == "";
      assert WordMeaning(w) == args[0] + "" == args[0];
      assert ArgTokens(args)[0] == Token(w, " ") && ArgTokens(args)[1..] == ArgTokens(args[1..]);
    }
  }

  /** Every non-empty list of non-empty arguments can be written down and comes back unchanged. */
  lemma EveryArgvComesBack(args: seq<string>)
    requires |args| > 0 && forall i :: 0 <= i < |args| ==> args[i] != ""
    ensures Split(LineText(ArgTokens(args))) == Args(args)
  {
    ArgTokensMean(args);
    SplitInvertsRendering(ArgTokens(args), []);
    assert WordText([]) == "" && WordMeaning([]) == "";
    assert LineText(ArgTokens(args)) + "" == LineText(ArgTokens(args));
    assert args + [] == args;
  }

  // ------------------------------------------------------------ laws of the result

  lemma {:induction false} ArgsNonEmpty(l: Lexer, s: string)
    requires forall i :: 0 <= i < |l.argv| ==> l.argv[i] != ""
    ensures forall i :: 0 <= i < |FeedAll(l, s).argv| ==> FeedAll(l, s).argv[i] != ""
    decreases |s|
  {
    if s != [] { ArgsNonEmpty(Feed(l, s[0]), s[1..]); }
  }

  /** A successful split has at least one argument and no empty ones. */
  lemma SplitHasNoEmptyArgs(command: string)
    requires Split(command).Args?
    ensures |Split(command).argv| > 0
    ensures forall i :: 0 <= i < |Split(command).argv| ==> Split(command).argv[i] != ""
  {
    ArgsNonEmpty(START, command);
  }

  /** Arguments already collected are carried along untouched. */
  lemma {:induction false} Prepend(argv: seq<string>, l: Lexer, s: string)
    ensures FeedAll(l.(argv := argv + l.argv), s) == FeedAll(l, s).(argv := argv + FeedAll(l, s).argv)
    decreases |s|
  {
    if s != [] {
      var l' := Feed(l, s[0]);
      assert argv + (l.argv + [l.current]) == argv + l.argv + [l.current];
      assert Feed(l.(argv := argv + l.argv), s[0]) == l'.(argv := argv + l'.argv);
      Prepend(argv, l', s[1..]);
    }
  }

  /** Two complete command lines joined by a blank give both argument lists. */
  lemma SplitConcat(a: string, b: string)
    requires Split(a).Args? && Split(b).Args?
    ensures Split(a + " " + b) == Args(Split(a).argv + Split(b).argv)
  {
    FeedConcat(START, a + " ", b);
    FeedConcat(START, a, " ");
    var l := FeedAll(START, a);
    FeedOne(l, ' ');
    assert Feed(l, ' ') == Lexer(Normal, "", Split(a).argv);
    assert Split(a).argv + [] == Split(a).argv;
    Prepend(Split(a).argv, START, b);
    var m := FeedAll(START, b);
    assert Split(a).argv + (m.argv + [m.current]) == Split(a).argv + m.argv + [m.current];
  }

  // ------------------------------------------------------------- completeness

  ghost predicate Renders(tokens: seq<Token>, last: Word, s: string) {
    s == LineText(tokens) + WordText(last)
  }

  ghost predicate IsRendering(s: string) {
    exists tokens: seq<Token>, last: Word :: Renders(tokens, last, s)
  }

  lemma {:induction false} AppendPiece(w: Word, p: Piece)
    requires PieceOk(p)
    ensures WordText(w + [p]) == WordText(w) + PieceText(p)
    decreases |w|
  {
    if w == [] {
      assert w + [p] == [p] && [p][1..] == [];
      assert PieceText(p) + "" == PieceText(p);
    } else {
      AppendPiece(w[1..], p);
      assert (w + [p])[1..] == w[1..] + [p];
    }
  }

  lemma {:induction false} AppendInner(inner: seq<Inner>, i: Inner)
    ensures InnerText(inner + [i]) == InnerText(inner) + InnerChars(i)
    decreases |inner|
  {
    hide InnerChars;
    if inner == [] {
      assert inner + [i] == [i] && [i][1..] == [];
      assert InnerChars(i) + "" == InnerChars(i) && "" + InnerChars(i) == InnerChars(i);
    } else {
      AppendInner(inner[1..], i);
      assert (inner + [i])[1..] == inner[1..] + [i];
      assert InnerChars(inner[0]) + (InnerText(inner[1..]) + InnerChars(i)) == InnerText(inner) + InnerChars(i);
    }
  }

  lemma {:induction false} AppendToken(tokens: seq<Token>, t: Token)
    ensures LineText(tokens + [t]) == LineText(tokens) + WordText(t.word) + t.after
    decreases |tokens|
  {
    hide WordText;
    if tokens == [] {
      assert tokens + [t] == [t] && [t][1..] == [];
    } else {
      AppendToken(tokens[1..], t);
      assert (tokens + [t])[1..] == tokens[1..] + [t];
      var head, rest := WordText(tokens[0].word) + tokens[0].after, LineText(tokens[1..]);
      assert head + (rest + WordText(t.word) + t.after) == head + rest + WordText(t.word) + t.after;
    }
  }

  /** What has been read so far, by mode: a rendering, plus an open quote or escape. */
  datatype Partial = Partial(tokens: seq<Token>, last: Word, text: string, inner: seq<Inner>)

  ghost predicate Reads(p: Partial, mode: Mode, s: string) {
    var line := LineText(p.tokens) + WordText(p.last);
    match mode
    case Normal => s == line
    case Escaped => s == line + ['\\']
    case SingleQuoted => '\'' !in p.text && s == line + (['\''] + p.text)
    case DoubleQuoted =>
      (forall i :: 0 <= i < |p.inner| ==> InnerOk(p.inner[i])) && s == line + (['"'] + InnerText(p.inner))
    case DoubleEscaped =>
      (forall i :: 0 <= i < |p.inner| ==> InnerOk(p.inner[i])) && s == line + (['"'] + InnerText(p.inner)) + ['\\']
  }

  lemma ClosePiece(p: Partial, piece: Piece, s: string) returns (q: Partial)
    requires PieceOk(piece) && s == LineText(p.tokens) + WordText(p.last) + PieceText(piece)
    ensures Reads(q, Normal, s)
  {
    hide PieceText, WordText, LineText, PieceOk;
    AppendPiece(p.last, piece);
    var last: Word := p.last + [piece];
    q := p.(last := last);
    assert LineText(p.tokens) + (WordText(p.last) + PieceText(piece)) ==
        LineText(p.tokens) + WordText(p.last) + PieceText(piece);
  }

  lemma ReadNormal(p: Partial, l: Lexer, s: string, c: char) returns (q: Partial)
    requires l.mode == Normal && Reads(p, Normal, s)
    ensures Reads(q, Feed(l, c).mode, s + [c])
  {
    if IsBlank(c) {
      var t := Token(p.last, [c]);
      AppendToken(p.tokens, t);
      q := Partial(p.tokens + [t], [], "", []);
      assert s + [c] == LineText(q.tokens) + "";
    } else if c == '\\' {
      q := p;
    } else if c == '\'' {
      q := p.(text := "");
      assert ['\''] + "" == ['\''];
    } else if c == '"' {
      q := p.(inner := []);
      assert ['"'] + "" == ['"'];
    } else {
      q := ClosePiece(p, Bare(c), s + [c]);
    }
  }

  lemma ReadInSingle(p: Partial, s: string, c: char) returns (q: Partial)
    requires Reads(p, SingleQuoted, s)
    ensures Reads(q, if c == '\'' then Normal else SingleQuoted, s + [c])
  {
    hide LineText, WordText;
    var line := LineText(p.tokens) + WordText(p.last);
    Append3(line, ['\''] + p.text, [c]);
    Append3(['\''], p.text, [c]);
    if c == '\'' {
      q := ClosePiece(p, Single(p.text), s + [c]);
    } else {
      q := p.(text := p.text + [c]);
    }
  }

  lemma ReadInDouble(p: Partial, s: string, c: char) returns (q: Partial)
    requires Reads(p, DoubleQuoted, s)
    ensures Reads(q, if c == '"' then Normal else if c == '\\' then DoubleEscaped else DoubleQuoted, s + [c])
  {
    hide LineText, WordText, InnerText;
    var line := LineText(p.tokens) + WordText(p.last);
    if c == '"' {
      Append3(line, ['"'] + InnerText(p.inner), [c]);
      q := ClosePiece(p, Double(p.inner), s + [c]);
    } else if c == '\\' {
      q := p;
    } else {
      AppendInner(p.inner, Plain(c));
      q := p.(inner := p.inner + [Plain(c)]);
      Append3(line, ['"'] + InnerText(p.inner), [c]);
      Append3(['"'], InnerText(p.inner), [c]);
    }
  }

  lemma ReadBehind(p: Partial, s: string, c: char) returns (q: Partial)
    requires Reads(p, DoubleEscaped, s)
    ensures Reads(q, DoubleQuoted, s + [c])
  {
    hide LineText, WordText, InnerText;
    var line, open := LineText(p.tokens) + WordText(p.last), ['"'] + InnerText(p.inner);
    AppendInner(p.inner, Behind(c));
    q := p.(inner := p.inner + [Behind(c)]);
    Append3(line + open, ['\\'], [c]);
    assert ['\\'] + [c] == ['\\', c];
    Append3(line, open, ['\\', c]);
    Append3(['"'], InnerText(p.inner), ['\\', c]);
  }

  lemma ReadQuoted(p: Partial, l: Lexer, s: string, c: char) returns (q: Partial)
    requires l.mode != Normal && Reads(p, l.mode, s)
    ensures Reads(q, Feed(l, c).mode, s + [c])
  {
    hide Reads, LineText, WordText;
    match l.mode
    case Escaped => q := ReadEscape(p, s, c);
    case SingleQuoted => q := ReadInSingle(p, s, c);
    case DoubleQuoted => q := ReadInDouble(p, s, c);
    case DoubleEscaped => q := ReadBehind(p, s, c);
  }

  lemma ReadEscape(p: Partial, s: string, c: char) returns (q: Partial)
    requires Reads(p, Escaped, s)
    ensures Reads(q, Normal, s + [c])
  {
    hide LineText, WordText;
    var line := LineText(p.tokens) + WordText(p.last);
    Append3(line, ['\\'], [c]);
    assert ['\\'] + [c] == ['\\', c];
    q := ClosePiece(p, Backslash(c), s + [c]);
  }

  lemma {:induction false} ReadAll(s: string) returns (p: Partial)
    ensures Reads(p, FeedAll(START, s).mode, s)
    decreases |s|
  {
    if s == [] {
      p := Partial([], [], "", []);
    } else {
      var front, c := s[..|s| - 1], s[|s| - 1];
      assert s == front + [c];
      var q := ReadAll(front);
      var l := FeedAll(START, front);
      FeedConcat(START, front, [c]);
      FeedOne(l, c);
      if l.mode == Normal { p := ReadNormal(q, l, front, c); } else { p := ReadQuoted(q, l, front, c); }
    }
  }

  /** The tokenizer accepts exactly the renderings; only they avoid the unterminated and trailing errors. */
  lemma AcceptsExactlyRenderings(s: string)
    ensures IsRendering(s) <==> Split(s).Args? || Split(s) == Failed(Empty)
  {
    if IsRendering(s) {
      var tokens: seq<Token>, last: Word :| Renders(tokens, last, s);
      SplitInvertsRendering(tokens, last);
    }
    if Split(s).Args? || Split(s) == Failed(Empty) {
      var p := ReadAll(s);
      assert Renders(p.tokens, p.last, s);
    }
  }

  // ------------------------------------------------------------- errors and blanks

  lemma LineMode(tokens: seq<Token>, last: Word)
    ensures var l := FeedAll(START, LineText(tokens) + WordText(last)); l.mode == Normal
  {
    FeedConcat(START, LineText(tokens), WordText(last));
    FeedLine([], tokens);
    FeedWord(Lexer(Normal, "", [] + LineMeaning(tokens)), last);
  }

  /** A complete rendering and then an open quote or escape leave the tokenizer in that mode. */
  lemma ReadsMode(p: Partial, mode: Mode, s: string)
    requires Reads(p, mode, s)
    ensures FeedAll(START, s).mode == mode
  {
    hide FeedAll, LineText, WordText;
    var line := LineText(p.tokens) + WordText(p.last);
    LineMode(p.tokens, p.last);
    var l := FeedAll(START, line);
    match mode
    case Normal =>
    case Escaped =>
      FeedConcat(START, line, ['\\']);
      FeedOne(l, '\\');
    case SingleQuoted =>
      FeedConcat(START, line, ['\''] + p.text);
      FeedConcat(l, ['\''], p.text);
      FeedOne(l, '\'');
      FeedSingle(l.(mode := SingleQuoted), p.text);
    case DoubleQuoted =>
      OpensDouble(l, line, p.inner);
    case DoubleEscaped =>
      OpensDouble(l, line, p.inner);
      FeedConcat(START, line + (['"'] + InnerText(p.inner)), ['\\']);
      FeedOne(FeedAll(START, line + (['"'] + InnerText(p.inner))), '\\');
  }

  lemma OpensDouble(l: Lexer, line: string, inner: seq<Inner>)
    requires l == FeedAll(START, line) && l.mode == Normal && forall i :: 0 <= i < |inner| ==> InnerOk(inner[i])
    ensures FeedAll(START, line + (['"'] + InnerText(inner))).mode == DoubleQuoted
  {
    hide FeedAll, InnerText;
    FeedConcat(START, line, ['"'] + InnerText(inner));
    FeedConcat(l, ['"'], InnerText(inner));
    FeedOne(l, '"');
    FeedInner(l.(mode := DoubleQuoted), inner);
  }

  /** The text is a rendering followed by this opening. */
  ghost predicate EndsWithOpen(s: string, opening: string) {
    exists tokens: seq<Token>, last: Word :: s == LineText(tokens) + WordText(last) + opening
  }

  ghost predicate EndsInSingle(s: string) {
    exists text: string :: '\'' !in text && EndsWithOpen(s, "\'" + text)
  }

  ghost predicate EndsInDouble(s: string) {
    exists inner: seq<Inner> ::
      && (forall i :: 0 <= i < |inner| ==> InnerOk(inner[i]))
      && (EndsWithOpen(s, "\"" + InnerText(inner)) || EndsWithOpen(s, "\"" + InnerText(inner) + "\\"))
  }

  /** Each error has one cause: the quote or the escape that the text leaves open, or nothing in it. */
  lemma ErrorsExactly(s: string)
    ensures Split(s) == Failed(UnterminatedSingle) <==> EndsInSingle(s)
    ensures Split(s) == Failed(UnterminatedDouble) <==> EndsInDouble(s)
    ensures Split(s) == Failed(TrailingEscape) <==> EndsWithOpen(s, "\\")
    ensures Split(s) == Failed(Empty) <==> exists tokens, last ::
              Renders(tokens, last, s) && LineMeaning(tokens) == [] && WordMeaning(last) == ""
  {
    hide FeedAll, LineText, WordText, InnerText;
    var p := ReadAll(s);
    var mode := FeedAll(START, s).mode;
    forall q: Partial, m: Mode | Reads(q, m, s) ensures m == mode { ReadsMode(q, m, s); }
    SingleExactly(p, mode, s);
    DoubleExactly(p, mode, s);
    EscapeExactly(p, mode, s);
    EmptyExactly(p, mode, s);
  }

  lemma SingleExactly(p: Partial, mode: Mode, s: string)
    requires Reads(p, mode, s) && forall q: Partial, m: Mode :: Reads(q, m, s) ==> m == mode
    ensures mode == SingleQuoted <==> EndsInSingle(s)
  {
    hide LineText, WordText;
    if mode == SingleQuoted { assert EndsWithOpen(s, "\'" + p.text); }
    if EndsInSingle(s) {
      var text: string :| '\'' !in text && EndsWithOpen(s, "\'" + text);
      var tokens: seq<Token>, last: Word :| s == LineText(tokens) + WordText(last) + ("\'" + text);
      assert Reads(Partial(tokens, last, text, []), SingleQuoted, s);
    }
  }

  lemma DoubleOpens(p: Partial, mode: Mode, s: string)
    requires Reads(p, mode, s) && (mode == DoubleQuoted || mode == DoubleEscaped)
    ensures EndsInDouble(s)
  {
    hide LineText, WordText, InnerText, InnerOk;
    var line, open := LineText(p.tokens) + WordText(p.last), "\"" + InnerText(p.inner);
    if mode == DoubleQuoted {
      assert EndsWithOpen(s, open);
    } else {
      Append3(line, open, "\\");
      assert EndsWithOpen(s, open + "\\");
    }
  }

  lemma Append3(a: string, b: string, c: string)
    ensures a + b + c == a + (b + c)
  {
  }

  lemma OpenDoubleReads(inner: seq<Inner>, escaped: bool, s: string) returns (q: Partial)
    requires forall i :: 0 <= i < |inner| ==> InnerOk(inner[i])
    requires EndsWithOpen(s, "\"" + InnerText(inner) + if escaped then "\\" else "")
    ensures Reads(q, if escaped then DoubleEscaped else DoubleQuoted, s)
  {
    hide LineText, WordText, InnerText, InnerOk;
    var open := "\"" + InnerText(inner);
    var end := if escaped then "\\" else "";
    var tokens: seq<Token>, last: Word :| s == LineText(tokens) + WordText(last) + (open + end);
    Append3(LineText(tokens) + WordText(last), open, end);
    q := Partial(tokens, last, "", inner);
  }

  lemma DoubleExactly(p: Partial, mode: Mode, s: string)
    requires Reads(p, mode, s) && forall q: Partial, m: Mode :: Reads(q, m, s) ==> m == mode
    ensures mode == DoubleQuoted || mode == DoubleEscaped <==> EndsInDouble(s)
  {
    if mode == DoubleQuoted || mode == DoubleEscaped { DoubleOpens(p, mode, s); }
    hide LineText, WordText, InnerText, InnerOk, EndsWithOpen, Reads;
    if EndsInDouble(s) {
      var inner: seq<Inner> :|
        && (forall i :: 0 <= i < |inner| ==> InnerOk(inner[i]))
        && (EndsWithOpen(s, "\"" + InnerText(inner)) || EndsWithOpen(s, "\"" + InnerText(inner) + "\\"));
      var open := "\"" + InnerText(inner);
      assert open + "" == open;
      var q := OpenDoubleReads(inner, !EndsWithOpen(s, open), s);
    }
  }

  lemma EscapeExactly(p: Partial, mode: Mode, s: string)
    requires Reads(p, mode, s) && forall q: Partial, m: Mode :: Reads(q, m, s) ==> m == mode
    ensures mode == Escaped <==> EndsWithOpen(s, "\\")
  {
    hide LineText, WordText;
    if EndsWithOpen(s, "\\") {
      var tokens: seq<Token>, last: Word :| s == LineText(tokens) + WordText(last) + "\\";
      assert Reads(Partial(tokens, last, "", []), Escaped, s);
    }
  }

  lemma EmptyExactly(p: Partial, mode: Mode, s: string)
    requires Reads(p, mode, s) && mode == FeedAll(START, s).mode
    requires forall q: Partial, m: Mode :: Reads(q, m, s) ==> m == mode
    ensures Split(s) == Failed(Empty) <==> exists tokens, last ::
              Renders(tokens, last, s) && LineMeaning(tokens) == [] && WordMeaning(last) == ""
  {
    hide LineText, WordText, FeedAll, LineMeaning, WordMeaning;
    if Split(s) == Failed(Empty) {
      SplitInvertsRendering(p.tokens, p.last);
      assert Renders(p.tokens, p.last, s);
    }
    if exists tokens, last :: Renders(tokens, last, s) && LineMeaning(tokens) == [] && WordMeaning(last) == "" {
      var tokens, last :| Renders(tokens, last, s) && LineMeaning(tokens) == [] && WordMeaning(last) == "";
      SplitInvertsRendering(tokens, last);
    }
  }

  /** No blank, quote or backslash. */
  predicate PlainText(s: string) {
    forall i :: 0 <= i < |s| ==>
      s[i] != ' ' && s[i] != '\t' && s[i] != '\n' && s[i] != '\'' && s[i] != '"' && s[i] != '\\'
  }

  function BareWord(s: string): (w: seq<Piece>)
    requires PlainText(s)
    ensures forall i :: 0 <= i < |w| ==> PieceOk(w[i])
  {
    if s == "" then [] else [Bare(s[0])] + BareWord(s[1..])
  }

  lemma {:induction false} BareMeans(s: string)
    requires PlainText(s)
    ensures WordText(BareWord(s)) == s && WordMeaning(BareWord(s)) == s
    decreases |s|
  {
    if s != "" {
      BareMeans(s[1..]);
      assert BareWord(s)[0] == Bare(s[0]) && BareWord(s)[1..] == BareWord(s[1..]);
      assert [s[0]] + s[1..] == s;
    }
  }

  /** A space, a tab or a newline separates plain words, and nothing else in them does. */
  lemma BlanksSeparate(a: string, b: string, c: char)
    requires a != "" && b != "" && PlainText(a) && PlainText(b)
    ensures Split(a) == Args([a])
    ensures c == ' ' || c == '\t' || c == '\n' ==> Split(a + [c] + b) == Args([a, b])
    ensures PlainText([c]) ==> Split(a + [c] + b) == Args([a + [c] + b])
  {
    hide Split, WordText, WordMeaning;
    PlainAlone(a);
    if c == ' ' || c == '\t' || c == '\n' {
      BareMeans(a);
      BareMeans(b);
      var tokens := [Token(BareWord(a), [c])];
      assert tokens[1..] == [] && LineText([]) == "" && LineMeaning([]) == [];
      assert LineText(tokens) == a + [c] + "" == a + [c];
      assert LineMeaning(tokens) == [a] + [] == [a];
      SplitInvertsRendering(tokens, BareWord(b));
      assert [a] + [b] == [a, b];
    }
    if PlainText([c]) { PlainAlone(a + [c] + b); }
  }

  lemma PlainAlone(s: string)
    requires s != "" && PlainText(s)
    ensures Split(s) == Args([s])
  {
    hide Split, WordText, WordMeaning;
    BareMeans(s);
    SplitInvertsRendering([], BareWord(s));
    assert LineText([]) + s == s && LineMeaning([]) + [s] == [s];
  }

  /** `resolve_command_argv`. */
  datatype Resolved = Command(cmd: string, args: seq<string>) | Unresolved(error: Error)

  method ResolveCommandArgv(command: string, args: seq<string>) returns (r: Resolved)
    ensures args != [] ==> r == Command(command, args)
    ensures args == [] && Split(command).Args? ==> r.Command? && [r.cmd] + r.args == Split(command).argv && r.cmd != ""
    ensures args == [] && Split(command).Failed? ==> r == Unresolved(Split(command).error)
  {
    if args == [] {
      var parsed := SplitCommandLine(command);
      match parsed
      case Failed(e) => return Unresolved(e);
      case Args(argv) =>
        SplitHasNoEmptyArgs(command);
        return Command(argv[0], argv[1..]);
    }
    return Command(command, args);
  }
}
