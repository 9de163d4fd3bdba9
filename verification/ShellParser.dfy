/**
  The shell's parser as it works on the input buffer: a cursor that skips blanks
  and takes tokens, recursive-descent methods that build a tree of positions, and
  the pass that writes a NUL behind every word.

  `text` is the line without its NUL; position |text| is where the NUL stands.
 */
module ShellParser {
  import opened Shell

  datatype Span = Span(start: nat, end: nat)

  datatype Result = Done(cmd: Cmd<Span>, pos: nat) | Fail(msg: string)

  // ----- characters

  predicate Blank(c: char) {
    c == ' ' || c == '\t' || c == '\r' || c == '\n' || c == '\U{000b}'
  }

  predicate Symbol(c: char) {
    c == '<' || c == '|' || c == '>' || c == '&' || c == ';' || c == '(' || c == ')'
  }

  predicate WordChar(c: char) {
    !Blank(c) && !Symbol(c)
  }

  function CharAt(text: string, i: nat): char {
    if i < |text| then text[i] else '\0'
  }

  ghost predicate NoNul(text: string) {
    forall i :: 0 <= i < |text| ==> text[i] != '\0'
  }

  // ----- tokens of the text from a position on

  function SkipBlanks(text: string, i: nat): (j: nat)
    ensures j >= i && (i <= |text| ==> j <= |text|)
    ensures j < |text| ==> !Blank(text[j])
    decreases |text| - i
  {
    if i < |text| && Blank(text[i]) then SkipBlanks(text, i + 1) else i
  }

  function WordEnd(text: string, i: nat): (j: nat)
    ensures j >= i && (i <= |text| ==> j <= |text|)
    ensures i < |text| && WordChar(text[i]) ==> j > i
    decreases |text| - i
  {
    if i < |text| && WordChar(text[i]) then WordEnd(text, i + 1) else i
  }

  function TokenEnd(text: string, i: nat): (j: nat)
    requires i < |text| && !Blank(text[i])
    ensures i < j <= |text|
  {
    if text[i] == '>' && i + 1 < |text| && text[i + 1] == '>' then i + 2
    else if Symbol(text[i]) then i + 1
    else WordEnd(text, i)
  }

  function TokenAt(text: string, i: nat): Token
    requires i < |text| && !Blank(text[i])
  {
    if text[i] == '>' && i + 1 < |text| && text[i + 1] == '>' then Append
    else if Symbol(text[i]) then Op(text[i])
    else Word(text[i..TokenEnd(text, i)])
  }

  function Lex(text: string, i: nat): (ts: seq<Token>)
    decreases |text| - i
  {
    var j := SkipBlanks(text, i);
    if j >= |text| then [] else [TokenAt(text, j)] + Lex(text, TokenEnd(text, j))
  }

  lemma SkipTwice(text: string, i: nat)
    ensures SkipBlanks(text, SkipBlanks(text, i)) == SkipBlanks(text, i)
    ensures Lex(text, SkipBlanks(text, i)) == Lex(text, i)
  {
  }

  // A maximal run of word characters.
  ghost predicate IsWord(text: string, w: Span) {
    && w.start < w.end <= |text|
    && (forall i :: w.start <= i < w.end ==> WordChar(text[i]))
    && (w.end < |text| ==> !WordChar(text[w.end]))
  }

  lemma {:induction false} WordEndIsWord(text: string, i: nat)
    requires i <= |text|
    ensures var j := WordEnd(text, i);
            && (forall k :: i <= k < j ==> WordChar(text[k]))
            && (j < |text| ==> !WordChar(text[j]))
    decreases |text| - i
  {
    if i < |text| && WordChar(text[i]) {
      WordEndIsWord(text, i + 1);
    }
  }

  // ----- the cursor

  // gettoken's answer for a token.
  function Code(t: Token): char {
    match t
    case Op(c) => c
    case Append => '+'
    case Word(_) => 'a'
  }

  method GetToken(text: string, pos: nat) returns (code: char, q: nat, eq: nat, next: nat)
    requires pos <= |text| && NoNul(text)
    ensures pos <= next <= |text| && next == SkipBlanks(text, next)
    ensures Lex(text, pos) == [] ==> code == '\0' && Lex(text, next) == []
    ensures Lex(text, pos) != [] ==> code == Code(Lex(text, pos)[0]) != '\0' && Lex(text, next) == Lex(text, pos)[1..]
    ensures code == 'a' <==> Lex(text, pos) != [] && Lex(text, pos)[0].Word?
    ensures code == 'a' ==> IsWord(text, Span(q, eq)) && Lex(text, pos)[0] == Word(Chars(text, Span(q, eq)))
  {
    var s := pos;
    while s < |text| && Blank(text[s])
      invariant pos <= s <= |text| && SkipBlanks(text, s) == SkipBlanks(text, pos)
    {
      s := s + 1;
    }
    q := s;
    code := CharAt(text, s);
    if code == '\0' {
      assert s == |text|;
    } else if code == '|' || code == '(' || code == ')' || code == ';' || code == '&' || code == '<' {
      s := s + 1;
    } else if code == '>' {
      s := s + 1;
      if CharAt(text, s) == '>' {
        code := '+';
        s := s + 1;
      }
    } else {
      code := 'a';
      while s < |text| && !Blank(text[s]) && !Symbol(text[s])
        invariant q <= s <= |text| && WordEnd(text, s) == WordEnd(text, q)
      {
        s := s + 1;
      }
      WordEndIsWord(text, q);
    }
    eq := s;
    assert q < |text| ==> eq == TokenEnd(text, q) && code == Code(TokenAt(text, q));
    while s < |text| && Blank(text[s])
      invariant eq <= s <= |text| && SkipBlanks(text, s) == SkipBlanks(text, eq)
    {
      s := s + 1;
    }
    next := s;
    SkipTwice(text, pos);
    SkipTwice(text, eq);
  }

  // Whether the next token begins with one of toks.
  method Peek(text: string, pos: nat, toks: string) returns (b: bool, next: nat)
    requires pos <= |text| && NoNul(text) && forall i :: 0 <= i < |toks| ==> Symbol(toks[i])
    ensures pos <= next <= |text| && next == SkipBlanks(text, next) && Lex(text, next) == Lex(text, pos)
    ensures b <==> Lex(text, pos) != [] && First(Lex(text, pos)[0]) in toks
    ensures Lex(text, pos) == [] <==> next == |text|
  {
    var s := pos;
    while s < |text| && Blank(text[s])
      invariant pos <= s <= |text| && SkipBlanks(text, s) == SkipBlanks(text, pos)
    {
      s := s + 1;
    }
    next := s;
    b := CharAt(text, s) != '\0' && CharAt(text, s) in toks;
    SkipTwice(text, pos);
  }

  // The symbol a token begins with; a word begins with none.
  ghost function First(t: Token): char {
    match t
    case Op(c) => c
    case Append => '>'
    case Word(_) => 'a'
  }

  // ----- trees of positions and the words they stand for

  ghost predicate AllWords(text: string, c: Cmd<Span>) {
    match c
    case Exec(args) => forall i :: 0 <= i < |args| ==> IsWord(text, args[i])
    case Redir(sub, f, _) => AllWords(text, sub) && IsWord(text, f)
    case Pipe(l, r) => AllWords(text, l) && AllWords(text, r)
    case List(l, r) => AllWords(text, l) && AllWords(text, r)
    case Back(sub) => AllWords(text, sub)
  }

  ghost function Chars(text: string, w: Span): string {
    if w.start <= w.end <= |text| then text[w.start..w.end] else ""
  }

  ghost function Slices(text: string, args: seq<Span>): (r: seq<string>)
    ensures |r| == |args| && forall i :: 0 <= i < |args| ==> r[i] == Chars(text, args[i])
  {
    seq(|args|, i requires 0 <= i < |args| => Chars(text, args[i]))
  }

  ghost function Read(text: string, c: Cmd<Span>): Tree {
    match c
    case Exec(args) => Exec(Slices(text, args))
    case Redir(sub, f, k) => Redir(Read(text, sub), Chars(text, f), k)
    case Pipe(l, r) => Pipe(Read(text, l), Read(text, r))
    case List(l, r) => List(Read(text, l), Read(text, r))
    case Back(sub) => Back(Read(text, sub))
  }

  lemma ReadEmpty(text: string)
    ensures Read(text, Exec([])) == Exec([])
  {
    assert Slices(text, []) == [];
  }

  lemma StartExec(ts: seq<Token>)
    requires !StartsWith(ts, '(')
    ensures ParseExec(ts) == match ParseRedirs(Exec([]), ts)
                             case Panic(m) => Panic(m)
                             case Ok(c, rest) => ParseArgs(c, 0, rest)
  {
  }

  lemma {:induction false} ReadAddArg(text: string, c: Cmd<Span>, a: Span)
    requires AllWords(text, c) && IsWord(text, a)
    ensures AllWords(text, AddArg(c, a)) && Read(text, AddArg(c, a)) == AddArg(Read(text, c), Chars(text, a))
  {
    match c
    case Exec(args) =>
      assert Slices(text, args + [a]) == Slices(text, args) + [Chars(text, a)];
    case Redir(sub, f, k) =>
      ReadAddArg(text, sub, a);
    case _ =>
  }

  // The method's result and the grammar's agree.
  ghost predicate Agrees(text: string, r: Result, o: Outcome) {
    match r
    case Fail(m) => o == Panic(m)
    case Done(c, pos) => pos <= |text| && AllWords(text, c) && o == Ok(Read(text, c), Lex(text, pos))
  }

  // ----- the parser

  method ParseRedirections(text: string, cmd: Cmd<Span>, pos: nat) returns (r: Result)
    requires pos <= |text| && NoNul(text) && AllWords(text, cmd)
    ensures Agrees(text, r, ParseRedirs(Read(text, cmd), Lex(text, pos)))
  {
    hide Lex, SkipBlanks, IsWord, Chars, NoNul;
    var c, s := cmd, pos;
    while true
      invariant 0 <= s <= |text| && AllWords(text, c)
      invariant ParseRedirs(Read(text, c), Lex(text, s)) == ParseRedirs(Read(text, cmd), Lex(text, pos))
      decreases |Lex(text, s)|
    {
      var more;
      more, s := Peek(text, s, "<>");
      if !more {
        return Done(c, s);
      }
      var tok, q, eq, word;
      tok, q, eq, s := GetToken(text, s);
      word, q, eq, s := GetToken(text, s);
      if word != 'a' {
        return Fail(MISSING_FILE);
      }
      c := Redir(c, Span(q, eq), if tok == '<' then Input else Output);
    }
  }

  method ParseCommandLine(text: string, pos: nat) returns (r: Result)
    requires pos <= |text| && NoNul(text)
    ensures Agrees(text, r, ParseLine(Lex(text, pos)))
    decreases |Lex(text, pos)|, 3
  {
    hide Lex, SkipBlanks, IsWord, Chars, NoNul, ParsePipe;
    r := ParsePipeline(text, pos);
    if r.Fail? {
      return;
    }
    ghost var b := ParseBacks(Read(text, r.cmd), Lex(text, r.pos));
    var c, s, more := r.cmd, r.pos, true;
    while more
      invariant 0 <= s <= |text| && AllWords(text, c) && |Lex(text, s)| <= |Lex(text, pos)|
      invariant ParseBacks(Read(text, c), Lex(text, s)) == b
      invariant !more ==> !StartsWith(Lex(text, s), '&')
      decreases more, |Lex(text, s)|
    {
      more, s := Peek(text, s, "&");
      if more {
        var tok, q, eq;
        tok, q, eq, s := GetToken(text, s);
        c := Back(c);
      }
    }
    more, s := Peek(text, s, ";");
    if more {
      var tok, q, eq;
      tok, q, eq, s := GetToken(text, s);
      r := ParseCommandLine(text, s);
      if r.Done? {
        r := Done(List(c, r.cmd), r.pos);
      }
      return;
    }
    return Done(c, s);
  }

  method ParsePipeline(text: string, pos: nat) returns (r: Result)
    requires pos <= |text| && NoNul(text)
    ensures Agrees(text, r, ParsePipe(Lex(text, pos)))
    decreases |Lex(text, pos)|, 2
  {
    hide Lex, SkipBlanks, IsWord, Chars, NoNul, ParseExec;
    r := ParseCommand(text, pos);
    if r.Fail? {
      return;
    }
    var c := r.cmd;
    var more, s := Peek(text, r.pos, "|");
    if more {
      var tok, q, eq;
      tok, q, eq, s := GetToken(text, s);
      r := ParsePipeline(text, s);
      if r.Done? {
        r := Done(Pipe(c, r.cmd), r.pos);
      }
      return;
    }
    return Done(c, s);
  }

  method ParseBlock(text: string, pos: nat) returns (r: Result)
    requires pos <= |text| && NoNul(text) && StartsWith(Lex(text, pos), '(')
    ensures Agrees(text, r, ParseExec(Lex(text, pos)))
    decreases |Lex(text, pos)|, 0
  {
    hide Lex, SkipBlanks, IsWord, Chars, NoNul, ParseLine, ParseRedirs;
    var tok, q, eq, s := GetToken(text, pos);
    r := ParseCommandLine(text, s);
    if r.Fail? {
      return;
    }
    var c, more := r.cmd, false;
    more, s := Peek(text, r.pos, ")");
    if !more {
      return Fail(MISSING_PAREN);
    }
    tok, q, eq, s := GetToken(text, s);
    r := ParseRedirections(text, c, s);
  }

  method ParseCommand(text: string, pos: nat) returns (r: Result)
    requires pos <= |text| && NoNul(text)
    ensures Agrees(text, r, ParseExec(Lex(text, pos)))
    decreases |Lex(text, pos)|, 1
  {
    hide Lex, SkipBlanks, IsWord, Chars, NoNul, ParseLine, ParseRedirs, ParseExec;
    ReadEmpty(text);
    var stop, s := Peek(text, pos, "(");
    if stop {
      r := ParseBlock(text, s);
      return;
    }
    StartExec(Lex(text, s));
    r := ParseRedirections(text, Exec([]), s);
    if r.Fail? {
      return;
    }
    var c, argc := r.cmd, 0;
    s := r.pos;
    while true
      invariant 0 <= s <= |text| && AllWords(text, c)
      invariant ParseArgs(Read(text, c), argc, Lex(text, s)) == ParseExec(Lex(text, pos))
      decreases |Lex(text, s)|
    {
      stop, s := Peek(text, s, "|)&;");
      if stop {
        return Done(c, s);
      }
      ghost var ts := Lex(text, s);
      var tok, q, eq;
      tok, q, eq, s := GetToken(text, s);
      if tok == '\0' {
        return Done(c, s);
      }
      if tok != 'a' {
        return Fail(SYNTAX);
      }
      ReadAddArg(text, c, Span(q, eq));
      c := AddArg(c, Span(q, eq));
      if argc + 1 >= MAXARGS {
        return Fail(TOO_MANY);
      }
      r := ParseRedirections(text, c, s);
      if r.Fail? {
        return;
      }
      argc := argc + 1;
      c, s := r.cmd, r.pos;
    }
  }

  // ----- terminating the words in the buffer

  ghost function Ends(c: Cmd<Span>): set<nat> {
    match c
    case Exec(args) => set i | 0 <= i < |args| :: args[i].end
    case Redir(sub, f, _) => Ends(sub) + {f.end}
    case Pipe(l, r) => Ends(l) + Ends(r)
    case List(l, r) => Ends(l) + Ends(r)
    case Back(sub) => Ends(sub)
  }

  method NulTerminate(buf: array<char>, cmd: Cmd<Span>)
    requires forall e :: e in Ends(cmd) ==> e < buf.Length
    modifies buf
    ensures forall i :: 0 <= i < buf.Length ==> buf[i] == if i in Ends(cmd) then '\0' else old(buf[i])
    decreases cmd
  {
    match cmd
    case Exec(args) =>
      for k := 0 to |args|
        invariant forall i :: 0 <= i < buf.Length ==> buf[i] == if i in Ends(Exec(args[..k])) then '\0' else old(buf[i])
      {
        assert args[k].end in Ends(cmd);
        assert Ends(Exec(args[..k + 1])) == Ends(Exec(args[..k])) + {args[k].end} by {
          assert args[..k + 1] == args[..k] + [args[k]];
          ExecEnds(args[..k], args[k]);
        }
        buf[args[k].end] := '\0';
      }
      assert args[..|args|] == args;
    case Redir(sub, f, _) =>
      assert f.end in Ends(cmd) && forall e :: e in Ends(sub) ==> e in Ends(cmd);
      NulTerminate(buf, sub);
      buf[f.end] := '\0';
    case Pipe(l, r) =>
      assert forall e :: e in Ends(l) || e in Ends(r) ==> e in Ends(cmd);
      NulTerminate(buf, l);
      NulTerminate(buf, r);
    case List(l, r) =>
      assert forall e :: e in Ends(l) || e in Ends(r) ==> e in Ends(cmd);
      NulTerminate(buf, l);
      NulTerminate(buf, r);
    case Back(sub) =>
      assert forall e :: e in Ends(sub) ==> e in Ends(cmd);
      NulTerminate(buf, sub);
  }

  lemma ExecEnds(args: seq<Span>, a: Span)
    ensures Ends(Exec(args + [a])) == Ends(Exec(args)) + {a.end}
  {
    var more := args + [a];
    forall e
      ensures e in Ends(Exec(more)) <==> e in Ends(Exec(args)) + {a.end}
    {
      if e in Ends(Exec(args)) {
        var i :| 0 <= i < |args| && args[i].end == e;
        assert more[i].end == e;
      }
      assert more[|args|].end == a.end;
    }
  }

  // The C string at a position.
  ghost function CString(b: seq<char>, i: nat): (s: string)
    decreases |b| - i
  {
    if i < |b| && b[i] != '\0' then [b[i]] + CString(b, i + 1) else ""
  }

  ghost function CStrings(b: seq<char>, args: seq<Span>): (r: seq<string>)
    ensures |r| == |args| && forall i :: 0 <= i < |args| ==> r[i] == CString(b, args[i].start)
  {
    seq(|args|, i requires 0 <= i < |args| => CString(b, args[i].start))
  }

  // The command as runcmd sees it: every word is the C string that starts there.
  ghost function ReadBack(b: seq<char>, c: Cmd<Span>): Tree {
    match c
    case Exec(args) => Exec(CStrings(b, args))
    case Redir(sub, f, k) => Redir(ReadBack(b, sub), CString(b, f.start), k)
    case Pipe(l, r) => Pipe(ReadBack(b, l), ReadBack(b, r))
    case List(l, r) => List(ReadBack(b, l), ReadBack(b, r))
    case Back(sub) => Back(ReadBack(b, sub))
  }

  // Every end of a word of the text: never inside a word.
  ghost predicate Boundaries(text: string, ends: set<nat>) {
    forall e :: e in ends ==> e <= |text| && (e < |text| ==> !WordChar(text[e]))
  }

  lemma {:induction false} EndsAreBoundaries(text: string, c: Cmd<Span>)
    requires AllWords(text, c)
    ensures Boundaries(text, Ends(c))
  {
    match c
    case Exec(args) =>
    case Redir(sub, f, _) => EndsAreBoundaries(text, sub);
    case Pipe(l, r) => EndsAreBoundaries(text, l); EndsAreBoundaries(text, r);
    case List(l, r) => EndsAreBoundaries(text, l); EndsAreBoundaries(text, r);
    case Back(sub) => EndsAreBoundaries(text, sub);
  }

  // b is the text with a NUL at every position in `ends`, and behind it.
  ghost predicate Terminated(text: string, ends: set<nat>, b: seq<char>) {
    && |text| < |b| && NoNul(text) && Boundaries(text, ends)
    && forall i :: 0 <= i <= |text| ==> b[i] == if i in ends || i == |text| then '\0' else text[i]
  }

  lemma {:induction false} CStringIs(text: string, ends: set<nat>, b: seq<char>, w: Span, i: nat)
    requires Terminated(text, ends, b) && IsWord(text, w) && w.end in ends && w.start <= i <= w.end
    ensures CString(b, i) == text[i..w.end]
    decreases w.end - i
  {
    if i < w.end {
      assert WordChar(text[i]);
      CStringIs(text, ends, b, w, i + 1);
    }
  }

  // Although all terminators go into one buffer, every word reads back as its token.
  lemma {:induction false} ReadsBack(text: string, ends: set<nat>, b: seq<char>, c: Cmd<Span>)
    requires Terminated(text, ends, b) && AllWords(text, c) && Ends(c) <= ends
    ensures ReadBack(b, c) == Read(text, c)
  {
    match c
    case Exec(args) =>
      forall i | 0 <= i < |args|
        ensures CStrings(b, args)[i] == Slices(text, args)[i]
      {
        assert args[i].end in Ends(c);
        CStringIs(text, ends, b, args[i], args[i].start);
      }
    case Redir(sub, f, k) =>
      ReadsBack(text, ends, b, sub);
      CStringIs(text, ends, b, f, f.start);
    case Pipe(l, r) => ReadsBack(text, ends, b, l); ReadsBack(text, ends, b, r);
    case List(l, r) => ReadsBack(text, ends, b, l); ReadsBack(text, ends, b, r);
    case Back(sub) => ReadsBack(text, ends, b, sub);
  }

  lemma {:induction false} CStringPrefix(b: seq<char>, i: nat, es: nat)
    requires i <= es < |b| && b[es] == '\0' && forall k :: i <= k < es ==> b[k] != '\0'
    ensures CString(b, i) == b[i..es]
    decreases es - i
  {
    if i < es {
      CStringPrefix(b, i + 1, es);
    }
  }

  // The whole of it, on the buffer that holds the line.
  method ParseCmd(buf: array<char>) returns (r: Result)
    requires exists k :: 0 <= k < buf.Length && buf[k] == '\0'
    modifies buf
    ensures var o := ParseTokens(Lex(CString(old(buf[..]), 0), 0));
            if r.Fail? then o == Panic(r.msg) && buf[..] == old(buf[..]) else o == Ok(ReadBack(buf[..], r.cmd), [])
  {
    ghost var nul :| 0 <= nul < buf.Length && buf[nul] == '\0';
    var es := 0;
    while buf[es] != '\0'
      invariant 0 <= es <= nul && forall k :: 0 <= k < es ==> buf[k] != '\0'
      decreases nul - es
    {
      es := es + 1;
    }
    var text := buf[..es];
    CStringPrefix(buf[..], 0, es);
    assert buf[..][0..es] == text;
    hide Lex, SkipBlanks, IsWord, Chars, ParseLine;
    r := ParseCommandLine(text, 0);
    if r.Fail? {
      return;
    }
    var some, s := Peek(text, r.pos, "");
    if s != es {
      return Fail(SYNTAX);
    }
    ghost var c := r.cmd;
    EndsAreBoundaries(text, c);
    NulTerminate(buf, r.cmd);
    ReadsBack(text, Ends(c), buf[..], c);
  }

  // ----- how a token list may be written

  function Spell(t: Token): string {
    match t
    case Op(c) => [c]
    case Append => ">>"
    case Word(w) => w
  }

  // What may stand between two tokens.
  ghost predicate Gap(g: string) {
    forall i :: 0 <= i < |g| ==> g[i] in " \t\r\n\U{000b}"
  }

  ghost predicate GoodWord(w: string) {
    w != "" && forall i :: 0 <= i < |w| ==> w[i] !in " \t\r\n\U{000b}" && w[i] !in "<|>&;()"
  }

  ghost predicate GoodToken(t: Token) {
    match t
    case Op(c) => c in "<|>&;()"
    case Append => true
    case Word(w) => GoodWord(w)
  }

  ghost predicate GoodTokens(ts: seq<Token>) {
    forall i :: 0 <= i < |ts| ==> GoodToken(ts[i])
  }

  // Two neighbours that would be read as something else without a gap.
  ghost predicate NeedGap(a: Token, b: Token) {
    (a.Word? && b.Word?) || (a == Op('>') && (b == Op('>') || b == Append))
  }

  // One gap in front of every token and one at the end.
  ghost predicate Fits(gaps: seq<string>, ts: seq<Token>) {
    && |gaps| == |ts| + 1 && (forall i :: 0 <= i < |gaps| ==> Gap(gaps[i]))
    && forall i :: 0 < i < |ts| && NeedGap(ts[i - 1], ts[i]) ==> gaps[i] != ""
  }

  ghost function Render(gaps: seq<string>, ts: seq<Token>): string
    requires |gaps| == |ts| + 1
    decreases |ts|
  {
    if ts == [] then gaps[0] else gaps[0] + Spell(ts[0]) + Render(gaps[1..], ts[1..])
  }

  ghost predicate Written(text: string, gaps: seq<string>, ts: seq<Token>) {
    GoodTokens(ts) && Fits(gaps, ts) && text == Render(gaps, ts)
  }

  lemma Characters(c: char)
    ensures Blank(c) <==> c in " \t\r\n\U{000b}"
    ensures Symbol(c) <==> c in "<|>&;()"
    ensures !(Blank(c) && Symbol(c))
  {
  }

  lemma {:induction false} SkipGap(text: string, i: nat, j: nat)
    requires i <= j <= |text| && Gap(text[i..j]) && (j < |text| ==> !Blank(text[j]))
    ensures SkipBlanks(text, i) == j
    decreases j - i
  {
    if i < j {
      Characters(text[i..j][0]);
      assert text[i + 1..j] == text[i..j][1..];
      SkipGap(text, i + 1, j);
    }
  }

  lemma {:induction false} WordEndIs(text: string, i: nat, j: nat)
    requires i <= j <= |text| && (j < |text| ==> !WordChar(text[j])) && forall k :: i <= k < j ==> WordChar(text[k])
    ensures WordEnd(text, i) == j
    decreases j - i
  {
    if i < j {
      WordEndIs(text, i + 1, j);
    }
  }

  // The character behind a token does not belong to it.
  ghost predicate Closed(text: string, j: nat, t: Token) {
    j < |text| ==> (t.Word? ==> !WordChar(text[j])) && (t == Op('>') ==> text[j] != '>')
  }

  lemma GoodFirst(t: Token)
    requires GoodToken(t)
    ensures |Spell(t)| >= 1 && !Blank(Spell(t)[0]) && (t.Word? <==> !Symbol(Spell(t)[0]))
    ensures Spell(t)[0] == '>' <==> t == Op('>') || t == Append
  {
    Characters(Spell(t)[0]);
  }

  lemma TokenIs(text: string, i: nat, t: Token)
    requires GoodToken(t) && i + |Spell(t)| <= |text| && text[i..i + |Spell(t)|] == Spell(t)
    requires Closed(text, i + |Spell(t)|, t)
    ensures i < |text| && !Blank(text[i]) && TokenEnd(text, i) == i + |Spell(t)| && TokenAt(text, i) == t
  {
    GoodFirst(t);
    var w := text[i..i + |Spell(t)|];
    assert w[0] == text[i];
    if t.Word? {
      forall k | i <= k < i + |w|
        ensures WordChar(text[k])
      {
        assert text[k] == w[k - i];
        Characters(w[k - i]);
      }
      WordEndIs(text, i, i + |w|);
    } else if t == Append {
      assert w[1] == text[i + 1];
    }
  }

  lemma FitsTail(gaps: seq<string>, ts: seq<Token>)
    requires GoodTokens(ts) && Fits(gaps, ts) && ts != []
    ensures GoodToken(ts[0]) && GoodTokens(ts[1..]) && Gap(gaps[0]) && Fits(gaps[1..], ts[1..])
  {
    var g, us := gaps[1..], ts[1..];
    forall i | 0 < i < |us| && NeedGap(us[i - 1], us[i])
      ensures g[i] != ""
    {
      assert us[i - 1] == ts[i] && us[i] == ts[i + 1];
    }
  }

  // What follows the first token closes it.
  lemma RestCloses(gaps: seq<string>, ts: seq<Token>)
    requires GoodTokens(ts) && Fits(gaps, ts) && ts != []
    ensures Closed(Render(gaps[1..], ts[1..]), 0, ts[0])
  {
    var rest := Render(gaps[1..], ts[1..]);
    if gaps[1] != "" {
      assert Gap(gaps[1]) && rest[0] == gaps[1][0];
      Characters(rest[0]);
    } else if |ts| > 1 {
      GoodFirst(ts[1]);
      assert rest[0] == Spell(ts[1])[0];
      assert !NeedGap(ts[0], ts[1]);
    }
  }

  lemma Split(text: string, i: nat, a: string, b: string, c: string)
    requires i <= |text| && text[i..] == a + b + c
    ensures i + |a| + |b| + |c| == |text| && text[i..i + |a|] == a && text[i + |a|..i + |a| + |b|] == b
    ensures text[i + |a| + |b|..] == c
  {
    var u := text[i..];
    assert u[..|a|] == a && u[|a|..|a| + |b|] == b && u[|a| + |b|..] == c;
    assert text[i..i + |a|] == u[..|a|] && text[i + |a|..i + |a| + |b|] == u[|a|..|a| + |b|];
    assert text[i + |a| + |b|..] == u[|a| + |b|..];
  }

  lemma ClosedAt(text: string, j: nat, t: Token)
    requires j <= |text| && Closed(text[j..], 0, t)
    ensures Closed(text, j, t)
  {
  }

  lemma LexStep(text: string, i: nat)
    ensures var j := SkipBlanks(text, i);
            Lex(text, i) == if j >= |text| then [] else [TokenAt(text, j)] + Lex(text, TokenEnd(text, j))
  {
  }

  // However the gaps are chosen, the tokens come out again.
  lemma {:induction false} LexRender(text: string, i: nat, gaps: seq<string>, ts: seq<Token>)
    requires i <= |text| && Written(text[i..], gaps, ts)
    ensures Lex(text, i) == ts
    decreases |ts|
  {
    hide Lex, Gap, GoodToken, TokenAt, TokenEnd, Closed, NeedGap, Spell;
    LexStep(text, i);
    if ts == [] {
      assert text[i..|text|] == gaps[0];
      SkipGap(text, i, |text|);
    } else {
      var j := i + |gaps[0]|;
      var e := j + |Spell(ts[0])|;
      FitsTail(gaps, ts);
      Split(text, i, gaps[0], Spell(ts[0]), Render(gaps[1..], ts[1..]));
      RestCloses(gaps, ts);
      ClosedAt(text, e, ts[0]);
      TokenIs(text, j, ts[0]);
      SkipGap(text, i, j);
      LexRender(text, e, gaps[1..], ts[1..]);
    }
  }

  lemma {:induction false} SkippedGap(text: string, i: nat)
    requires i <= |text|
    ensures Gap(text[i..SkipBlanks(text, i)])
    decreases |text| - i
  {
    var j := SkipBlanks(text, i);
    if i < j {
      SkippedGap(text, i + 1);
      Characters(text[i]);
      assert text[i..j] == [text[i]] + text[i + 1..j];
    }
  }

  // The token at a position, and what closes it.
  lemma TokenGood(text: string, i: nat)
    requires i < |text| && !Blank(text[i])
    ensures var t, e := TokenAt(text, i), TokenEnd(text, i);
            GoodToken(t) && text[i..e] == Spell(t) && Closed(text, e, t)
  {
    Characters(text[i]);
    if TokenAt(text, i).Word? {
      WordEndIsWord(text, i);
      forall k | i <= k < WordEnd(text, i)
        ensures text[k] !in " \t\r\n\U{000b}" && text[k] !in "<|>&;()"
      {
        Characters(text[k]);
      }
    }
  }

  // A gap is needed only where the first token is not closed by the second.
  lemma ClosedNeedsNone(t: Token, u: Token, text: string, j: nat)
    requires GoodToken(u) && j + |Spell(u)| <= |text| && text[j..j + |Spell(u)|] == Spell(u) && Closed(text, j, t)
    ensures !NeedGap(t, u)
  {
    GoodFirst(u);
    assert text[j..j + |Spell(u)|][0] == text[j];
  }

  lemma FitsCons(g: string, t: Token, gaps: seq<string>, ts: seq<Token>)
    requires GoodToken(t) && Gap(g) && GoodTokens(ts) && Fits(gaps, ts)
    requires ts != [] && NeedGap(t, ts[0]) ==> gaps[0] != ""
    ensures GoodTokens([t] + ts) && Fits([g] + gaps, [t] + ts)
    ensures Render([g] + gaps, [t] + ts) == g + Spell(t) + Render(gaps, ts)
  {
    var us, h := [t] + ts, [g] + gaps;
    assert us[1..] == ts && h[1..] == gaps;
    forall i | 0 < i < |us| && NeedGap(us[i - 1], us[i])
      ensures h[i] != ""
    {
      assert i > 1 ==> us[i - 1] == ts[i - 2];
    }
  }

  // Every text is some writing of the tokens that come out of it.
  lemma {:induction false} LexWritten(text: string, i: nat) returns (gaps: seq<string>)
    requires i <= |text|
    ensures Written(text[i..], gaps, Lex(text, i))
    ensures gaps[0] == text[i..SkipBlanks(text, i)]
    decreases |text| - i
  {
    hide Lex, Gap, GoodToken, GoodTokens, TokenAt, TokenEnd, Closed, NeedGap, Spell, Fits, Render;
    LexStep(text, i);
    SkippedGap(text, i);
    var j := SkipBlanks(text, i);
    if j == |text| {
      gaps := [text[i..]];
      WrittenNone(text[i..]);
    } else {
      var t, e := TokenAt(text, j), TokenEnd(text, j);
      TokenGood(text, j);
      var rest := LexWritten(text, e);
      FirstAfter(text, e, t, rest, Lex(text, e));
      FitsLength(rest, Lex(text, e));
      FitsCons(text[i..j], t, rest, Lex(text, e));
      gaps := [text[i..j]] + rest;
      assert text[i..] == text[i..j] + text[j..e] + text[e..];
    }
  }

  lemma WrittenNone(g: string)
    requires Gap(g)
    ensures Written(g, [g], [])
  {
  }

  lemma FitsLength(gaps: seq<string>, ts: seq<Token>)
    requires Fits(gaps, ts)
    ensures |gaps| == |ts| + 1
  {
  }

  lemma FirstAfter(text: string, e: nat, t: Token, gaps: seq<string>, ts: seq<Token>)
    requires e <= |text| && Written(text[e..], gaps, ts) && Closed(text, e, t)
    ensures ts != [] && NeedGap(t, ts[0]) ==> gaps[0] != ""
  {
    if ts != [] && gaps[0] == "" {
      Split(text, e, gaps[0], Spell(ts[0]), Render(gaps[1..], ts[1..]));
      ClosedNeedsNone(t, ts[0], text, e);
    }
  }

  // A text lexes to ts exactly if it is ts with such gaps.
  lemma LexIff(text: string, ts: seq<Token>)
    ensures Lex(text, 0) == ts <==> exists gaps :: Written(text, gaps, ts)
  {
    hide Lex, Written;
    assert text[0..] == text;
    if Lex(text, 0) == ts {
      var gaps := LexWritten(text, 0);
    }
    forall gaps | Written(text, gaps, ts)
      ensures Lex(text, 0) == ts
    {
      LexRender(text, 0, gaps, ts);
    }
  }

  lemma {:induction false} RenderLast(gaps: seq<string>, ts: seq<Token>, g: string)
    requires |gaps| == |ts| + 1
    ensures Render(gaps[|ts| := gaps[|ts|] + g], ts) == Render(gaps, ts) + g
    decreases |ts|
  {
    var more := gaps[|ts| := gaps[|ts|] + g];
    if ts != [] {
      RenderLast(gaps[1..], ts[1..], g);
      assert more[1..] == gaps[1..][|ts| - 1 := gaps[|ts|] + g];
    }
  }

  // Blanks at the end of a line change nothing: in particular not the newline that
  // every line read from the terminal has.
  lemma TrailingGap(text: string, g: string)
    requires Gap(g)
    ensures Lex(text + g, 0) == Lex(text, 0)
  {
    var ts := Lex(text, 0);
    assert text[0..] == text && (text + g)[0..] == text + g;
    var gaps := LexWritten(text, 0);
    RenderLast(gaps, ts, g);
    var more := gaps[|ts| := gaps[|ts|] + g];
    assert Gap(gaps[|ts|] + g);
    assert Written(text + g, more, ts);
    LexRender(text + g, 0, more, ts);
  }

  // ----- from text to trees

  // A line parses to t exactly if it is some well-formed command line that means t, in
  // which no simple command has too many arguments, written with any gaps.
  lemma TextParses(text: string, t: Tree)
    ensures ParseTokens(Lex(text, 0)) == Ok(t, []) <==>
            exists x, gaps :: Formed(x) && Few(x) && Meaning(x) == t && Written(text, gaps, Emit(x))
  {
    hide Lex, Written, ParseTokens, Emit, Meaning, Formed, Few;
    var ts := Lex(text, 0);
    ParsesIffFormed(ts, t);
    LexIff(text, ts);
    if ParseTokens(ts) == Ok(t, []) {
      var x :| Formed(x) && Few(x) && Emit(x) == ts && Meaning(x) == t;
      var gaps :| Written(text, gaps, ts);
      assert Written(text, gaps, Emit(x));
    }
    forall x, gaps | Formed(x) && Few(x) && Meaning(x) == t && Written(text, gaps, Emit(x))
      ensures Emit(x) == ts
    {
      LexIff(text, Emit(x));
    }
  }

  ghost predicate GoodTree(t: Tree) {
    match t
    case Exec(args) => forall i :: 0 <= i < |args| ==> GoodWord(args[i])
    case Redir(c, f, _) => GoodTree(c) && GoodWord(f)
    case Pipe(l, r) => GoodTree(l) && GoodTree(r)
    case List(l, r) => GoodTree(l) && GoodTree(r)
    case Back(c) => GoodTree(c)
  }

  ghost predicate GoodItem(it: Item) {
    match it
    case Arg(w) => GoodWord(w)
    case From(f) => GoodWord(f)
    case Into(f) => GoodWord(f)
    case Onto(f) => GoodWord(f)
  }

  ghost predicate GoodItems(items: seq<Item>) {
    forall i :: 0 <= i < |items| ==> GoodItem(items[i])
  }

  ghost predicate GoodSyntax(x: Syntax) {
    match x
    case Simple(items) => GoodItems(items)
    case Block(body, redirs) => GoodSyntax(body) && GoodItems(redirs)
    case Piped(l, r) => GoodSyntax(l) && GoodSyntax(r)
    case Job(c) => GoodSyntax(c)
    case Both(l, r) => GoodSyntax(l) && GoodSyntax(r)
  }

  lemma {:induction false} ItemsGood(items: seq<Item>)
    requires GoodItems(items)
    ensures GoodTokens(ItemsTokens(items))
    decreases |items|
  {
    hide GoodWord;
    if items != [] {
      ItemsGood(items[1..]);
      assert GoodItem(items[0]);
    }
  }

  lemma {:induction false} EmitGood(x: Syntax)
    requires GoodSyntax(x)
    ensures GoodTokens(Emit(x))
  {
    match x
    case Simple(items) => ItemsGood(items);
    case Block(body, redirs) => EmitGood(body); ItemsGood(redirs);
    case Piped(l, r) => EmitGood(l); EmitGood(r);
    case Job(c) => EmitGood(c);
    case Both(l, r) => EmitGood(l); EmitGood(r);
  }

  lemma {:induction false} CanonGood(level: nat, t: Tree)
    requires GoodTree(t)
    ensures GoodSyntax(Canon(level, t))
    decreases t, if level > Natural(t) then 1 else 0
  {
    hide GoodWord;
    if level > Natural(t) {
      CanonGood(0, t);
    } else {
      match t
      case List(l, r) => CanonGood(1, l); CanonGood(0, r);
      case Back(c) => CanonGood(1, c);
      case Pipe(l, r) => CanonGood(3, l); CanonGood(2, r);
      case Redir(c, f, k) => CanonGood(3, c);
      case Exec(args) =>
    }
  }

  // Printing a command with any gaps and parsing the text gives the command back, if and
  // only if no simple command has too many arguments; one space everywhere is a choice.
  lemma TextRoundTrip(t: Tree, gaps: seq<string>)
    requires GoodTree(t)
    ensures GoodTokens(Print(t)) && Fits(seq(|Print(t)| + 1, _ => " "), Print(t))
    ensures Fits(gaps, Print(t)) ==>
            ParseTokens(Lex(Render(gaps, Print(t)), 0)) == if Small(t) then Ok(t, []) else Panic(TOO_MANY)
  {
    hide Lex, Emit, Canon, GoodTokens, GoodTree, Render, ParseTokens, NeedGap;
    CanonGood(0, t);
    EmitGood(Canon(0, t));
    if Fits(gaps, Print(t)) {
      var text := Render(gaps, Print(t));
      assert text[0..] == text;
      LexRender(text, 0, gaps, Print(t));
      RoundTrip(t);
    }
  }
}
