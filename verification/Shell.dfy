/**
  The shell's command language: tokens, command trees, the grammar its parser
  accepts, a printer, and the round trip between the two.

  `Cmd<string>` is a command with its words; the parser itself builds `Cmd<Span>`,
  whose words are pairs of positions in the input buffer.
 */
module Shell {

  const MAXARGS: nat := 10

  const MISSING_FILE := "missing file for redirection"
  const MISSING_PAREN := "syntax - missing )"
  const SYNTAX := "syntax"
  const TOO_MANY := "too many args"

  // '>' and '>>' open the file in the same way.
  datatype Kind = Input | Output

  datatype Cmd<T> =
    | Exec(args: seq<T>)
    | Redir(cmd: Cmd<T>, file: T, kind: Kind)
    | Pipe(left: Cmd<T>, right: Cmd<T>)
    | List(left: Cmd<T>, right: Cmd<T>)
    | Back(cmd: Cmd<T>)

  type Tree = Cmd<string>

  datatype Token = Op(c: char) | Append | Word(s: string)

  datatype Outcome = Ok(tree: Tree, rest: seq<Token>) | Panic(msg: string)

  // ----- the parser on tokens

  predicate StartsWith(ts: seq<Token>, c: char) {
    ts != [] && ts[0] == Op(c)
  }

  predicate StartsRedir(ts: seq<Token>) {
    ts != [] && (ts[0] == Op('<') || ts[0] == Op('>') || ts[0] == Append)
  }

  // The end of the arguments of one command.
  predicate Stops(ts: seq<Token>) {
    StartsWith(ts, '|') || StartsWith(ts, ')') || StartsWith(ts, '&') || StartsWith(ts, ';')
  }

  function KindOf(t: Token): Kind {
    if t == Op('<') then Input else Output
  }

  // parseexec keeps a pointer to its EXEC node and adds arguments to it although
  // redirections may already have been wrapped round it.
  function AddArg<T>(c: Cmd<T>, a: T): Cmd<T> {
    match c
    case Exec(args) => Exec(args + [a])
    case Redir(sub, f, k) => Redir(AddArg(sub, a), f, k)
    case _ => c
  }

  function ParseRedirs(c: Tree, ts: seq<Token>): (r: Outcome)
    ensures r.Ok? ==> |r.rest| <= |ts|
    decreases |ts|
  {
    if !StartsRedir(ts) then Ok(c, ts)
    else if |ts| >= 2 && ts[1].Word? then ParseRedirs(Redir(c, ts[1].s, KindOf(ts[0])), ts[2..])
    else Panic(MISSING_FILE)
  }

  function ParseArgs(c: Tree, argc: nat, ts: seq<Token>): (r: Outcome)
    ensures r.Ok? ==> |r.rest| <= |ts|
    decreases |ts|
  {
    if ts == [] || Stops(ts) then Ok(c, ts)
    else if !ts[0].Word? then Panic(SYNTAX)
    else if argc + 1 >= MAXARGS then Panic(TOO_MANY)
    else
      match ParseRedirs(AddArg(c, ts[0].s), ts[1..])
      case Panic(m) => Panic(m)
      case Ok(c', rest) => ParseArgs(c', argc + 1, rest)
  }

  function ParseExec(ts: seq<Token>): (r: Outcome)
    ensures r.Ok? ==> |r.rest| <= |ts|
    decreases |ts|, 0
  {
    if StartsWith(ts, '(') then
      match ParseLine(ts[1..])
      case Panic(m) => Panic(m)
      case Ok(c, rest) => if StartsWith(rest, ')') then ParseRedirs(c, rest[1..]) else Panic(MISSING_PAREN)
    else
      match ParseRedirs(Exec([]), ts)
      case Panic(m) => Panic(m)
      case Ok(c, rest) => ParseArgs(c, 0, rest)
  }

  function ParsePipe(ts: seq<Token>): (r: Outcome)
    ensures r.Ok? ==> |r.rest| <= |ts|
    decreases |ts|, 1
  {
    match ParseExec(ts)
    case Panic(m) => Panic(m)
    case Ok(c, rest) =>
      if !StartsWith(rest, '|') then Ok(c, rest)
      else
        match ParsePipe(rest[1..])
        case Panic(m) => Panic(m)
        case Ok(right, rest') => Ok(Pipe(c, right), rest')
  }

  function ParseBacks(c: Tree, ts: seq<Token>): (r: Outcome)
    ensures r.Ok? && |r.rest| <= |ts|
    decreases |ts|
  {
    if StartsWith(ts, '&') then ParseBacks(Back(c), ts[1..]) else Ok(c, ts)
  }

  function ParseLine(ts: seq<Token>): (r: Outcome)
    ensures r.Ok? ==> |r.rest| <= |ts|
    decreases |ts|, 2
  {
    match ParsePipe(ts)
    case Panic(m) => Panic(m)
    case Ok(c, rest) =>
      var b := ParseBacks(c, rest);
      if !StartsWith(b.rest, ';') then b
      else
        match ParseLine(b.rest[1..])
        case Panic(m) => Panic(m)
        case Ok(right, rest') => Ok(List(b.tree, right), rest')
  }

  function ParseTokens(ts: seq<Token>): Outcome {
    match ParseLine(ts)
    case Panic(m) => Panic(m)
    case Ok(c, rest) => if rest == [] then Ok(c, rest) else Panic(SYNTAX)
  }

  // ----- the grammar

  // One word of a simple command, or one redirection of it, in the order written.
  datatype Item = Arg(w: string) | From(file: string) | Into(file: string) | Onto(file: string)

  // Command lines as they are written, parentheses and all.
  datatype Syntax =
    | Simple(items: seq<Item>)
    | Block(body: Syntax, redirs: seq<Item>)
    | Piped(left: Syntax, right: Syntax)
    | Job(cmd: Syntax)
    | Both(left: Syntax, right: Syntax)

  function ItemTokens(it: Item): seq<Token> {
    match it
    case Arg(w) => [Word(w)]
    case From(f) => [Op('<'), Word(f)]
    case Into(f) => [Op('>'), Word(f)]
    case Onto(f) => [Append, Word(f)]
  }

  function ItemsTokens(items: seq<Item>): seq<Token> {
    if items == [] then [] else ItemTokens(items[0]) + ItemsTokens(items[1..])
  }

  // The tokens of a command line.
  function Emit(x: Syntax): seq<Token> {
    match x
    case Simple(items) => ItemsTokens(items)
    case Block(body, redirs) => [Op('(')] + Emit(body) + [Op(')')] + ItemsTokens(redirs)
    case Piped(l, r) => Emit(l) + [Op('|')] + Emit(r)
    case Job(c) => Emit(c) + [Op('&')]
    case Both(l, r) => Emit(l) + [Op(';')] + Emit(r)
  }

  predicate NoArgs(items: seq<Item>) {
    forall i :: 0 <= i < |items| ==> !items[i].Arg?
  }

  // How loosely a command binds: 0 list, 1 background, 2 pipeline, 3 simple command.
  function Binding(x: Syntax): nat {
    match x
    case Both(_, _) => 0
    case Job(_) => 1
    case Piped(_, _) => 2
    case _ => 3
  }

  // Every part binds at least as tightly as its place wants.
  predicate Formed(x: Syntax) {
    match x
    case Simple(_) => true
    case Block(body, redirs) => Formed(body) && NoArgs(redirs)
    case Piped(l, r) => Formed(l) && Binding(l) >= 3 && Formed(r) && Binding(r) >= 2
    case Job(c) => Formed(c) && Binding(c) >= 1
    case Both(l, r) => Formed(l) && Binding(l) >= 1 && Formed(r)
  }

  // ----- what a command line means

  function Args(items: seq<Item>): seq<string> {
    if items == [] then [] else (if items[0].Arg? then [items[0].w] else []) + Args(items[1..])
  }

  function Redirs(items: seq<Item>): (r: seq<Item>)
    ensures NoArgs(r)
  {
    if items == [] then [] else (if items[0].Arg? then [] else [items[0]]) + Redirs(items[1..])
  }

  // c inside these redirections, the first one innermost.
  function Wrap(c: Tree, redirs: seq<Item>): Tree
    requires NoArgs(redirs)
    decreases |redirs|
  {
    if redirs == [] then c
    else
      match redirs[0]
      case From(f) => Wrap(Redir(c, f, Input), redirs[1..])
      case Into(f) => Wrap(Redir(c, f, Output), redirs[1..])
      case Onto(f) => Wrap(Redir(c, f, Output), redirs[1..])
  }

  // All words of a simple command are its arguments, wherever its redirections stand.
  function Meaning(x: Syntax): Tree
    requires Formed(x)
  {
    match x
    case Simple(items) => Wrap(Exec(Args(items)), Redirs(items))
    case Block(body, redirs) => Wrap(Meaning(body), redirs)
    case Piped(l, r) => Pipe(Meaning(l), Meaning(r))
    case Job(c) => Back(Meaning(c))
    case Both(l, r) => List(Meaning(l), Meaning(r))
  }

  // No simple command has MAXARGS arguments or more.
  predicate Few(x: Syntax) {
    match x
    case Simple(items) => |Args(items)| < MAXARGS
    case Block(body, _) => Few(body)
    case Piped(l, r) => Few(l) && Few(r)
    case Job(c) => Few(c)
    case Both(l, r) => Few(l) && Few(r)
  }

  // What the parser makes of x in front of rest.
  ghost function Expected(x: Syntax, rest: seq<Token>): Outcome
    requires Formed(x)
  {
    if Few(x) then Ok(Meaning(x), rest) else Panic(TOO_MANY)
  }

  // ----- the items of a simple command

  // parseexec with argc arguments collected in c.
  ghost function Collect(c: Tree, argc: nat, ts: seq<Token>): Outcome {
    match ParseRedirs(c, ts)
    case Panic(m) => Panic(m)
    case Ok(c', rest) => ParseArgs(c', argc, rest)
  }

  // The tree once an item has been read.
  function Extend(c: Tree, it: Item): Tree {
    match it
    case Arg(w) => AddArg(c, w)
    case From(f) => Redir(c, f, Input)
    case Into(f) => Redir(c, f, Output)
    case Onto(f) => Redir(c, f, Output)
  }

  function ExtendAll(c: Tree, items: seq<Item>): Tree
    decreases |items|
  {
    if items == [] then c else ExtendAll(Extend(c, items[0]), items[1..])
  }

  ghost predicate EndsSimple(rest: seq<Token>) {
    rest == [] || Stops(rest)
  }

  lemma CollectStep(c: Tree, argc: nat, it: Item, more: seq<Token>)
    ensures Collect(c, argc, ItemTokens(it) + more) ==
            if !it.Arg? then Collect(Extend(c, it), argc, more)
            else if argc + 1 < MAXARGS then Collect(Extend(c, it), argc + 1, more) else Panic(TOO_MANY)
  {
    var ts := ItemTokens(it) + more;
    if it.Arg? {
      assert ts[0] == Word(it.w) && ts[1..] == more;
      assert !StartsRedir(ts) && !Stops(ts);
    } else {
      assert ts[1] == Word(it.file) && ts[2..] == more;
    }
  }

  lemma CollectEnd(c: Tree, argc: nat, rest: seq<Token>)
    requires EndsSimple(rest)
    ensures Collect(c, argc, rest) == Ok(c, rest)
  {
  }

  lemma {:induction false} ItemsRoundTrip(c: Tree, argc: nat, items: seq<Item>, rest: seq<Token>)
    requires argc < MAXARGS && EndsSimple(rest)
    ensures Collect(c, argc, ItemsTokens(items) + rest) ==
            if argc + |Args(items)| < MAXARGS then Ok(ExtendAll(c, items), rest) else Panic(TOO_MANY)
    decreases |items|
  {
    hide Collect, Extend, ItemTokens;
    if items == [] {
      assert ItemsTokens(items) + rest == rest;
      CollectEnd(c, argc, rest);
    } else {
      var more, n := ItemsTokens(items[1..]) + rest, if items[0].Arg? then argc + 1 else argc;
      assert ItemsTokens(items) + rest == ItemTokens(items[0]) + more;
      CollectStep(c, argc, items[0], more);
      if n < MAXARGS {
        ItemsRoundTrip(Extend(c, items[0]), n, items[1..], rest);
      }
    }
  }

  // An argument behind redirections goes to the command inside them.
  lemma {:induction false} WrapAddArg(c: Tree, items: seq<Item>, a: string)
    requires NoArgs(items)
    ensures AddArg(Wrap(c, items), a) == Wrap(AddArg(c, a), items)
    decreases |items|
  {
    if items != [] {
      WrapAddArg(Extend(c, items[0]), items[1..], a);
    }
  }

  lemma {:induction false} WrapMore(c: Tree, done: seq<Item>, it: Item)
    requires NoArgs(done) && !it.Arg?
    ensures Wrap(c, done + [it]) == Extend(Wrap(c, done), it)
    decreases |done|
  {
    if done == [] {
      assert (done + [it])[1..] == [];
    } else {
      assert (done + [it])[1..] == done[1..] + [it];
      WrapMore(Extend(c, done[0]), done[1..], it);
    }
  }

  lemma NoArgsJoin(a: seq<Item>, b: seq<Item>)
    requires NoArgs(a) && NoArgs(b)
    ensures NoArgs(a + b)
  {
  }

  lemma RedirsCons(it: Item, more: seq<Item>)
    ensures Redirs([it] + more) == if it.Arg? then Redirs(more) else [it] + Redirs(more)
    ensures !it.Arg? ==> NoArgs([it])
  {
    assert ([it] + more)[1..] == more;
  }

  lemma ArgExtends(args: seq<string>, done: seq<Item>, w: string)
    requires NoArgs(done)
    ensures Extend(Wrap(Exec(args), done), Arg(w)) == Wrap(Exec(args + [w]), done)
  {
    WrapAddArg(Exec(args), done, w);
  }

  // Reading the items one by one gives the meaning of the command.
  lemma {:induction false} ExtendMeans(args: seq<string>, done: seq<Item>, items: seq<Item>)
    requires NoArgs(done)
    ensures NoArgs(done + Redirs(items))
    ensures ExtendAll(Wrap(Exec(args), done), items) == Wrap(Exec(args + Args(items)), done + Redirs(items))
    decreases |items|
  {
    hide Wrap, Args, Redirs, ExtendAll, Extend, AddArg, NoArgs, ItemsTokens, ItemTokens;
    NoArgsJoin(done, Redirs(items));
    NoItems(Wrap(Exec(args), done));
    if items == [] {
      NoRedirItems();
      assert args + Args(items) == args && done + Redirs(items) == done;
    } else {
      var it, more := items[0], items[1..];
      assert items == [it] + more;
      ItemsCons(Wrap(Exec(args), done), it, more);
      RedirsCons(it, more);
      if it.Arg? {
        ArgExtends(args, done, it.w);
        ExtendMeans(args + [it.w], done, more);
        assert args + [it.w] + Args(more) == args + Args(items);
      } else {
        NoArgsJoin(done, [it]);
        WrapMore(Exec(args), done, it);
        ExtendMeans(args, done + [it], more);
        assert done + [it] + Redirs(more) == done + Redirs(items);
        assert Args(items) == Args(more);
      }
    }
  }

  lemma NoRedirItems()
    ensures Redirs([]) == []
  {
  }

  lemma SimpleMeans(items: seq<Item>)
    ensures ExtendAll(Exec([]), items) == Meaning(Simple(items))
  {
    ExtendMeans([], [], items);
    assert [] + Args(items) == Args(items) && [] + Redirs(items) == Redirs(items);
  }

  // ----- every command line that is well formed is accepted, with its meaning

  lemma NoItems(c: Tree)
    ensures ItemsTokens([]) == [] && Args([]) == [] && ExtendAll(c, []) == c && NoArgs([]) && Wrap(c, []) == c
  {
  }

  lemma ItemsCons(c: Tree, it: Item, more: seq<Item>)
    ensures ItemsTokens([it] + more) == ItemTokens(it) + ItemsTokens(more)
    ensures ExtendAll(c, [it] + more) == ExtendAll(Extend(c, it), more)
    ensures Args([it] + more) == (if it.Arg? then [it.w] else []) + Args(more)
    ensures !it.Arg? && NoArgs(more) ==> NoArgs([it] + more) && Wrap(c, [it] + more) == Wrap(Extend(c, it), more)
  {
    assert ([it] + more)[1..] == more;
  }

  lemma NoRedirs(c: Tree, ts: seq<Token>)
    requires !StartsRedir(ts)
    ensures ParseRedirs(c, ts) == Ok(c, ts)
  {
  }

  lemma RedirStep(c: Tree, it: Item, more: seq<Token>)
    requires !it.Arg?
    ensures ParseRedirs(c, ItemTokens(it) + more) == ParseRedirs(Extend(c, it), more)
  {
    var ts := ItemTokens(it) + more;
    assert ts[1] == Word(it.file) && ts[2..] == more;
  }

  lemma {:induction false} RedirsRoundTrip(c: Tree, items: seq<Item>, rest: seq<Token>)
    requires NoArgs(items) && !StartsRedir(rest)
    ensures ParseRedirs(c, ItemsTokens(items) + rest) == Ok(Wrap(c, items), rest)
    decreases |items|
  {
    hide ParseRedirs, ItemTokens, ItemsTokens, Extend, Wrap;
    if items == [] {
      NoItems(c);
      NoRedirs(c, rest);
      assert ItemsTokens(items) + rest == rest;
    } else {
      var it, more := items[0], items[1..];
      assert items == [it] + more;
      ItemsCons(c, it, more);
      RedirStep(c, it, ItemsTokens(more) + rest);
      assert ItemTokens(it) + ItemsTokens(more) + rest == ItemTokens(it) + (ItemsTokens(more) + rest);
      RedirsRoundTrip(Extend(c, it), more, rest);
    }
  }

  lemma SimpleStart(items: seq<Item>, rest: seq<Token>)
    requires EndsSimple(rest)
    ensures var ts := ItemsTokens(items) + rest; !StartsWith(ts, '(') && ParseExec(ts) == Collect(Exec([]), 0, ts)
  {
    var ts := ItemsTokens(items) + rest;
    assert items != [] ==> ts[0] == ItemTokens(items[0])[0];
  }

  // A token and what follows it.
  lemma Joined(a: seq<Token>, o: Token, b: seq<Token>, rest: seq<Token>)
    ensures a + [o] + b + rest == a + ([o] + (b + rest))
    ensures ([o] + (b + rest))[0] == o && ([o] + (b + rest))[1..] == b + rest
  {
    assert ([o] + (b + rest))[1..] == b + rest;
  }

  lemma BlockOpens(ts: seq<Token>, inner: seq<Token>, c: Tree, rest: seq<Token>)
    requires ts == [Op('(')] + inner && ParseLine(inner) == Ok(c, [Op(')')] + rest)
    ensures ParseExec(ts) == ParseRedirs(c, rest)
  {
    assert ts[1..] == inner && ([Op(')')] + rest)[1..] == rest;
  }

  lemma BlockPanics(ts: seq<Token>, inner: seq<Token>, m: string)
    requires ts == [Op('(')] + inner && ParseLine(inner) == Panic(m)
    ensures ParseExec(ts) == Panic(m)
  {
    assert ts[1..] == inner;
  }

  lemma {:induction false} ExecRoundTrip(x: Syntax, rest: seq<Token>)
    requires Formed(x) && Binding(x) >= 3 && EndsSimple(rest)
    ensures ParseExec(Emit(x) + rest) == Expected(x, rest)
    decreases x, 0
  {
    hide ParseExec, ParseLine, ParseRedirs, ParseArgs, Collect, ItemsTokens, Wrap, ExtendAll;
    match x
    case Simple(items) =>
      SimpleStart(items, rest);
      ItemsRoundTrip(Exec([]), 0, items, rest);
      SimpleMeans(items);
    case Block(body, redirs) =>
      var tail := ItemsTokens(redirs) + rest;
      var inner := Emit(body) + ([Op(')')] + tail);
      LineRoundTrip(body, [Op(')')] + tail);
      assert Emit(x) + rest == [Op('(')] + inner;
      if Few(body) {
        BlockOpens(Emit(x) + rest, inner, Meaning(body), tail);
        RedirsRoundTrip(Meaning(body), redirs, rest);
      } else {
        BlockPanics(Emit(x) + rest, inner, TOO_MANY);
      }
  }

  // One command of a pipeline, and the rest of it.
  lemma PipeStep(ts: seq<Token>)
    ensures ParsePipe(ts) == match ParseExec(ts)
                             case Panic(m) => Panic(m)
                             case Ok(c, rest) =>
                               if !StartsWith(rest, '|') then Ok(c, rest)
                               else
                                 match ParsePipe(rest[1..])
                                 case Panic(m) => Panic(m)
                                 case Ok(right, rest') => Ok(Pipe(c, right), rest')
  {
  }

  lemma {:induction false} PipeRoundTrip(x: Syntax, rest: seq<Token>)
    requires Formed(x) && Binding(x) >= 2 && EndsSimple(rest) && !StartsWith(rest, '|')
    ensures ParsePipe(Emit(x) + rest) == Expected(x, rest)
    decreases x, 1
  {
    hide ParsePipe, ParseExec;
    PipeStep(Emit(x) + rest);
    if x.Piped? {
      var tail := [Op('|')] + (Emit(x.right) + rest);
      Joined(Emit(x.left), Op('|'), Emit(x.right), rest);
      ExecRoundTrip(x.left, tail);
      PipeRoundTrip(x.right, rest);
    } else {
      ExecRoundTrip(x, rest);
    }
  }

  // A pipeline and the '&'s behind it.
  ghost function ParseJob(ts: seq<Token>): Outcome {
    match ParsePipe(ts)
    case Panic(m) => Panic(m)
    case Ok(c, rest) => ParseBacks(c, rest)
  }

  lemma {:induction false} JobRoundTrip(x: Syntax, rest: seq<Token>)
    requires Formed(x) && Binding(x) >= 1 && EndsSimple(rest) && !StartsWith(rest, '|')
    ensures ParseJob(Emit(x) + rest) == if Few(x) then ParseBacks(Meaning(x), rest) else Panic(TOO_MANY)
    decreases x, 2
  {
    hide ParsePipe;
    if x.Job? {
      var tail := [Op('&')] + rest;
      assert Emit(x) + rest == Emit(x.cmd) + tail;
      JobRoundTrip(x.cmd, tail);
      assert tail[1..] == rest;
    } else {
      PipeRoundTrip(x, rest);
    }
  }

  lemma LineStep(ts: seq<Token>)
    ensures ParseLine(ts) == match ParseJob(ts)
                             case Panic(m) => Panic(m)
                             case Ok(c, rest) =>
                               if !StartsWith(rest, ';') then Ok(c, rest)
                               else
                                 match ParseLine(rest[1..])
                                 case Panic(m) => Panic(m)
                                 case Ok(right, rest') => Ok(List(c, right), rest')
  {
  }

  lemma NoBacks(c: Tree, ts: seq<Token>)
    requires !StartsWith(ts, '&')
    ensures ParseBacks(c, ts) == Ok(c, ts)
  {
  }

  lemma {:induction false} LineRoundTrip(x: Syntax, rest: seq<Token>)
    requires Formed(x) && (rest == [] || StartsWith(rest, ')'))
    ensures ParseLine(Emit(x) + rest) == Expected(x, rest)
    decreases x, 3
  {
    hide ParseLine, ParseJob, ParsePipe, ParseBacks;
    LineStep(Emit(x) + rest);
    if x.Both? {
      var tail := [Op(';')] + (Emit(x.right) + rest);
      Joined(Emit(x.left), Op(';'), Emit(x.right), rest);
      JobRoundTrip(x.left, tail);
      NoBacks(Meaning(x.left), tail);
      LineRoundTrip(x.right, rest);
    } else {
      JobRoundTrip(x, rest);
      NoBacks(Meaning(x), rest);
    }
  }

  // ----- nothing else is accepted

  lemma RedirHead(c: Tree, ts: seq<Token>) returns (it: Item)
    requires StartsRedir(ts) && ParseRedirs(c, ts).Ok?
    ensures !it.Arg? && |ts| >= 2 && ts == ItemTokens(it) + ts[2..]
    ensures ParseRedirs(c, ts) == ParseRedirs(Extend(c, it), ts[2..])
  {
    it := if ts[0] == Op('<') then From(ts[1].s) else if ts[0] == Op('>') then Into(ts[1].s) else Onto(ts[1].s);
    assert ts == ItemTokens(it) + ts[2..];
  }

  lemma {:induction false} RedirsWritten(c: Tree, ts: seq<Token>) returns (items: seq<Item>)
    requires ParseRedirs(c, ts).Ok?
    ensures var o := ParseRedirs(c, ts);
            NoArgs(items) && ts == ItemsTokens(items) + o.rest && o.tree == Wrap(c, items) && !StartsRedir(o.rest)
    decreases |ts|
  {
    hide ParseRedirs, ItemTokens, ItemsTokens, Extend, Wrap, NoArgs;
    if !StartsRedir(ts) {
      items := [];
      NoItems(c);
      NoRedirs(c, ts);
      assert ItemsTokens(items) + ts == ts;
    } else {
      var it := RedirHead(c, ts);
      var more := RedirsWritten(Extend(c, it), ts[2..]);
      items := [it] + more;
      ItemsCons(c, it, more);
    }
  }

  lemma {:induction false} ItemsAppend(c: Tree, a: seq<Item>, b: seq<Item>)
    ensures ItemsTokens(a + b) == ItemsTokens(a) + ItemsTokens(b)
    ensures Args(a + b) == Args(a) + Args(b)
    ensures ExtendAll(c, a + b) == ExtendAll(ExtendAll(c, a), b)
    decreases |a|
  {
    hide ItemsTokens, ItemTokens, Args, ExtendAll, Extend, Wrap, NoArgs;
    NoItems(c);
    if a == [] {
      assert a + b == b;
    } else {
      var it, more := a[0], a[1..];
      assert a == [it] + more && a + b == [it] + (more + b);
      ItemsCons(c, it, more);
      ItemsCons(c, it, more + b);
      ItemsAppend(Extend(c, it), more, b);
    }
  }

  lemma {:induction false} RedirsExtend(c: Tree, items: seq<Item>)
    requires NoArgs(items)
    ensures ExtendAll(c, items) == Wrap(c, items) && Args(items) == []
    decreases |items|
  {
    if items != [] {
      RedirsExtend(Extend(c, items[0]), items[1..]);
    }
  }

  lemma ArgsStep(c: Tree, argc: nat, ts: seq<Token>)
    requires ts != [] && !Stops(ts) && ParseArgs(c, argc, ts).Ok?
    ensures ts[0].Word? && argc + 1 < MAXARGS && ts == [Word(ts[0].s)] + ts[1..]
    ensures var o := ParseRedirs(AddArg(c, ts[0].s), ts[1..]);
            o.Ok? && |o.rest| < |ts| && ParseArgs(c, argc, ts) == ParseArgs(o.tree, argc + 1, o.rest)
  {
  }

  lemma ArgsEnd(c: Tree, argc: nat, ts: seq<Token>)
    requires ts == [] || Stops(ts)
    ensures ParseArgs(c, argc, ts) == Ok(c, ts)
  {
  }

  lemma {:induction false} ArgsWritten(c: Tree, argc: nat, ts: seq<Token>) returns (items: seq<Item>)
    requires argc < MAXARGS && ParseArgs(c, argc, ts).Ok?
    ensures var o := ParseArgs(c, argc, ts);
            && ts == ItemsTokens(items) + o.rest && o.tree == ExtendAll(c, items)
            && argc + |Args(items)| < MAXARGS && EndsSimple(o.rest)
    decreases |ts|
  {
    hide ParseRedirs, ParseArgs, ItemsTokens, ItemTokens, ExtendAll, Extend, Args, Wrap, AddArg;
    if ts == [] || Stops(ts) {
      items := [];
      NoItems(c);
      ArgsEnd(c, argc, ts);
      assert ItemsTokens(items) + ts == ts;
    } else {
      ArgsStep(c, argc, ts);
      var a := AddArg(c, ts[0].s);
      var o := ParseRedirs(a, ts[1..]);
      var redirs := RedirsWritten(a, ts[1..]);
      var more := ArgsWritten(o.tree, argc + 1, o.rest);
      items := [Arg(ts[0].s)] + (redirs + more);
      ArgThen(c, ts[0].s, redirs, more);
    }
  }

  lemma ArgThen(c: Tree, w: string, redirs: seq<Item>, more: seq<Item>)
    requires NoArgs(redirs)
    ensures var items := [Arg(w)] + (redirs + more);
            && ItemsTokens(items) == [Word(w)] + (ItemsTokens(redirs) + ItemsTokens(more))
            && |Args(items)| == 1 + |Args(more)|
            && ExtendAll(c, items) == ExtendAll(Wrap(AddArg(c, w), redirs), more)
  {
    var items := [Arg(w)] + (redirs + more);
    assert items[1..] == redirs + more;
    ItemsAppend(AddArg(c, w), redirs, more);
    RedirsExtend(AddArg(c, w), redirs);
  }

  lemma BlockParts(ts: seq<Token>)
    requires StartsWith(ts, '(') && ParseExec(ts).Ok?
    ensures ts == [Op('(')] + ts[1..]
    ensures var o := ParseLine(ts[1..]);
            && o.Ok? && o.rest != [] && o.rest == [Op(')')] + o.rest[1..] && |o.rest| < |ts|
            && ParseExec(ts) == ParseRedirs(o.tree, o.rest[1..])
  {
  }

  lemma {:induction false} ExecWritten(ts: seq<Token>) returns (x: Syntax)
    requires ParseExec(ts).Ok?
    ensures Formed(x) && Binding(x) >= 3 && Few(x)
    ensures ts == Emit(x) + ParseExec(ts).rest && ParseExec(ts).tree == Meaning(x)
    decreases |ts|, 0
  {
    hide ParseExec, ParseLine, ParseRedirs, ItemsTokens, Wrap;
    if StartsWith(ts, '(') {
      BlockParts(ts);
      var o := ParseLine(ts[1..]);
      var body := LineWritten(ts[1..]);
      var redirs := RedirsWritten(o.tree, o.rest[1..]);
      x := Block(body, redirs);
      assert ts == [Op('(')] + (Emit(body) + ([Op(')')] + (ItemsTokens(redirs) + ParseExec(ts).rest)));
    } else {
      var items := SimpleWritten(ts);
      x := Simple(items);
    }
  }

  lemma SimpleParts(ts: seq<Token>)
    requires !StartsWith(ts, '(') && ParseExec(ts).Ok?
    ensures var o := ParseRedirs(Exec([]), ts); o.Ok? && ParseExec(ts) == ParseArgs(o.tree, 0, o.rest)
  {
  }

  lemma SimpleWritten(ts: seq<Token>) returns (items: seq<Item>)
    requires !StartsWith(ts, '(') && ParseExec(ts).Ok?
    ensures ts == ItemsTokens(items) + ParseExec(ts).rest && ParseExec(ts).tree == Meaning(Simple(items))
    ensures |Args(items)| < MAXARGS
  {
    hide ParseExec, ParseRedirs, ParseArgs, ItemsTokens, ItemTokens, Args, ExtendAll, Extend, Wrap, Meaning;
    SimpleParts(ts);
    var o := ParseRedirs(Exec([]), ts);
    var redirs := RedirsWritten(Exec([]), ts);
    var more := ArgsWritten(o.tree, 0, o.rest);
    items := redirs + more;
    ItemsAppend(Exec([]), redirs, more);
    RedirsExtend(Exec([]), redirs);
    SimpleMeans(items);
  }

  lemma HeadAndTail(ts: seq<Token>, o: Token)
    requires ts != [] && ts[0] == o
    ensures ts == [o] + ts[1..]
  {
  }

  lemma {:induction false} PipeWritten(ts: seq<Token>) returns (x: Syntax)
    requires ParsePipe(ts).Ok?
    ensures Formed(x) && Binding(x) >= 2 && Few(x)
    ensures ts == Emit(x) + ParsePipe(ts).rest && ParsePipe(ts).tree == Meaning(x)
    decreases |ts|, 1
  {
    hide ParsePipe, ParseExec;
    PipeStep(ts);
    var o := ParseExec(ts);
    var left := ExecWritten(ts);
    if StartsWith(o.rest, '|') {
      var right := PipeWritten(o.rest[1..]);
      HeadAndTail(o.rest, Op('|'));
      x := Piped(left, right);
      Joined(Emit(left), Op('|'), Emit(right), ParsePipe(ts).rest);
    } else {
      x := left;
    }
  }

  // '&'s behind a command.
  lemma {:induction false} BacksWritten(c: Syntax, ts: seq<Token>) returns (x: Syntax)
    requires Formed(c) && Binding(c) >= 1 && Few(c)
    ensures var o := ParseBacks(Meaning(c), ts);
            && Formed(x) && Binding(x) >= 1 && Few(x)
            && Emit(c) + ts == Emit(x) + o.rest && o.tree == Meaning(x)
    decreases |ts|
  {
    x := c;
    if StartsWith(ts, '&') {
      assert ts == [Op('&')] + ts[1..];
      assert Emit(Job(c)) + ts[1..] == Emit(c) + ts;
      x := BacksWritten(Job(c), ts[1..]);
    }
  }

  lemma JobParts(ts: seq<Token>)
    ensures ParseJob(ts).Ok? <==> ParsePipe(ts).Ok?
    ensures ParsePipe(ts).Ok? ==> ParseJob(ts) == ParseBacks(ParsePipe(ts).tree, ParsePipe(ts).rest)
    ensures ParseJob(ts).Ok? ==> |ParseJob(ts).rest| <= |ts|
  {
  }

  lemma {:induction false} LineWritten(ts: seq<Token>) returns (x: Syntax)
    requires ParseLine(ts).Ok?
    ensures Formed(x) && Few(x)
    ensures ts == Emit(x) + ParseLine(ts).rest && ParseLine(ts).tree == Meaning(x)
    decreases |ts|, 2
  {
    hide ParseLine, ParseJob, ParsePipe, ParseBacks;
    LineStep(ts);
    JobParts(ts);
    var c := PipeWritten(ts);
    var left := BacksWritten(c, ParsePipe(ts).rest);
    var rest := ParseJob(ts).rest;
    if StartsWith(rest, ';') {
      var right := LineWritten(rest[1..]);
      HeadAndTail(rest, Op(';'));
      x := Both(left, right);
      Joined(Emit(left), Op(';'), Emit(right), ParseLine(ts).rest);
    } else {
      x := left;
    }
  }

  // The parser accepts exactly the well-formed command lines, each with its meaning, in
  // which no simple command has MAXARGS arguments.
  lemma ParsesIffFormed(ts: seq<Token>, t: Tree)
    ensures ParseTokens(ts) == Ok(t, []) <==> exists x :: Formed(x) && Few(x) && Emit(x) == ts && Meaning(x) == t
  {
    if ParseTokens(ts) == Ok(t, []) {
      var x := LineWritten(ts);
      assert Emit(x) + [] == Emit(x);
      assert Formed(x) && Few(x) && Emit(x) == ts && Meaning(x) == t;
    }
    forall x | Formed(x) && Few(x) && Emit(x) == ts && Meaning(x) == t
      ensures ParseTokens(ts) == Ok(t, [])
    {
      LineRoundTrip(x, []);
      assert Emit(x) + [] == ts;
    }
  }

  // The only other answer to a well-formed line.
  lemma TooManyArgs(x: Syntax)
    requires Formed(x)
    ensures ParseTokens(Emit(x)) == if Few(x) then Ok(Meaning(x), []) else Panic(TOO_MANY)
  {
    LineRoundTrip(x, []);
    assert Emit(x) + [] == Emit(x);
  }

  // ----- every tree can be written

  function Natural(t: Tree): nat {
    match t
    case List(_, _) => 0
    case Back(_) => 1
    case Pipe(_, _) => 2
    case _ => 3
  }

  function ArgItems(args: seq<string>): (r: seq<Item>)
    ensures |r| == |args| && forall i :: 0 <= i < |args| ==> r[i] == Arg(args[i])
  {
    seq(|args|, i requires 0 <= i < |args| => Arg(args[i]))
  }

  function AddItem(x: Syntax, it: Item): Syntax {
    match x
    case Simple(items) => Simple(items + [it])
    case Block(body, redirs) => Block(body, redirs + [it])
    case _ => x
  }

  // t where the grammar wants something that binds at least as tightly as `level`, with
  // parentheses only where they are needed.
  function Canon(level: nat, t: Tree): Syntax
    decreases t, if level > Natural(t) then 1 else 0
  {
    if level > Natural(t) then Block(Canon(0, t), [])
    else
      match t
      case List(l, r) => Both(Canon(1, l), Canon(0, r))
      case Back(c) => Job(Canon(1, c))
      case Pipe(l, r) => Piped(Canon(3, l), Canon(2, r))
      case Redir(c, f, k) => AddItem(Canon(3, c), if k == Input then From(f) else Into(f))
      case Exec(args) => Simple(ArgItems(args))
  }

  function Print(t: Tree): seq<Token> {
    Emit(Canon(0, t))
  }

  predicate Small(t: Tree) {
    match t
    case Exec(args) => |args| < MAXARGS
    case Redir(c, _, _) => Small(c)
    case Pipe(l, r) => Small(l) && Small(r)
    case List(l, r) => Small(l) && Small(r)
    case Back(c) => Small(c)
  }

  lemma {:induction false} ArgItemsAre(args: seq<string>)
    ensures Args(ArgItems(args)) == args && Redirs(ArgItems(args)) == []
    decreases |args|
  {
    if args != [] {
      ArgItemsAre(args[1..]);
      assert ArgItems(args)[1..] == ArgItems(args[1..]);
    }
  }

  lemma {:induction false} RedirsAppend(a: seq<Item>, it: Item)
    requires !it.Arg?
    ensures Redirs(a + [it]) == Redirs(a) + [it] && Args(a + [it]) == Args(a)
    decreases |a|
  {
    if a == [] {
      assert a + [it] == [it] && [it][1..] == [];
    } else {
      assert (a + [it])[1..] == a[1..] + [it];
      RedirsAppend(a[1..], it);
    }
  }

  lemma AddItemMeans(x: Syntax, it: Item)
    requires Formed(x) && Binding(x) >= 3 && !it.Arg?
    ensures var y := AddItem(x, it);
            Formed(y) && Binding(y) >= 3 && Meaning(y) == Extend(Meaning(x), it) && (Few(y) <==> Few(x))
  {
    match x
    case Simple(items) =>
      RedirsAppend(items, it);
      WrapMore(Exec(Args(items)), Redirs(items), it);
    case Block(body, redirs) =>
      WrapMore(Meaning(body), redirs, it);
  }

  lemma {:induction false} CanonMeans(level: nat, t: Tree)
    requires level <= 3
    ensures var x := Canon(level, t); Formed(x) && Binding(x) >= level && Meaning(x) == t && (Few(x) <==> Small(t))
    decreases t, if level > Natural(t) then 1 else 0
  {
    if level > Natural(t) {
      CanonMeans(0, t);
    } else {
      match t
      case List(l, r) => CanonMeans(1, l); CanonMeans(0, r);
      case Back(c) => CanonMeans(1, c);
      case Pipe(l, r) => CanonMeans(3, l); CanonMeans(2, r);
      case Redir(c, f, k) =>
        CanonMeans(3, c);
        AddItemMeans(Canon(3, c), if k == Input then From(f) else Into(f));
      case Exec(args) => ArgItemsAre(args);
    }
  }

  // The parser gives back exactly the trees whose commands all have fewer than
  // MAXARGS arguments.
  lemma RoundTrip(t: Tree)
    ensures ParseTokens(Print(t)) == if Small(t) then Ok(t, []) else Panic(TOO_MANY)
  {
    CanonMeans(0, t);
    TooManyArgs(Canon(0, t));
  }
}
