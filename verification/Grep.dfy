/**
  grep's regular-expression matcher against a denotational semantics.

  A `char*` into a NUL-terminated string is the string from there up to its NUL,
  so advancing the pointer drops the first character and reading '\0' means that
  the string is empty.
 */
module Grep {

  datatype Atom = Any | Literal(c: char)
  datatype Item = One(atom: Atom) | Star(atom: Atom)
  datatype Pattern = Pattern(items: seq<Item>, atEnd: bool)

  // ----- the language of a pattern

  predicate Accepts(a: Atom, c: char) {
    a == Any || a == Literal(c)
  }

  ghost predicate InItem(item: Item, w: string) {
    match item
    case One(a) => |w| == 1 && Accepts(a, w[0])
    case Star(a) => forall i :: 0 <= i < |w| ==> Accepts(a, w[i])
  }

  ghost function Concat(pieces: seq<string>): string {
    if pieces == [] then "" else pieces[0] + Concat(pieces[1..])
  }

  ghost predicate Splits(items: seq<Item>, w: string, pieces: seq<string>) {
    |pieces| == |items| && Concat(pieces) == w && forall i :: 0 <= i < |items| ==> InItem(items[i], pieces[i])
  }

  // The concatenation of the items' languages.
  ghost predicate InLanguage(items: seq<Item>, w: string) {
    exists pieces :: Splits(items, w, pieces)
  }

  function AtomOf(c: char): Atom {
    if c == '.' then Any else Literal(c)
  }

  // What a pattern, without its leading '^', denotes: '$' is special only as the
  // last character and '*' only after another one.
  function Compile(re: string): Pattern {
    if re == "" then Pattern([], false)
    else if |re| >= 2 && re[1] == '*' then
      var p := Compile(re[2..]);
      Pattern([Star(AtomOf(re[0]))] + p.items, p.atEnd)
    else if re == "$" then Pattern([], true)
    else
      var p := Compile(re[1..]);
      Pattern([One(AtomOf(re[0]))] + p.items, p.atEnd)
  }

  // ----- how a pattern is written

  function Sign(a: Atom): char {
    match a
    case Any => '.'
    case Literal(c) => c
  }

  function Letters(items: seq<Item>): string {
    if items == [] then ""
    else [Sign(items[0].atom)] + (if items[0].Star? then "*" else "") + Letters(items[1..])
  }

  function Spell(p: Pattern): string {
    Letters(p.items) + if p.atEnd then "$" else ""
  }

  // A literal dot, a star behind a single item and a literal '$' at the end cannot be
  // written.
  ghost predicate Writable(p: Pattern) {
    && (forall i :: 0 <= i < |p.items| ==> p.items[i].atom != Literal('.'))
    && (forall i :: 0 < i < |p.items| ==> p.items[i - 1].One? ==> Sign(p.items[i].atom) != '*')
    && (p.items != [] && p.items[|p.items| - 1] == One(Literal('$')) ==> p.atEnd)
  }

  lemma WritableTail(p: Pattern)
    requires p.items != []
    ensures Writable(p) ==> Writable(Pattern(p.items[1..], p.atEnd))
  {
    var q := p.items[1..];
    assert forall i :: 0 <= i < |q| ==> q[i] == p.items[i + 1];
  }

  function Begin(item: Item, p: Pattern): Pattern {
    Pattern([item] + p.items, p.atEnd)
  }

  function SpellItem(item: Item): string {
    [Sign(item.atom)] + if item.Star? then "*" else ""
  }

  // One item in front.
  lemma CompileStep(c: char, star: bool, more: string)
    requires !star ==> (more != "" ==> more[0] != '*') && (c == '$' ==> more != "")
    ensures Compile([c] + (if star then "*" else "") + more) ==
            Begin(if star then Star(AtomOf(c)) else One(AtomOf(c)), Compile(more))
  {
    if star {
      var re := [c] + "*" + more;
      assert re[2..] == more && re[1] == '*' && re[0] == c;
    } else {
      var re := [c] + "" + more;
      assert re == [c] + more && re[1..] == more && re[0] == c;
      assert more == "" ==> re == [c];
      assert more != "" ==> re[1] == more[0];
    }
  }

  lemma SpellStep(item: Item, p: Pattern)
    ensures Spell(Begin(item, p)) == SpellItem(item) + Spell(p)
  {
    assert ([item] + p.items)[1..] == p.items;
  }

  lemma SpellStarts(p: Pattern)
    ensures Spell(p) == "" <==> p.items == [] && !p.atEnd
    ensures p.items != [] ==> Spell(p)[0] == Sign(p.items[0].atom)
    ensures p.items == [] && p.atEnd ==> Spell(p) == "$"
  {
  }

  // Every pattern that can be written compiles to itself.
  lemma {:induction false} CompileSpell(p: Pattern)
    requires Writable(p)
    ensures Compile(Spell(p)) == p
    decreases |p.items|
  {
    hide Compile, Spell;
    if p.items == [] {
      SpellStarts(p);
      CompileNothing();
    } else {
      var item, rest := p.items[0], Pattern(p.items[1..], p.atEnd);
      assert p == Begin(item, rest);
      WritableTail(p);
      CompileSpell(rest);
      SpellStep(item, rest);
      SpellStarts(rest);
      CompileStep(Sign(item.atom), item.Star?, Spell(rest));
      assert AtomOf(Sign(item.atom)) == item.atom;
    }
  }

  lemma CompileNothing()
    ensures Compile("") == Pattern([], false) && Compile("$") == Pattern([], true)
  {
  }

  // Every expression spells the pattern it compiles to.
  lemma {:induction false} SpellCompile(re: string)
    ensures Writable(Compile(re)) && Spell(Compile(re)) == re
    decreases |re|
  {
    hide Compile, Spell, Writable;
    CompileNothing();
    if re == "" || re == "$" {
      SpellStarts(Compile(re));
      WritableNothing(re == "$");
    } else {
      var star := |re| >= 2 && re[1] == '*';
      var n := if star then 2 else 1;
      SpellCompile(re[n..]);
      var item, rest := if star then Star(AtomOf(re[0])) else One(AtomOf(re[0])), Compile(re[n..]);
      assert re == [re[0]] + (if star then "*" else "") + re[n..];
      CompileStep(re[0], star, re[n..]);
      SpellStep(item, rest);
      WritableCons(Begin(item, rest), rest, re[n..]);
    }
  }

  lemma WritableNothing(atEnd: bool)
    ensures Writable(Pattern([], atEnd))
  {
  }

  lemma WritableCons(p: Pattern, rest: Pattern, more: string)
    requires Writable(rest) && Spell(rest) == more
    requires p.items != [] && p.items[1..] == rest.items && p.atEnd == rest.atEnd
    requires p.items[0].atom != Literal('.')
    requires p.items[0].One? ==> (more != "" ==> more[0] != '*') && (p.items[0] == One(Literal('$')) ==> more != "")
    ensures Writable(p)
  {
    assert forall i :: 0 < i < |p.items| ==> p.items[i] == rest.items[i - 1];
    assert rest.items != [] ==> more[0] == Sign(rest.items[0].atom);
  }

  // An expression means a pattern exactly if it is the writing of it.
  lemma CompileIff(re: string, p: Pattern)
    ensures Compile(re) == p <==> Writable(p) && re == Spell(p)
  {
    SpellCompile(re);
    if Writable(p) {
      CompileSpell(p);
    }
  }

  // ----- matching

  // text[i..j] is in the language, and is where the anchor wants it.
  ghost predicate MatchAt(p: Pattern, text: string, i: nat, j: nat) {
    i <= j <= |text| && InLanguage(p.items, text[i..j]) && (p.atEnd ==> j == |text|)
  }

  ghost predicate Here(p: Pattern, text: string) {
    exists j: nat :: MatchAt(p, text, 0, j)
  }

  // Some substring matches; with '^' it is a prefix.
  ghost predicate Somewhere(re: string, text: string) {
    if re != "" && re[0] == '^' then exists j: nat :: MatchAt(Compile(re[1..]), text, 0, j)
    else exists i: nat, j: nat :: MatchAt(Compile(re), text, i, j)
  }

  // ----- the language, one item at a time

  lemma EmptyLanguage(w: string)
    ensures InLanguage([], w) <==> w == ""
  {
    if w == "" {
      assert Splits([], w, []);
    }
  }

  lemma ConsLanguage(item: Item, items: seq<Item>, w: string, k: nat)
    requires k <= |w| && InItem(item, w[..k]) && InLanguage(items, w[k..])
    ensures InLanguage([item] + items, w)
  {
    var pieces :| Splits(items, w[k..], pieces);
    var all := [w[..k]] + pieces;
    assert all[1..] == pieces;
    assert w == w[..k] + w[k..];
    assert Splits([item] + items, w, all);
  }

  lemma UnconsLanguage(item: Item, items: seq<Item>, w: string) returns (k: nat)
    requires InLanguage([item] + items, w)
    ensures k <= |w| && InItem(item, w[..k]) && InLanguage(items, w[k..])
  {
    var pieces :| Splits([item] + items, w, pieces);
    k := |pieces[0]|;
    assert w[..k] == pieces[0] && w[k..] == Concat(pieces[1..]);
    assert ([item] + items)[0] == item && InItem(item, pieces[0]);
    forall i | 0 <= i < |items|
      ensures InItem(items[i], pieces[1..][i])
    {
      assert InItem(([item] + items)[i + 1], pieces[i + 1]);
    }
    assert Splits(items, w[k..], pieces[1..]);
  }

  // A match at the front begins with a piece for the first item.
  lemma ConsHere(item: Item, p: Pattern, text: string, k: nat)
    requires k <= |text| && InItem(item, text[..k]) && Here(p, text[k..])
    ensures Here(Pattern([item] + p.items, p.atEnd), text)
  {
    var j: nat :| MatchAt(p, text[k..], 0, j);
    var w := text[0..k + j];
    Cut(text, k, k + j);
    ConsLanguage(item, p.items, w, k);
    assert MatchAt(Pattern([item] + p.items, p.atEnd), text, 0, k + j);
  }

  lemma UnconsHere(item: Item, p: Pattern, text: string) returns (k: nat)
    requires Here(Pattern([item] + p.items, p.atEnd), text)
    ensures k <= |text| && InItem(item, text[..k]) && Here(p, text[k..])
  {
    var j: nat :| MatchAt(Pattern([item] + p.items, p.atEnd), text, 0, j);
    var w := text[0..j];
    k := UnconsLanguage(item, p.items, w);
    Cut(text, k, j);
    assert MatchAt(p, text[k..], 0, j - k);
  }

  lemma Cut(text: string, k: nat, j: nat)
    requires k <= j <= |text|
    ensures text[0..j][..k] == text[..k] && text[0..j][k..] == text[k..][0..j - k]
  {
  }

  lemma OneHere(a: Atom, p: Pattern, text: string)
    ensures Here(Pattern([One(a)] + p.items, p.atEnd), text) <==>
              text != "" && Accepts(a, text[0]) && Here(p, text[1..])
  {
    if Here(Pattern([One(a)] + p.items, p.atEnd), text) {
      var k := UnconsHere(One(a), p, text);
    }
    if text != "" && Accepts(a, text[0]) && Here(p, text[1..]) {
      ConsHere(One(a), p, text, 1);
    }
  }

  lemma NothingHere(atEnd: bool, text: string)
    ensures Here(Pattern([], atEnd), text) <==> !atEnd || text == ""
  {
    EmptyLanguage("");
    if Here(Pattern([], atEnd), text) {
      var j: nat :| MatchAt(Pattern([], atEnd), text, 0, j);
      EmptyLanguage(text[0..j]);
    } else {
      assert text[0..0] == "";
      assert !MatchAt(Pattern([], atEnd), text, 0, 0);
    }
  }

  // Searching from i is matching the front of the text from i on.
  lemma HereFrom(p: Pattern, text: string, i: nat)
    requires i <= |text|
    ensures Here(p, text[i..]) <==> exists j: nat :: MatchAt(p, text, i, j)
  {
    if Here(p, text[i..]) {
      var j: nat :| MatchAt(p, text[i..], 0, j);
      assert text[i..][0..j] == text[i..i + j];
      assert MatchAt(p, text, i, i + j);
    }
    if exists j: nat :: MatchAt(p, text, i, j) {
      var j: nat :| MatchAt(p, text, i, j);
      assert text[i..][0..j - i] == text[i..j];
      assert MatchAt(p, text[i..], 0, j - i);
    }
  }

  // ----- the matcher

  method Match(re: string, text: string) returns (b: bool)
    ensures b <==> Somewhere(re, text)
  {
    if re != "" && re[0] == '^' {
      b := MatchHere(re[1..], text);
      return;
    }
    ghost var p := Compile(re);
    var i := 0;
    while true
      invariant 0 <= i <= |text|
      invariant forall x: nat, j: nat :: x < i ==> !MatchAt(p, text, x, j)
      decreases |text| - i
    {
      HereFrom(p, text, i);
      b := MatchHere(re, text[i..]);
      if b || i == |text| {
        return;
      }
      i := i + 1;
    }
  }

  method MatchHere(re: string, text: string) returns (b: bool)
    ensures b <==> Here(Compile(re), text)
    decreases |re|, |text|, 0
  {
    if re == "" {
      NothingHere(false, text);
      return true;
    }
    if |re| >= 2 && re[1] == '*' {
      b := MatchStar(re[0], re[2..], text);
      return;
    }
    if re == "$" {
      NothingHere(true, text);
      return text == "";
    }
    OneHere(AtomOf(re[0]), Compile(re[1..]), text);
    if text != "" && (re[0] == '.' || re[0] == text[0]) {
      b := MatchHere(re[1..], text[1..]);
      return;
    }
    return false;
  }

  method MatchStar(c: char, re: string, text: string) returns (b: bool)
    ensures b <==> Here(Pattern([Star(AtomOf(c))] + Compile(re).items, Compile(re).atEnd), text)
    decreases |re|, |text|, 1
  {
    ghost var p, star := Compile(re), Star(AtomOf(c));
    var i := 0;
    while true
      invariant 0 <= i <= |text| && InItem(star, text[..i])
      invariant forall x :: 0 <= x < i ==> !Here(p, text[x..])
      decreases |text| - i
    {
      b := MatchHere(re, text[i..]);
      if b {
        ConsHere(star, p, text, i);
        return;
      }
      if i == |text| || !(text[i] == c || c == '.') {
        StarStops(AtomOf(c), p, text, i);
        return;
      }
      assert text[..i + 1] == text[..i] + [text[i]];
      i := i + 1;
    }
  }

  // A starred piece ends no later than the first character its atom rejects.
  lemma StarStops(a: Atom, p: Pattern, text: string, i: nat)
    requires i <= |text| && (i == |text| || !Accepts(a, text[i]))
    ensures Here(Pattern([Star(a)] + p.items, p.atEnd), text) ==> exists x :: 0 <= x <= i && Here(p, text[x..])
  {
    if Here(Pattern([Star(a)] + p.items, p.atEnd), text) {
      var k := UnconsHere(Star(a), p, text);
      assert i < |text| ==> !Accepts(a, text[i]);
      assert forall x :: 0 <= x < k ==> text[..k][x] == text[x];
    }
  }
}
