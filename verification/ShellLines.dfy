/** Command lines written out byte by byte, and read back by the shell. */
module ShellLines {
  import opened Words
  import opened Bytes
  import opened ShellLexer
  import opened ShellParser

  // ---------------------------------------------------------------- lines

  /** What a line is made of: words, bare or in quotes, and the three signs between commands. */
  datatype Sign = Bare(text: seq<Byte>) | InQuotes(text: seq<Byte>) | Bar | Stop | Amp

  /** A sign with the white space before it. */
  datatype Item = Item(gap: seq<Byte>, sign: Sign)

  /** Tab, line feed, form feed, carriage return or space. */
  predicate White(b: Byte) {
    b == 9 || b == 10 || b == 12 || b == 13 || b == 32
  }

  /** White space, a bar, a quote, a semicolon or an ampersand. */
  predicate Special(b: Byte) {
    White(b) || b == 124 || b == 34 || b == 59 || b == 38
  }

  predicate Blank(gap: seq<Byte>) {
    forall k | 0 <= k < |gap| :: White(gap[k])
  }

  function Shown(g: Sign): seq<Byte> {
    match g
    case Bare(text) => text
    case InQuotes(text) => [34] + text + [34]
    case Bar => [124]
    case Stop => [59]
    case Amp => [38]
  }

  /** A bare word is not empty and has nothing special in it; a word in quotes has no quote in it. */
  predicate Writable(g: Sign) {
    match g
    case Bare(text) => text != [] && forall k | 0 <= k < |text| :: !Special(text[k])
    case InQuotes(text) => forall k | 0 <= k < |text| :: text[k] != 34
    case _ => true
  }

  function Printed(items: seq<Item>): seq<Byte> {
    if items == [] then [] else items[0].gap + Shown(items[0].sign) + Printed(items[1..])
  }

  /** Two bare words have white space between them. */
  predicate Readable(items: seq<Item>) {
    && (forall i | 0 <= i < |items| :: Blank(items[i].gap) && Writable(items[i].sign))
    && (forall i | 0 < i < |items| :: items[i - 1].sign.Bare? && items[i].sign.Bare? ==> items[i].gap != [])
  }

  /** n bytes of white space, and then nothing, or a quote that is never closed. */
  predicate Ending(rest: seq<Byte>, ok: bool, n: nat) {
    && n <= |rest| && Blank(rest[..n])
    && if ok then n == |rest| else n < |rest| && rest[n] == 34 && forall k | n < k < |rest| :: rest[k] != 34
  }

  /** What can be left of a line after its items. */
  ghost predicate Leftover(rest: seq<Byte>, ok: bool) {
    exists n: nat :: Ending(rest, ok, n)
  }

  // ---------------------------------------------------------------- what the lexer makes of them

  /** The token is the sign; a word is a span of the line that holds its text. */
  predicate Reads(line: seq<Byte>, t: Token, g: Sign) {
    match g
    case Bar => t == Pipe
    case Stop => t == Semicolon
    case Amp => t == Background
    case _ => t.Word? && t.span.start + t.span.len <= |line| && Text(line, t.span) == g.text
  }

  predicate ReadsAll(line: seq<Byte>, tokens: seq<Token>, signs: seq<Sign>) {
    |tokens| == |signs| && forall i | 0 <= i < |signs| :: Reads(line, tokens[i], signs[i])
  }

  function SignsOf(items: seq<Item>): (r: seq<Sign>)
    ensures |r| == |items| && forall i | 0 <= i < |r| :: r[i] == items[i].sign
  {
    seq(|items|, i requires 0 <= i < |items| => items[i].sign)
  }

  /** The bytes of a part of the line. */
  predicate Lies(line: seq<Byte>, at: nat, b: seq<Byte>) {
    at + |b| <= |line| && line[at..at + |b|] == b
  }

  lemma LiesAt(line: seq<Byte>, at: nat, b: seq<Byte>, k: nat)
    requires Lies(line, at, b) && k < |b|
    ensures line[at + k] == b[k]
  {
    assert line[at..at + |b|][k] == b[k];
  }

  lemma LiesInTurn(line: seq<Byte>, at: nat, a: seq<Byte>, b: seq<Byte>)
    requires at <= |line| && a + b == line[at..]
    ensures Lies(line, at, a) && at + |a| <= |line| && line[at + |a|..] == b
  {
    assert line[at..][..|a|] == a;
    assert line[at..][|a|..] == b;
  }

  lemma GapSkipped(line: seq<Byte>, pos: nat, gap: seq<Byte>)
    requires Lies(line, pos, gap) && Blank(gap) && (pos + |gap| < |line| ==> !White(line[pos + |gap|]))
    ensures SkipSpace(line, pos) == pos + |gap|
  {
    var r := SkipSpace(line, pos);
    if r < pos + |gap| { LiesAt(line, pos, gap, r - pos); }
  }

  lemma BareEnds(line: seq<Byte>, at: nat, text: seq<Byte>)
    requires Lies(line, at, text) && Writable(Bare(text)) && (at + |text| < |line| ==> Special(line[at + |text|]))
    ensures WordEnd(line, at) == at + |text|
  {
    var r := WordEnd(line, at);
    if r < at + |text| { LiesAt(line, at, text, r - at); }
  }

  lemma QuotesEnd(line: seq<Byte>, at: nat, text: seq<Byte>)
    requires Lies(line, at, text) && Writable(InQuotes(text)) && (at + |text| < |line| ==> line[at + |text|] == 34)
    ensures QuoteEnd(line, at) == at + |text|
  {
    var r := QuoteEnd(line, at);
    if r < at + |text| { LiesAt(line, at, text, r - at); }
  }

  lemma BareRead(line: seq<Byte>, pos: nat, at: nat, text: seq<Byte>)
    requires Short(line) && pos <= |line| && SkipSpace(line, pos) == at && Lies(line, at, text) && Writable(Bare(text))
    requires at + |text| < |line| ==> Special(line[at + |text|])
    ensures NextToken(line, pos) == Found(Word(Span(at, |text|)), at + |text|)
  {
    LiesAt(line, at, text, 0);
    BareEnds(line, at, text);
    Untruncated(line, at, at + |text|);
  }

  lemma QuotedRead(line: seq<Byte>, pos: nat, at: nat, text: seq<Byte>)
    requires Short(line) && pos <= |line| && SkipSpace(line, pos) == at && Lies(line, at + 1, text)
    requires at + 1 + |text| < |line| && line[at] == 34 == line[at + 1 + |text|] && Writable(InQuotes(text))
    ensures NextToken(line, pos) == Found(Word(Span(at + 1, |text|)), at + |text| + 2)
  {
    QuotesEnd(line, at + 1, text);
    Untruncated(line, at + 1, at + 1 + |text|);
  }

  lemma QuotesAround(line: seq<Byte>, at: nat, text: seq<Byte>)
    requires Lies(line, at, [34] + text + [34])
    ensures Lies(line, at + 1, text) && at + 1 + |text| < |line| && line[at] == 34 == line[at + 1 + |text|]
  {
    var shown := [34] + text + [34];
    LiesAt(line, at, shown, 0);
    LiesAt(line, at, shown, |text| + 1);
    assert line[at + 1..at + 1 + |text|] == line[at..at + |shown|][1..|text| + 1];
    assert shown[1..|text| + 1] == text;
  }

  lemma SignRead(line: seq<Byte>, pos: nat, at: nat, g: Sign)
    requires Short(line) && pos <= |line| && SkipSpace(line, pos) == at && Lies(line, at, Shown(g)) && Writable(g)
    requires g.Bare? && at + |Shown(g)| < |line| ==> Special(line[at + |Shown(g)|])
    ensures var r := NextToken(line, pos); r.Found? && Reads(line, r.token, g) && r.next == at + |Shown(g)|
  {
    match g
    case Bare(text) => BareRead(line, pos, at, text);
    case InQuotes(text) =>
      QuotesAround(line, at, text);
      QuotedRead(line, pos, at, text);
    case _ => LiesAt(line, at, Shown(g), 0);
  }

  /** A sign after white space is the next token. */
  lemma ItemRead(line: seq<Byte>, pos: nat, gap: seq<Byte>, g: Sign, rest: seq<Byte>)
    requires Short(line) && pos <= |line| && gap + (Shown(g) + rest) == line[pos..] && Blank(gap) && Writable(g)
    requires g.Bare? && rest != [] ==> Special(rest[0])
    ensures var r := NextToken(line, pos); r.Found? && Reads(line, r.token, g) && line[r.next..] == rest
  {
    var at := pos + |gap|;
    LiesInTurn(line, pos, gap, Shown(g) + rest);
    LiesInTurn(line, at, Shown(g), rest);
    NotBlank(g);
    LiesAt(line, at, Shown(g), 0);
    GapSkipped(line, pos, gap);
    assert rest != [] ==> rest[0] == line[at + |Shown(g)|];
    SignRead(line, pos, at, g);
  }

  lemma NotBlank(g: Sign)
    requires Writable(g)
    ensures Shown(g) != [] && !White(Shown(g)[0])
  {
  }

  /** What follows a bare word ends it. */
  lemma BareFollowed(items: seq<Item>, rest: seq<Byte>, ok: bool)
    requires items != [] && Readable(items) && Leftover(rest, ok)
    ensures var more := Printed(items[1..]) + rest; items[0].sign.Bare? && more != [] ==> Special(more[0])
    ensures Readable(items[1..])
  {
    var more := Printed(items[1..]) + rest;
    if |items| > 1 {
      var next := items[1];
      assert items[1..][0] == next && Writable(next.sign) && Blank(next.gap);
      NotBlank(next.sign);
      assert more[0] == if next.gap != [] then next.gap[0] else Shown(next.sign)[0];
    } else {
      var n: nat :| Ending(rest, ok, n);
      assert more == rest;
      if n > 0 { assert rest[..n][0] == rest[0]; }
    }
  }

  lemma EndRead(line: seq<Byte>, pos: nat, ok: bool, n: nat)
    requires pos <= |line| && Ending(line[pos..], ok, n)
    ensures NextToken(line, pos) == if ok then End else Unterminated
  {
    var rest := line[pos..];
    assert rest == rest[..n] + rest[n..];
    LiesInTurn(line, pos, rest[..n], rest[n..]);
    assert !ok ==> line[pos + n] == rest[n];
    GapSkipped(line, pos, rest[..n]);
    assert forall k | pos <= k < |line| :: line[k] == rest[k - pos];
  }

  lemma LeftoverRead(line: seq<Byte>, pos: nat, ok: bool)
    requires pos <= |line| && Leftover(line[pos..], ok)
    ensures Lex(line, pos) == Lexed([], ok)
  {
    var n: nat :| Ending(line[pos..], ok, n);
    EndRead(line, pos, ok, n);
  }

  lemma {:induction false} ItemsRead(line: seq<Byte>, pos: nat, items: seq<Item>, rest: seq<Byte>, ok: bool)
    requires Short(line) && pos <= |line| && line[pos..] == Printed(items) + rest
    requires Readable(items) && Leftover(rest, ok)
    ensures Lex(line, pos).ok == ok && ReadsAll(line, Lex(line, pos).tokens, SignsOf(items))
    decreases |items|
  {
    if items == [] {
      assert line[pos..] == rest;
      LeftoverRead(line, pos, ok);
    } else {
      var next := FirstRead(line, pos, items, rest, ok);
      ItemsRead(line, next.next, items[1..], rest, ok);
      LexStep(line, pos, next.token, next.next);
      ReadsMore(line, next.token, items, Lex(line, next.next).tokens);
    }
  }

  lemma InTurn(a: seq<Byte>, b: seq<Byte>, c: seq<Byte>, d: seq<Byte>)
    ensures a + b + c + d == a + (b + (c + d))
  {
  }

  lemma FirstRead(line: seq<Byte>, pos: nat, items: seq<Item>, rest: seq<Byte>, ok: bool) returns (next: Next)
    requires Short(line) && pos <= |line| && items != [] && line[pos..] == Printed(items) + rest
    requires Readable(items) && Leftover(rest, ok)
    ensures next == NextToken(line, pos) && next.Found? && Reads(line, next.token, items[0].sign)
    ensures next.next <= |line| && line[next.next..] == Printed(items[1..]) + rest && Readable(items[1..])
  {
    var first, more := items[0], Printed(items[1..]) + rest;
    BareFollowed(items, rest, ok);
    InTurn(first.gap, Shown(first.sign), Printed(items[1..]), rest);
    ItemRead(line, pos, first.gap, first.sign, more);
    next := NextToken(line, pos);
  }

  lemma ReadsMore(line: seq<Byte>, t: Token, items: seq<Item>, tokens: seq<Token>)
    requires items != [] && Reads(line, t, items[0].sign) && ReadsAll(line, tokens, SignsOf(items[1..]))
    ensures ReadsAll(line, [t] + tokens, SignsOf(items))
  {
    forall i | 0 <= i < |items| ensures Reads(line, ([t] + tokens)[i], SignsOf(items)[i]) {
      if i > 0 { assert Reads(line, tokens[i - 1], SignsOf(items[1..])[i - 1]); }
    }
  }

  /** A line written out from items, whatever their white space, is read as exactly these; and it is in order unless a
      quote is left open at its end. */
  lemma WrittenIsRead(items: seq<Item>, rest: seq<Byte>, ok: bool)
    requires Short(Printed(items) + rest) && Readable(items) && Leftover(rest, ok)
    ensures var line := Printed(items) + rest;
      Lex(line, 0).ok == ok && ReadsAll(line, Lex(line, 0).tokens, SignsOf(items))
  {
    var line := Printed(items) + rest;
    assert line[0..] == line;
    ItemsRead(line, 0, items, rest, ok);
  }

  // ---------------------------------------------------------------- every line is written out so

  /** The items of a part of a line, and what is left of it. */
  predicate IsWritten(b: seq<Byte>, items: seq<Item>, rest: seq<Byte>) {
    b == Printed(items) + rest && Readable(items)
  }

  lemma PrintedMore(gap: seq<Byte>, g: Sign, more: seq<Byte>, items: seq<Item>, rest: seq<Byte>)
    requires more == Printed(items) + rest
    ensures gap + Shown(g) + more == Printed([Item(gap, g)] + items) + rest
  {
    assert ([Item(gap, g)] + items)[1..] == items;
    InTurn(gap, Shown(g), Printed(items), rest);
  }

  lemma ReadableMore(gap: seq<Byte>, g: Sign, items: seq<Item>)
    requires Readable(items) && Blank(gap) && Writable(g)
    requires g.Bare? && items != [] && items[0].gap == [] ==> !items[0].sign.Bare?
    ensures Readable([Item(gap, g)] + items)
  {
    var all := [Item(gap, g)] + items;
    forall i | 0 <= i < |all| ensures Blank(all[i].gap) && Writable(all[i].sign) {
      if i > 0 { assert all[i] == items[i - 1]; }
    }
    forall i | 0 < i < |all| ensures all[i - 1].sign.Bare? && all[i].sign.Bare? ==> all[i].gap != [] {
      if i > 1 { assert all[i] == items[i - 1] && all[i - 1] == items[i - 2]; }
    }
  }

  lemma WrittenMore(gap: seq<Byte>, g: Sign, more: seq<Byte>, items: seq<Item>, rest: seq<Byte>)
    requires IsWritten(more, items, rest) && Blank(gap) && Writable(g)
    requires g.Bare? && more != [] ==> Special(more[0])
    ensures IsWritten(gap + Shown(g) + more, [Item(gap, g)] + items, rest)
  {
    if items != [] && items[0].gap == [] {
      NotBlank(items[0].sign);
      assert more[0] == Shown(items[0].sign)[0];
    }
    PrintedMore(gap, g, more, items, rest);
    ReadableMore(gap, g, items);
  }

  /** The first sign of a line after its white space, unless that is all, or a quote is left open. */
  lemma FirstSign(b: seq<Byte>, n: nat) returns (g: Sign)
    requires n < |b| && !White(b[n]) && !(b[n] == 34 && forall k | n < k < |b| :: b[k] != 34)
    ensures Writable(g) && n + |Shown(g)| <= |b| && b[n..n + |Shown(g)|] == Shown(g)
    ensures g.Bare? && n + |Shown(g)| < |b| ==> Special(b[n + |Shown(g)|])
  {
    if b[n] == 124 {
      g := Bar;
    } else if b[n] == 59 {
      g := Stop;
    } else if b[n] == 38 {
      g := Amp;
    } else if b[n] == 34 {
      var end := QuoteEnd(b, n + 1);
      g := InQuotes(b[n + 1..end]);
      assert b[n..end + 1] == [34] + b[n + 1..end] + [34];
    } else {
      g := Bare(b[n..WordEnd(b, n)]);
    }
  }

  /** Any line at all is written out so, up to white space and a quote left open at its end. */
  lemma {:induction false} EveryLineIsWritten(b: seq<Byte>) returns (items: seq<Item>, rest: seq<Byte>, ok: bool)
    ensures b == Printed(items) + rest && Readable(items) && Leftover(rest, ok)
    decreases |b|
  {
    var n := SkipSpace(b, 0);
    if n == |b| || (b[n] == 34 && forall k | n < k < |b| :: b[k] != 34) {
      items, rest, ok := [], b, n == |b|;
      assert Printed([]) + b == b;
      assert Ending(b, ok, n);
    } else {
      var g := FirstSign(b, n);
      NotBlank(g);
      var more := b[n + |Shown(g)|..];
      items, rest, ok := EveryLineIsWritten(more);
      WrittenFirst(b, n, g, more, items, rest);
      items := [Item(b[..n], g)] + items;
    }
  }

  lemma WrittenFirst(b: seq<Byte>, n: nat, g: Sign, more: seq<Byte>, items: seq<Item>, rest: seq<Byte>)
    requires n + |Shown(g)| <= |b| && Blank(b[..n]) && Writable(g) && b[n..n + |Shown(g)|] == Shown(g)
    requires more == b[n + |Shown(g)|..] && IsWritten(more, items, rest)
    requires g.Bare? && n + |Shown(g)| < |b| ==> Special(b[n + |Shown(g)|])
    ensures IsWritten(b, [Item(b[..n], g)] + items, rest)
  {
    assert b == b[..n] + Shown(g) + more;
    WrittenMore(b[..n], g, more, items, rest);
  }

  /** So every line short enough for eight-bit spans is read as what is written on it. */
  lemma EveryLineIsRead(line: seq<Byte>) returns (items: seq<Item>, rest: seq<Byte>, ok: bool)
    requires Short(line)
    ensures line == Printed(items) + rest && Readable(items) && Leftover(rest, ok)
    ensures Lex(line, 0).ok == ok && ReadsAll(line, Lex(line, 0).tokens, SignsOf(items))
  {
    items, rest, ok := EveryLineIsWritten(line);
    WrittenIsRead(items, rest, ok);
  }

  // ---------------------------------------------------------------- jobs

  /** A job as it is written: pipelines of commands, each of them words. */
  datatype Order = Order(commands: seq<seq<Sign>>, background: bool)

  predicate IsWord(g: Sign) {
    g.Bare? || g.InQuotes?
  }

  /** At most eight commands, each of at most sixteen words, and none empty. */
  predicate Modest(o: Order) {
    && 1 <= |o.commands| <= 8
    && forall i | 0 <= i < |o.commands| ::
         1 <= |o.commands[i]| <= 16 && forall k | 0 <= k < |o.commands[i]| :: IsWord(o.commands[i][k])
  }

  /** Commands, each followed by a bar. */
  function Barred(commands: seq<seq<Sign>>): seq<Sign> {
    if commands == [] then [] else Barred(commands[..|commands| - 1]) + commands[|commands| - 1] + [Bar]
  }

  function OrderSigns(o: Order): seq<Sign>
    requires o.commands != []
  {
    Barred(o.commands[..|o.commands| - 1]) + o.commands[|o.commands| - 1] + [if o.background then Amp else Stop]
  }

  /** Jobs one after the other. */
  function AllSigns(orders: seq<Order>): seq<Sign>
    requires forall i | 0 <= i < |orders| :: Modest(orders[i])
  {
    if orders == [] then [] else
      assert Modest(orders[0]);
      OrderSigns(orders[0]) + AllSigns(orders[1..])
  }

  /** The command is these words of the line. */
  predicate Says(line: seq<Byte>, c: Command, words: seq<Sign>) {
    && |c| == |words|
    && forall k | 0 <= k < |words| ::
         IsWord(words[k]) && c[k].start + c[k].len <= |line| && Text(line, c[k]) == words[k].text
  }

  predicate SaysAll(line: seq<Byte>, cs: seq<Command>, commands: seq<seq<Sign>>) {
    |cs| == |commands| && forall i | 0 <= i < |commands| :: Says(line, cs[i], commands[i])
  }

  /** The job executed is the one written. */
  predicate Obeys(line: seq<Byte>, j: Job, o: Order) {
    j.background == o.background && SaysAll(line, j.commands, o.commands)
  }

  predicate ObeysAll(line: seq<Byte>, jobs: seq<Job>, orders: seq<Order>) {
    |jobs| == |orders| && forall i | 0 <= i < |orders| :: Obeys(line, jobs[i], orders[i])
  }

  lemma ReadsParts(line: seq<Byte>, tokens: seq<Token>, a: seq<Sign>, b: seq<Sign>)
    returns (x: seq<Token>, y: seq<Token>)
    requires ReadsAll(line, tokens, a + b)
    ensures tokens == x + y && ReadsAll(line, x, a) && ReadsAll(line, y, b)
  {
    x, y := tokens[..|a|], tokens[|a|..];
    forall i | 0 <= i < |a| ensures Reads(line, x[i], a[i]) { assert (a + b)[i] == a[i]; }
    forall i | 0 <= i < |b| ensures Reads(line, y[i], b[i]) { assert (a + b)[|a| + i] == b[i]; }
  }

  lemma WordsBack(line: seq<Byte>, tokens: seq<Token>, words: seq<Sign>) returns (c: Command)
    requires ReadsAll(line, tokens, words) && forall k | 0 <= k < |words| :: IsWord(words[k])
    ensures tokens == WordsOf(c) && Says(line, c, words)
  {
    forall k | 0 <= k < |words| ensures tokens[k].Word? { assert Reads(line, tokens[k], words[k]); }
    c := seq(|words|, k requires 0 <= k < |words| => tokens[k].span);
    forall k | 0 <= k < |words| ensures Text(line, c[k]) == words[k].text {
      assert Reads(line, tokens[k], words[k]);
    }
  }

  lemma CommandBack(line: seq<Byte>, tokens: seq<Token>, words: seq<Sign>, g: Sign) returns (c: Command, t: Token)
    requires ReadsAll(line, tokens, words + [g]) && forall k | 0 <= k < |words| :: IsWord(words[k])
    ensures tokens == WordsOf(c) + [t] && Says(line, c, words) && Reads(line, t, g)
  {
    var x, y := ReadsParts(line, tokens, words, [g]);
    c := WordsBack(line, x, words);
    assert Reads(line, y[0], [g][0]);
    t := y[0];
  }

  lemma {:induction false} BarredBack(line: seq<Byte>, tokens: seq<Token>, commands: seq<seq<Sign>>)
    returns (cs: seq<Command>)
    requires ReadsAll(line, tokens, Barred(commands))
    requires forall i | 0 <= i < |commands| :: forall k | 0 <= k < |commands[i]| :: IsWord(commands[i][k])
    ensures tokens == Piped(cs) && SaysAll(line, cs, commands)
    decreases |commands|
  {
    if commands == [] {
      cs := [];
    } else {
      var init, last := commands[..|commands| - 1], commands[|commands| - 1];
      assert Barred(commands) == Barred(init) + (last + [Bar]);
      var x, y := ReadsParts(line, tokens, Barred(init), last + [Bar]);
      var more := BarredBack(line, x, init);
      var c, t := CommandBack(line, y, last, Bar);
      cs := more + [c];
      assert cs[..|more|] == more;
      assert x + (WordsOf(c) + [Pipe]) == x + WordsOf(c) + [Pipe];
    }
  }

  lemma OrderBack(line: seq<Byte>, tokens: seq<Token>, o: Order) returns (j: Job)
    requires Modest(o) && ReadsAll(line, tokens, OrderSigns(o))
    ensures GoodJob(j) && tokens == JobTokens(j) && Obeys(line, j, o)
  {
    var init, last := o.commands[..|o.commands| - 1], o.commands[|o.commands| - 1];
    var end := if o.background then Amp else Stop;
    assert OrderSigns(o) == Barred(init) + (last + [end]);
    var x, y := ReadsParts(line, tokens, Barred(init), last + [end]);
    var cs := BarredBack(line, x, init);
    var c, t := CommandBack(line, y, last, end);
    j := Job(cs + [c], o.background);
    PartialJob(cs, c, o.background);
    assert x + (WordsOf(c) + [t]) == x + WordsOf(c) + [t];
    forall i | 0 <= i < |o.commands| ensures Says(line, j.commands[i], o.commands[i]) {
      if i < |init| { assert Says(line, cs[i], init[i]); }
    }
  }

  lemma {:induction false} OrdersBack(line: seq<Byte>, tokens: seq<Token>, orders: seq<Order>) returns (jobs: seq<Job>)
    requires forall i | 0 <= i < |orders| :: Modest(orders[i])
    requires ReadsAll(line, tokens, AllSigns(orders))
    ensures GoodJobs(jobs) && tokens == Line(jobs) && ObeysAll(line, jobs, orders)
    decreases |orders|
  {
    if orders == [] {
      jobs := [];
    } else {
      var x, y := ReadsParts(line, tokens, OrderSigns(orders[0]), AllSigns(orders[1..]));
      var j := OrderBack(line, x, orders[0]);
      var more := OrdersBack(line, y, orders[1..]);
      jobs := [j] + more;
      assert jobs[1..] == more;
      forall i | 0 <= i < |orders| ensures GoodJob(jobs[i]) && Obeys(line, jobs[i], orders[i]) {
        if i > 0 { assert jobs[i] == more[i - 1] && orders[i] == orders[1..][i - 1]; }
      }
    }
  }

  /** The jobs are written by these items: in order, each with its end, but that of the last may be missing if it is no
      ampersand. */
  predicate Orders(items: seq<Item>, orders: seq<Order>) {
    && (forall i | 0 <= i < |orders| :: Modest(orders[i]))
    && (SignsOf(items) == AllSigns(orders) || SignsOf(items) + [Stop] == AllSigns(orders))
  }

  lemma ParsedOrders(line: seq<Byte>, tokens: seq<Token>, items: seq<Item>, orders: seq<Order>)
    returns (jobs: seq<Job>)
    requires Orders(items, orders) && ReadsAll(line, tokens, SignsOf(items))
    ensures Parse(tokens, true, [], []) == Outcome(jobs, None) && ObeysAll(line, jobs, orders)
  {
    if SignsOf(items) == AllSigns(orders) {
      jobs := OrdersBack(line, tokens, orders);
    } else {
      var all := tokens + [Semicolon];
      forall i | 0 <= i < |all| ensures Reads(line, all[i], (SignsOf(items) + [Stop])[i]) {
        if i < |tokens| { assert Reads(line, tokens[i], SignsOf(items)[i]); }
      }
      jobs := OrdersBack(line, all, orders);
      TrailingSemicolon(tokens, [], []);
    }
    FeedLine(jobs, [], true);
    assert Line(jobs) + [] == Line(jobs) && jobs + [] == jobs;
  }

  /** A line on which jobs are written, in whatever white space, executes exactly these jobs, in order, with the words
      they are written with, and in the background exactly where an ampersand is. */
  lemma OrdersAreObeyed(items: seq<Item>, gap: seq<Byte>, orders: seq<Order>) returns (jobs: seq<Job>)
    requires Short(Printed(items) + gap) && Readable(items) && Blank(gap) && Orders(items, orders)
    ensures var line := Printed(items) + gap;
      ParseFrom(line, 0, [], []) == Outcome(jobs, None) && ObeysAll(line, jobs, orders)
  {
    var line := Printed(items) + gap;
    assert gap[..|gap|] == gap;
    assert Ending(gap, true, |gap|);
    WrittenIsRead(items, gap, true);
    jobs := ParsedOrders(line, Lex(line, 0).tokens, items, orders);
  }

  /** The seventeenth word of a command, and the ninth command of a job, end the line before anything of that job is
      executed. */
  lemma LimitsAre(cs: seq<Command>, c: Command, s: Span, rest: seq<Token>, ok: bool)
    requires forall i | 0 <= i < |cs| :: 1 <= |cs[i]| <= 16
    ensures |cs| <= 8 && |c| == 16 ==>
      Parse(Partial(cs, c) + [Word(s)] + rest, ok, [], []) == Outcome([], Some(TooManyArguments))
    ensures |cs| == 8 && 1 <= |c| <= 16 ==>
      Parse(Partial(cs, c) + [Pipe] + rest, ok, [], []) == Outcome([], Some(TooManyCommands))
  {
    if |cs| <= 8 && |c| <= 16 {
      assert Partial(cs, c) + [Word(s)] + rest == Partial(cs, c) + ([Word(s)] + rest);
      assert Partial(cs, c) + [Pipe] + rest == Partial(cs, c) + ([Pipe] + rest);
      FeedPartial(cs, c, [Word(s)] + rest, ok);
      FeedPartial(cs, c, [Pipe] + rest, ok);
    }
  }
}
