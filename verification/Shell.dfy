/** The shell's lexer: tokens as spans of the input line. */
module ShellLexer {
  import opened Words
  import opened Bytes

  const PIPE: Byte := 124        // |
  const SEMICOLON: Byte := 59    // ;
  const AMPERSAND: Byte := 38    // &
  const QUOTE: Byte := 34        // "
  const SPACE: Byte := 32

  /** A start and a length, kept in eight bits each. */
  datatype Span = Span(start: nat, len: nat)

  datatype Token = Word(span: Span) | Pipe | Semicolon | Background

  /** What `next_token` finds from a position on. */
  datatype Next = End | Unterminated | Found(token: Token, next: nat)

  predicate IsSpace(b: Byte) {
    b == 9 || b == 10 || b == 12 || b == 13 || b == SPACE
  }

  predicate EndsWord(b: Byte) {
    b == PIPE || b == QUOTE || b == SEMICOLON || b == AMPERSAND || IsSpace(b)
  }

  /** The first position from pos on that holds no white space. */
  function SkipSpace(input: seq<Byte>, pos: nat): (r: nat)
    requires pos <= |input|
    ensures pos <= r <= |input| && (forall k | pos <= k < r :: IsSpace(input[k]))
      && (r < |input| ==> !IsSpace(input[r]))
    decreases |input| - pos
  {
    if pos < |input| && IsSpace(input[pos]) then SkipSpace(input, pos + 1) else pos
  }

  /** The first quote from pos on, or the end. */
  function QuoteEnd(input: seq<Byte>, pos: nat): (r: nat)
    requires pos <= |input|
    ensures pos <= r <= |input| && (forall k | pos <= k < r :: input[k] != QUOTE) && (r < |input| ==> input[r] == QUOTE)
    decreases |input| - pos
  {
    if pos < |input| && input[pos] != QUOTE then QuoteEnd(input, pos + 1) else pos
  }

  /** The end of the unquoted word at pos. */
  function WordEnd(input: seq<Byte>, pos: nat): (r: nat)
    requires pos <= |input|
    ensures pos <= r <= |input| && (forall k | pos <= k < r :: !EndsWord(input[k]))
      && (r < |input| ==> EndsWord(input[r]))
    decreases |input| - pos
  {
    if pos < |input| && !EndsWord(input[pos]) then WordEnd(input, pos + 1) else pos
  }

  /** `as u8` */
  function Low(n: nat): nat {
    if n < 256 then n else n % 256
  }

  /** A span as stored: truncated to eight bits. */
  function Stored(start: nat, end: nat): Span
    requires start <= end
  {
    Span(Low(start), Low(end - start))
  }

  function NextToken(input: seq<Byte>, pos: nat): (r: Next)
    requires pos <= |input|
    ensures r.Found? ==> pos < r.next <= |input|
  {
    var at := SkipSpace(input, pos);
    if at == |input| then End
    else if input[at] == PIPE then Found(Pipe, at + 1)
    else if input[at] == SEMICOLON then Found(Semicolon, at + 1)
    else if input[at] == AMPERSAND then Found(Background, at + 1)
    else if input[at] == QUOTE then
      var end := QuoteEnd(input, at + 1);
      if end == |input| then Unterminated else Found(Word(Stored(at + 1, end)), end + 1)
    else
      var end := WordEnd(input, at);
      Found(Word(Stored(at, end)), end)
  }

  /** All tokens from a position on, and whether the line ended well. */
  datatype Lexed = Lexed(tokens: seq<Token>, ok: bool)

  function Lex(input: seq<Byte>, pos: nat): Lexed
    requires pos <= |input|
    decreases |input| - pos
  {
    match NextToken(input, pos)
    case End => Lexed([], true)
    case Unterminated => Lexed([], false)
    case Found(token, next) =>
      var rest := Lex(input, next);
      Lexed([token] + rest.tokens, rest.ok)
  }

  /** `Span::as_str` */
  function Text(input: seq<Byte>, s: Span): seq<Byte>
    requires s.start + s.len <= |input|
  {
    input[s.start..s.start + s.len]
  }

  // ---------------------------------------------------------------- spans

  /** Lines short enough for eight-bit spans. */
  predicate Short(input: seq<Byte>) {
    |input| <= 255
  }

  /** Is the span inside [from, to)? */
  predicate Within(s: Span, from: nat, to: nat) {
    from <= s.start && s.start + s.len <= to
  }

  lemma Untruncated(input: seq<Byte>, start: nat, end: nat)
    requires Short(input) && start <= end <= |input|
    ensures Stored(start, end) == Span(start, end - start)
  {
  }

  lemma TokenWithin(input: seq<Byte>, pos: nat)
    requires pos <= |input| && Short(input)
    ensures var r := NextToken(input, pos); r.Found? && r.token.Word? ==> Within(r.token.span, pos, r.next)
  {
  }

  /** The words of a line lie in it one after the other, without overlap. */
  predicate Ordered(tokens: seq<Token>, from: nat, to: nat) {
    && (forall i | 0 <= i < |tokens| && tokens[i].Word? :: Within(tokens[i].span, from, to))
    && (forall i, j | 0 <= i < j < |tokens| && tokens[i].Word? && tokens[j].Word? ::
          tokens[i].span.start + tokens[i].span.len <= tokens[j].span.start)
  }

  lemma {:induction false} SpansOrdered(input: seq<Byte>, pos: nat)
    requires pos <= |input| && Short(input)
    ensures Ordered(Lex(input, pos).tokens, pos, |input|)
    decreases |input| - pos
  {
    var r := NextToken(input, pos);
    if r.Found? {
      TokenWithin(input, pos);
      SpansOrdered(input, r.next);
      var rest, all := Lex(input, r.next).tokens, Lex(input, pos).tokens;
      forall i | 0 <= i < |all| && all[i].Word?
        ensures Within(all[i].span, pos, |input|) && (i > 0 ==> Within(all[i].span, r.next, |input|))
      {
        if i > 0 { assert all[i] == rest[i - 1]; }
      }
      forall i, j | 0 <= i < j < |all| && all[i].Word? && all[j].Word?
        ensures all[i].span.start + all[i].span.len <= all[j].span.start
      {
        if i > 0 { assert all[i] == rest[i - 1] && all[j] == rest[j - 1]; }
      }
    }
  }

  // ---------------------------------------------------------------- character boundaries

  predicate IsContinuation(b: Byte) {
    128 <= b < 192
  }

  /** What well-formed UTF-8 guarantees here: no character starts in the middle, and an ASCII byte is a whole one. */
  predicate CharactersStart(input: seq<Byte>) {
    && (input != [] ==> !IsContinuation(input[0]))
    && (forall i | 0 < i < |input| && input[i - 1] < 128 :: !IsContinuation(input[i]))
  }

  /** May the line be cut here? */
  predicate Boundary(input: seq<Byte>, i: nat) {
    i <= |input| && (i == |input| || !IsContinuation(input[i]))
  }

  lemma SkipAligned(input: seq<Byte>, pos: nat)
    requires CharactersStart(input) && Boundary(input, pos)
    ensures Boundary(input, SkipSpace(input, pos))
  {
    var at := SkipSpace(input, pos);
    if pos < at < |input| { assert IsSpace(input[at - 1]); }
  }

  /** From one boundary the lexer goes to the next, and the span it cuts out lies between boundaries. */
  lemma TokenAligned(input: seq<Byte>, pos: nat)
    requires CharactersStart(input) && Boundary(input, pos) && Short(input)
    ensures var r := NextToken(input, pos);
      r.Found? ==> Boundary(input, r.next)
                   && (r.token.Word? ==>
                       Boundary(input, r.token.span.start)
                       && Boundary(input, r.token.span.start + r.token.span.len))
  {
    var at := SkipSpace(input, pos);
    SkipAligned(input, pos);
    if at < |input| {
      if input[at] == QUOTE {
        assert Boundary(input, at + 1);
        Untruncated(input, at + 1, QuoteEnd(input, at + 1));
      } else if !EndsWord(input[at]) {
        Untruncated(input, at, WordEnd(input, at));
      }
    }
  }

  predicate Aligned(input: seq<Byte>, tokens: seq<Token>) {
    forall i | 0 <= i < |tokens| && tokens[i].Word? ::
      Boundary(input, tokens[i].span.start) && Boundary(input, tokens[i].span.start + tokens[i].span.len)
  }

  lemma {:induction false} SpansAligned(input: seq<Byte>, pos: nat)
    requires CharactersStart(input) && Boundary(input, pos) && Short(input)
    ensures Aligned(input, Lex(input, pos).tokens)
    decreases |input| - pos
  {
    var r := NextToken(input, pos);
    TokenAligned(input, pos);
    if r.Found? {
      SpansAligned(input, r.next);
    }
  }

  // ---------------------------------------------------------------- quoting

  /** Words, each in quotes, with a space before it. */
  function Quoted(words: seq<seq<Byte>>): seq<Byte> {
    if words == [] then [] else [SPACE, QUOTE] + words[0] + [QUOTE] + Quoted(words[1..])
  }

  predicate QuoteFree(word: seq<Byte>) {
    forall k | 0 <= k < |word| :: word[k] != QUOTE
  }

  /** One quoted word at a position is the next token. */
  lemma QuotedToken(input: seq<Byte>, pos: nat, word: seq<Byte>)
    requires Short(input) && QuoteFree(word) && pos + |word| + 3 <= |input|
    requires input[pos] == SPACE && input[pos + 1] == QUOTE && input[pos + 2 + |word|] == QUOTE
    requires forall k | 0 <= k < |word| :: input[pos + 2 + k] == word[k]
    ensures NextToken(input, pos) == Found(Word(Span(pos + 2, |word|)), pos + |word| + 3)
  {
    assert SkipSpace(input, pos) == pos + 1;
    var end := QuoteEnd(input, pos + 2);
    forall k | pos + 2 <= k < pos + 2 + |word|
      ensures input[k] != QUOTE
    {
      assert input[pos + 2 + (k - (pos + 2))] == word[k - (pos + 2)];
    }
    Untruncated(input, pos + 2, end);
  }

  /** The first quoted word of a line that goes on with others. */
  lemma FirstQuoted(input: seq<Byte>, pos: nat, word: seq<Byte>, rest: seq<Byte>)
    requires pos <= |input| && input[pos..] == [SPACE, QUOTE] + word + [QUOTE] + rest
    ensures pos + |word| + 3 <= |input| && input[pos] == SPACE && input[pos + 1] == QUOTE
      && input[pos + 2 + |word|] == QUOTE
    ensures forall k | 0 <= k < |word| :: input[pos + 2 + k] == word[k]
    ensures input[pos + |word| + 3..] == rest
  {
    var tail := input[pos..];
    var n := |word| + 3;
    assert |tail| == n + |rest|;
    assert input[pos] == tail[0] && input[pos + 1] == tail[1] && input[pos + 2 + |word|] == tail[2 + |word|];
    forall k | 0 <= k < |word|
      ensures input[pos + 2 + k] == word[k]
    {
      assert tail[2 + k] == word[k];
    }
    assert input[pos + n..] == tail[n..];
    assert tail[n..] == rest;
  }

  ghost predicate GivesBack(input: seq<Byte>, tokens: seq<Token>, words: seq<seq<Byte>>) {
    |tokens| == |words| && forall i | 0 <= i < |words| ::
      tokens[i].Word? && Within(tokens[i].span, 0, |input|) && Text(input, tokens[i].span) == words[i]
  }

  lemma GivesBackMore(input: seq<Byte>, span: Span, rest: seq<Token>, words: seq<seq<Byte>>)
    requires words != [] && Within(span, 0, |input|) && Text(input, span) == words[0]
      && GivesBack(input, rest, words[1..])
    ensures GivesBack(input, [Word(span)] + rest, words)
  {
    var all := [Word(span)] + rest;
    forall i | 0 <= i < |words|
      ensures all[i].Word? && Within(all[i].span, 0, |input|) && Text(input, all[i].span) == words[i]
    {
      if i > 0 { assert all[i] == rest[i - 1] && words[i] == words[1..][i - 1]; }
    }
  }

  /** Lexing quoted words gives them back, whatever they contain but quotes. */
  lemma {:induction false} QuotesLexFrom(input: seq<Byte>, pos: nat, words: seq<seq<Byte>>)
    requires Short(input) && pos <= |input| && input[pos..] == Quoted(words)
    requires forall i | 0 <= i < |words| :: QuoteFree(words[i])
    ensures Lex(input, pos).ok && GivesBack(input, Lex(input, pos).tokens, words)
    decreases |words|
  {
    if words == [] {
      assert |input[pos..]| == 0;
    } else {
      var w, next := words[0], pos + |words[0]| + 3;
      FirstQuoted(input, pos, w, Quoted(words[1..]));
      QuotedToken(input, pos, w);
      QuotedText(input, pos + 2, w);
      QuotesLexFrom(input, next, words[1..]);
      LexStep(input, pos, Word(Span(pos + 2, |w|)), next);
      GivesBackMore(input, Span(pos + 2, |w|), Lex(input, next).tokens, words);
    }
  }

  lemma LexStep(input: seq<Byte>, pos: nat, token: Token, next: nat)
    requires pos <= |input| && NextToken(input, pos) == Found(token, next)
    ensures next <= |input| && Lex(input, pos) == Lexed([token] + Lex(input, next).tokens, Lex(input, next).ok)
  {
  }

  lemma QuotedText(input: seq<Byte>, at: nat, word: seq<Byte>)
    requires at + |word| <= |input| && forall k | 0 <= k < |word| :: input[at + k] == word[k]
    ensures Text(input, Span(at, |word|)) == word
  {
  }

  /** Quoting any words without quotes and lexing the line gives them back. */
  lemma QuotesRoundTrip(words: seq<seq<Byte>>)
    requires Short(Quoted(words)) && forall i | 0 <= i < |words| :: QuoteFree(words[i])
    ensures var input := Quoted(words); Lex(input, 0).ok && GivesBack(input, Lex(input, 0).tokens, words)
  {
    assert Quoted(words)[0..] == Quoted(words);
    QuotesLexFrom(Quoted(words), 0, words);
  }

  // ---------------------------------------------------------------- the lexer

  class Lexer {
    const input: seq<Byte>
    var pos: nat

    constructor (input: seq<Byte>)
      ensures this.input == input && pos == 0
    {
      this.input, pos := input, 0;
    }

    /** `next_token`: the position moves past the token found. */
    method Next() returns (r: Next)
      requires pos <= |input|
      modifies this`pos
      ensures old(pos) <= pos <= |input| && r == NextToken(input, old(pos)) && (r.Found? ==> pos == r.next)
    {
      while pos < |input| && IsSpace(input[pos])
        invariant old(pos) <= pos <= |input| && SkipSpace(input, old(pos)) == SkipSpace(input, pos)
      {
        pos := pos + 1;
      }
      if pos >= |input| {
        return End;
      }
      var b := input[pos];
      if b == PIPE || b == SEMICOLON || b == AMPERSAND {
        pos := pos + 1;
        r := Found(if b == PIPE then Pipe else if b == SEMICOLON then Semicolon else Background, pos);
      } else if b == QUOTE {
        pos := pos + 1;
        var start := pos;
        while pos < |input| && input[pos] != QUOTE
          invariant start <= pos <= |input| && QuoteEnd(input, start) == QuoteEnd(input, pos)
        {
          pos := pos + 1;
        }
        if pos == |input| {
          return Unterminated;
        }
        pos := pos + 1;
        r := Found(Word(Stored(start, pos - 1)), pos);
      } else {
        var start := pos;
        while pos < |input| && !EndsWord(input[pos])
          invariant start <= pos <= |input| && WordEnd(input, start) == WordEnd(input, pos)
        {
          pos := pos + 1;
        }
        r := Found(Word(Stored(start, pos)), pos);
      }
    }
  }
}

/** The shell's parser: a line is split at `;` and `&` into jobs, and these at `|` into commands. */
module ShellParser {
  import opened Words
  import opened Bytes
  import opened ShellLexer

  const MAX_ARGS: nat := 16
  const MAX_COMMANDS: nat := 8

  type Command = seq<Span>

  /** What is executed: the commands of a pipeline, in order, and whether in the background. */
  datatype Job = Job(commands: seq<Command>, background: bool)

  datatype Error = Lexical | EmptyCommand | TooManyArguments | TooManyCommands

  /** The jobs executed, and the error that ended the line, if any. */
  datatype Outcome = Outcome(trace: seq<Job>, error: Option<Error>)

  predicate IsSeparator(t: Token) {
    t == Semicolon || t == Background
  }

  /** The parser's course from a point in the line: cmds are the commands piped so far, cur the one being read. */
  function Parse(tokens: seq<Token>, ok: bool, cmds: seq<Command>, cur: Command): Outcome
    decreases |tokens|
  {
    if tokens == [] then
      if !ok then Outcome([], Some(Lexical))
      else if cur == [] then Outcome([], if cmds == [] then None else Some(EmptyCommand))
      else if |cmds| >= MAX_COMMANDS then Outcome([], Some(TooManyCommands))
      else Outcome([Job(cmds + [cur], false)], None)
    else
      match tokens[0]
      case Word(span) =>
        if |cur| >= MAX_ARGS then Outcome([], Some(TooManyArguments)) else Parse(tokens[1..], ok, cmds, cur + [span])
      case Pipe =>
        if cur == [] then Outcome([], Some(EmptyCommand))
        else if |cmds| >= MAX_COMMANDS then Outcome([], Some(TooManyCommands))
        else Parse(tokens[1..], ok, cmds + [cur], [])
      case _ =>
        if cur == [] then
          if cmds != [] then Outcome([], Some(EmptyCommand)) else Parse(tokens[1..], ok, [], [])
        else if |cmds| >= MAX_COMMANDS then Outcome([], Some(TooManyCommands))
        else
          var rest := Parse(tokens[1..], ok, [], []);
          Outcome([Job(cmds + [cur], tokens[0] == Background)] + rest.trace, rest.error)
  }

  // ---------------------------------------------------------------- jobs written out as tokens

  function WordsOf(c: Command): (r: seq<Token>)
    ensures |r| == |c| && forall i | 0 <= i < |c| :: r[i] == Word(c[i])
  {
    seq(|c|, i requires 0 <= i < |c| => Word(c[i]))
  }

  /** Commands, each followed by a pipe. */
  function Piped(cmds: seq<Command>): seq<Token> {
    if cmds == [] then [] else Piped(cmds[..|cmds| - 1]) + WordsOf(cmds[|cmds| - 1]) + [Pipe]
  }

  function Partial(cmds: seq<Command>, cur: Command): seq<Token> {
    Piped(cmds) + WordsOf(cur)
  }

  function Separator(background: bool): Token {
    if background then Background else Semicolon
  }

  function JobTokens(j: Job): seq<Token>
    requires j.commands != []
  {
    Partial(j.commands[..|j.commands| - 1], j.commands[|j.commands| - 1]) + [Separator(j.background)]
  }

  predicate GoodCommand(c: Command) {
    1 <= |c| <= MAX_ARGS
  }

  predicate GoodCommands(cmds: seq<Command>) {
    |cmds| <= MAX_COMMANDS && forall i | 0 <= i < |cmds| :: GoodCommand(cmds[i])
  }

  predicate GoodJob(j: Job) {
    j.commands != [] && GoodCommands(j.commands)
  }

  predicate GoodJobs(jobs: seq<Job>) {
    forall i | 0 <= i < |jobs| :: GoodJob(jobs[i])
  }

  /** Jobs one after the other, each ended by its separator. */
  function Line(jobs: seq<Job>): seq<Token>
    requires GoodJobs(jobs)
  {
    if jobs == [] then [] else JobTokens(jobs[0]) + Line(jobs[1..])
  }

  /** The tokens without the separators that end nothing. */
  function Normal(tokens: seq<Token>, start: bool): seq<Token>
    decreases |tokens|
  {
    if tokens == [] then []
    else if IsSeparator(tokens[0]) then (if start then [] else [tokens[0]]) + Normal(tokens[1..], true)
    else [tokens[0]] + Normal(tokens[1..], false)
  }

  /** The separator a line lacks when its last job has none. */
  function Closing(tokens: seq<Token>): seq<Token> {
    if tokens == [] || IsSeparator(tokens[|tokens| - 1]) then [] else [Semicolon]
  }

  // ---------------------------------------------------------------- what is executed is what is written

  predicate AtStart(cmds: seq<Command>, cur: Command) {
    cmds == [] && cur == []
  }

  lemma PartialWord(cmds: seq<Command>, cur: Command, s: Span)
    ensures Partial(cmds, cur + [s]) == Partial(cmds, cur) + [Word(s)]
  {
    assert WordsOf(cur + [s]) == WordsOf(cur) + [Word(s)];
  }

  lemma PartialPipe(cmds: seq<Command>, cur: Command)
    ensures Partial(cmds + [cur], []) == Partial(cmds, cur) + [Pipe]
  {
    assert (cmds + [cur])[..|cmds|] == cmds;
  }

  lemma PartialJob(cmds: seq<Command>, cur: Command, background: bool)
    ensures JobTokens(Job(cmds + [cur], background)) == Partial(cmds, cur) + [Separator(background)]
  {
    assert (cmds + [cur])[..|cmds|] == cmds;
  }

  /** With the commands cmds and the words cur read, e is what is wrong with the rest of the line: it is broken, a
      command is missing, a word is one too many, or a command is. */
  predicate Stops(e: Error, cmds: seq<Command>, cur: Command, rest: seq<Token>, ok: bool) {
    match e
    case Lexical => rest == [] && !ok
    case EmptyCommand =>
      cur == [] && if rest == [] then ok && cmds != [] else rest[0] == Pipe || (IsSeparator(rest[0]) && cmds != [])
    case TooManyArguments => |cur| == MAX_ARGS && rest != [] && rest[0].Word?
    case TooManyCommands => |cmds| == MAX_COMMANDS && cur != [] && if rest == [] then ok else !rest[0].Word?
  }

  /** The line spells the jobs, then the beginning of one more, and then comes the error. */
  predicate StopsAt(line: seq<Token>, ok: bool, jobs: seq<Job>, e: Error, cmds: seq<Command>, cur: Command,
                    rest: seq<Token>) {
    && GoodJobs(jobs) && GoodCommands(cmds) && |cur| <= MAX_ARGS
    && line == Line(jobs) + (Partial(cmds, cur) + rest) && Stops(e, cmds, cur, rest, ok)
  }

  ghost predicate Stopped(line: seq<Token>, ok: bool, jobs: seq<Job>, e: Error) {
    exists cmds: seq<Command>, cur: Command, rest: seq<Token> :: StopsAt(line, ok, jobs, e, cmds, cur, rest)
  }

  /** The outcome for the tokens read so far, `before`, and those to come. */
  ghost predicate Accounts(before: seq<Token>, rest: seq<Token>, ok: bool, o: Outcome) {
    && GoodJobs(o.trace)
    && (o.error.None? ==> ok && before + rest + Closing(before + rest) == Line(o.trace))
    && (o.error.Some? ==> Stopped(before + rest, ok, o.trace, o.error.value))
  }

  /** The error comes now, with nothing executed. */
  lemma AccountsError(cmds: seq<Command>, cur: Command, rest: seq<Token>, ok: bool, e: Error)
    requires GoodCommands(cmds) && |cur| <= MAX_ARGS && Stops(e, cmds, cur, rest, ok)
    ensures Accounts(Partial(cmds, cur), rest, ok, Outcome([], Some(e)))
  {
    assert Line([]) + (Partial(cmds, cur) + rest) == Partial(cmds, cur) + rest;
    assert StopsAt(Partial(cmds, cur) + rest, ok, [], e, cmds, cur, rest);
  }

  /** A job in front of a line that stops. */
  lemma StoppedAfter(j: Job, line: seq<Token>, ok: bool, jobs: seq<Job>, e: Error)
    requires GoodJob(j) && GoodJobs([j] + jobs) && GoodJobs(jobs) && Stopped(line, ok, jobs, e)
    ensures Stopped(JobTokens(j) + line, ok, [j] + jobs, e)
  {
    var cmds: seq<Command>, cur: Command, rest: seq<Token> :| StopsAt(line, ok, jobs, e, cmds, cur, rest);
    assert ([j] + jobs)[1..] == jobs;
    assert JobTokens(j) + line == Line([j] + jobs) + (Partial(cmds, cur) + rest);
    assert StopsAt(JobTokens(j) + line, ok, [j] + jobs, e, cmds, cur, rest);
  }

  lemma AccountsShift(before: seq<Token>, t: Token, more: seq<Token>, ok: bool, o: Outcome)
    requires Accounts(before + [t], more, ok, o)
    ensures Accounts(before, [t] + more, ok, o)
  {
    assert before + ([t] + more) == before + [t] + more;
  }

  /** A job executed, and then the rest. */
  lemma AccountsJob(before: seq<Token>, t: Token, more: seq<Token>, ok: bool, j: Job, rest: Outcome)
    requires IsSeparator(t) && GoodJob(j) && JobTokens(j) == before + [t] && Accounts([], more, ok, rest)
    ensures Accounts(before, [t] + more, ok, Outcome([j] + rest.trace, rest.error))
  {
    var jobs := [j] + rest.trace;
    assert jobs[1..] == rest.trace && jobs[0] == j;
    assert GoodJobs(jobs) by {
      forall i | 0 <= i < |jobs| ensures GoodJob(jobs[i]) {
        if i > 0 { assert jobs[i] == rest.trace[i - 1]; }
      }
    }
    var a, l := JobTokens(j), Line(rest.trace);
    assert Line(jobs) == a + l;
    assert [] + more == more;
    assert before + ([t] + more) == a + more;
    ClosingAfter(a, more);
    if rest.error.Some? { StoppedAfter(j, more, ok, rest.trace, rest.error.value); }
  }

  lemma ClosingAfter(a: seq<Token>, b: seq<Token>)
    requires a != [] && IsSeparator(a[|a| - 1])
    ensures Closing(a + b) == Closing(b) && a + b + Closing(a + b) == a + (b + Closing(b))
  {
  }

  /** The last job of a line needs no separator. */
  lemma AccountsLast(before: seq<Token>, j: Job)
    requires GoodJob(j) && JobTokens(j) == before + [Semicolon] && before != [] && !IsSeparator(before[|before| - 1])
    ensures Accounts(before, [], true, Outcome([j], None))
  {
    assert [j][1..] == [];
    assert Line([j]) == JobTokens(j) + [];
    assert before + [] == before;
  }

  lemma AccountsAtEnd(ok: bool, cmds: seq<Command>, cur: Command)
    requires GoodCommands(cmds) && |cur| <= MAX_ARGS
    ensures Accounts(Partial(cmds, cur), [], ok, Parse([], ok, cmds, cur))
  {
    var before := Partial(cmds, cur);
    assert before + [] == before;
    if cur != [] {
      assert before[|before| - 1] == Word(cur[|cur| - 1]);
      if ok && |cmds| < MAX_COMMANDS {
        PartialJob(cmds, cur, false);
        GoodTogether(cmds, cur);
        AccountsLast(before, Job(cmds + [cur], false));
      }
    }
    var o := Parse([], ok, cmds, cur);
    if o.error.Some? { AccountsError(cmds, cur, [], ok, o.error.value); }
  }

  lemma GoodTogether(cmds: seq<Command>, cur: Command)
    requires GoodCommands(cmds) && |cmds| < MAX_COMMANDS && GoodCommand(cur)
    ensures GoodCommands(cmds + [cur])
  {
  }

  /** In all cases the jobs executed are those the tokens spell, up to the first error. */
  lemma {:induction false} ParseAccounts(tokens: seq<Token>, ok: bool, cmds: seq<Command>, cur: Command)
    requires GoodCommands(cmds) && |cur| <= MAX_ARGS
    ensures Accounts(Partial(cmds, cur), Normal(tokens, AtStart(cmds, cur)), ok, Parse(tokens, ok, cmds, cur))
    decreases |tokens|, 1
  {
    if tokens == [] {
      AccountsAtEnd(ok, cmds, cur);
    } else {
      var t, before, o := tokens[0], Partial(cmds, cur), Parse(tokens, ok, cmds, cur);
      match t
      case Word(s) =>
        if |cur| < MAX_ARGS {
          ParseAccounts(tokens[1..], ok, cmds, cur + [s]);
          PartialWord(cmds, cur, s);
          AccountsShift(before, t, Normal(tokens[1..], false), ok, o);
        } else {
          AccountsError(cmds, cur, Normal(tokens, AtStart(cmds, cur)), ok, TooManyArguments);
        }
      case Pipe =>
        if cur != [] && |cmds| < MAX_COMMANDS {
          GoodTogether(cmds, cur);
          ParseAccounts(tokens[1..], ok, cmds + [cur], []);
          PartialPipe(cmds, cur);
          AccountsShift(before, t, Normal(tokens[1..], false), ok, o);
        } else {
          AccountsError(cmds, cur, Normal(tokens, AtStart(cmds, cur)), ok, o.error.value);
        }
      case _ => SeparatorAccounts(tokens, ok, cmds, cur);
    }
  }

  lemma JobAccounts(t: Token, more: seq<Token>, ok: bool, cmds: seq<Command>, cur: Command, rest: Outcome)
    requires IsSeparator(t) && GoodCommands(cmds) && |cmds| < MAX_COMMANDS && GoodCommand(cur)
      && Accounts([], more, ok, rest)
    ensures Accounts(Partial(cmds, cur), [t] + more, ok,
      Outcome([Job(cmds + [cur], t == Background)] + rest.trace, rest.error))
  {
    assert Separator(t == Background) == t;
    GoodTogether(cmds, cur);
    PartialJob(cmds, cur, t == Background);
    AccountsJob(Partial(cmds, cur), t, more, ok, Job(cmds + [cur], t == Background), rest);
  }

  lemma SeparatorAccounts(tokens: seq<Token>, ok: bool, cmds: seq<Command>, cur: Command)
    requires tokens != [] && IsSeparator(tokens[0]) && GoodCommands(cmds) && |cur| <= MAX_ARGS
    ensures Accounts(Partial(cmds, cur), Normal(tokens, AtStart(cmds, cur)), ok, Parse(tokens, ok, cmds, cur))
    decreases |tokens|, 0
  {
    assert Partial([], []) == [];
    if cur == [] {
      if cmds == [] {
        ParseAccounts(tokens[1..], ok, [], []);
        assert Normal(tokens, AtStart(cmds, cur)) == Normal(tokens[1..], true);
        assert Partial(cmds, cur) == Partial([], []);
      } else {
        AccountsError(cmds, cur, Normal(tokens, false), ok, EmptyCommand);
      }
    } else if |cmds| < MAX_COMMANDS {
      ParseAccounts(tokens[1..], ok, [], []);
      JobAccounts(tokens[0], Normal(tokens[1..], true), ok, cmds, cur, Parse(tokens[1..], ok, [], []));
    } else {
      AccountsError(cmds, cur, Normal(tokens, false), ok, TooManyCommands);
    }
  }

  /** A line executes exactly the jobs it spells, in order, with their flags; when an error ends it, the jobs before
      it, and the error is what is wrong where they end. */
  lemma ExecutesWhatIsWritten(tokens: seq<Token>, ok: bool)
    ensures var o, line := Parse(tokens, ok, [], []), Normal(tokens, true);
      && GoodJobs(o.trace)
      && (o.error.None? ==> ok && line + Closing(line) == Line(o.trace))
      && (o.error.Some? ==> Stopped(line, ok, o.trace, o.error.value))
  {
    ParseAccounts(tokens, ok, [], []);
    assert Partial([], []) + Normal(tokens, true) == Normal(tokens, true);
  }

  // ---------------------------------------------------------------- what is written well is executed

  /** Separators that end nothing change nothing. */
  lemma {:induction false} NormalParses(tokens: seq<Token>, ok: bool, cmds: seq<Command>, cur: Command)
    ensures Parse(tokens, ok, cmds, cur) == Parse(Normal(tokens, AtStart(cmds, cur)), ok, cmds, cur)
    decreases |tokens|
  {
    if tokens != [] {
      var t, more := tokens[0], tokens[1..];
      match t
      case Word(s) =>
        NormalParses(more, ok, cmds, cur + [s]);
        assert ([t] + Normal(more, false))[1..] == Normal(more, false);
      case Pipe =>
        NormalParses(more, ok, cmds + [cur], []);
        assert ([t] + Normal(more, false))[1..] == Normal(more, false);
      case _ =>
        NormalParses(more, ok, [], []);
        assert ([t] + Normal(more, true))[1..] == Normal(more, true);
        if AtStart(cmds, cur) { assert Normal(tokens, true) == Normal(more, true); }
    }
  }

  /** A semicolon at the end of the line changes nothing. */
  lemma {:induction false} TrailingSemicolon(tokens: seq<Token>, cmds: seq<Command>, cur: Command)
    ensures Parse(tokens + [Semicolon], true, cmds, cur) == Parse(tokens, true, cmds, cur)
    decreases |tokens|
  {
    if tokens == [] {
      assert Parse([], true, [], []) == Outcome([], None);
      assert ([] + [Semicolon])[1..] == [];
    } else {
      var t := tokens[0];
      assert (tokens + [Semicolon])[1..] == tokens[1..] + [Semicolon];
      match t
      case Word(s) => TrailingSemicolon(tokens[1..], cmds, cur + [s]);
      case Pipe => TrailingSemicolon(tokens[1..], cmds + [cur], []);
      case _ => TrailingSemicolon(tokens[1..], [], []);
    }
  }

  lemma {:induction false} FeedWords(ws: Command, rest: seq<Token>, ok: bool, cmds: seq<Command>, cur: Command)
    requires |cur| + |ws| <= MAX_ARGS
    ensures Parse(WordsOf(ws) + rest, ok, cmds, cur) == Parse(rest, ok, cmds, cur + ws)
    decreases |ws|
  {
    if ws == [] {
      assert WordsOf(ws) + rest == rest && cur + ws == cur;
    } else {
      FeedWords(ws[1..], rest, ok, cmds, cur + [ws[0]]);
      assert (WordsOf(ws) + rest)[1..] == WordsOf(ws[1..]) + rest;
      assert cur + [ws[0]] + ws[1..] == cur + ws;
    }
  }

  lemma FeedCommand(c: Command, t: Token, rest: seq<Token>, ok: bool, cmds: seq<Command>)
    requires GoodCommand(c)
    ensures Parse(WordsOf(c) + [t] + rest, ok, cmds, []) == Parse([t] + rest, ok, cmds, c)
  {
    FeedWords(c, [t] + rest, ok, cmds, []);
    assert WordsOf(c) + ([t] + rest) == WordsOf(c) + [t] + rest;
    assert [] + c == c;
  }

  lemma {:induction false} FeedPiped(cs: seq<Command>, rest: seq<Token>, ok: bool)
    requires GoodCommands(cs)
    ensures Parse(Piped(cs) + rest, ok, [], []) == Parse(rest, ok, cs, [])
    decreases |cs|
  {
    if cs == [] {
      assert Piped(cs) + rest == rest;
    } else {
      var init, c := cs[..|cs| - 1], cs[|cs| - 1];
      var next := WordsOf(c) + [Pipe] + rest;
      FeedPiped(init, next, ok);
      assert Piped(cs) + rest == Piped(init) + next;
      FeedCommand(c, Pipe, rest, ok, init);
      assert ([Pipe] + rest)[1..] == rest && init + [c] == cs;
    }
  }

  lemma FeedJob(j: Job, rest: seq<Token>, ok: bool)
    requires GoodJob(j)
    ensures var o := Parse(rest, ok, [], []);
      Parse(JobTokens(j) + rest, ok, [], []) == Outcome([j] + o.trace, o.error)
  {
    var init, c, t := j.commands[..|j.commands| - 1], j.commands[|j.commands| - 1], Separator(j.background);
    var next := WordsOf(c) + [t] + rest;
    assert JobTokens(j) + rest == Piped(init) + next;
    FeedPiped(init, next, ok);
    FeedCommand(c, t, rest, ok, init);
    assert ([t] + rest)[1..] == rest && init + [c] == j.commands;
  }

  lemma {:induction false} FeedLine(jobs: seq<Job>, rest: seq<Token>, ok: bool)
    requires GoodJobs(jobs)
    ensures var o := Parse(rest, ok, [], []); Parse(Line(jobs) + rest, ok, [], []) == Outcome(jobs + o.trace, o.error)
    decreases |jobs|
  {
    if jobs == [] {
      assert Line(jobs) + rest == rest;
    } else {
      var more := Line(jobs[1..]) + rest;
      assert Line(jobs) + rest == JobTokens(jobs[0]) + more;
      FeedJob(jobs[0], more, ok);
      FeedLine(jobs[1..], rest, ok);
      var o := Parse(rest, ok, [], []);
      assert [jobs[0]] + (jobs[1..] + o.trace) == jobs + o.trace;
    }
  }

  /** Every job the line spells in full, from its beginning, is executed, whatever comes after it. */
  lemma SpelledIsExecuted(tokens: seq<Token>, ok: bool, jobs: seq<Job>)
    requires GoodJobs(jobs) && Line(jobs) <= Normal(tokens, true)
    ensures jobs <= Parse(tokens, ok, [], []).trace
  {
    var line := Normal(tokens, true);
    NormalParses(tokens, ok, [], []);
    FeedLine(jobs, line[|Line(jobs)|..], ok);
    assert Line(jobs) + line[|Line(jobs)|..] == line;
  }

  lemma FeedPartial(cmds: seq<Command>, cur: Command, rest: seq<Token>, ok: bool)
    requires GoodCommands(cmds) && |cur| <= MAX_ARGS
    ensures Parse(Partial(cmds, cur) + rest, ok, [], []) == Parse(rest, ok, cmds, cur)
  {
    FeedPiped(cmds, WordsOf(cur) + rest, ok);
    assert Partial(cmds, cur) + rest == Piped(cmds) + (WordsOf(cur) + rest);
    FeedWords(cur, rest, ok, cmds, []);
    assert [] + cur == cur;
  }

  /** A line ends with an error after some jobs exactly when it spells them and the error is what comes next. */
  lemma ErrorIsTheFirst(tokens: seq<Token>, ok: bool, jobs: seq<Job>, e: Error)
    ensures Parse(tokens, ok, [], []) == Outcome(jobs, Some(e)) <==> Stopped(Normal(tokens, true), ok, jobs, e)
  {
    var line := Normal(tokens, true);
    if Stopped(line, ok, jobs, e) {
      var cmds: seq<Command>, cur: Command, rest: seq<Token> :| StopsAt(line, ok, jobs, e, cmds, cur, rest);
      NormalParses(tokens, ok, [], []);
      FeedLine(jobs, Partial(cmds, cur) + rest, ok);
      FeedPartial(cmds, cur, rest, ok);
      assert Parse(rest, ok, cmds, cur) == Outcome([], Some(e));
      assert jobs + [] == jobs;
    }
    ExecutesWhatIsWritten(tokens, ok);
  }

  /** A line is executed without error exactly when it spells jobs within the limits, and then these are executed. */
  lemma WrittenIsExecuted(tokens: seq<Token>, jobs: seq<Job>)
    requires GoodJobs(jobs)
    ensures var line := Normal(tokens, true);
      line + Closing(line) == Line(jobs) <==> Parse(tokens, true, [], []) == Outcome(jobs, None)
  {
    var line := Normal(tokens, true);
    NormalParses(tokens, true, [], []);
    if line + Closing(line) == Line(jobs) {
      FeedLine(jobs, [], true);
      assert Line(jobs) + [] == Line(jobs) && jobs + [] == jobs;
      if Closing(line) == [] {
        assert line + [] == line;
      } else {
        TrailingSemicolon(line, [], []);
      }
    } else {
      ExecutesWhatIsWritten(tokens, true);
    }
  }

  // ---------------------------------------------------------------- the parser

  /** The rest of the line, from the lexer's position on. */
  function ParseFrom(input: seq<Byte>, pos: nat, cmds: seq<Command>, cur: Command): Outcome
    requires pos <= |input|
  {
    var l := Lex(input, pos);
    Parse(l.tokens, l.ok, cmds, cur)
  }

  function After(trace: seq<Job>, o: Outcome): Outcome {
    Outcome(trace + o.trace, o.error)
  }

  class Parser {
    const lexer: Lexer

    // The words of the command being read, and the commands of the pipeline before it.
    const argv: array<Span>
    var argc: nat
    const commands: array<Command>
    var count: nat

    constructor (input: seq<Byte>)
      ensures fresh(lexer) && fresh(argv) && fresh(commands) && lexer.input == input && lexer.pos == 0
        && Empty() && Sized()
    {
      lexer := new Lexer(input);
      argv := new Span[MAX_ARGS](i => Span(0, 0));
      commands := new Command[MAX_COMMANDS](i => []);
      argc, count := 0, 0;
    }

    predicate Sized()
      reads this
    {
      argv.Length == MAX_ARGS && commands.Length == MAX_COMMANDS && argc <= MAX_ARGS && count <= MAX_COMMANDS
    }

    predicate Empty()
      reads this
    {
      argc == 0 && count == 0
    }

    function Current(): Command
      requires Sized()
      reads this, argv
    {
      argv[..argc]
    }

    function Commands(): seq<Command>
      requires Sized()
      reads this, commands
    {
      commands[..count]
    }

    method PushWord(s: Span) returns (ok: bool)
      requires Sized()
      modifies this`argc, argv
      ensures Sized() && ok == (|old(Current())| < MAX_ARGS)
      ensures Current() == if ok then old(Current()) + [s] else old(Current())
    {
      if argc >= MAX_ARGS {
        return false;
      }
      argv[argc] := s;
      argc := argc + 1;
      return true;
    }

    /** The command read goes to the pipeline, if there is room. */
    method PushCommand() returns (ok: bool)
      requires Sized()
      modifies this`argc, this`count, commands
      ensures Sized() && ok == (|old(Commands())| < MAX_COMMANDS)
      ensures ok ==> Commands() == old(Commands()) + [old(Current())] && argc == 0
      ensures !ok ==> Commands() == old(Commands()) && argc == old(argc)
    {
      if count >= MAX_COMMANDS {
        return false;
      }
      commands[count] := argv[..argc];
      count := count + 1;
      argc := 0;
      return true;
    }

    /** The pipeline read is executed, and the next begins empty. */
    method TakeJob(background: bool) returns (j: Job)
      requires Sized()
      modifies this`count
      ensures Sized() && count == 0 && j == Job(old(Commands()), background)
    {
      j := Job(commands[..count], background);
      count := 0;
    }

    /** One token: what it makes execute, or the error it makes. */
    method Consume(t: Token, ghost rest: seq<Token>, ghost ok: bool) returns (jobs: seq<Job>, error: Option<Error>)
      requires Sized()
      modifies this`argc, this`count, argv, commands
      ensures Sized()
      ensures error.None? ==>
        Parse([t] + rest, ok, old(Commands()), old(Current())) == After(jobs, Parse(rest, ok, Commands(), Current()))
      ensures error.Some? ==> Parse([t] + rest, ok, old(Commands()), old(Current())) == Outcome([], error) && jobs == []
    {
      assert ([t] + rest)[1..] == rest;
      jobs, error := [], None;
      match t
      case Word(s) =>
        var room := PushWord(s);
        if !room { error := Some(TooManyArguments); }
      case Pipe =>
        if argc == 0 { return jobs, Some(EmptyCommand); }
        var room := PushCommand();
        if !room { error := Some(TooManyCommands); }
      case _ =>
        if argc == 0 {
          if count > 0 { error := Some(EmptyCommand); }
        } else {
          var room := PushCommand();
          if !room { return jobs, Some(TooManyCommands); }
          var j := TakeJob(t == Background);
          jobs := [j];
        }
    }

    /** The end of the line. */
    method Finish() returns (jobs: seq<Job>, error: Option<Error>)
      requires Sized()
      modifies this`argc, this`count, commands
      ensures Outcome(jobs, error) == Parse([], true, old(Commands()), old(Current()))
    {
      if argc == 0 {
        return [], if count > 0 then Some(EmptyCommand) else None;
      }
      var room := PushCommand();
      if !room { return [], Some(TooManyCommands); }
      var j := TakeJob(false);
      return [j], None;
    }

    /** `parse_and_run`; the trace stands for `execute_pipeline`. */
    method ParseAndRun() returns (trace: seq<Job>, error: Option<Error>)
      requires Sized() && Empty() && lexer.pos == 0
      modifies this, lexer, argv, commands
      ensures Outcome(trace, error) == ParseFrom(lexer.input, 0, [], [])
    {
      trace := [];
      ghost var whole := ParseFrom(lexer.input, 0, [], []);
      while true
        invariant Sized() && lexer.pos <= |lexer.input|
        invariant whole == After(trace, ParseFrom(lexer.input, lexer.pos, Commands(), Current()))
        decreases |lexer.input| - lexer.pos
      {
        ghost var cmds, cur, pos := Commands(), Current(), lexer.pos;
        var next := lexer.Next();
        match next
        case Unterminated =>
          return trace, Some(Lexical);
        case End =>
          break;
        case Found(t, _) =>
          ghost var rest := Lex(lexer.input, lexer.pos);
          assert Lex(lexer.input, pos) == Lexed([t] + rest.tokens, rest.ok);
          var jobs;
          jobs, error := Consume(t, rest.tokens, rest.ok);
          AfterTwice(trace, jobs, ParseFrom(lexer.input, lexer.pos, Commands(), Current()));
          if error.Some? {
            return;
          }
          trace := trace + jobs;
      }
      var jobs;
      jobs, error := Finish();
      trace := trace + jobs;
    }
  }

  lemma AfterTwice(a: seq<Job>, b: seq<Job>, o: Outcome)
    ensures After(a, After(b, o)) == After(a + b, o)
    ensures After(a, Outcome([], o.error)) == Outcome(a, o.error)
  {
    assert a + (b + o.trace) == a + b + o.trace;
    assert a + [] == a;
  }
}
