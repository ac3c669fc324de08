/** The Tetris board: pieces stay on it, and no cell is lost or made. */
module Tetris {
  const BOARD_WIDTH: nat := 10
  const BOARD_HEIGHT: nat := 20

  /** The sixteen cells of a piece, row by row. */
  type Piece = p: seq<bool> | |p| == 16 witness seq(16, i => false)

  type Row = r: seq<bool> | |r| == BOARD_WIDTH witness seq(BOARD_WIDTH, i => false)

  type Board = b: seq<Row> | |b| == BOARD_HEIGHT witness seq(BOARD_HEIGHT, i => EmptyRow())

  function EmptyRow(): Row {
    seq(BOARD_WIDTH, i => false)
  }

  function Cell(p: Piece, r: nat, c: nat): bool
    requires r < 4 && c < 4
  {
    p[4 * r + c]
  }

  function Shape(i: nat): Piece
    requires i < 7
  {
    var o, x := false, true;
    if i == 0 then [o, o, o, o,  x, x, x, x,  o, o, o, o,  o, o, o, o]
    else if i == 1 then [x, o, o, o,  x, x, x, o,  o, o, o, o,  o, o, o, o]
    else if i == 2 then [o, o, x, o,  x, x, x, o,  o, o, o, o,  o, o, o, o]
    else if i == 3 then [o, x, x, o,  o, x, x, o,  o, o, o, o,  o, o, o, o]
    else if i == 4 then [o, x, x, o,  x, x, o, o,  o, o, o, o,  o, o, o, o]
    else if i == 5 then [o, x, o, o,  x, x, x, o,  o, o, o, o,  o, o, o, o]
    else [x, x, o, o,  o, x, x, o,  o, o, o, o,  o, o, o, o]
  }

  function One(b: bool): nat {
    if b then 1 else 0
  }

  /** The filled cells among the first n. */
  function Count(s: seq<bool>, n: nat): nat
    requires n <= |s|
  {
    if n == 0 then 0 else Count(s, n - 1) + One(s[n - 1])
  }

  /** The filled cells of the first n rows. */
  function Filled(rows: seq<Row>, n: nat): nat
    requires n <= |rows|
  {
    if n == 0 then 0 else Filled(rows, n - 1) + Count(rows[n - 1], BOARD_WIDTH)
  }

  // ---------------------------------------------------------------- rotation

  /** Cell (r, c) goes to (c, 3 - r). */
  function Rotated(p: Piece): (q: Piece)
    ensures forall r: nat, c: nat | r < 4 && c < 4 :: Cell(q, c, 3 - r) == Cell(p, r, c)
  {
    [p[12], p[8], p[4], p[0],  p[13], p[9], p[5], p[1],  p[14], p[10], p[6], p[2],  p[15], p[11], p[7], p[3]]
  }

  lemma CountFour(s: seq<bool>, n: nat)
    requires n + 4 <= |s|
    ensures Count(s, n + 4) == Count(s, n) + One(s[n]) + One(s[n + 1]) + One(s[n + 2]) + One(s[n + 3])
  {
    assert Count(s, n + 2) == Count(s, n) + One(s[n]) + One(s[n + 1]);
  }

  lemma CountSixteen(p: Piece)
    ensures Count(p, 16) == One(p[0]) + One(p[1]) + One(p[2]) + One(p[3]) + One(p[4]) + One(p[5]) + One(p[6])
      + One(p[7]) + One(p[8]) + One(p[9]) + One(p[10]) + One(p[11]) + One(p[12]) + One(p[13]) + One(p[14]) + One(p[15])
  {
    CountFour(p, 0);
    CountFour(p, 4);
    CountFour(p, 8);
    CountFour(p, 12);
  }

  /** Turning keeps the number of cells. */
  lemma RotationKeepsCells(p: Piece)
    ensures Count(Rotated(p), 16) == Count(p, 16)
  {
    CountSixteen(p);
    CountSixteen(Rotated(p));
  }

  lemma HalfTurn(p: Piece, k: nat)
    requires k < 16
    ensures Rotated(Rotated(p))[k] == p[15 - k]
  {
  }

  /** Four turns are none. */
  lemma FourTurns(p: Piece)
    ensures Rotated(Rotated(Rotated(Rotated(p)))) == p
  {
    var q := Rotated(Rotated(p));
    forall k: nat | k < 16
      ensures Rotated(Rotated(q))[k] == p[k]
    {
      HalfTurn(q, k);
      HalfTurn(p, 15 - k);
    }
  }

  lemma ShapesHaveFour(i: nat)
    requires i < 7
    ensures Count(Shape(i), 16) == 4
  {
    CountSixteen(Shape(i));
  }

  // ---------------------------------------------------------------- collision

  /** Is board cell (row y, column x) free for a piece? Above the board it is. */
  predicate FreeAt(b: Board, x: int, y: int) {
    0 <= x < BOARD_WIDTH && y < BOARD_HEIGHT && (y >= 0 ==> !b[y][x])
  }

  /** Does no cell of the piece at (x, y) leave the board or hit a filled cell? */
  predicate Fits(b: Board, x: int, y: int, p: Piece) {
    forall k {:trigger p[k]} | 0 <= k < 16 && p[k] :: FreeAt(b, x + k % 4, y + k / 4)
  }

  // ---------------------------------------------------------------- locking

  function SetCell(b: Board, x: nat, y: nat): (b': Board)
    requires x < BOARD_WIDTH && y < BOARD_HEIGHT
  {
    var row: Row := b[y][x := true];
    b[y := row]
  }

  /** The board with the first n cells of the piece filled in. */
  function Locked(b: Board, x: int, y: int, p: Piece, n: nat): (b': Board)
    requires n <= 16
  {
    if n == 0 then b
    else
      var b1, r, c := Locked(b, x, y, p, n - 1), y + (n - 1) / 4, x + (n - 1) % 4;
      if p[n - 1] && 0 <= r < BOARD_HEIGHT && 0 <= c < BOARD_WIDTH then SetCell(b1, c, r) else b1
  }

  lemma {:induction false} CountSet(s: seq<bool>, i: nat, n: nat)
    requires i < |s| && n <= |s| && !s[i]
    ensures Count(s[i := true], n) == Count(s, n) + if i < n then 1 else 0
  {
    if n > 0 { CountSet(s, i, n - 1); }
  }

  lemma {:induction false} FilledSet(b: Board, x: nat, y: nat, n: nat)
    requires x < BOARD_WIDTH && y < BOARD_HEIGHT && !b[y][x] && n <= BOARD_HEIGHT
    ensures Filled(SetCell(b, x, y), n) == Filled(b, n) + if y < n then 1 else 0
  {
    CountSet(b[y], x, BOARD_WIDTH);
    if n > 0 { FilledSet(b, x, y, n - 1); }
  }

  /** What has been filled in so far. */
  lemma {:induction false} LockedCell(b: Board, x: int, y: int, p: Piece, n: nat, cx: nat, cy: nat)
    requires n <= 16 && cx < BOARD_WIDTH && cy < BOARD_HEIGHT
    ensures Locked(b, x, y, p, n)[cy][cx] <==>
      b[cy][cx] || exists k :: 0 <= k < n && p[k] && cx == x + k % 4 && cy == y + k / 4
  {
    if n > 0 {
      LockedCell(b, x, y, p, n - 1, cx, cy);
    }
  }

  lemma {:induction false} LockedFills(b: Board, x: int, y: int, p: Piece, n: nat)
    requires n <= 16 && y >= 0 && Fits(b, x, y, p)
    ensures Filled(Locked(b, x, y, p, n), BOARD_HEIGHT) == Filled(b, BOARD_HEIGHT) + Count(p, n)
  {
    if n > 0 {
      LockedFills(b, x, y, p, n - 1);
      var k := n - 1;
      if p[k] {
        var r, c := y + k / 4, x + k % 4;
        assert FreeAt(b, c, r);
        LockedCell(b, x, y, p, k, c, r);
        FilledSet(Locked(b, x, y, p, k), c, r, BOARD_HEIGHT);
      }
    }
  }

  // ---------------------------------------------------------------- clearing lines

  predicate Full(r: Row) {
    forall c | 0 <= c < BOARD_WIDTH :: r[c]
  }

  /** Row i goes, the rows above it move down, and an empty one appears on top. */
  function Drop(b: Board, i: nat): (b': Board)
    requires i < BOARD_HEIGHT
    ensures b'[0] == EmptyRow()
    ensures forall k | 0 < k < BOARD_HEIGHT :: b'[k] == if k <= i then b[k - 1] else b[k]
  {
    var above: seq<Row> := b[..i];
    [EmptyRow()] + above + b[i + 1..]
  }

  /** The rows from n - 1 up to 0 looked at once each, from the bottom: the board, and the number of lines cleared. */
  function Cleared(b: Board, n: nat): (Board, nat)
    requires n <= BOARD_HEIGHT
    decreases n
  {
    if n == 0 then (b, 0)
    else if Full(b[n - 1]) then
      var r := Cleared(Drop(b, n - 1), n - 1);
      (r.0, r.1 + 1)
    else Cleared(b, n - 1)
  }

  lemma {:induction false} CountFull(s: seq<bool>, n: nat)
    requires n <= |s| && forall k | 0 <= k < n :: s[k]
    ensures Count(s, n) == n
  {
    if n > 0 { CountFull(s, n - 1); }
  }

  lemma {:induction false} CountEmpty(s: seq<bool>, n: nat)
    requires n <= |s| && forall k | 0 <= k < n :: !s[k]
    ensures Count(s, n) == 0
  {
    if n > 0 { CountEmpty(s, n - 1); }
  }

  lemma {:induction false} FilledDrop(b: Board, i: nat, n: nat)
    requires i < BOARD_HEIGHT && n <= BOARD_HEIGHT && Full(b[i])
    ensures Filled(Drop(b, i), n) ==
      if n == 0 then 0 else if n <= i + 1 then Filled(b, n - 1) else Filled(b, n) - BOARD_WIDTH
  {
    if n > 0 {
      FilledDrop(b, i, n - 1);
      CountEmpty(EmptyRow(), BOARD_WIDTH);
      CountFull(b[i], BOARD_WIDTH);
    }
  }

  /** Ten cells go with every line. */
  lemma {:induction false} ClearingCounts(b: Board, n: nat)
    requires n <= BOARD_HEIGHT
    ensures Filled(Cleared(b, n).0, BOARD_HEIGHT) + BOARD_WIDTH * Cleared(b, n).1 == Filled(b, BOARD_HEIGHT)
    decreases n
  {
    if n > 0 {
      if Full(b[n - 1]) {
        FilledDrop(b, n - 1, BOARD_HEIGHT);
        CountFull(b[n - 1], BOARD_WIDTH);
        ClearingCounts(Drop(b, n - 1), n - 1);
      } else {
        ClearingCounts(b, n - 1);
      }
    }
  }

  /** Rows looked at are not touched again. */
  lemma {:induction false} ClearedBelow(b: Board, n: nat, k: nat)
    requires n <= k < BOARD_HEIGHT
    ensures Cleared(b, n).0[k] == b[k]
    decreases n
  {
    if n > 0 {
      ClearedBelow(if Full(b[n - 1]) then Drop(b, n - 1) else b, n - 1, k);
    }
  }

  /** Are two rows above n, one right over the other, both full? */
  ghost predicate FullPair(b: Board, n: nat)
    requires n <= BOARD_HEIGHT
  {
    exists k: nat :: 0 < k < n && Full(b[k]) && Full(b[k - 1])
  }

  ghost predicate SomeFull(b: Board, n: nat)
    requires n <= BOARD_HEIGHT
  {
    exists k: nat :: k < n && Full(b[k])
  }

  /** A full row stays behind exactly when two full rows were adjacent: the row that comes down to the place of a
      cleared one is not looked at. */
  lemma {:induction false} FullRowsLeft(b: Board, n: nat)
    requires n <= BOARD_HEIGHT
    ensures SomeFull(Cleared(b, n).0, n) <==> FullPair(b, n)
    decreases n
  {
    if n > 0 {
      var i := n - 1;
      var next := if Full(b[i]) then Drop(b, i) else b;
      var end := Cleared(b, n).0;
      assert end == Cleared(next, i).0;
      FullRowsLeft(next, i);
      ClearedBelow(next, i, i);
      assert end[i] == next[i];
      assert SomeFull(end, n) <==> SomeFull(end, i) || Full(end[i]);
      PairsAfter(b, next, n);
    }
  }

  function FullRow(): (r: Row)
    ensures Full(r)
  {
    seq(BOARD_WIDTH, i => true)
  }

  /** The board with the two lowest rows full and the others empty. */
  function TwoFull(): (b: Board)
    ensures forall k | 0 <= k < BOARD_HEIGHT - 2 :: b[k] == EmptyRow()
    ensures Full(b[BOARD_HEIGHT - 2]) && Full(b[BOARD_HEIGHT - 1])
  {
    var empty: seq<Row> := seq(BOARD_HEIGHT - 2, k => EmptyRow());
    empty + [FullRow(), FullRow()]
  }

  /** Of two full rows at the bottom one is cleared, and the other comes down to its place and stays, full. */
  lemma OneOfTwoStays()
    ensures var r := Cleared(TwoFull(), BOARD_HEIGHT); r.1 == 1 && Full(r.0[BOARD_HEIGHT - 1])
  {
    var d := Drop(TwoFull(), BOARD_HEIGHT - 1);
    forall k: nat | k < BOARD_HEIGHT - 1 ensures !Full(d[k]) {
      EmptyNotFull();
      assert d[k] == EmptyRow();
    }
    NothingCleared(d, BOARD_HEIGHT - 1);
  }

  lemma {:induction false} NothingCleared(b: Board, n: nat)
    requires n <= BOARD_HEIGHT && forall k: nat | k < n :: !Full(b[k])
    ensures Cleared(b, n) == (b, 0)
    decreases n
  {
    if n > 0 { NothingCleared(b, n - 1); }
  }

  lemma EmptyNotFull()
    ensures !Full(EmptyRow())
  {
    assert !EmptyRow()[0];
  }

  predicate PairAt(b: Board, k: nat)
    requires k < BOARD_HEIGHT
  {
    k > 0 && Full(b[k]) && Full(b[k - 1])
  }

  /** A pair of full rows above a dropped row comes down with it. */
  lemma PairDown(b: Board, i: nat, k: nat)
    requires 0 < k < i < BOARD_HEIGHT && Full(b[i])
    ensures PairAt(b, k) ==> PairAt(Drop(b, i), k + 1)
    ensures PairAt(Drop(b, i), k) ==> k > 1 && PairAt(b, k - 1)
  {
    EmptyNotFull();
  }

  lemma PairsDropped(b: Board, i: nat)
    requires i < BOARD_HEIGHT && Full(b[i])
    ensures FullPair(b, i + 1) <==> FullPair(Drop(b, i), i) || Full(Drop(b, i)[i])
  {
    var next := Drop(b, i);
    EmptyNotFull();
    if FullPair(b, i + 1) && !Full(next[i]) {
      var k: nat :| 0 < k < i + 1 && Full(b[k]) && Full(b[k - 1]);
      assert k < i && PairAt(b, k);
      PairDown(b, i, k);
      assert k + 1 < i && Full(next[k + 1]) && Full(next[k + 1 - 1]);
    }
    if FullPair(next, i) {
      var k: nat :| 0 < k < i && Full(next[k]) && Full(next[k - 1]);
      assert PairAt(next, k);
      PairDown(b, i, k);
      assert Full(b[k - 1]) && Full(b[k - 1 - 1]);
    }
    if Full(next[i]) {
      assert i > 0 && Full(b[i - 1]);
    }
  }

  lemma PairsAfter(b: Board, next: Board, n: nat)
    requires 0 < n <= BOARD_HEIGHT && next == if Full(b[n - 1]) then Drop(b, n - 1) else b
    ensures FullPair(b, n) <==> FullPair(next, n - 1) || Full(next[n - 1])
  {
    if Full(b[n - 1]) {
      PairsDropped(b, n - 1);
    } else if FullPair(b, n) {
      var k: nat :| 0 < k < n && Full(b[k]) && Full(b[k - 1]);
      assert k < n - 1;
    }
  }

  // ---------------------------------------------------------------- the game

  /** `locked` counts the pieces that have come to rest. */
  datatype Game = Game(board: Board, piece: Piece, x: int, y: int, score: nat, over: bool, seed: nat, locked: nat)

  function NextSeed(seed: nat): nat {
    (seed * 1103515245 + 12345) % 0x1_0000_0000
  }

  function PieceIndex(seed: nat): (i: nat)
    ensures i < 7
  {
    seed / 65536 % 7
  }

  function Spawn(g: Game): Game {
    var seed := NextSeed(g.seed);
    var piece := Shape(PieceIndex(seed));
    var x := BOARD_WIDTH / 2 - 2;
    g.(piece := piece, x := x, y := 0, seed := seed, over := g.over || !Fits(g.board, x, 0, piece))
  }

  function NewGame(): Game {
    Spawn(Game(seq(BOARD_HEIGHT, i => EmptyRow()), seq(16, i => false), 0, 0, 0, false, 0x5EED, 0))
  }

  function Turn(g: Game): Game {
    var p := Rotated(g.piece);
    if Fits(g.board, g.x, g.y, p) then g.(piece := p) else g
  }

  function Move(g: Game, dir: int): Game {
    if Fits(g.board, g.x + dir, g.y, g.piece) then g.(x := g.x + dir) else g
  }

  /** The piece comes to rest, full lines go, and the next piece appears. */
  function Land(g: Game): Game {
    var cleared := Cleared(Locked(g.board, g.x, g.y, g.piece, 16), BOARD_HEIGHT);
    Spawn(g.(board := cleared.0, score := g.score + 100 * cleared.1, locked := g.locked + 1))
  }

  function Tick(g: Game): Game {
    if g.over then g
    else if Fits(g.board, g.x, g.y + 1, g.piece) then g.(y := g.y + 1)
    else Land(g)
  }

  datatype Input = Left | Right | Rotate | Down

  function Step(g: Game, i: Input): Game {
    match i
    case Left => Move(g, -1)
    case Right => Move(g, 1)
    case Rotate => Turn(g)
    case Down => Tick(g)
  }

  function Play(g: Game, inputs: seq<Input>): Game
    decreases |inputs|
  {
    if inputs == [] then g else Play(Step(g, inputs[0]), inputs[1..])
  }

  /** Ten times the filled cells and the score account for the pieces at rest; a piece has four cells; and while the
      game is on, it is on the board and over no filled cell. */
  predicate Sound(g: Game) {
    && 10 * Filled(g.board, BOARD_HEIGHT) + g.score == 40 * g.locked
    && Count(g.piece, 16) == 4 && g.y >= 0
    && (!g.over ==> Fits(g.board, g.x, g.y, g.piece))
  }

  lemma SpawnSound(g: Game)
    requires 10 * Filled(g.board, BOARD_HEIGHT) + g.score == 40 * g.locked
    ensures Sound(Spawn(g))
  {
    ShapesHaveFour(PieceIndex(NextSeed(g.seed)));
  }

  lemma {:induction false} NothingFilled(b: Board, n: nat)
    requires n <= BOARD_HEIGHT && forall i | 0 <= i < BOARD_HEIGHT :: b[i] == EmptyRow()
    ensures Filled(b, n) == 0
  {
    if n > 0 {
      NothingFilled(b, n - 1);
      CountEmpty(EmptyRow(), BOARD_WIDTH);
    }
  }

  lemma NewGameSound()
    ensures Sound(NewGame())
  {
    var b: Board := seq(BOARD_HEIGHT, i => EmptyRow());
    NothingFilled(b, BOARD_HEIGHT);
    SpawnSound(Game(b, seq(16, i => false), 0, 0, 0, false, 0x5EED, 0));
  }

  lemma LandSound(g: Game)
    requires Sound(g) && !g.over
    ensures Sound(Land(g))
  {
    var full := Locked(g.board, g.x, g.y, g.piece, 16);
    var cleared := Cleared(full, BOARD_HEIGHT);
    LockedFills(g.board, g.x, g.y, g.piece, 16);
    ClearingCounts(full, BOARD_HEIGHT);
    SpawnSound(g.(board := cleared.0, score := g.score + 100 * cleared.1, locked := g.locked + 1));
  }

  lemma StepSound(g: Game, i: Input)
    requires Sound(g)
    ensures Sound(Step(g, i))
  {
    match i
    case Left =>
    case Right =>
    case Rotate => RotationKeepsCells(g.piece);
    case Down => if !g.over && !Fits(g.board, g.x, g.y + 1, g.piece) { LandSound(g); }
  }

  lemma {:induction false} PlaySound(g: Game, inputs: seq<Input>)
    requires Sound(g)
    ensures Sound(Play(g, inputs))
    decreases |inputs|
  {
    if inputs != [] {
      StepSound(g, inputs[0]);
      PlaySound(Step(g, inputs[0]), inputs[1..]);
    }
  }

  /** In every game, whatever the input: cells plus a tenth of the score are four times the pieces at rest, and the
      falling piece has four cells. */
  lemma NoCellLost(inputs: seq<Input>)
    ensures var g := Play(NewGame(), inputs); 10 * Filled(g.board, BOARD_HEIGHT) + g.score == 40 * g.locked
    ensures var g := Play(NewGame(), inputs); !g.over ==> Fits(g.board, g.x, g.y, g.piece)
    ensures Count(Play(NewGame(), inputs).piece, 16) == 4
  {
    NewGameSound();
    PlaySound(NewGame(), inputs);
  }

  // ---------------------------------------------------------------- the game, in place

  class GameState {
    const rows: array<Row>
    var piece: Piece
    var x: int
    var y: int
    var score: nat
    var over: bool
    var seed: nat
    ghost var locked: nat

    ghost predicate Sized()
      reads this
    {
      rows.Length == BOARD_HEIGHT
    }

    ghost function Board(): (b: Board)
      requires Sized()
      reads this, rows
    {
      rows[..]
    }

    ghost function View(): Game
      requires Sized()
      reads this, rows
    {
      Game(Board(), piece, x, y, score, over, seed, locked)
    }

    constructor ()
      ensures Sized() && fresh(rows) && View() == NewGame()
    {
      rows := new Row[BOARD_HEIGHT](i => EmptyRow());
      piece, x, y, score, over, seed, locked := seq(16, i => false), 0, 0, 0, false, 0x5EED, 0;
      new;
      var blank: Board := seq(BOARD_HEIGHT, i => EmptyRow());
      assert rows[..] == blank;
      SpawnPiece();
    }

    /** `check_collision`, the other way round. */
    method CheckFit(nx: int, ny: int, p: Piece) returns (fits: bool)
      requires Sized()
      ensures fits == Fits(Board(), nx, ny, p)
    {
      var r := 0;
      while r < 4
        invariant 0 <= r <= 4
        invariant forall k {:trigger p[k]} | 0 <= k < 4 * r && p[k] :: FreeAt(Board(), nx + k % 4, ny + k / 4)
      {
        var c := 0;
        while c < 4
          invariant 0 <= c <= 4
          invariant forall k {:trigger p[k]} | 0 <= k < 4 * r + c && p[k] :: FreeAt(Board(), nx + k % 4, ny + k / 4)
        {
          if p[4 * r + c] {
            var cx, cy := nx + c, ny + r;
            assert (4 * r + c) % 4 == c && (4 * r + c) / 4 == r;
            if cx < 0 || cx >= BOARD_WIDTH || cy >= BOARD_HEIGHT {
              return false;
            }
            if cy >= 0 && rows[cy][cx] {
              return false;
            }
          }
          c := c + 1;
        }
        r := r + 1;
      }
      fits := true;
    }

    method SpawnPiece()
      requires Sized()
      modifies this
      ensures Sized() && View() == Spawn(old(View()))
    {
      seed := NextSeed(seed);
      piece := Shape(PieceIndex(seed));
      x, y := BOARD_WIDTH / 2 - 2, 0;
      var fits := CheckFit(x, y, piece);
      if !fits { over := true; }
    }

    method RotatePiece()
      requires Sized()
      modifies this`piece
      ensures View() == Turn(old(View()))
    {
      var rotated: Piece := seq(16, i => false);
      var r := 0;
      while r < 4
        invariant 0 <= r <= 4 && |rotated| == 16
        invariant forall i: nat, c: nat | i < r && c < 4 :: rotated[4 * c + (3 - i)] == Cell(piece, i, c)
      {
        rotated := rotated[3 - r := piece[4 * r]][4 + 3 - r := piece[4 * r + 1]][8 + 3 - r := piece[4 * r + 2]]
                   [12 + 3 - r := piece[4 * r + 3]];
        r := r + 1;
      }
      SameRotation(piece, rotated);
      var fits := CheckFit(x, y, rotated);
      if fits { piece := rotated; }
    }

    method MoveHorizontal(dir: int)
      requires Sized()
      modifies this`x
      ensures View() == Move(old(View()), dir)
    {
      var fits := CheckFit(x + dir, y, piece);
      if fits { x := x + dir; }
    }

    /** `lock_piece` */
    method LockPiece()
      requires Sized()
      modifies rows
      ensures Board() == Locked(old(Board()), x, y, piece, 16)
    {
      var k := 0;
      while k < 16
        invariant 0 <= k <= 16 && Board() == Locked(old(Board()), x, y, piece, k)
      {
        if piece[k] {
          var cy, cx := y + k / 4, x + k % 4;
          if 0 <= cy < BOARD_HEIGHT && 0 <= cx < BOARD_WIDTH {
            rows[cy] := rows[cy][cx := true];
          }
        }
        k := k + 1;
      }
    }

    method IsFull(r: nat) returns (full: bool)
      requires Sized() && r < BOARD_HEIGHT
      ensures full == Full(Board()[r])
    {
      var c := 0;
      while c < BOARD_WIDTH
        invariant 0 <= c <= BOARD_WIDTH && forall k | 0 <= k < c :: rows[r][k]
      {
        if !rows[r][c] {
          return false;
        }
        c := c + 1;
      }
      full := true;
    }

    /** The rows above row r move down over it. */
    method ShiftDown(r: nat)
      requires Sized() && r < BOARD_HEIGHT
      modifies rows
      ensures Board() == Drop(old(Board()), r)
    {
      var i := r;
      while i >= 1
        invariant 0 <= i <= r
        invariant forall k | 0 <= k < BOARD_HEIGHT :: rows[k] == if i < k <= r then old(rows[k - 1]) else old(rows[k])
      {
        rows[i] := rows[i - 1];
        i := i - 1;
      }
      rows[0] := EmptyRow();
      assert rows[..] == Drop(old(Board()), r);
    }

    /** `clear_lines` */
    method ClearLines()
      requires Sized()
      modifies this`score, rows
      ensures Sized() && Board() == Cleared(old(Board()), BOARD_HEIGHT).0
      ensures score == old(score) + 100 * Cleared(old(Board()), BOARD_HEIGHT).1
    {
      ghost var b := Board();
      var lines, n := 0, BOARD_HEIGHT;
      while n > 0
        invariant 0 <= n <= BOARD_HEIGHT && Sized() && score == old(score)
        invariant Cleared(b, BOARD_HEIGHT) == (Cleared(Board(), n).0, Cleared(Board(), n).1 + lines)
      {
        n := n - 1;
        var full := IsFull(n);
        if full {
          lines := lines + 1;
          ShiftDown(n);
        }
      }
      if lines > 0 { score := score + lines * 100; }
    }

    /** The piece that cannot fall further comes to rest. */
    method LandPiece()
      requires Sized()
      modifies this, rows
      ensures Sized() && View() == Land(old(View()))
    {
      ghost var g := View();
      LockPiece();
      ghost var full := Board();
      ClearLines();
      locked := locked + 1;
      ghost var cleared := Cleared(full, BOARD_HEIGHT);
      assert View() == g.(board := cleared.0, score := g.score + 100 * cleared.1, locked := g.locked + 1);
      SpawnPiece();
    }

    /** `tick` */
    method DoTick()
      requires Sized()
      modifies this, rows
      ensures Sized() && View() == Tick(old(View()))
    {
      if over { return; }
      var fits := CheckFit(x, y + 1, piece);
      if fits {
        y := y + 1;
      } else {
        LandPiece();
      }
    }
  }

  lemma SameRotation(p: Piece, q: Piece)
    requires forall r: nat, c: nat | r < 4 && c < 4 :: q[4 * c + (3 - r)] == Cell(p, r, c)
    ensures q == Rotated(p)
  {
    forall k: nat | k < 16
      ensures q[k] == Rotated(p)[k]
    {
      var c, r := k / 4, 3 - k % 4;
      assert q[4 * c + (3 - r)] == Cell(p, r, c) && Cell(Rotated(p), c, 3 - r) == Cell(p, r, c);
    }
  }
}
