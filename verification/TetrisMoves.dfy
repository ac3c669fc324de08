/** Where the falling piece of the Tetris game is seen, and what the keys do to it there. */
module TetrisMoves {
  import opened Tetris

  /** The falling piece covers the cell in column cx and row cy. */
  predicate Covers(g: Game, cx: int, cy: int) {
    0 <= cx - g.x < 4 && 0 <= cy - g.y < 4 && g.piece[4 * (cy - g.y) + (cx - g.x)]
  }

  /** All but the piece and its place is as before. */
  predicate SameRest(g: Game, h: Game) {
    h.board == g.board && h.score == g.score && h.over == g.over && h.seed == g.seed && h.locked == g.locked
  }

  /** The cells of the piece, moved by dx columns and dy rows, are free. */
  ghost predicate Room(g: Game, dx: int, dy: int) {
    forall cx: int, cy: int :: Covers(g, cx, cy) ==> FreeAt(g.board, cx + dx, cy + dy)
  }

  /** The piece covers exactly the cells dx columns and dy rows further on. */
  ghost predicate Shifted(g: Game, h: Game, dx: int, dy: int) {
    SameRest(g, h) && forall cx: int, cy: int :: Covers(h, cx + dx, cy + dy) <==> Covers(g, cx, cy)
  }

  lemma RoomFits(g: Game, dx: int, dy: int)
    ensures Room(g, dx, dy) <==> Fits(g.board, g.x + dx, g.y + dy, g.piece)
  {
    if Room(g, dx, dy) {
      forall k {:trigger g.piece[k]} | 0 <= k < 16 && g.piece[k]
        ensures FreeAt(g.board, g.x + dx + k % 4, g.y + dy + k / 4)
      {
        assert Covers(g, g.x + k % 4, g.y + k / 4) by { assert 4 * (k / 4) + k % 4 == k; }
      }
    }
    if Fits(g.board, g.x + dx, g.y + dy, g.piece) {
      forall cx: int, cy: int | Covers(g, cx, cy) ensures FreeAt(g.board, cx + dx, cy + dy) {
        var r, c := cy - g.y, cx - g.x;
        assert (4 * r + c) % 4 == c && (4 * r + c) / 4 == r;
        assert g.piece[4 * r + c];
      }
    }
  }

  lemma PlacedShifts(g: Game, dx: int, dy: int, h: Game)
    requires h == g.(x := g.x + dx, y := g.y + dy)
    ensures Shifted(g, h, dx, dy)
  {
  }

  lemma MoveShifts(g: Game, dir: int, h: Game)
    requires h == Move(g, dir)
    ensures if Room(g, dir, 0) then Shifted(g, h, dir, 0) else h == g
  {
    RoomFits(g, dir, 0);
    if Room(g, dir, 0) { PlacedShifts(g, dir, 0, h); }
  }

  lemma FallShifts(g: Game, h: Game)
    requires h == Tick(g)
    ensures !g.over && Room(g, 0, 1) ==> Shifted(g, h, 0, 1)
    ensures g.over ==> h == g
  {
    RoomFits(g, 0, 1);
    if !g.over && Room(g, 0, 1) { PlacedShifts(g, 0, 1, h); }
  }

  /** A moves the piece one column to the left, D one to the right, and a tick one row down, each exactly when the cells
      there are free; else A and D change nothing. */
  lemma InputsShift(g: Game)
    ensures if Room(g, -1, 0) then Shifted(g, Step(g, Left), -1, 0) else Step(g, Left) == g
    ensures if Room(g, 1, 0) then Shifted(g, Step(g, Right), 1, 0) else Step(g, Right) == g
    ensures !g.over && Room(g, 0, 1) ==> Shifted(g, Step(g, Down), 0, 1)
    ensures g.over ==> Step(g, Down) == g
  {
    MoveShifts(g, -1, Step(g, Left));
    MoveShifts(g, 1, Step(g, Right));
    FallShifts(g, Step(g, Down));
  }

  /** The column and the row to which a cell comes when the square of the piece is turned clockwise: its topmost row
      becomes the rightmost column, and its leftmost column the topmost row. */
  function TurnedX(g: Game, cy: int): int {
    g.x + 3 - (cy - g.y)
  }

  function TurnedY(g: Game, cx: int): int {
    g.y + (cx - g.x)
  }

  ghost predicate TurnedClockwise(g: Game, h: Game) {
    SameRest(g, h) && h.x == g.x && h.y == g.y
    && forall cx: int, cy: int :: Covers(h, TurnedX(g, cy), TurnedY(g, cx)) <==> Covers(g, cx, cy)
  }

  ghost predicate RoomToTurn(g: Game) {
    forall cx: int, cy: int :: Covers(g, cx, cy) ==> FreeAt(g.board, TurnedX(g, cy), TurnedY(g, cx))
  }

  lemma RotatedCovers(g: Game, h: Game, cx: int, cy: int)
    requires h == g.(piece := Rotated(g.piece))
    ensures Covers(h, TurnedX(g, cy), TurnedY(g, cx)) <==> Covers(g, cx, cy)
  {
    var r, c := cy - g.y, cx - g.x;
    if 0 <= r < 4 && 0 <= c < 4 {
      assert Cell(h.piece, c, 3 - r) == Cell(g.piece, r, c);
    }
  }

  lemma TurnsClockwise(g: Game, h: Game)
    requires h == g.(piece := Rotated(g.piece))
    ensures TurnedClockwise(g, h)
  {
    forall cx: int, cy: int ensures Covers(h, TurnedX(g, cy), TurnedY(g, cx)) <==> Covers(g, cx, cy) {
      RotatedCovers(g, h, cx, cy);
    }
  }

  lemma TurnedRoom(g: Game, h: Game)
    requires TurnedClockwise(g, h)
    ensures RoomToTurn(g) <==> Room(h, 0, 0)
  {
    if RoomToTurn(g) {
      forall hx: int, hy: int | Covers(h, hx, hy) ensures FreeAt(h.board, hx + 0, hy + 0) {
        var cx, cy := g.x + (hy - g.y), g.y + 3 - (hx - g.x);
        assert TurnedX(g, cy) == hx && TurnedY(g, cx) == hy;
      }
    }
    if Room(h, 0, 0) {
      forall cx: int, cy: int | Covers(g, cx, cy) ensures FreeAt(g.board, TurnedX(g, cy), TurnedY(g, cx)) {
        assert Covers(h, TurnedX(g, cy), TurnedY(g, cx));
      }
    }
  }

  lemma TurnedOnce(g: Game, h: Game, r: Game)
    requires h == g.(piece := Rotated(g.piece)) && r == if Fits(h.board, h.x, h.y, h.piece) then h else g
    ensures if RoomToTurn(g) then TurnedClockwise(g, r) else r == g
  {
    TurnsClockwise(g, h);
    TurnedRoom(g, h);
    RoomFits(h, 0, 0);
  }

  /** W turns the piece clockwise exactly when the cells it comes to are free, and else changes nothing. */
  lemma RotateTurns(g: Game)
    ensures if RoomToTurn(g) then TurnedClockwise(g, Step(g, Rotate)) else Step(g, Rotate) == g
  {
    TurnedOnce(g, g.(piece := Rotated(g.piece)), Step(g, Rotate));
  }

  /** A piece that lands makes place for one in the middle of the two topmost rows; the game is over exactly when that
      one covers a filled cell. */
  lemma NextAtTop(g: Game)
    requires !g.over && !Room(g, 0, 1)
    ensures var h := Step(g, Down);
      && h.locked == g.locked + 1 && (h.over <==> !Room(h, 0, 0))
      && forall cx: int, cy: int :: Covers(h, cx, cy) ==> 3 <= cx <= 6 && 0 <= cy <= 1
  {
    RoomFits(g, 0, 1);
    var h := Step(g, Down);
    RoomFits(h, 0, 0);
    ShapesFlat(PieceIndex(h.seed));
  }

  lemma ShapesFlat(i: nat)
    requires i < 7
    ensures forall k | 8 <= k < 16 :: !Shape(i)[k]
  {
  }
}
