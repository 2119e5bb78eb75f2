/** The objects of the chess engine: Tile, Piece (with the behaviour of its six
    subclasses, told apart by `kind`) and Board, whose 8x8 array of tiles is
    changed in place.  Every method is proved against the board-value rules of
    module Rules through Board.contents, the board as a value. */
module Chess {
  import opened Wrappers
  import opened Rules
  import opened RuleFacts
  import opened Opening
  import opened Moves

  /** The fill Board.initializeBoard gives a tile (javafx Color.WHITE or Color.GRAY). */
  datatype TileColor = Light | Gray

  function TileColorAt(i: int, j: int): TileColor {
    if (i + j) % 2 == 0 then Light else Gray
  }

  /** One square of the board: fixed coordinates and colour, and the piece on it. */
  class Tile {
    const x: int
    const y: int
    const color: TileColor
    var piece: Piece?

    constructor (x: int, y: int, color: TileColor)
      ensures this.x == x && this.y == y && this.color == color && piece == null
    {
      this.x := x;
      this.y := y;
      this.color := color;
      piece := null;
    }

    function IsOccupied(): (occupied: bool)
      reads this
      ensures occupied <==> piece != null
    {
      piece != null
    }

    function GetPiece(): (p: Piece?)
      reads this
      ensures p == piece
    {
      piece
    }

    /** Overwrites whatever stood here; null is accepted, as the undo steps use it. */
    method OccupyTile(p: Piece?)
      modifies `piece
      ensures piece == p
    {
      piece := p;
    }

    method ReleaseTile()
      modifies `piece
      ensures piece == null
    {
      piece := null;
    }
  }

  /** The colour word and class name that make up the image file of a piece. */
  function ColorName(c: Player): string {
    if c == White then "White" else "Black"
  }

  function KindName(k: Kind): string {
    match k
    case Pawn => "Pawn"
    case Knight => "Knight"
    case Bishop => "Bishop"
    case Rook => "Rook"
    case Queen => "Queen"
    case King => "King"
  }

  /** The file name getImage builds: colour word, class name, ".png". */
  function ImageName(c: Player, k: Kind): string {
    ColorName(c) + KindName(k) + ".png"
  }

  /** Each of the twelve kinds of piece has its own image file. */
  lemma ImageNameInjective(c1: Player, k1: Kind, c2: Player, k2: Kind)
    ensures ImageName(c1, k1) == ImageName(c2, k2) <==> c1 == c2 && k1 == k2
  {
    if ImageName(c1, k1) == ImageName(c2, k2) {
      var n := ImageName(c1, k1);
      assert |ColorName(c1)| == 5 == |ColorName(c2)|;
      assert n[..5] == ColorName(c1) && n[..5] == ColorName(c2);
      assert n[5..|n| - 4] == KindName(k1) && n[5..|n| - 4] == KindName(k2);
    }
  }

  /** A piece: Piece and its subclass in one class, the subclass being `kind`.
      `hasMoved` is a field of King and Pawn only; the others never set it. */
  class Piece {
    const kind: Kind
    const color: Player
    var position: Pos
    var hasMoved: bool

    constructor (kind: Kind, color: Player, position: Pos)
      ensures this.kind == kind && this.color == color && this.position == position && !hasMoved
    {
      this.kind := kind;
      this.color := color;
      this.position := position;
      hasMoved := false;
    }

    /** What the rules read of this piece. */
    function View(): Man
      reads this
    {
      Man(kind, color, hasMoved)
    }

    function GetColor(): (c: Player)
      ensures c == color
    {
      color
    }

    function GetPlayer(): (c: Player)
      ensures c == GetColor()
    {
      color
    }

    function GetPosition(): (p: Pos)
      reads this
      ensures p == position
    {
      position
    }

    method SetPosition(p: Pos)
      modifies `position
      ensures position == p && hasMoved == old(hasMoved)
    {
      position := p;
    }

    /** setHasMoved of King and Pawn. */
    method SetHasMoved(b: bool)
      requires kind == King || kind == Pawn
      modifies `hasMoved
      ensures hasMoved == b && position == old(position)
    {
      hasMoved := b;
    }

    /** getPotentialMoves of each piece, from its own position.  Every square
        offered is one PotentialTarget names; from a square on the board every
        such square is offered. */
    method GetPotentialMoves() returns (moves: seq<Pos>)
      ensures forall q :: q in moves ==> PotentialTarget(View(), position, q)
      ensures InBounds(position) ==> forall q :: PotentialTarget(View(), position, q) ==> q in moves
      ensures kind == Pawn ==> |moves| <= 4
      ensures kind == Knight || kind == King ==> |moves| <= 8
      ensures kind == Rook && InBounds(position) ==> |moves| == 14
    {
      match kind
      case Pawn => moves := PawnMoves(position, color, hasMoved);
      case Knight => moves := KnightMoves(position);
      case Bishop => moves := BishopMoves(position);
      case Rook => moves := RookMoves(position);
      case Queen => moves := QueenMoves(position);
      case King => moves := KingMoves(position);
    }

    function IsOccupiedBySameColor(endTile: Tile): (same: bool)
      reads endTile
      ensures same <==> endTile.piece != null && endTile.piece.color == color
    {
      endTile.GetPiece() != null && endTile.GetPiece().GetColor() == GetColor()
    }

    /** The resource path of the image getImage loads. */
    function ImagePath(): string {
      "/main/resources/images/" + ImageName(color, kind)
    }

    // -------------------------------------------------------------------------
    // isValidMove of the five pieces that do not recurse
    // -------------------------------------------------------------------------

    /** Pawn.isValidMove. */
    function PawnIsValidMove(board: Board, startTile: Tile, endTile: Tile): (valid: bool)
      reads this, board, board.grid, board.tiles, board.men
      requires board.Wf() && startTile in board.tiles && endTile in board.tiles && kind == Pawn
      ensures valid == PawnRule(board.contents, View(), Pos(startTile.x, startTile.y), Pos(endTile.x, endTile.y))
    {
      if IsOccupiedBySameColor(endTile) then false
      else
        var startRow, startColumn, endRow, endColumn := startTile.x, startTile.y, endTile.x, endTile.y;
        var direction := if GetColor() == White then -1 else 1;
        var endEmpty := board.GetTile(endRow, endColumn).GetPiece() == null;
        if startColumn == endColumn && endEmpty && startRow + direction == endRow then true
        else if startColumn == endColumn && endEmpty && !hasMoved && startRow + 2 * direction == endRow then
          board.GetTile(startRow + direction, startColumn).GetPiece() == null
        else if Abs(startColumn - endColumn) == 1 && startRow + direction == endRow then
          board.GetTile(endRow, endColumn).GetPiece() != null
        else false
    }

    /** Knight.isValidMove. */
    function KnightIsValidMove(board: Board, startTile: Tile, endTile: Tile): (valid: bool)
      reads this, board, board.grid, board.tiles, board.men, endTile
      requires board.Wf() && startTile in board.tiles && endTile in board.tiles && kind == Knight
      ensures valid == KnightRule(board.contents, View(), Pos(startTile.x, startTile.y), Pos(endTile.x, endTile.y))
    {
      if IsOccupiedBySameColor(endTile) then false
      else
        var xStart, yStart, xEnd, yEnd := startTile.x, startTile.y, endTile.x, endTile.y;
        if Abs(xStart - xEnd) == 2 && Abs(yStart - yEnd) == 1 then true
        else if Abs(xStart - xEnd) == 1 && Abs(yStart - yEnd) == 2 then true
        else false
    }

    /** isPathClear of Bishop and of Rook (the same code): x and y step together
        while NEITHER has reached its target. */
    method LockstepPathClear(board: Board, xStart: int, yStart: int, xEnd: int, yEnd: int) returns (clear: bool)
      requires board.Wf() && InBounds(Pos(xStart, yStart)) && InBounds(Pos(xEnd, yEnd))
      ensures clear == LockstepClear(board.contents, Pos(xStart, yStart), Pos(xEnd, yEnd))
    {
      ghost var g, s, e := board.contents, Pos(xStart, yStart), Pos(xEnd, yEnd);
      var xDirection := Compare(xEnd, xStart);
      var yDirection := Compare(yEnd, yStart);
      var x := xStart + xDirection;
      var y := yStart + yDirection;
      ghost var k := 1;
      while x != xEnd && y != yEnd
        invariant x == Toward(xStart, xEnd, k) && y == Toward(yStart, yEnd, k)
        invariant 1 <= k <= Max(1, LockstepLength(s, e))
        invariant forall j :: 1 <= j < k ==> LockStep(s, e, j) !in g
        decreases LockstepLength(s, e) - k
      {
        assert LockStep(s, e, k) == Pos(x, y);
        if board.GetTile(x, y).IsOccupied() {
          assert LockStep(s, e, k) in g;
          return false;
        }
        assert LockStep(s, e, k) !in g;
        x := x + xDirection;
        y := y + yDirection;
        k := k + 1;
      }
      return true;
    }

    /** Queen.isPathClear: a coordinate that has reached its target stays there,
        and the walk goes on until BOTH have. */
    method QueenPathClear(board: Board, xStart: int, yStart: int, xEnd: int, yEnd: int) returns (clear: bool)
      requires board.Wf() && InBounds(Pos(xStart, yStart)) && InBounds(Pos(xEnd, yEnd))
      ensures clear == QueenClear(board.contents, Pos(xStart, yStart), Pos(xEnd, yEnd))
    {
      ghost var g, s, e := board.contents, Pos(xStart, yStart), Pos(xEnd, yEnd);
      var xDirection := Compare(xEnd, xStart);
      var yDirection := Compare(yEnd, yStart);
      var x := xStart + xDirection;
      var y := yStart + yDirection;
      ghost var i := 1;
      while x != xEnd || y != yEnd
        invariant x == Toward(xStart, xEnd, Min(i, Abs(xEnd - xStart)))
        invariant y == Toward(yStart, yEnd, Min(i, Abs(yEnd - yStart)))
        invariant 1 <= i <= Max(1, QueenLength(s, e))
        invariant forall j :: 1 <= j < i ==> QueenStep(s, e, j) !in g
        decreases QueenLength(s, e) - i
      {
        assert QueenStep(s, e, i) == Pos(x, y);
        if board.GetTile(x, y).IsOccupied() {
          assert QueenStep(s, e, i) in g;
          return false;
        }
        assert QueenStep(s, e, i) !in g;
        if x != xEnd {
          x := x + xDirection;
        }
        if y != yEnd {
          y := y + yDirection;
        }
        i := i + 1;
      }
      return true;
    }

    /** Bishop.isValidMove. */
    method BishopIsValidMove(board: Board, startTile: Tile, endTile: Tile) returns (valid: bool)
      requires board.Wf() && startTile in board.tiles && endTile in board.tiles && kind == Bishop
      ensures valid == BishopRule(board.contents, View(), Pos(startTile.x, startTile.y), Pos(endTile.x, endTile.y))
    {
      if IsOccupiedBySameColor(endTile) {
        return false;
      }
      var xStart, yStart, xEnd, yEnd := startTile.x, startTile.y, endTile.x, endTile.y;
      if Abs(xStart - xEnd) == Abs(yStart - yEnd) {
        var clear := LockstepPathClear(board, xStart, yStart, xEnd, yEnd);
        if clear {
          return true;
        }
      }
      return false;
    }

    /** Rook.isValidMove. */
    method RookIsValidMove(board: Board, startTile: Tile, endTile: Tile) returns (valid: bool)
      requires board.Wf() && startTile in board.tiles && endTile in board.tiles && kind == Rook
      ensures valid == RookRule(board.contents, View(), Pos(startTile.x, startTile.y), Pos(endTile.x, endTile.y))
    {
      if IsOccupiedBySameColor(endTile) {
        return false;
      }
      var xStart, yStart, xEnd, yEnd := startTile.x, startTile.y, endTile.x, endTile.y;
      if xStart == xEnd || yStart == yEnd {
        var clear := LockstepPathClear(board, xStart, yStart, xEnd, yEnd);
        if clear {
          return true;
        }
      }
      return false;
    }

    /** Queen.isValidMove. */
    method QueenIsValidMove(board: Board, startTile: Tile, endTile: Tile) returns (valid: bool)
      requires board.Wf() && startTile in board.tiles && endTile in board.tiles && kind == Queen
      ensures valid == QueenRule(board.contents, View(), Pos(startTile.x, startTile.y), Pos(endTile.x, endTile.y))
    {
      if IsOccupiedBySameColor(endTile) {
        return false;
      }
      var xStart, yStart, xEnd, yEnd := startTile.x, startTile.y, endTile.x, endTile.y;
      if xStart == xEnd || yStart == yEnd || Abs(xStart - xEnd) == Abs(yStart - yEnd) {
        var clear := QueenPathClear(board, xStart, yStart, xEnd, yEnd);
        if clear {
          return true;
        }
      }
      return false;
    }

    /** The dynamic dispatch of isValidMove over the five subclasses other than
        King; none of them changes anything. */
    method MoveRule(board: Board, startTile: Tile, endTile: Tile) returns (valid: bool)
      requires board.Wf() && startTile in board.tiles && endTile in board.tiles && kind != King
      ensures valid == PieceRule(board.contents, View(), Pos(startTile.x, startTile.y), Pos(endTile.x, endTile.y))
    {
      match kind
      case Pawn => valid := PawnIsValidMove(board, startTile, endTile);
      case Knight => valid := KnightIsValidMove(board, startTile, endTile);
      case Bishop => valid := BishopIsValidMove(board, startTile, endTile);
      case Rook => valid := RookIsValidMove(board, startTile, endTile);
      case Queen => valid := QueenIsValidMove(board, startTile, endTile);
    }

    // -------------------------------------------------------------------------
    // King.isValidMove and the dispatch over all six subclasses
    // -------------------------------------------------------------------------

    /** The one-square branch of King.isValidMove: the move is simulated, the
        destination is asked of isPositionUnderAttack, and both tiles are put
        back. */
    method KingStepIsSafe(board: Board, startTile: Tile, endTile: Tile) returns (safe: bool)
      requires board.Wf() && startTile in board.tiles && endTile in board.tiles
      requires startTile.piece == this && startTile != endTile
      modifies startTile`piece, endTile`piece, board`contents
      ensures board.Wf() && unchanged(board.tiles) && board.contents == old(board.contents)
      ensures safe == !UnderAttack(Relocate(old(board.contents), Pos(startTile.x, startTile.y), Pos(endTile.x, endTile.y)),
                                   Pos(endTile.x, endTile.y), color)
    {
      ghost var before := board.contents;
      var capturedPiece := endTile.GetPiece();
      board.Simulate(startTile, endTile);
      var isInCheck := board.IsPositionUnderAttack(Pos(endTile.x, endTile.y), GetColor());
      board.Undo(startTile, endTile, this, capturedPiece, before);
      return !isInCheck;
    }

    /** The in-check branch of King.isValidMove: the move is simulated, the
        King's colour is asked of isKingInCheck, and both tiles are put back
        unless that call does not return. */
    method KingEscapes(board: Board, startTile: Tile, endTile: Tile, fuel: nat) returns (r: Option<bool>)
      requires board.Wf() && startTile in board.tiles && endTile in board.tiles
      requires startTile.piece == this && startTile != endTile
      modifies board.tiles`piece, board`contents
      ensures board.Wf()
      ensures r.Some? ==> unchanged(board.tiles) && board.contents == old(board.contents)
      ensures r == match InCheck(Relocate(old(board.contents), Pos(startTile.x, startTile.y), Pos(endTile.x, endTile.y)), color, fuel)
                   case None => None
                   case Some(stillInCheck) => Some(!stillInCheck)
      decreases fuel, 4
    {
      ghost var before := board.contents;
      var tempPiece := endTile.GetPiece();
      board.Simulate(startTile, endTile);
      var stillInCheck := board.IsKingInCheck(GetColor(), fuel);
      if stillInCheck.None? {
        return None;
      }
      board.Undo(startTile, endTile, this, tempPiece, before);
      return Some(!stillInCheck.value);
    }

    /** King.isValidMove.  A step of one square is safe when the destination is
        not under attack once the King stands there; any other move is allowed
        only to a King in check that the simulated move takes out of it.  The
        tiles are put back unless a nested check fails to return (r == None), in
        which case the source's exception unwinds past the undo. */
    method KingIsValidMove(board: Board, startTile: Tile, endTile: Tile, fuel: nat) returns (r: Option<bool>)
      requires board.Wf() && startTile in board.tiles && endTile in board.tiles
      requires startTile.piece == this && kind == King
      modifies board.tiles`piece, board`contents
      ensures board.Wf()
      ensures r.Some? ==> unchanged(board.tiles) && board.contents == old(board.contents)
      ensures r == KingMove(old(board.contents), Pos(startTile.x, startTile.y), Pos(endTile.x, endTile.y), fuel)
      decreases fuel, 0
    {
      if IsOccupiedBySameColor(endTile) {
        return Some(false);
      }
      var xStart, yStart, xEnd, yEnd := startTile.x, startTile.y, endTile.x, endTile.y;
      if Abs(xStart - xEnd) <= 1 && Abs(yStart - yEnd) <= 1 {
        var safe := KingStepIsSafe(board, startTile, endTile);
        return Some(safe);
      }
      if fuel == 0 {
        return None;
      }
      var inCheck := board.IsKingInCheck(GetColor(), fuel - 1);
      if inCheck.None? {
        return None;
      }
      if inCheck.value {
        r := KingEscapes(board, startTile, endTile, fuel - 1);
        return;
      }
      return Some(false);
    }

    /** isValidMove, dispatched on the subclass. */
    method IsValidMove(board: Board, startTile: Tile, endTile: Tile, fuel: nat) returns (r: Option<bool>)
      requires board.Wf() && startTile in board.tiles && endTile in board.tiles && startTile.piece == this
      modifies board.tiles`piece, board`contents
      ensures board.Wf()
      ensures r.Some? ==> unchanged(board.tiles) && board.contents == old(board.contents)
      ensures r == ValidMove(old(board.contents), Pos(startTile.x, startTile.y), Pos(endTile.x, endTile.y), fuel)
      decreases fuel, 1
    {
      if kind == King {
        r := KingIsValidMove(board, startTile, endTile, fuel);
      } else {
        var valid := MoveRule(board, startTile, endTile);
        r := Some(valid);
      }
    }
  }

  /** The board: the 8x8 array of tiles, whose side is to move, the pieces
      captured so far, and whether a capture listener is set together with the
      pieces it has been told about (the listener itself is the view). */
  class Board {
    const grid: array2<Tile?>
    /** The 64 tiles of `grid`. */
    ghost const tiles: set<Tile>
    /** Every piece placed on the board since construction. */
    ghost var men: set<Piece>
    /** The board as a value: what the rules read. */
    ghost var contents: Grid
    var currentPlayer: Player
    var capturedPieces: seq<Piece>
    var hasListener: bool
    var notified: seq<Piece>

    /** The shape of the board: 64 distinct tiles with their own coordinates and
        colours.  No method changes it after construction. */
    ghost predicate Shape()
      reads this, grid
    {
      && grid.Length0 == 8 && grid.Length1 == 8
      && (forall i, j :: 0 <= i < 8 && 0 <= j < 8 ==>
            grid[i, j] != null && grid[i, j] in tiles &&
            grid[i, j].x == i && grid[i, j].y == j && grid[i, j].color == TileColorAt(i, j))
      && (forall t :: t in tiles ==> 0 <= t.x < 8 && 0 <= t.y < 8 && grid[t.x, t.y] == t)
    }

    /** The board in shape, and `contents` the value of what stands on its
        tiles, every occupant a known piece.  Holds during simulations. */
    ghost predicate Wf()
      reads this, grid, tiles, men
    {
      && Shape()
      && OnBoard(contents)
      && (forall t :: t in tiles ==> (Pos(t.x, t.y) in contents <==> t.piece != null))
      && (forall t :: t in tiles && t.piece != null ==>
            t.piece in men && contents[Pos(t.x, t.y)] == t.piece.View())
    }

    /** Between public calls, also: every piece knows the square it stands on. */
    ghost predicate Valid()
      reads this, grid, tiles, men
    {
      Wf() && forall t :: t in tiles && t.piece != null ==> t.piece.position == Pos(t.x, t.y)
    }

    /** Board(): the tiles are made, the pieces set out, White is to move,
        nothing is captured and no listener is set. */
    constructor ()
      ensures Valid() && contents == InitialGrid()
      ensures currentPlayer == White && capturedPieces == [] && !hasListener && notified == []
    {
      var a;
      ghost var ts;
      a, ts := InitializeBoard();
      grid := a;
      tiles := ts;
      men := {};
      contents := map[];
      currentPlayer := White;
      capturedPieces := [];
      hasListener := false;
      notified := [];
      new;
      PlacePieces();
    }

    /** Board.initializeBoard: 64 new, empty tiles, light where i + j is even. */
    static method InitializeBoard() returns (a: array2<Tile?>, ghost ts: set<Tile>)
      ensures fresh(a) && a.Length0 == 8 && a.Length1 == 8
      ensures forall i, j :: 0 <= i < 8 && 0 <= j < 8 ==>
        a[i, j] != null && a[i, j] in ts && a[i, j].x == i && a[i, j].y == j && a[i, j].color == TileColorAt(i, j)
      ensures forall t :: t in ts ==> 0 <= t.x < 8 && 0 <= t.y < 8 && a[t.x, t.y] == t && t.piece == null && fresh(t)
    {
      a := new Tile?[8, 8];
      ts := {};
      for i := 0 to 8
        invariant forall i', j :: 0 <= i' < i && 0 <= j < 8 ==>
          a[i', j] != null && a[i', j] in ts && a[i', j].x == i' && a[i', j].y == j && a[i', j].color == TileColorAt(i', j)
        invariant forall t :: t in ts ==> 0 <= t.x < i && 0 <= t.y < 8 && a[t.x, t.y] == t && t.piece == null && fresh(t)
      {
        for j := 0 to 8
          invariant forall i', j' :: 0 <= i' < 8 && 0 <= j' < 8 && (i' < i || (i' == i && j' < j)) ==>
            a[i', j'] != null && a[i', j'] in ts && a[i', j'].x == i' && a[i', j'].y == j' && a[i', j'].color == TileColorAt(i', j')
          invariant forall t :: t in ts ==>
            0 <= t.x <= i && 0 <= t.y < 8 && (t.x < i || t.y < j) && a[t.x, t.y] == t && t.piece == null && fresh(t)
        {
          var tileColor := if (i + j) % 2 == 0 then Light else Gray;
          var tile := new Tile(i, j, tileColor);
          a[i, j] := tile;
          ts := ts + {tile};
        }
      }
    }

    /** One occupyTile(new ...) of placePieces: a new, unmoved piece that knows
        its square is put on the empty tile at (r, c), the piece the starting
        position has there. */
    method Place(kind: Kind, color: Player, r: int, c: int)
      requires Valid() && InBounds(Pos(r, c)) && Pos(r, c) !in contents
      requires PartOfInitial(contents) && InitialMan(Pos(r, c)) == Some(Man(kind, color, false))
      modifies this`contents, this`men, grid[r, c]`piece
      ensures Valid() && PartOfInitial(contents)
      ensures contents.Keys == old(contents).Keys + {Pos(r, c)}
    {
      var piece := new Piece(kind, color, Pos(r, c));
      grid[r, c].OccupyTile(piece);
      men := men + {piece};
      contents := contents[Pos(r, c) := piece.View()];
    }

    /** Board.placePieces: the pawns column by column, then the back ranks. */
    method PlacePieces()
      requires Valid() && contents == map[]
      modifies this`contents, this`men, tiles`piece
      ensures Valid() && contents == InitialGrid()
    {
      PlacePawns();
      PlaceBackRanks();
      InitialComplete(contents);
    }

    /** The loop of placePieces: a Black pawn on row 1 and a White pawn on
        row 6 of every column. */
    method PlacePawns()
      requires Valid() && contents == map[]
      modifies this`contents, this`men, tiles`piece
      ensures Valid() && PartOfInitial(contents)
      ensures forall q :: q in contents <==> (q.row == 1 || q.row == 6) && 0 <= q.col < 8
    {
      for i := 0 to 8
        invariant Valid() && PartOfInitial(contents)
        invariant forall q :: q in contents <==> (q.row == 1 || q.row == 6) && 0 <= q.col < i
      {
        Place(Pawn, Black, 1, i);
        Place(Pawn, White, 6, i);
      }
    }

    /** The Rooks, Knights, Bishops, Queens and Kings of placePieces: Black's on
        row 0 and White's on row 7, in the column order of BackRank. */
    method PlaceBackRanks()
      requires Valid() && PartOfInitial(contents)
      requires forall q :: q in contents <==> (q.row == 1 || q.row == 6) && 0 <= q.col < 8
      modifies this`contents, this`men, tiles`piece
      ensures Valid() && PartOfInitial(contents)
      ensures forall q :: InitialMan(q).Some? ==> q in contents
    {
      for c := 0 to 8
        invariant Valid() && PartOfInitial(contents)
        invariant forall q :: q in contents <==>
          ((q.row == 1 || q.row == 6) && 0 <= q.col < 8) || ((q.row == 0 || q.row == 7) && 0 <= q.col < c)
      {
        PlaceBackRankColumn(c);
      }
    }

    /** One round of the back-rank loop: column c of rows 0 and 7. */
    method PlaceBackRankColumn(c: int)
      requires 0 <= c < 8 && Valid() && PartOfInitial(contents)
      requires forall q :: q in contents <==>
        ((q.row == 1 || q.row == 6) && 0 <= q.col < 8) || ((q.row == 0 || q.row == 7) && 0 <= q.col < c)
      modifies this`contents, this`men, tiles`piece
      ensures Valid() && PartOfInitial(contents)
      ensures forall q :: q in contents <==>
        ((q.row == 1 || q.row == 6) && 0 <= q.col < 8) || ((q.row == 0 || q.row == 7) && 0 <= q.col < c + 1)
    {
      Place(BackRank(c), Black, 0, c);
      Place(BackRank(c), White, 7, c);
    }

    /** Board.switchPlayer: the other side is to move. */
    method SwitchPlayer()
      requires Valid()
      modifies this`currentPlayer
      ensures Valid() && currentPlayer == Opponent(old(currentPlayer))
    {
      currentPlayer := if currentPlayer == White then Black else White;
    }

    function GetCurrentPlayer(): Player
      reads this
    {
      currentPlayer
    }

    function GetCapturedPieces(): seq<Piece>
      reads this
    {
      capturedPieces
    }

    /** Board.setOnPieceCapturedListener, with `present` telling whether the
        listener passed is non-null. */
    method SetOnPieceCapturedListener(present: bool)
      modifies this`hasListener
      ensures hasListener == present
    {
      hasListener := present;
    }

    /** Board.getTile: the tile at (x, y), null off the board. */
    function GetTile(x: int, y: int): (t: Tile?)
      reads this, grid
      requires Shape()
      ensures InBounds(Pos(x, y)) ==> t == grid[x, y] && t != null && t in tiles && t.x == x && t.y == y
      ensures !InBounds(Pos(x, y)) ==> t == null
    {
      if 0 <= x < 8 && 0 <= y < 8 then grid[x, y] else null
    }

    /** endTile.occupyTile(piece) followed by startTile.releaseTile(): the
        simulation step that King.isValidMove, processMove and
        stillInCheckAfterMove each write out. */
    method Simulate(startTile: Tile, endTile: Tile)
      requires Wf() && startTile in tiles && endTile in tiles && startTile.piece != null
      modifies startTile`piece, endTile`piece, this`contents
      ensures Wf()
      ensures startTile.piece == null
      ensures startTile != endTile ==> endTile.piece == old(startTile.piece)
      ensures contents == Relocate(old(contents), Pos(startTile.x, startTile.y), Pos(endTile.x, endTile.y))
    {
      endTile.OccupyTile(startTile.piece);
      startTile.ReleaseTile();
      contents := Relocate(contents, Pos(startTile.x, startTile.y), Pos(endTile.x, endTile.y));
    }

    /** startTile.occupyTile(mover) followed by endTile.occupyTile(captured):
        how King.isValidMove puts a simulated move back, `before` being the
        board before the simulation. */
    method Undo(startTile: Tile, endTile: Tile, mover: Piece, captured: Piece?, ghost before: Grid)
      requires Wf() && startTile in tiles && endTile in tiles
      requires OnBoard(before) && Pos(startTile.x, startTile.y) in before
      requires contents == Relocate(before, Pos(startTile.x, startTile.y), Pos(endTile.x, endTile.y))
      requires startTile.piece == null && before[Pos(startTile.x, startTile.y)] == mover.View()
      requires startTile != endTile ==> endTile.piece == mover
      requires captured == null <==> Pos(endTile.x, endTile.y) !in before
      requires captured != null ==> captured in men && before[Pos(endTile.x, endTile.y)] == captured.View()
      requires startTile == endTile ==> captured == mover
      modifies startTile`piece, endTile`piece, this`contents
      ensures Wf() && contents == before
      ensures startTile.piece == mover && endTile.piece == captured
    {
      startTile.OccupyTile(mover);
      endTile.OccupyTile(captured);
      contents := before;
    }

    /** Board.findKingPosition. */
    method FindKingPosition(kingColor: Player) returns (k: Option<Pos>)
      requires Wf()
      ensures k == FindKing(contents, kingColor)
    {
      ghost var g := contents;
      for row := 0 to 8
        invariant FindKing(g, kingColor) == FindKingFrom(g, kingColor, row, 0)
      {
        for col := 0 to 8
          invariant FindKing(g, kingColor) == FindKingFrom(g, kingColor, row, col)
        {
          var tile := grid[row, col];
          if tile.IsOccupied() && tile.GetPiece().kind == King && tile.GetPiece().GetColor() == kingColor {
            return Some(Pos(row, col));
          }
        }
      }
      return None;
    }

    /** One square of the scan of isPositionUnderAttack: the piece on `tile`, if
        of the other colour and not a King, is asked whether it may move to
        `target`. */
    method AttackerAt(tile: Tile, target: Tile, kingColor: Player) returns (hit: bool)
      requires Wf() && tile in tiles && target in tiles
      ensures hit == Attacker(contents, Pos(tile.x, tile.y), Pos(target.x, target.y), kingColor)
    {
      if tile.IsOccupied() && tile.GetPiece().GetColor() != kingColor {
        var piece := tile.GetPiece();
        if piece.kind != King {
          hit := piece.MoveRule(this, tile, target);
          return;
        }
      }
      return false;
    }

    /** The inner loop of isPositionUnderAttack, over one row. */
    method RowUnderAttack(row: int, target: Tile, kingColor: Player) returns (hit: bool)
      requires Wf() && 0 <= row < 8 && target in tiles
      ensures hit == AttackInRow(contents, Pos(target.x, target.y), kingColor, row, 0)
    {
      ghost var g, p := contents, Pos(target.x, target.y);
      for col := 0 to 8
        invariant Wf() && contents == g
        invariant AttackInRow(g, p, kingColor, row, 0) == AttackInRow(g, p, kingColor, row, col)
      {
        hit := AttackerAt(grid[row, col], target, kingColor);
        if hit {
          return;
        }
      }
      return false;
    }

    /** Board.isPositionUnderAttack: some piece not of kingColor, and not a King,
        may move to `position`. */
    method IsPositionUnderAttack(position: Pos, kingColor: Player) returns (attacked: bool)
      requires Wf() && InBounds(position)
      ensures attacked == UnderAttack(contents, position, kingColor)
    {
      ghost var g := contents;
      assert UnderAttack(g, position, kingColor) == AttackFrom(g, position, kingColor, 0) by {
        UnderAttackScan(g, position, kingColor);
      }
      attacked := false;
      for row := 0 to 8
        invariant Wf() && contents == g
        invariant AttackFrom(g, position, kingColor, 0) == AttackFrom(g, position, kingColor, row)
      {
        attacked := RowUnderAttack(row, grid[position.row, position.col], kingColor);
        if attacked {
          return;
        }
      }
    }

    /** Board.isKingInCheck.  The King's square is read only once an opposing
        piece is met: with no King the source throws there (None). */
    method IsKingInCheck(kingColor: Player, fuel: nat) returns (r: Option<bool>)
      requires Wf()
      modifies tiles`piece, this`contents
      ensures Wf()
      ensures r.Some? ==> unchanged(tiles) && contents == old(contents)
      ensures r == InCheck(old(contents), kingColor, fuel)
      decreases fuel, 3
    {
      ghost var g := contents;
      var kingPosition := FindKingPosition(kingColor);
      for row := 0 to 8
        invariant Wf() && unchanged(tiles) && contents == g
        invariant InCheck(g, kingColor, fuel) == CheckFrom(g, kingColor, kingPosition, fuel, row, 0)
      {
        for col := 0 to 8
          invariant Wf() && unchanged(tiles) && contents == g
          invariant InCheck(g, kingColor, fuel) == CheckFrom(g, kingColor, kingPosition, fuel, row, col)
        {
          var tile := grid[row, col];
          if tile.IsOccupied() && tile.GetPiece().GetColor() != kingColor {
            var piece := tile.GetPiece();
            if kingPosition.None? {
              return None;
            }
            var valid := piece.IsValidMove(this, tile, grid[kingPosition.value.row, kingPosition.value.col], fuel);
            if valid.None? {
              return None;
            }
            if valid.value {
              return Some(true);
            }
          }
        }
      }
      return Some(false);
    }

    /** Board.getAllPiecesOfColor: the pieces of `color`, row by row. */
    method GetAllPiecesOfColor(color: Player) returns (pieces: seq<Piece>)
      requires Wf()
      ensures |pieces| == |SquaresOf(contents, color)|
      ensures forall k :: 0 <= k < |pieces| ==>
        var p := SquaresOf(contents, color)[k]; pieces[k] == grid[p.row, p.col].piece
    {
      ghost var g := contents;
      pieces := [];
      for i := 0 to 8
        invariant |pieces| == |SquaresBefore(g, color, i, 0)|
        invariant forall k :: 0 <= k < |pieces| ==>
          var p := SquaresBefore(g, color, i, 0)[k]; pieces[k] == grid[p.row, p.col].piece
      {
        for j := 0 to 8
          invariant |pieces| == |SquaresBefore(g, color, i, j)|
          invariant forall k :: 0 <= k < |pieces| ==>
            var p := SquaresBefore(g, color, i, j)[k]; pieces[k] == grid[p.row, p.col].piece
        {
          var currentTile := GetTile(i, j);
          if currentTile.IsOccupied() {
            var piece := currentTile.GetPiece();
            if piece.GetColor() == color {
              pieces := pieces + [piece];
            }
          }
        }
      }
    }

    /** The piece on the tile at p, as a list of at most one. */
    ghost function Occupant(p: Pos): seq<Piece>
      reads this, grid, tiles
      requires Shape() && InBounds(p)
    {
      if grid[p.row, p.col].piece == null then [] else [grid[p.row, p.col].piece]
    }

    /** Board.makeMove: a piece on `end` is recorded as captured (and told to
        the listener, if one is set), the piece on `start` moves to `end` and
        learns its new position, and a King or Pawn is marked as moved.  With an
        empty start tile the source throws after clearing `end`; no caller
        passes one. */
    method MakeMove(start: Pos, end: Pos) returns (ok: bool)
      requires Valid() && InBounds(start) && InBounds(end) && start in contents
      modifies this, tiles`piece, grid[start.row, start.col].piece
      ensures Valid() && ok
      ensures contents == AfterMove(old(contents), start, end)
      ensures capturedPieces == old(capturedPieces + Occupant(end))
      ensures notified == old(notified + if hasListener then Occupant(end) else [])
      ensures currentPlayer == old(currentPlayer) && hasListener == old(hasListener) && men == old(men)
      ensures grid[end.row, end.col].piece == old(grid[start.row, start.col].piece)
      ensures grid[end.row, end.col].piece.position == end
      ensures start != end ==> grid[start.row, start.col].piece == null
      ensures forall t :: t in tiles && t != grid[start.row, start.col] && t != grid[end.row, end.col] ==>
        t.piece == old(t.piece)
    {
      var startTile := grid[start.row, start.col];
      var endTile := grid[end.row, end.col];
      var piece := startTile.GetPiece();
      if endTile.IsOccupied() {
        capturedPieces := capturedPieces + [endTile.GetPiece()];
        if hasListener {
          notified := notified + [endTile.GetPiece()];
        }
      }
      Transfer(startTile, endTile, piece);
      return true;
    }

    /** The second half of makeMove: startTile.releaseTile(),
        endTile.occupyTile(piece), piece.setPosition(end) and, for a King or a
        Pawn, setHasMoved(true). */
    method Transfer(startTile: Tile, endTile: Tile, piece: Piece)
      requires Valid() && startTile in tiles && endTile in tiles && startTile.piece == piece
      modifies startTile`piece, endTile`piece, piece`position, piece`hasMoved, this`contents
      ensures Valid()
      ensures contents == AfterMove(old(contents), Pos(startTile.x, startTile.y), Pos(endTile.x, endTile.y))
      ensures endTile.piece == piece && piece.position == Pos(endTile.x, endTile.y)
      ensures startTile != endTile ==> startTile.piece == null
    {
      ShiftPiece(startTile, endTile, piece);
      if piece.kind == King || piece.kind == Pawn {
        MarkMoved(endTile, piece);
      }
    }

    /** releaseTile, occupyTile and setPosition: the piece leaves its start
        square (its flags as they were) and stands on the end square, whatever
        stood there before now off the board. */
    method ShiftPiece(startTile: Tile, endTile: Tile, piece: Piece)
      requires Valid() && startTile in tiles && endTile in tiles && startTile.piece == piece
      modifies startTile`piece, endTile`piece, piece`position, this`contents
      ensures Valid()
      ensures var s, e := Pos(startTile.x, startTile.y), Pos(endTile.x, endTile.y);
        contents == (old(contents) - {s})[e := old(contents)[s]]
      ensures endTile.piece == piece && piece.position == Pos(endTile.x, endTile.y)
      ensures startTile != endTile ==> startTile.piece == null
    {
      ghost var g := contents;
      ghost var s, e := Pos(startTile.x, startTile.y), Pos(endTile.x, endTile.y);
      assert forall t :: t in tiles && t != startTile && t.piece != null ==> t.piece != piece;
      startTile.ReleaseTile();
      endTile.OccupyTile(piece);
      piece.SetPosition(Pos(endTile.x, endTile.y));
      contents := (g - {s})[e := g[s]];
      forall t | t in tiles
        ensures Pos(t.x, t.y) in contents <==> t.piece != null
        ensures t.piece != null ==>
          t.piece in men && contents[Pos(t.x, t.y)] == t.piece.View() && t.piece.position == Pos(t.x, t.y)
      {
        if t != endTile && t != startTile {
          assert Pos(t.x, t.y) != s && Pos(t.x, t.y) != e;
        }
      }
    }

    /** setHasMoved(true) on the King or Pawn standing on endTile. */
    method MarkMoved(endTile: Tile, piece: Piece)
      requires Valid() && endTile in tiles && endTile.piece == piece
      requires piece.kind == King || piece.kind == Pawn
      modifies piece`hasMoved, this`contents
      ensures Valid()
      ensures var e := Pos(endTile.x, endTile.y);
        e in old(contents) && contents == old(contents)[e := Moved(old(contents)[e])]
    {
      ghost var e := Pos(endTile.x, endTile.y);
      assert forall t :: t in tiles && t != endTile && t.piece != null ==> t.piece != piece;
      piece.SetHasMoved(true);
      contents := contents[e := Moved(contents[e])];
    }

    /** The pieces a move from p may change: the one standing there, if any. */
    ghost function Movers(p: Pos): set<Piece>
      reads this, grid, tiles
      requires Shape()
    {
      if InBounds(p) && grid[p.row, p.col].piece != null then {grid[p.row, p.col].piece} else {}
    }

    /** The simulation of processMove and stillInCheckAfterMove: the piece is
        put on endTile, startTile is released, and the piece is told its new
        position.  The board stays valid: a piece that was on endTile is simply
        off the board. */
    method SimulateMove(startTile: Tile, endTile: Tile, piece: Piece)
      requires Valid() && startTile in tiles && endTile in tiles && startTile.piece == piece
      modifies startTile`piece, endTile`piece, piece`position, this`contents
      ensures Valid()
      ensures contents == Relocate(old(contents), Pos(startTile.x, startTile.y), Pos(endTile.x, endTile.y))
      ensures startTile.piece == null && (startTile != endTile ==> endTile.piece == piece)
      ensures piece.position == Pos(endTile.x, endTile.y)
    {
      assert forall t :: t in tiles && t != startTile && t.piece != null ==> t.piece != piece;
      Simulate(startTile, endTile);
      piece.SetPosition(Pos(endTile.x, endTile.y));
    }

    /** The undo of processMove and stillInCheckAfterMove: the piece goes back
        to startTile and learns its old position, and endTile gets back what
        stood there. */
    method UndoMove(startTile: Tile, endTile: Tile, piece: Piece, captured: Piece?, ghost before: Grid)
      requires Valid() && startTile in tiles && endTile in tiles
      requires OnBoard(before) && Pos(startTile.x, startTile.y) in before
      requires contents == Relocate(before, Pos(startTile.x, startTile.y), Pos(endTile.x, endTile.y))
      requires startTile.piece == null && before[Pos(startTile.x, startTile.y)] == piece.View()
      requires startTile != endTile ==> endTile.piece == piece && captured != piece
      requires captured == null <==> Pos(endTile.x, endTile.y) !in before
      requires captured != null ==> captured in men && before[Pos(endTile.x, endTile.y)] == captured.View()
      requires captured != null ==> captured.position == Pos(endTile.x, endTile.y)
      requires startTile == endTile ==> captured == piece
      modifies startTile`piece, endTile`piece, piece`position, this`contents
      ensures Valid() && contents == before
      ensures startTile.piece == piece && endTile.piece == captured
      ensures piece.position == Pos(startTile.x, startTile.y)
    {
      assert forall t :: t in tiles && t != startTile && t != endTile && t.piece != null ==> t.piece != piece;
      Undo(startTile, endTile, piece, captured, before);
      piece.SetPosition(Pos(startTile.x, startTile.y));
    }

    /** The middle of processMove: the valid move is simulated,
        isKingInCheck(currentPlayer) is asked twice and the move is undone
        (unless a check does not return).  Both calls see the same board, so
        the source's two refusals (still in check, newly in check) come to one:
        whether the side to move would stand in check. */
    method CheckAfterSimulation(startTile: Tile, endTile: Tile, piece: Piece, fuel: nat) returns (r: Option<bool>)
      requires Valid() && startTile in tiles && endTile in tiles && startTile.piece == piece && startTile != endTile
      modifies tiles`piece, this`contents, piece`position
      ensures Wf()
      ensures r == InCheck(Relocate(old(contents), Pos(startTile.x, startTile.y), Pos(endTile.x, endTile.y)), currentPlayer, fuel)
      ensures r.Some? ==> Valid() && unchanged(tiles) && contents == old(contents) && piece.position == old(piece.position)
    {
      ghost var before := contents;
      var capturedPiece := endTile.GetPiece();
      SimulateMove(startTile, endTile, piece);
      var wasInCheck := IsKingInCheck(currentPlayer, fuel);
      if wasInCheck.None? {
        return None;
      }
      var isInCheckAfterMove := IsKingInCheck(currentPlayer, fuel);
      assert isInCheckAfterMove == wasInCheck;
      UndoMove(startTile, endTile, piece, capturedPiece, before);
      return isInCheckAfterMove;
    }

    /** Board.processMove.  A start off the board makes getTile return null and
        the piece lookup throw; an empty start answers false; an end off the
        board throws inside isValidMove.  A valid move is refused when it would
        leave the side to move in check, and made by makeMove otherwise.  The side to move is not
        compared with the piece's colour and is not switched. */
    method ProcessMove(start: Pos, end: Pos, fuel: nat) returns (r: Option<bool>)
      requires Valid()
      modifies this, tiles`piece, Movers(start)
      ensures Wf()
      ensures r == ProcessOutcome(old(contents), old(currentPlayer), start, end, fuel)
      ensures r.Some? ==> Valid() && currentPlayer == old(currentPlayer) && hasListener == old(hasListener) && men == old(men)
      ensures r == Some(false) ==>
        unchanged(tiles) && contents == old(contents) &&
        capturedPieces == old(capturedPieces) && notified == old(notified)
      ensures r == Some(true) ==>
        && InBounds(start) && InBounds(end)
        && contents == AfterMove(old(contents), start, end)
        && capturedPieces == old(capturedPieces + Occupant(end))
        && notified == old(notified + if hasListener then Occupant(end) else [])
        && grid[end.row, end.col].piece == old(grid[start.row, start.col].piece)
        && grid[end.row, end.col].piece.position == end
    {
      var startTile := GetTile(start.row, start.col);
      var endTile := GetTile(end.row, end.col);
      if startTile == null {
        return None;
      }
      var piece := startTile.GetPiece();
      if piece == null {
        return Some(false);
      }
      if endTile == null {
        return None;
      }
      var valid := piece.IsValidMove(this, startTile, endTile, fuel);
      if valid.None? {
        return None;
      }
      if !valid.value {
        return Some(false);
      }
      assert startTile != endTile by {
        NeverOntoOwnColour(contents, start, start, fuel);
      }
      var leavesCheck := CheckAfterSimulation(startTile, endTile, piece, fuel);
      if leavesCheck.None? {
        return None;
      }
      if leavesCheck.value {
        return Some(false);
      }
      var moved := MakeMove(start, end);
      return Some(true);
    }

    /** Board.stillInCheckAfterMove: whether the mover's King stands in check
        with the move simulated.  Both tiles are looked up (and read) before the
        empty-start test, so an end off the board throws too. */
    method StillInCheckAfterMove(start: Pos, end: Pos, fuel: nat) returns (r: Option<bool>)
      requires Valid()
      modifies tiles`piece, this`contents, Movers(start)
      ensures Wf()
      ensures r == StillInCheck(old(contents), start, end, fuel)
      ensures r.Some? ==> Valid() && unchanged(tiles) && contents == old(contents)
    {
      var startTile := GetTile(start.row, start.col);
      var endTile := GetTile(end.row, end.col);
      if startTile == null || endTile == null {
        return None;
      }
      var movingPiece := startTile.GetPiece();
      var capturedPiece := endTile.GetPiece();
      if movingPiece == null {
        return Some(false);
      }
      ghost var before := contents;
      SimulateMove(startTile, endTile, movingPiece);
      var stillInCheck := IsKingInCheck(movingPiece.GetColor(), fuel);
      if stillInCheck.None? {
        return None;
      }
      UndoMove(startTile, endTile, movingPiece, capturedPiece, before);
      return stillInCheck;
    }

    /** One round of isDoubleCheck's loop: the listed piece, found on its tile
        through its own position, is asked whether it can move to the King. */
    method AskPiece(piece: Piece, ghost p: Pos, kingTile: Tile, fuel: nat) returns (valid: Option<bool>)
      requires Wf() && kingTile in tiles && InBounds(p)
      requires grid[p.row, p.col].piece == piece && piece.position == p
      modifies tiles`piece, this`contents
      ensures Wf()
      ensures valid.Some? ==> unchanged(tiles) && contents == old(contents)
      ensures valid == ValidMove(old(contents), p, Pos(kingTile.x, kingTile.y), fuel)
    {
      var pieceTile := GetTile(piece.GetPosition().row, piece.GetPosition().col);
      valid := piece.IsValidMove(this, pieceTile, kingTile, fuel);
    }

    /** The counting loop of isDoubleCheck: the listed pieces, standing on
        `squares`, are asked in turn whether they can move to the King. */
    method CountPieceChecks(pieces: seq<Piece>, ghost squares: seq<Pos>, kingTile: Tile, fuel: nat)
      returns (r: Option<bool>)
      requires Valid() && kingTile in tiles && |pieces| == |squares|
      requires forall k :: 0 <= k < |squares| ==> InBounds(squares[k]) && squares[k] in contents
      requires forall k :: 0 <= k < |squares| ==>
        grid[squares[k].row, squares[k].col].piece == pieces[k] && pieces[k].position == squares[k]
      modifies tiles`piece, this`contents
      ensures Wf()
      ensures r.Some? ==> Valid() && unchanged(tiles) && contents == old(contents)
      ensures r == CountChecks(old(contents), Pos(kingTile.x, kingTile.y), squares, fuel, 0)
    {
      ghost var g := contents;
      var checkCount := 0;
      for k := 0 to |pieces|
        invariant Wf() && unchanged(tiles) && contents == g
        invariant checkCount <= 1
        invariant CountChecks(g, Pos(kingTile.x, kingTile.y), squares, fuel, 0) ==
                  CountChecks(g, Pos(kingTile.x, kingTile.y), squares[k..], fuel, checkCount)
      {
        ghost var t := grid[squares[k].row, squares[k].col];
        assert t in tiles && old(t.piece) == pieces[k];
        var valid := AskPiece(pieces[k], squares[k], kingTile, fuel);
        if valid.None? {
          return None;
        }
        assert squares[k..][1..] == squares[k + 1..];
        if valid.value {
          checkCount := checkCount + 1;
          if checkCount > 1 {
            return Some(true);
          }
        }
      }
      return Some(false);
    }

    /** Board.isDoubleCheck: the King's square is looked up first (a missing
        King throws), then the opposing pieces are asked one by one until a
        second one reaches it. */
    method IsDoubleCheck(kingColor: Player, fuel: nat) returns (r: Option<bool>)
      requires Valid()
      modifies tiles`piece, this`contents
      ensures Wf()
      ensures r.Some? ==> Valid() && unchanged(tiles) && contents == old(contents)
      ensures r == DoubleCheck(old(contents), kingColor, fuel)
    {
      var kingPosition := FindKingPosition(kingColor);
      if kingPosition.None? {
        return None;
      }
      var kingTile := GetTile(kingPosition.value.row, kingPosition.value.col);
      var pieces := GetAllPiecesOfColor(Opponent(kingColor));
      ghost var squares := SquaresOf(contents, Opponent(kingColor));
      assert forall k :: 0 <= k < |squares| ==> InBounds(squares[k]) && squares[k] in contents;
      assert forall k :: 0 <= k < |squares| ==>
        grid[squares[k].row, squares[k].col].piece == pieces[k] && pieces[k].position == squares[k];
      r := CountPieceChecks(pieces, squares, kingTile, fuel);
    }
  }
}
