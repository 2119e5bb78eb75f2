/** The movement and check rules of the chess engine, stated on board values.

    A board is read as a Grid: the occupied squares and, for each, what the rules
    look at of the piece standing there (its variant, its colour and its hasMoved
    flag).  Every rule below is what the Java code computes, including where that
    departs from the rules of chess.  The heap-level classes of module Chess are
    proved against these functions. */
module Rules {
  import opened Wrappers

  /** Piece.Player. */
  datatype Player = White | Black

  /** Board.oppositeColor and the flip done by Board.switchPlayer. */
  function Opponent(p: Player): (q: Player)
    ensures q != p
  {
    if p == White then Black else White
  }

  /** The six subclasses of Piece. */
  datatype Kind = Pawn | Knight | Bishop | Rook | Queen | King

  /** Integer.compare(a, b) as the path walks use it: the sign of a - b. */
  function Compare(a: int, b: int): (sign: int)
    ensures sign == 0 <==> a == b
    ensures sign == 1 <==> a > b
    ensures sign == -1 <==> a < b
  {
    if a < b then -1 else if a == b then 0 else 1
  }

  /** A (row, column) pair; row 0 is Black's back rank, row 7 White's. */
  datatype Pos = Pos(row: int, col: int)

  predicate InBounds(p: Pos) {
    0 <= p.row < 8 && 0 <= p.col < 8
  }

  /** What the rules read of a piece. */
  datatype Man = Man(kind: Kind, color: Player, hasMoved: bool)

  /** The occupied squares of a board. */
  type Grid = map<Pos, Man>

  ghost predicate OnBoard(g: Grid) {
    forall p :: p in g ==> InBounds(p)
  }

  function Abs(x: int): nat {
    if x < 0 then -x else x
  }

  function Min(a: int, b: int): int {
    if a <= b then a else b
  }

  function Max(a: int, b: int): int {
    if a <= b then b else a
  }

  /** Piece.isOccupiedBySameColor: square p holds a piece of colour c. */
  predicate Own(g: Grid, p: Pos, c: Player) {
    p in g && g[p].color == c
  }

  // ---------------------------------------------------------------------------
  // Geometry
  // ---------------------------------------------------------------------------

  predicate Straight(s: Pos, e: Pos) {
    s.row == e.row || s.col == e.col
  }

  predicate Diagonal(s: Pos, e: Pos) {
    Abs(e.row - s.row) == Abs(e.col - s.col)
  }

  predicate KnightJump(s: Pos, e: Pos) {
    (Abs(s.row - e.row) == 2 && Abs(s.col - e.col) == 1) ||
    (Abs(s.row - e.row) == 1 && Abs(s.col - e.col) == 2)
  }

  /** Chebyshev distance exactly one. */
  predicate KingStep(s: Pos, e: Pos) {
    Max(Abs(s.row - e.row), Abs(s.col - e.col)) == 1
  }

  /** The row step of a pawn of colour c: -1 for White, +1 for Black. */
  function Direction(c: Player): int {
    if c == White then -1 else 1
  }

  /** One square forward in the column, for a pawn of colour c. */
  predicate PawnAdvance(s: Pos, e: Pos, c: Player) {
    s.col == e.col && e.row == s.row + Direction(c)
  }

  predicate PawnDoubleAdvance(s: Pos, e: Pos, c: Player) {
    s.col == e.col && e.row == s.row + 2 * Direction(c)
  }

  /** One square forward on a neighbouring column. */
  predicate PawnDiagonal(s: Pos, e: Pos, c: Player) {
    Abs(s.col - e.col) == 1 && e.row == s.row + Direction(c)
  }

  predicate StrictlyBetween(a: int, x: int, b: int) {
    a < x < b || b < x < a
  }

  /** p lies strictly inside the segment from s to e along a rank, a file or a
      diagonal.  This is the reference the path walks are compared with. */
  predicate Interior(s: Pos, e: Pos, p: Pos) {
    || (s.row == e.row && p.row == s.row && StrictlyBetween(s.col, p.col, e.col))
    || (s.col == e.col && p.col == s.col && StrictlyBetween(s.row, p.row, e.row))
    || (Diagonal(s, e) && StrictlyBetween(s.row, p.row, e.row) &&
        StrictlyBetween(s.col, p.col, e.col) && Abs(p.row - s.row) == Abs(p.col - s.col))
  }

  /** Every square strictly between s and e is empty. */
  ghost predicate SegmentClear(g: Grid, s: Pos, e: Pos) {
    forall p :: Interior(s, e, p) ==> p !in g
  }

  // ---------------------------------------------------------------------------
  // The two path walks of the source
  // ---------------------------------------------------------------------------

  /** The coordinate k unit steps from a toward b (Integer.compare gives the step). */
  function Toward(a: int, b: int, k: int): int {
    if a < b then a + k else if b < a then a - k else a
  }

  /** Bishop.isPathClear and Rook.isPathClear (the same code): both coordinates
      step together and the walk stops as soon as EITHER reaches its target,
      because the loop guard is `x != xEnd && y != yEnd`. */
  function LockStep(s: Pos, e: Pos, k: int): Pos {
    Pos(Toward(s.row, e.row, k), Toward(s.col, e.col, k))
  }

  function LockstepLength(s: Pos, e: Pos): int {
    Min(Abs(e.row - s.row), Abs(e.col - s.col))
  }

  predicate LockstepClear(g: Grid, s: Pos, e: Pos) {
    forall k :: 1 <= k < LockstepLength(s, e) ==> LockStep(s, e, k) !in g
  }

  /** Queen.isPathClear: a coordinate that has reached its target stops moving,
      and the walk goes on until BOTH have reached it (guard `||`). */
  function QueenStep(s: Pos, e: Pos, i: int): Pos {
    Pos(Toward(s.row, e.row, Min(i, Abs(e.row - s.row))),
        Toward(s.col, e.col, Min(i, Abs(e.col - s.col))))
  }

  function QueenLength(s: Pos, e: Pos): int {
    Max(Abs(e.row - s.row), Abs(e.col - s.col))
  }

  predicate QueenClear(g: Grid, s: Pos, e: Pos) {
    forall i :: 1 <= i < QueenLength(s, e) ==> QueenStep(s, e, i) !in g
  }

  // ---------------------------------------------------------------------------
  // Per-piece rules (isValidMove of the five pieces other than the King)
  // ---------------------------------------------------------------------------

  /** Pawn.isValidMove for a pawn m moving from s to e. */
  predicate PawnRule(g: Grid, m: Man, s: Pos, e: Pos) {
    if Own(g, e, m.color) then false
    else
      var dir := Direction(m.color);
      if s.col == e.col && e !in g && s.row + dir == e.row then true
      else if s.col == e.col && e !in g && !m.hasMoved && s.row + 2 * dir == e.row then
        Pos(s.row + dir, s.col) !in g
      else if Abs(s.col - e.col) == 1 && s.row + dir == e.row then e in g
      else false
  }

  /** Knight.isValidMove. */
  predicate KnightRule(g: Grid, m: Man, s: Pos, e: Pos) {
    !Own(g, e, m.color) && KnightJump(s, e)
  }

  /** Bishop.isValidMove. */
  predicate BishopRule(g: Grid, m: Man, s: Pos, e: Pos) {
    !Own(g, e, m.color) && Diagonal(s, e) && LockstepClear(g, s, e)
  }

  /** Rook.isValidMove. */
  predicate RookRule(g: Grid, m: Man, s: Pos, e: Pos) {
    !Own(g, e, m.color) && Straight(s, e) && LockstepClear(g, s, e)
  }

  /** Queen.isValidMove. */
  predicate QueenRule(g: Grid, m: Man, s: Pos, e: Pos) {
    !Own(g, e, m.color) && (Straight(s, e) || Diagonal(s, e)) && QueenClear(g, s, e)
  }

  /** isValidMove of a piece other than a King; none of these can recurse. */
  predicate PieceRule(g: Grid, m: Man, s: Pos, e: Pos)
    requires m.kind != King
  {
    match m.kind
    case Pawn => PawnRule(g, m, s, e)
    case Knight => KnightRule(g, m, s, e)
    case Bishop => BishopRule(g, m, s, e)
    case Rook => RookRule(g, m, s, e)
    case Queen => QueenRule(g, m, s, e)
  }

  // ---------------------------------------------------------------------------
  // Board edits
  // ---------------------------------------------------------------------------

  /** The piece on s taken to e as the simulations of King.isValidMove,
      Board.processMove and Board.stillInCheckAfterMove do it: the end tile is
      occupied first and the start tile released after, so s == e leaves the
      square empty.  No flag is touched. */
  function Relocate(g: Grid, s: Pos, e: Pos): Grid
    requires s in g
  {
    g[e := g[s]] - {s}
  }

  /** The hasMoved update of Board.makeMove: set for a King or a Pawn only. */
  function Moved(m: Man): Man {
    if m.kind == King || m.kind == Pawn then m.(hasMoved := true) else m
  }

  /** The board after Board.makeMove(s, e). */
  function AfterMove(g: Grid, s: Pos, e: Pos): Grid
    requires s in g
  {
    (g - {s})[e := Moved(g[s])]
  }

  // ---------------------------------------------------------------------------
  // Scans in the row-major order of Board's nested loops
  // ---------------------------------------------------------------------------

  /** Square p comes before square (r, c) in row-major order. */
  predicate Before(p: Pos, r: int, c: int) {
    p.row < r || (p.row == r && p.col < c)
  }

  predicate IsKingOf(g: Grid, p: Pos, c: Player) {
    p in g && g[p].kind == King && g[p].color == c
  }

  /** Board.findKingPosition, continued from square (r, col). */
  function FindKingFrom(g: Grid, c: Player, r: int, col: int): (k: Option<Pos>)
    requires 0 <= r <= 8 && 0 <= col <= 8
    ensures k.Some? ==> InBounds(k.value) && IsKingOf(g, k.value, c)
    decreases 8 - r, 8 - col
  {
    if r == 8 then None
    else if col == 8 then FindKingFrom(g, c, r + 1, 0)
    else if IsKingOf(g, Pos(r, col), c) then Some(Pos(r, col))
    else FindKingFrom(g, c, r, col + 1)
  }

  function FindKing(g: Grid, c: Player): (k: Option<Pos>)
    ensures k.Some? ==> InBounds(k.value) && IsKingOf(g, k.value, c)
  {
    FindKingFrom(g, c, 0, 0)
  }

  /** Board.isPositionUnderAttack: a piece of the other colour that is not a King
      may move from its square to p. */
  ghost predicate Attacker(g: Grid, q: Pos, p: Pos, c: Player) {
    q in g && g[q].color != c && g[q].kind != King && PieceRule(g, g[q], q, p)
  }

  ghost predicate UnderAttack(g: Grid, p: Pos, c: Player) {
    exists q :: InBounds(q) && Attacker(g, q, p, c)
  }

  /** The inner loop of isPositionUnderAttack on row r, from column col on:
      some attacker stands there. */
  ghost predicate AttackInRow(g: Grid, p: Pos, c: Player, r: int, col: int)
    requires 0 <= col <= 8
    decreases 8 - col
  {
    col < 8 && (Attacker(g, Pos(r, col), p, c) || AttackInRow(g, p, c, r, col + 1))
  }

  /** The outer loop of isPositionUnderAttack, from row r on. */
  ghost predicate AttackFrom(g: Grid, p: Pos, c: Player, r: int)
    requires 0 <= r <= 8
    decreases 8 - r
  {
    r < 8 && (AttackInRow(g, p, c, r, 0) || AttackFrom(g, p, c, r + 1))
  }

  ghost predicate HasPieceOf(g: Grid, c: Player) {
    exists p :: InBounds(p) && Own(g, p, c)
  }

  // ---------------------------------------------------------------------------
  // isValidMove with the King, isKingInCheck, isDoubleCheck.
  //
  // King.isValidMove calls Board.isKingInCheck for a non-adjacent destination,
  // and isKingInCheck calls isValidMove of every opposing piece, the opposing
  // King included: the two can call each other without end.  The model bounds
  // that recursion by `fuel`; None means the source does not return normally
  // within that depth (it recurses deeper, or throws NullPointerException where
  // isKingInCheck finds no King).
  // ---------------------------------------------------------------------------

  /** Piece.isValidMove for the piece standing on s. */
  ghost function ValidMove(g: Grid, s: Pos, e: Pos, fuel: nat): Option<bool>
    requires s in g
    decreases fuel, 1, 0, 0
  {
    if g[s].kind == King then KingMove(g, s, e, fuel) else Some(PieceRule(g, g[s], s, e))
  }

  /** King.isValidMove for the King standing on s. */
  ghost function KingMove(g: Grid, s: Pos, e: Pos, fuel: nat): Option<bool>
    requires s in g && g[s].kind == King
    decreases fuel, 0, 0, 0
  {
    var m := g[s];
    if Own(g, e, m.color) then Some(false)
    else if Abs(s.row - e.row) <= 1 && Abs(s.col - e.col) <= 1 then
      Some(!UnderAttack(Relocate(g, s, e), e, m.color))
    else if fuel == 0 then None
    else
      match InCheck(g, m.color, fuel - 1)
      case None => None
      case Some(inCheck) =>
        if !inCheck then Some(false)
        else
          match InCheck(Relocate(g, s, e), m.color, fuel - 1)
          case None => None
          case Some(stillInCheck) => Some(!stillInCheck)
  }

  /** Board.isKingInCheck(c). */
  ghost function InCheck(g: Grid, c: Player, fuel: nat): Option<bool>
    decreases fuel, 3, 0, 0
  {
    CheckFrom(g, c, FindKing(g, c), fuel, 0, 0)
  }

  /** The scan of isKingInCheck from square (r, col) on: the first opposing piece
      that may move to the King's square decides.  The King's square is read only
      when an opposing piece is met, so a missing King throws only then. */
  ghost function CheckFrom(g: Grid, c: Player, king: Option<Pos>, fuel: nat, r: int, col: int): Option<bool>
    requires 0 <= r <= 8 && 0 <= col <= 8
    decreases fuel, 2, 8 - r, 8 - col
  {
    if r == 8 then Some(false)
    else if col == 8 then CheckFrom(g, c, king, fuel, r + 1, 0)
    else if Own(g, Pos(r, col), Opponent(c)) then
      if king.None? then None
      else
        match ValidMove(g, Pos(r, col), king.value, fuel)
        case None => None
        case Some(hit) => if hit then Some(true) else CheckFrom(g, c, king, fuel, r, col + 1)
    else CheckFrom(g, c, king, fuel, r, col + 1)
  }

  /** The squares holding a piece of colour c that come before (r, col) in
      row-major order, in that order: what Board.getAllPiecesOfColor has
      listed when its loops reach (r, col). */
  function SquaresBefore(g: Grid, c: Player, r: int, col: int): (squares: seq<Pos>)
    requires 0 <= r <= 8 && 0 <= col <= 8 && (r < 8 || col == 0)
    ensures forall i :: 0 <= i < |squares| ==>
      InBounds(squares[i]) && Own(g, squares[i], c) && Before(squares[i], r, col)
    decreases r, col
  {
    if col == 0 then (if r == 0 then [] else SquaresBefore(g, c, r - 1, 8))
    else if Own(g, Pos(r, col - 1), c) then SquaresBefore(g, c, r, col - 1) + [Pos(r, col - 1)]
    else SquaresBefore(g, c, r, col - 1)
  }

  /** The squares of colour c in the order Board.getAllPiecesOfColor lists
      their pieces. */
  function SquaresOf(g: Grid, c: Player): (squares: seq<Pos>)
    ensures forall i :: 0 <= i < |squares| ==> InBounds(squares[i]) && Own(g, squares[i], c)
  {
    SquaresBefore(g, c, 8, 0)
  }

  /** Board.isDoubleCheck(c): the King's square is read first, so a missing King
      throws before any piece is asked. */
  ghost function DoubleCheck(g: Grid, c: Player, fuel: nat): Option<bool> {
    match FindKing(g, c)
    case None => None
    case Some(k) => CountChecks(g, k, SquaresOf(g, Opponent(c)), fuel, 0)
  }

  /** The counting loop of isDoubleCheck over the listed squares, `count`
      checking pieces seen so far. */
  ghost function CountChecks(g: Grid, k: Pos, squares: seq<Pos>, fuel: nat, count: nat): Option<bool>
    requires forall i :: 0 <= i < |squares| ==> squares[i] in g
    decreases |squares|
  {
    if squares == [] then Some(false)
    else
      match ValidMove(g, squares[0], k, fuel)
      case None => None
      case Some(hit) =>
        if hit && count + 1 > 1 then Some(true)
        else CountChecks(g, k, squares[1..], fuel, if hit then count + 1 else count)
  }

  /** Board.processMove(s, e) with `current` to move: whether the move is made.
      A start off the board makes getTile return null and piece lookup throw;
      an empty start answers false before the end tile is used; an end off the
      board throws in isValidMove. */
  ghost function ProcessOutcome(g: Grid, current: Player, s: Pos, e: Pos, fuel: nat): Option<bool> {
    if !InBounds(s) then None
    else if s !in g then Some(false)
    else if !InBounds(e) then None
    else
      match ValidMove(g, s, e, fuel)
      case None => None
      case Some(valid) =>
        if !valid then Some(false)
        else
          var sim := Relocate(g, s, e);
          match InCheck(sim, current, fuel)
          case None => None
          case Some(wasInCheck) =>
            match InCheck(sim, current, fuel)
            case None => None
            case Some(isInCheckAfterMove) =>
              if wasInCheck && isInCheckAfterMove then Some(false)
              else if !wasInCheck && isInCheckAfterMove then Some(false)
              else Some(true)
  }

  /** Board.stillInCheckAfterMove(s, e): whether the mover's King is in check with
      the piece on s taken to e. */
  ghost function StillInCheck(g: Grid, s: Pos, e: Pos, fuel: nat): Option<bool> {
    if !InBounds(s) || !InBounds(e) then None
    else if s !in g then Some(false)
    else InCheck(Relocate(g, s, e), g[s].color, fuel)
  }

  // ---------------------------------------------------------------------------
  // The starting position
  // ---------------------------------------------------------------------------

  function BackRank(col: int): Kind
    requires 0 <= col < 8
  {
    [Rook, Knight, Bishop, Queen, King, Bishop, Knight, Rook][col]
  }

  /** What Board.placePieces puts on square p. */
  function InitialMan(p: Pos): Option<Man> {
    if !InBounds(p) then None
    else if p.row == 0 then Some(Man(BackRank(p.col), Black, false))
    else if p.row == 1 then Some(Man(Pawn, Black, false))
    else if p.row == 6 then Some(Man(Pawn, White, false))
    else if p.row == 7 then Some(Man(BackRank(p.col), White, false))
    else None
  }

  function Squares(): (squares: set<Pos>)
    ensures forall p :: p in squares <==> InBounds(p)
  {
    var squares := set r: int, c: int | 0 <= r < 8 && 0 <= c < 8 :: Pos(r, c);
    assert forall p :: InBounds(p) ==> p == Pos(p.row, p.col);
    squares
  }

  /** The board as Board's constructor leaves it. */
  function InitialGrid(): Grid {
    map p | p in Squares() && InitialMan(p).Some? :: InitialMan(p).value
  }
}
