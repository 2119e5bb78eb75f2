/** The starting position of Board and what the check scan does on it. */
module Opening {
  import opened Wrappers
  import opened Rules
  import opened RuleFacts

  lemma InitialAt(p: Pos)
    ensures p in InitialGrid() <==> InitialMan(p).Some?
    ensures p in InitialGrid() ==> InitialGrid()[p] == InitialMan(p).value
  {
    if InBounds(p) {
      assert p == Pos(p.row, p.col);
      assert p in Squares();
    }
  }

  lemma BackRankKing(col: int)
    requires 0 <= col < 8
    ensures BackRank(col) == King <==> col == 4
  {
    if col == 4 {
    } else if col < 4 {
      assert col == 0 || col == 1 || col == 2 || col == 3;
    } else {
      assert col == 5 || col == 6 || col == 7;
    }
  }

  /** The only Kings of the starting board stand on (0,4) and (7,4). */
  lemma InitialKingAt(q: Pos)
    requires InBounds(q)
    ensures IsKingOf(InitialGrid(), q, White) <==> q == Pos(7, 4)
    ensures IsKingOf(InitialGrid(), q, Black) <==> q == Pos(0, 4)
  {
    InitialAt(q);
    BackRankKing(q.col);
  }

  /** Board.placePieces part-way: each piece placed so far is the one the
      starting position has on its square. */
  ghost predicate PartOfInitial(g: Grid) {
    forall q :: q in g ==> InitialMan(q) == Some(g[q])
  }

  /** Once every square of the starting position has been filled, and nothing
      else, the board is the starting position. */
  lemma InitialComplete(g: Grid)
    requires PartOfInitial(g)
    requires forall q :: InitialMan(q).Some? ==> q in g
    ensures g == InitialGrid()
  {
    forall q
      ensures q in g <==> q in InitialGrid()
      ensures q in g ==> g[q] == InitialGrid()[q]
    {
      InitialAt(q);
    }
  }

  /** Board.placePieces puts each colour's single King on column 4 of its back
      rank: findKingPosition finds Black's on (0,4) and White's on (7,4). */
  lemma InitialKings()
    ensures FindKing(InitialGrid(), White) == Some(Pos(7, 4))
    ensures FindKing(InitialGrid(), Black) == Some(Pos(0, 4))
  {
    var g := InitialGrid();
    FindKingSpec(g, White);
    FindKingSpec(g, Black);
    InitialKingAt(Pos(7, 4));
    InitialKingAt(Pos(0, 4));
    var kw := FindKing(g, White).value;
    var kb := FindKing(g, Black).value;
    InitialKingAt(kw);
    InitialKingAt(kb);
  }

  /** The scan of isKingInCheck passes over every square before (r2, col2) when
      each opposing piece there answers that it cannot reach the King. */
  lemma {:induction false} CheckFromSkip(g: Grid, c: Player, king: Option<Pos>, fuel: nat,
                                        r: int, col: int, r2: int, col2: int)
    requires 0 <= r < 8 && 0 <= col <= 8 && 0 <= r2 < 8 && 0 <= col2 < 8
    requires !Before(Pos(r2, col2), r, col)
    requires forall p :: AtOrAfter(p, r, col) && Before(p, r2, col2) && Own(g, p, Opponent(c)) ==>
      king.Some? && ValidMove(g, p, king.value, fuel) == Some(false)
    ensures CheckFrom(g, c, king, fuel, r, col) == CheckFrom(g, c, king, fuel, r2, col2)
    decreases 8 - r, 8 - col
  {
    if r == r2 && col == col2 {
    } else if col == 8 {
      CheckFromSkip(g, c, king, fuel, r + 1, 0, r2, col2);
    } else {
      assert AtOrAfter(Pos(r, col), r, col) && Before(Pos(r, col), r2, col2);
      CheckFromSkip(g, c, king, fuel, r, col + 1, r2, col2);
    }
  }

  /** Before White's King, the scan for White meets only Black's Rook, Knight,
      Bishop and Queen, none of which can reach (7,4). */
  lemma WhiteScanReachesBlackKing(fuel: nat)
    ensures CheckFrom(InitialGrid(), White, Some(Pos(7, 4)), fuel, 0, 0) ==
            CheckFrom(InitialGrid(), White, Some(Pos(7, 4)), fuel, 0, 4)
  {
    var g := InitialGrid();
    forall p | AtOrAfter(p, 0, 0) && Before(p, 0, 4) && Own(g, p, Black)
      ensures ValidMove(g, p, Pos(7, 4), fuel) == Some(false)
    {
      InitialAt(p);
      assert p.col == 0 || p.col == 1 || p.col == 2 || p.col == 3;
    }
    CheckFromSkip(g, White, Some(Pos(7, 4)), fuel, 0, 0, 0, 4);
  }

  /** Before Black's King, the scan for Black meets White's pawns and White's
      Rook, Knight, Bishop and Queen, none of which can reach (0,4). */
  lemma BlackScanReachesWhiteKing(fuel: nat)
    ensures CheckFrom(InitialGrid(), Black, Some(Pos(0, 4)), fuel, 0, 0) ==
            CheckFrom(InitialGrid(), Black, Some(Pos(0, 4)), fuel, 7, 4)
  {
    var g := InitialGrid();
    forall p | AtOrAfter(p, 0, 0) && Before(p, 7, 4) && Own(g, p, White)
      ensures ValidMove(g, p, Pos(0, 4), fuel) == Some(false)
    {
      InitialAt(p);
      InitialAt(Pos(0, 4));
      if p.row == 7 {
        assert p.col == 0 || p.col == 1 || p.col == 2 || p.col == 3;
      }
    }
    CheckFromSkip(g, Black, Some(Pos(0, 4)), fuel, 0, 0, 7, 4);
  }

  /** What makes the check scan recurse without end: each King is the first
      piece of the other colour that the other King's scan asks, and the two
      Kings are too far apart for the one-square branch. */
  ghost predicate Standoff(g: Grid) {
    && FindKing(g, White) == Some(Pos(7, 4)) && FindKing(g, Black) == Some(Pos(0, 4))
    && IsKingOf(g, Pos(7, 4), White) && IsKingOf(g, Pos(0, 4), Black)
    && (forall f: nat :: CheckFrom(g, White, Some(Pos(7, 4)), f, 0, 0) == CheckFrom(g, White, Some(Pos(7, 4)), f, 0, 4))
    && (forall f: nat :: CheckFrom(g, Black, Some(Pos(0, 4)), f, 0, 0) == CheckFrom(g, Black, Some(Pos(0, 4)), f, 7, 4))
  }

  lemma InitialStandoff()
    ensures Standoff(InitialGrid())
  {
    InitialKings();
    InitialKingAt(Pos(7, 4));
    InitialKingAt(Pos(0, 4));
    forall f: nat
      ensures CheckFrom(InitialGrid(), White, Some(Pos(7, 4)), f, 0, 0) == CheckFrom(InitialGrid(), White, Some(Pos(7, 4)), f, 0, 4)
    {
      WhiteScanReachesBlackKing(f);
    }
    forall f: nat
      ensures CheckFrom(InitialGrid(), Black, Some(Pos(0, 4)), f, 0, 0) == CheckFrom(InitialGrid(), Black, Some(Pos(0, 4)), f, 7, 4)
    {
      BlackScanReachesWhiteKing(f);
    }
  }

  /** One round of the recursion: if neither check answers with less fuel,
      neither answers with this fuel. */
  lemma StandoffStep(g: Grid, fuel: nat)
    requires Standoff(g)
    requires fuel > 0 ==> InCheck(g, White, fuel - 1).None? && InCheck(g, Black, fuel - 1).None?
    ensures InCheck(g, White, fuel).None? && InCheck(g, Black, fuel).None?
  {
    assert KingMove(g, Pos(0, 4), Pos(7, 4), fuel) == None;
    assert KingMove(g, Pos(7, 4), Pos(0, 4), fuel) == None;
    assert CheckFrom(g, White, Some(Pos(7, 4)), fuel, 0, 0) == CheckFrom(g, White, Some(Pos(7, 4)), fuel, 0, 4);
    assert CheckFrom(g, Black, Some(Pos(0, 4)), fuel, 0, 0) == CheckFrom(g, Black, Some(Pos(0, 4)), fuel, 7, 4);
  }

  lemma {:induction false} StandoffNeverAnswers(g: Grid, fuel: nat)
    requires Standoff(g)
    ensures InCheck(g, White, fuel).None? && InCheck(g, Black, fuel).None?
    decreases fuel
  {
    if fuel > 0 {
      StandoffNeverAnswers(g, fuel - 1);
    }
    StandoffStep(g, fuel);
  }

  /** On the starting board isKingInCheck never returns, for either colour: the
      scan for White reaches Black's King before any piece answers yes, Black's
      King is two ranks or more away and so asks isKingInCheck for Black, whose
      scan reaches White's King, which asks isKingInCheck for White again.  No
      fuel is enough. */
  lemma InitialCheckNeverAnswers(fuel: nat)
    ensures InCheck(InitialGrid(), White, fuel) == None
    ensures InCheck(InitialGrid(), Black, fuel) == None
  {
    InitialStandoff();
    StandoffNeverAnswers(InitialGrid(), fuel);
  }
}
