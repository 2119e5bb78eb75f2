/** What the rules of module Rules promise: the per-piece characterisations, the
    path walks against the segment they should cover, the scans of Board against
    the squares they inspect, and the behaviour of the fuel bound. */
module RuleFacts {
  import opened Wrappers
  import opened Rules

  /** switchPlayer applied twice changes nothing. */
  lemma OpponentTwice(p: Player)
    ensures Opponent(Opponent(p)) == p && Opponent(p) != p
  {
  }

  // ---------------------------------------------------------------------------
  // Pawn
  // ---------------------------------------------------------------------------

  /** Pawn.isValidMove accepts exactly: a step forward onto an empty square; a
      two-square advance by a pawn that has not moved, over an empty square onto
      an empty one; a diagonal step forward onto an occupied square.  It never
      accepts a square of its own colour. */
  lemma PawnRuleCases(g: Grid, m: Man, s: Pos, e: Pos)
    ensures PawnRule(g, m, s, e) <==>
      !Own(g, e, m.color) &&
      ((PawnAdvance(s, e, m.color) && e !in g) ||
       (PawnDoubleAdvance(s, e, m.color) && !m.hasMoved && e !in g &&
        Pos(s.row + Direction(m.color), s.col) !in g) ||
       (PawnDiagonal(s, e, m.color) && e in g))
  {
  }

  /** A one-square diagonal step forward is accepted exactly when the
      destination holds a piece of the other colour. */
  lemma PawnCapturesOnlyOpponents(g: Grid, m: Man, s: Pos, e: Pos)
    requires PawnDiagonal(s, e, m.color)
    ensures PawnRule(g, m, s, e) <==> e in g && g[e].color == Opponent(m.color)
  {
  }

  /** Once hasMoved is set, the two-square advance is never accepted. */
  lemma PawnMovedNoDoubleStep(g: Grid, m: Man, s: Pos, e: Pos)
    requires m.hasMoved && PawnDoubleAdvance(s, e, m.color)
    ensures !PawnRule(g, m, s, e)
  {
  }

  // ---------------------------------------------------------------------------
  // Knight
  // ---------------------------------------------------------------------------

  /** Knight.isValidMove reads no square but the destination: two boards that
      agree on the destination's colour give the same answer. */
  lemma KnightReadsOnlyDestination(g1: Grid, g2: Grid, m: Man, s: Pos, e: Pos)
    requires (e in g1 <==> e in g2) && (e in g1 ==> g1[e].color == g2[e].color)
    ensures KnightRule(g1, m, s, e) == KnightRule(g2, m, s, e)
  {
  }

  // ---------------------------------------------------------------------------
  // The path walks
  // ---------------------------------------------------------------------------

  /** How far p is from s, counted in king steps. */
  function StepIndex(s: Pos, p: Pos): int {
    Max(Abs(p.row - s.row), Abs(p.col - s.col))
  }

  /** Every square the Queen's walk visits before the destination lies strictly
      between start and destination. */
  lemma QueenStepInside(s: Pos, e: Pos, i: int)
    requires Straight(s, e) || Diagonal(s, e)
    requires 1 <= i < QueenLength(s, e)
    ensures Interior(s, e, QueenStep(s, e, i))
  {
  }

  /** Every square strictly between start and destination is visited by the
      Queen's walk. */
  lemma InteriorIsQueenStep(s: Pos, e: Pos, p: Pos)
    requires Interior(s, e, p)
    ensures 1 <= StepIndex(s, p) < QueenLength(s, e)
    ensures QueenStep(s, e, StepIndex(s, p)) == p
  {
  }

  /** Queen.isPathClear succeeds exactly when every square strictly between
      start and destination is empty. */
  lemma QueenWalkMatchesSegment(g: Grid, s: Pos, e: Pos)
    requires Straight(s, e) || Diagonal(s, e)
    ensures QueenClear(g, s, e) <==> SegmentClear(g, s, e)
  {
    forall i | 1 <= i < QueenLength(s, e)
      ensures Interior(s, e, QueenStep(s, e, i))
    {
      QueenStepInside(s, e, i);
    }
    forall p | Interior(s, e, p)
      ensures 1 <= StepIndex(s, p) < QueenLength(s, e) && QueenStep(s, e, StepIndex(s, p)) == p
    {
      InteriorIsQueenStep(s, e, p);
    }
  }

  /** On a diagonal the lock-step walk of Bishop.isPathClear is the Queen's walk. */
  lemma LockstepOnDiagonal(g: Grid, s: Pos, e: Pos)
    requires Diagonal(s, e)
    ensures LockstepClear(g, s, e) <==> SegmentClear(g, s, e)
  {
    forall k | 1 <= k < LockstepLength(s, e)
      ensures LockStep(s, e, k) == QueenStep(s, e, k)
    {
    }
    QueenWalkMatchesSegment(g, s, e);
  }

  /** On a rank or a file the lock-step walk inspects nothing: one coordinate is
      already at its target, so the loop guard of Rook.isPathClear is false on
      entry and the path counts as clear whatever stands on it. */
  lemma LockstepOnStraight(g: Grid, s: Pos, e: Pos)
    requires Straight(s, e)
    ensures LockstepClear(g, s, e)
  {
  }

  /** The squares strictly between two squares of the board are on the board. */
  lemma InteriorInBounds(s: Pos, e: Pos, p: Pos)
    requires InBounds(s) && InBounds(e) && Interior(s, e, p)
    ensures InBounds(p) && p != s && p != e
  {
  }

  /** Bishop.isValidMove: a diagonal move onto a square not of the mover's colour
      with every square in between empty. */
  lemma BishopRuleSpec(g: Grid, m: Man, s: Pos, e: Pos)
    ensures BishopRule(g, m, s, e) <==> !Own(g, e, m.color) && Diagonal(s, e) && SegmentClear(g, s, e)
  {
    if Diagonal(s, e) {
      LockstepOnDiagonal(g, s, e);
    }
  }

  /** Rook.isValidMove as written: geometry and the destination's colour only;
      pieces standing in between are ignored. */
  lemma RookRuleIgnoresPath(g: Grid, m: Man, s: Pos, e: Pos)
    ensures RookRule(g, m, s, e) <==> !Own(g, e, m.color) && Straight(s, e)
  {
    if Straight(s, e) {
      LockstepOnStraight(g, s, e);
    }
  }

  /** So a rook may pass over a blocker: the move from (0,0) to (0,2) over a
      piece on (0,1) is accepted. */
  lemma RookJumpsOverBlocker()
    ensures var m := Man(Rook, White, false);
      var g := map[Pos(0, 0) := m, Pos(0, 1) := Man(Pawn, Black, false)];
      RookRule(g, m, Pos(0, 0), Pos(0, 2)) && !SegmentClear(g, Pos(0, 0), Pos(0, 2))
  {
    var g := map[Pos(0, 0) := Man(Rook, White, false), Pos(0, 1) := Man(Pawn, Black, false)];
    RookRuleIgnoresPath(g, Man(Rook, White, false), Pos(0, 0), Pos(0, 2));
    assert Interior(Pos(0, 0), Pos(0, 2), Pos(0, 1));
  }

  /** Queen.isValidMove: a rank, file or diagonal move onto a square not of the
      mover's colour with every square in between empty. */
  lemma QueenRuleSpec(g: Grid, m: Man, s: Pos, e: Pos)
    ensures QueenRule(g, m, s, e) <==>
      !Own(g, e, m.color) && (Straight(s, e) || Diagonal(s, e)) && SegmentClear(g, s, e)
  {
    if Straight(s, e) || Diagonal(s, e) {
      QueenWalkMatchesSegment(g, s, e);
    }
  }

  /** No piece may move onto a square of its own colour, and so none may stay. */
  lemma NeverOntoOwnColour(g: Grid, s: Pos, e: Pos, fuel: nat)
    requires s in g && Own(g, e, g[s].color)
    ensures ValidMove(g, s, e, fuel) == Some(false)
    ensures ValidMove(g, s, s, fuel) == Some(false)
  {
  }

  // ---------------------------------------------------------------------------
  // King
  // ---------------------------------------------------------------------------

  /** The one-square branch of King.isValidMove always answers, on any fuel. */
  lemma KingAdjacentAnswers(g: Grid, s: Pos, e: Pos, fuel: nat)
    requires s in g && g[s].kind == King
    requires Abs(s.row - e.row) <= 1 && Abs(s.col - e.col) <= 1
    ensures KingMove(g, s, e, fuel).Some? && KingMove(g, s, e, fuel) == KingMove(g, s, e, 0)
    ensures KingMove(g, s, e, fuel) == Some(true) <==>
      !Own(g, e, g[s].color) && forall q :: InBounds(q) ==> !Attacker(Relocate(g, s, e), q, e, g[s].color)
  {
  }

  /** A longer King move is accepted only if the King is in check now and is no
      longer in check once it stands on the destination. */
  lemma KingFarMove(g: Grid, s: Pos, e: Pos, fuel: nat)
    requires s in g && g[s].kind == King
    requires !(Abs(s.row - e.row) <= 1 && Abs(s.col - e.col) <= 1)
    requires KingMove(g, s, e, fuel) == Some(true)
    ensures fuel > 0
    ensures InCheck(g, g[s].color, fuel - 1) == Some(true)
    ensures InCheck(Relocate(g, s, e), g[s].color, fuel - 1) == Some(false)
  {
  }

  // ---------------------------------------------------------------------------
  // Scans
  // ---------------------------------------------------------------------------

  /** p is a board square not before (r, col) in row-major order. */
  predicate AtOrAfter(p: Pos, r: int, col: int) {
    InBounds(p) && !Before(p, r, col)
  }

  lemma {:induction false} FindKingFromSpec(g: Grid, c: Player, r: int, col: int)
    requires 0 <= r <= 8 && 0 <= col <= 8
    ensures FindKingFrom(g, c, r, col).Some? ==>
      var k := FindKingFrom(g, c, r, col).value;
      AtOrAfter(k, r, col) && IsKingOf(g, k, c) &&
      forall q :: AtOrAfter(q, r, col) && Before(q, k.row, k.col) ==> !IsKingOf(g, q, c)
    ensures FindKingFrom(g, c, r, col).None? ==>
      forall q :: AtOrAfter(q, r, col) ==> !IsKingOf(g, q, c)
    decreases 8 - r, 8 - col
  {
    if r == 8 {
    } else if col == 8 {
      FindKingFromSpec(g, c, r + 1, 0);
      assert forall q :: AtOrAfter(q, r, col) <==> AtOrAfter(q, r + 1, 0);
    } else if !IsKingOf(g, Pos(r, col), c) {
      FindKingFromSpec(g, c, r, col + 1);
      assert forall q :: AtOrAfter(q, r, col) <==> q == Pos(r, col) || AtOrAfter(q, r, col + 1);
    }
  }

  /** Board.findKingPosition returns the first square in row-major order that
      holds a King of the colour, and null when there is none. */
  lemma FindKingSpec(g: Grid, c: Player)
    ensures FindKing(g, c).Some? ==>
      var k := FindKing(g, c).value;
      InBounds(k) && IsKingOf(g, k, c) &&
      forall q :: InBounds(q) && Before(q, k.row, k.col) ==> !IsKingOf(g, q, c)
    ensures FindKing(g, c).None? <==> forall q :: InBounds(q) ==> !IsKingOf(g, q, c)
  {
    FindKingFromSpec(g, c, 0, 0);
  }

  lemma {:induction false} AttackInRowSpec(g: Grid, p: Pos, c: Player, r: int, col: int)
    requires 0 <= col <= 8
    ensures AttackInRow(g, p, c, r, col) <==> exists j :: col <= j < 8 && Attacker(g, Pos(r, j), p, c)
    decreases 8 - col
  {
    if col < 8 {
      AttackInRowSpec(g, p, c, r, col + 1);
    }
  }

  lemma {:induction false} AttackFromSpec(g: Grid, p: Pos, c: Player, r: int)
    requires 0 <= r <= 8
    ensures AttackFrom(g, p, c, r) <==> exists q :: InBounds(q) && r <= q.row && Attacker(g, q, p, c)
    decreases 8 - r
  {
    if r < 8 {
      AttackFromSpec(g, p, c, r + 1);
      AttackInRowSpec(g, p, c, r, 0);
      if exists q :: InBounds(q) && r <= q.row && Attacker(g, q, p, c) {
        var q :| InBounds(q) && r <= q.row && Attacker(g, q, p, c);
        if q.row == r {
          assert q == Pos(r, q.col);
        }
      }
    }
  }

  /** The row-major scan of isPositionUnderAttack answers exactly whether some
      square holds an attacker. */
  lemma UnderAttackScan(g: Grid, p: Pos, c: Player)
    ensures UnderAttack(g, p, c) == AttackFrom(g, p, c, 0)
  {
    AttackFromSpec(g, p, c, 0);
  }

  /** The piece on p, of the colour opposing c, may move to k. */
  ghost predicate Checks(g: Grid, c: Player, k: Pos, fuel: nat, p: Pos) {
    InBounds(p) && Own(g, p, Opponent(c)) && ValidMove(g, p, k, fuel) == Some(true)
  }

  lemma {:induction false} CheckFromSpec(g: Grid, c: Player, king: Option<Pos>, fuel: nat, r: int, col: int)
    requires 0 <= r <= 8 && 0 <= col <= 8
    ensures CheckFrom(g, c, king, fuel, r, col) == Some(true) ==>
      king.Some? && exists p :: AtOrAfter(p, r, col) && Checks(g, c, king.value, fuel, p)
    ensures CheckFrom(g, c, king, fuel, r, col) == Some(false) ==>
      forall p :: AtOrAfter(p, r, col) && Own(g, p, Opponent(c)) ==>
        king.Some? && ValidMove(g, p, king.value, fuel) == Some(false)
    ensures king.None? ==>
      (CheckFrom(g, c, king, fuel, r, col).None? <==> exists p :: AtOrAfter(p, r, col) && Own(g, p, Opponent(c)))
    decreases 8 - r, 8 - col
  {
    if r == 8 {
    } else if col == 8 {
      CheckFromSpec(g, c, king, fuel, r + 1, 0);
    } else {
      var p := Pos(r, col);
      CheckFromSpec(g, c, king, fuel, r, col + 1);
      if Own(g, p, Opponent(c)) && king.Some? && ValidMove(g, p, king.value, fuel) == Some(true) {
        assert Checks(g, c, king.value, fuel, p);
      }
      if Own(g, p, Opponent(c)) {
        assert AtOrAfter(p, r, col);
      }
    }
  }

  /** The scan answers when every opposing piece it meets answers; in particular
      it answers false when it meets none. */
  lemma {:induction false} CheckFromAnswers(g: Grid, c: Player, king: Option<Pos>, fuel: nat, r: int, col: int)
    requires 0 <= r <= 8 && 0 <= col <= 8
    requires forall p :: AtOrAfter(p, r, col) && Own(g, p, Opponent(c)) ==>
      king.Some? && ValidMove(g, p, king.value, fuel).Some?
    ensures CheckFrom(g, c, king, fuel, r, col).Some?
    decreases 8 - r, 8 - col
  {
    if r == 8 {
    } else if col == 8 {
      CheckFromAnswers(g, c, king, fuel, r + 1, 0);
    } else {
      assert AtOrAfter(Pos(r, col), r, col);
      CheckFromAnswers(g, c, king, fuel, r, col + 1);
    }
  }

  /** Board.isKingInCheck, where it answers: true exactly when some opposing
      piece, Kings included, may move to the King's square; false when every
      opposing piece answered no.  It throws exactly when the colour has no King
      and the other colour has a piece. */
  lemma InCheckSpec(g: Grid, c: Player, fuel: nat)
    ensures InCheck(g, c, fuel) == Some(true) ==>
      FindKing(g, c).Some? && exists p :: Checks(g, c, FindKing(g, c).value, fuel, p)
    ensures InCheck(g, c, fuel) == Some(false) ==>
      forall p :: InBounds(p) && Own(g, p, Opponent(c)) ==>
        FindKing(g, c).Some? && ValidMove(g, p, FindKing(g, c).value, fuel) == Some(false)
    ensures FindKing(g, c).None? ==> (InCheck(g, c, fuel).None? <==> HasPieceOf(g, Opponent(c)))
  {
    CheckFromSpec(g, c, FindKing(g, c), fuel, 0, 0);
    if FindKing(g, c).None? && HasPieceOf(g, Opponent(c)) {
      var p :| InBounds(p) && Own(g, p, Opponent(c));
      assert AtOrAfter(p, 0, 0);
    } else if FindKing(g, c).None? {
      CheckFromAnswers(g, c, None, fuel, 0, 0);
    }
  }

  /** isKingInCheck is isPositionUnderAttack on the King's square with the
      opposing King asked as well: a square under attack means check, and a check
      comes from an attacker or from the opposing King. */
  lemma InCheckExtendsUnderAttack(g: Grid, c: Player, fuel: nat)
    requires FindKing(g, c).Some? && InCheck(g, c, fuel).Some?
    ensures UnderAttack(g, FindKing(g, c).value, c) ==> InCheck(g, c, fuel) == Some(true)
    ensures InCheck(g, c, fuel) == Some(true) ==>
      UnderAttack(g, FindKing(g, c).value, c) ||
      exists q :: InBounds(q) && IsKingOf(g, q, Opponent(c)) && KingMove(g, q, FindKing(g, c).value, fuel) == Some(true)
  {
    var k := FindKing(g, c).value;
    InCheckSpec(g, c, fuel);
    if UnderAttack(g, k, c) {
      var q :| InBounds(q) && Attacker(g, q, k, c);
      assert Own(g, q, Opponent(c));
      assert ValidMove(g, q, k, fuel) == Some(true);
      assert InCheck(g, c, fuel) != Some(false);
      assert InCheck(g, c, fuel).value;
    }
    if InCheck(g, c, fuel) == Some(true) {
      var q :| Checks(g, c, k, fuel, q);
      if g[q].kind != King {
        assert Attacker(g, q, k, c);
      } else {
        assert IsKingOf(g, q, Opponent(c));
      }
    }
  }

  lemma {:induction false} SquaresBeforeMembers(g: Grid, c: Player, r: int, col: int)
    requires 0 <= r <= 8 && 0 <= col <= 8 && (r < 8 || col == 0)
    ensures forall p :: p in SquaresBefore(g, c, r, col) <==> InBounds(p) && Before(p, r, col) && Own(g, p, c)
    decreases r, col
  {
    if col == 0 {
      if r > 0 {
        SquaresBeforeMembers(g, c, r - 1, 8);
        assert forall q :: InBounds(q) ==> (Before(q, r, col) <==> Before(q, r - 1, 8));
      }
    } else {
      SquaresBeforeMembers(g, c, r, col - 1);
      assert forall q :: Before(q, r, col) <==> q == Pos(r, col - 1) || Before(q, r, col - 1);
    }
  }

  lemma {:induction false} SquaresBeforeDistinct(g: Grid, c: Player, r: int, col: int)
    requires 0 <= r <= 8 && 0 <= col <= 8 && (r < 8 || col == 0)
    ensures forall i, j :: 0 <= i < j < |SquaresBefore(g, c, r, col)| ==>
      SquaresBefore(g, c, r, col)[i] != SquaresBefore(g, c, r, col)[j]
    decreases r, col
  {
    if col == 0 {
      if r > 0 {
        SquaresBeforeDistinct(g, c, r - 1, 8);
      }
    } else {
      SquaresBeforeDistinct(g, c, r, col - 1);
      var done := SquaresBefore(g, c, r, col - 1);
      if Own(g, Pos(r, col - 1), c) {
        var sq := SquaresBefore(g, c, r, col);
        assert sq == done + [Pos(r, col - 1)];
        assert Pos(r, col - 1) !in done by {
          SquaresBeforeMembers(g, c, r, col - 1);
        }
        forall i, j | 0 <= i < j < |sq|
          ensures sq[i] != sq[j]
        {
          assert sq[i] == done[i];
          if j < |done| {
            assert sq[j] == done[j];
          }
        }
      }
    }
  }

  /** getAllPiecesOfColor lists exactly the squares of the colour, each once. */
  lemma SquaresOfSpec(g: Grid, c: Player)
    ensures forall p :: p in SquaresOf(g, c) <==> InBounds(p) && Own(g, p, c)
    ensures forall i, j :: 0 <= i < j < |SquaresOf(g, c)| ==> SquaresOf(g, c)[i] != SquaresOf(g, c)[j]
  {
    SquaresBeforeMembers(g, c, 8, 0);
    SquaresBeforeDistinct(g, c, 8, 0);
  }

  ghost predicate Hit(g: Grid, k: Pos, fuel: nat, p: Pos)
    requires p in g
  {
    ValidMove(g, p, k, fuel) == Some(true)
  }

  lemma {:induction false} CountChecksSpec(g: Grid, k: Pos, squares: seq<Pos>, fuel: nat, count: nat)
    requires forall i :: 0 <= i < |squares| ==> squares[i] in g
    requires count <= 1
    ensures CountChecks(g, k, squares, fuel, count) == Some(true) ==>
      (count == 1 && exists i :: 0 <= i < |squares| && Hit(g, k, fuel, squares[i])) ||
      (exists i, j :: 0 <= i < j < |squares| && Hit(g, k, fuel, squares[i]) && Hit(g, k, fuel, squares[j]))
    ensures CountChecks(g, k, squares, fuel, count) == Some(false) ==>
      (forall i :: 0 <= i < |squares| ==> ValidMove(g, squares[i], k, fuel).Some?) &&
      (count == 1 ==> forall i :: 0 <= i < |squares| ==> !Hit(g, k, fuel, squares[i])) &&
      (forall i, j :: 0 <= i < j < |squares| && Hit(g, k, fuel, squares[i]) ==> !Hit(g, k, fuel, squares[j]))
    decreases |squares|
  {
    if squares != [] {
      var rest := squares[1..];
      var v := ValidMove(g, squares[0], k, fuel);
      if v.Some? {
        var next := if v.value then count + 1 else count;
        if !(v.value && count + 1 > 1) {
          CountChecksSpec(g, k, rest, fuel, next);
          var res := CountChecks(g, k, squares, fuel, count);
          assert res == CountChecks(g, k, rest, fuel, next);
          if res == Some(true) {
            if next == 1 && exists i :: 0 <= i < |rest| && Hit(g, k, fuel, rest[i]) {
              var i :| 0 <= i < |rest| && Hit(g, k, fuel, rest[i]);
              if count == 1 {
                assert Hit(g, k, fuel, squares[i + 1]);
              } else {
                assert Hit(g, k, fuel, squares[0]) && Hit(g, k, fuel, squares[i + 1]);
              }
            } else {
              var i, j :| 0 <= i < j < |rest| && Hit(g, k, fuel, rest[i]) && Hit(g, k, fuel, rest[j]);
              assert Hit(g, k, fuel, squares[i + 1]) && Hit(g, k, fuel, squares[j + 1]);
            }
          }
          if res == Some(false) {
            forall i | 0 <= i < |squares|
              ensures ValidMove(g, squares[i], k, fuel).Some?
            {
              if i > 0 {
                assert squares[i] == rest[i - 1];
              }
            }
            forall i | 0 <= i < |squares| && count == 1
              ensures !Hit(g, k, fuel, squares[i])
            {
              if i > 0 {
                assert squares[i] == rest[i - 1];
              }
            }
            forall i, j | 0 <= i < j < |squares| && Hit(g, k, fuel, squares[i])
              ensures !Hit(g, k, fuel, squares[j])
            {
              assert squares[j] == rest[j - 1];
              if i > 0 {
                assert squares[i] == rest[i - 1];
              }
            }
          }
        }
      }
    }
  }

  /** Board.isDoubleCheck, where it answers: true exactly when two different
      opposing pieces may move to the King's square. */
  lemma DoubleCheckSpec(g: Grid, c: Player, fuel: nat)
    ensures DoubleCheck(g, c, fuel).Some? ==> FindKing(g, c).Some?
    ensures DoubleCheck(g, c, fuel) == Some(true) ==>
      exists p, q :: p != q && Checks(g, c, FindKing(g, c).value, fuel, p) &&
        Checks(g, c, FindKing(g, c).value, fuel, q)
    ensures DoubleCheck(g, c, fuel) == Some(false) ==>
      forall p, q ::
        Checks(g, c, FindKing(g, c).value, fuel, p) && Checks(g, c, FindKing(g, c).value, fuel, q) ==> p == q
  {
    if FindKing(g, c).Some? {
      var k := FindKing(g, c).value;
      var sq := SquaresOf(g, Opponent(c));
      SquaresOfSpec(g, Opponent(c));
      CountChecksSpec(g, k, sq, fuel, 0);
      if DoubleCheck(g, c, fuel) == Some(true) {
        var i, j :| 0 <= i < j < |sq| && Hit(g, k, fuel, sq[i]) && Hit(g, k, fuel, sq[j]);
        assert Checks(g, c, k, fuel, sq[i]) && Checks(g, c, k, fuel, sq[j]);
      }
      if DoubleCheck(g, c, fuel) == Some(false) {
        forall p, q | Checks(g, c, k, fuel, p) && Checks(g, c, k, fuel, q)
          ensures p == q
        {
          var i :| 0 <= i < |sq| && sq[i] == p;
          var j :| 0 <= j < |sq| && sq[j] == q;
          assert Hit(g, k, fuel, sq[i]) && Hit(g, k, fuel, sq[j]);
          if i < j {
            assert false;
          } else if j < i {
            assert false;
          }
        }
      }
    }
  }

  // ---------------------------------------------------------------------------
  // The fuel bound
  // ---------------------------------------------------------------------------

  /** An answer found with some fuel is the answer with any larger fuel: the fuel
      only cuts off calls the source would make, it never changes a result. */
  lemma {:induction false} ValidMoveFuel(g: Grid, s: Pos, e: Pos, f: nat, f2: nat)
    requires s in g && f <= f2 && ValidMove(g, s, e, f).Some?
    ensures ValidMove(g, s, e, f2) == ValidMove(g, s, e, f)
    decreases f, 1, 0, 0
  {
    if g[s].kind == King {
      KingMoveFuel(g, s, e, f, f2);
    }
  }

  lemma {:induction false} KingMoveFuel(g: Grid, s: Pos, e: Pos, f: nat, f2: nat)
    requires s in g && g[s].kind == King && f <= f2 && KingMove(g, s, e, f).Some?
    ensures KingMove(g, s, e, f2) == KingMove(g, s, e, f)
    decreases f, 0, 0, 0
  {
    var m := g[s];
    if !Own(g, e, m.color) && !(Abs(s.row - e.row) <= 1 && Abs(s.col - e.col) <= 1) {
      InCheckFuel(g, m.color, f - 1, f2 - 1);
      if InCheck(g, m.color, f - 1) == Some(true) {
        InCheckFuel(Relocate(g, s, e), m.color, f - 1, f2 - 1);
      }
    }
  }

  lemma {:induction false} InCheckFuel(g: Grid, c: Player, f: nat, f2: nat)
    requires f <= f2 && InCheck(g, c, f).Some?
    ensures InCheck(g, c, f2) == InCheck(g, c, f)
    decreases f, 3, 0, 0
  {
    CheckFromFuel(g, c, FindKing(g, c), f, f2, 0, 0);
  }

  lemma {:induction false} CheckFromFuel(g: Grid, c: Player, king: Option<Pos>, f: nat, f2: nat, r: int, col: int)
    requires 0 <= r <= 8 && 0 <= col <= 8
    requires f <= f2 && CheckFrom(g, c, king, f, r, col).Some?
    ensures CheckFrom(g, c, king, f2, r, col) == CheckFrom(g, c, king, f, r, col)
    decreases f, 2, 8 - r, 8 - col
  {
    if r == 8 {
    } else if col == 8 {
      CheckFromFuel(g, c, king, f, f2, r + 1, 0);
    } else if Own(g, Pos(r, col), Opponent(c)) {
      if king.Some? {
        ValidMoveFuel(g, Pos(r, col), king.value, f, f2);
        if ValidMove(g, Pos(r, col), king.value, f) == Some(false) {
          CheckFromFuel(g, c, king, f, f2, r, col + 1);
        }
      }
    } else {
      CheckFromFuel(g, c, king, f, f2, r, col + 1);
    }
  }

  // ---------------------------------------------------------------------------
  // processMove
  // ---------------------------------------------------------------------------

  /** Because wasInCheck and isInCheckAfterMove are the same call on the same
      board, processMove accepts exactly the moves that isValidMove accepts and
      that leave the side to move out of check on the board with the move made;
      whether that side was in check before plays no part. */
  lemma ProcessOutcomeSpec(g: Grid, current: Player, s: Pos, e: Pos, fuel: nat)
    ensures ProcessOutcome(g, current, s, e, fuel) == Some(true) <==>
      InBounds(s) && InBounds(e) && s in g && ValidMove(g, s, e, fuel) == Some(true) &&
      InCheck(Relocate(g, s, e), current, fuel) == Some(false)
    ensures ProcessOutcome(g, current, s, e, fuel) == Some(false) <==>
      InBounds(s) &&
      (s !in g ||
       (InBounds(e) &&
        (ValidMove(g, s, e, fuel) == Some(false) ||
         (ValidMove(g, s, e, fuel) == Some(true) && InCheck(Relocate(g, s, e), current, fuel) == Some(true)))))
  {
  }
}
