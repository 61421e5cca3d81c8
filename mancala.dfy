/**
 * The Kalah board of `Project2/src/mancala.py`.
 *
 * A board with `m` pits per side is a flat list of `2m+2` stone counts:
 * cells `0..m-1` are player 1's pits, cell `m` is player 1's store,
 * cells `m+1..2m` are player 2's pits and cell `2m+1` is player 2's store.
 *
 * The rules are stated first as functions on values (`Sow`, `TurnTake`, ...);
 * the class `Board` holds the mutable game object and its methods are proved
 * against those functions.
 */
module Mancala {
  import opened Arith

  /** A player's side index: 1 or 2. */
  type Side = i: int | i == 1 || i == 2 witness 1

  /** The opponent's side index, `3 - index`. */
  function Opp(index: Side): (o: Side)
    ensures o != index
  {
    3 - index
  }

  // ---------------------------------------------------------------------------
  // Sums of stone counts

  /** Total number of stones in a list of cells. */
  function Sum(s: seq<nat>): nat
  {
    if s == [] then 0 else Sum(s[..|s| - 1]) + s[|s| - 1]
  }

  lemma {:induction false} SumConcat(a: seq<nat>, b: seq<nat>)
    ensures Sum(a + b) == Sum(a) + Sum(b)
    decreases |b|
  {
    if b == [] {
      assert a + b == a;
    } else {
      assert (a + b)[..|a + b| - 1] == a + b[..|b| - 1];
      SumConcat(a, b[..|b| - 1]);
    }
  }

  /** Replacing one cell changes the total by the difference. */
  lemma SumUpdate(s: seq<nat>, i: nat, v: nat)
    requires i < |s|
    ensures Sum(s[i := v]) == Sum(s) - s[i] + v
  {
    assert s == s[..i] + [s[i]] + s[i + 1..];
    assert s[i := v] == s[..i] + [v] + s[i + 1..];
    SumConcat(s[..i] + [s[i]], s[i + 1..]);
    SumConcat(s[..i], [s[i]]);
    SumConcat(s[..i] + [v], s[i + 1..]);
    SumConcat(s[..i], [v]);
    assert Sum([s[i]]) == s[i] by { assert [s[i]][..0] == []; }
    assert Sum([v]) == v by { assert [v][..0] == []; }
  }

  /** The sum of a cell-wise sum is the sum of the sums. */
  lemma {:induction false} SumPointwise(r: seq<nat>, a: seq<nat>, b: seq<nat>)
    requires |r| == |a| == |b|
    requires forall j :: 0 <= j < |r| ==> r[j] == a[j] + b[j]
    ensures Sum(r) == Sum(a) + Sum(b)
    decreases |r|
  {
    if r != [] {
      var n := |r| - 1;
      SumPointwise(r[..n], a[..n], b[..n]);
    }
  }

  /** `n` cells holding `k` stones each. */
  function Fill(n: nat, k: nat): (s: seq<nat>)
    ensures |s| == n && forall j :: 0 <= j < n ==> s[j] == k
  {
    seq(n, _ => k)
  }

  lemma {:induction false} SumFill(n: nat, k: nat)
    ensures Sum(Fill(n, k)) == n * k
  {
    if n > 0 {
      assert Fill(n, k)[..n - 1] == Fill(n - 1, k);
      SumFill(n - 1, k);
    }
  }

  /** One stone in every cell `j` with `lo <= j < hi`, none elsewhere. */
  function Interval(n: nat, lo: int, hi: int): (s: seq<nat>)
    ensures |s| == n
    ensures forall j :: 0 <= j < n ==> s[j] == if lo <= j < hi then 1 else 0
  {
    seq(n, j => if lo <= j < hi then 1 else 0)
  }

  lemma {:induction false} SumInterval(n: nat, lo: nat, hi: nat)
    requires lo <= hi
    ensures Sum(Interval(n, lo, hi)) == if n <= lo then 0 else if n <= hi then n - lo else hi - lo
  {
    if n > 0 {
      assert Interval(n, lo, hi)[..n - 1] == Interval(n - 1, lo, hi);
      SumInterval(n - 1, lo, hi);
    }
  }

  // ---------------------------------------------------------------------------
  // Board layout and accessors

  /** A board with `m >= 1` pits per side has `2m+2` cells. */
  predicate WellFormed(s: seq<nat>, m: nat)
  {
    m >= 1 && |s| == 2 * m + 2
  }

  /** Cell of pit `i` (0-based, counted from the side's first pit) of side `index`. */
  function PitCell(m: nat, index: Side, i: nat): nat
  {
    if index == 1 then i else m + 1 + i
  }

  /** Cell of the store of side `index`. */
  function StoreCell(m: nat, index: Side): nat
  {
    if index == 1 then m else 2 * m + 1
  }

  /** `generate_init_state`: `k` stones in every pit, both stores empty. */
  function InitState(m: nat, k: nat): (s: seq<nat>)
    ensures |s| == 2 * m + 2
    ensures forall i :: 0 <= i < |s| ==> s[i] == if i == m || i == 2 * m + 1 then 0 else k
  {
    Fill(m, k) + [0] + Fill(m, k) + [0]
  }

  /** The initial board holds `2mk` stones. */
  lemma InitStateTotal(m: nat, k: nat)
    ensures Sum(InitState(m, k)) == 2 * m * k
  {
    SumConcat(Fill(m, k) + [0] + Fill(m, k), [0]);
    SumConcat(Fill(m, k) + [0], Fill(m, k));
    SumConcat(Fill(m, k), [0]);
    assert Sum([0]) == 0 by { assert [0][..0] == []; }
    SumFill(m, k);
  }

  /** `p1_pits`. */
  function P1Pits(s: seq<nat>, m: nat): (p: seq<nat>)
    requires WellFormed(s, m)
    ensures |p| == m && forall i :: 0 <= i < m ==> p[i] == s[PitCell(m, 1, i)]
  {
    s[..m]
  }

  /** `p2_pits`: the cells strictly between player 1's store and the last cell. */
  function P2Pits(s: seq<nat>, m: nat): (p: seq<nat>)
    requires WellFormed(s, m)
    ensures |p| == m && forall i :: 0 <= i < m ==> p[i] == s[PitCell(m, 2, i)]
  {
    s[m + 1..|s| - 1]
  }

  /** `p_pits`: the pits of side `index`. */
  function Pits(s: seq<nat>, m: nat, index: Side): (p: seq<nat>)
    requires WellFormed(s, m)
    ensures |p| == m && forall i :: 0 <= i < m ==> p[i] == s[PitCell(m, index, i)]
  {
    if index == 1 then P1Pits(s, m) else P2Pits(s, m)
  }

  /** `p_store`: the store of side `index` (`p1_store` is cell `m`, `p2_store` the last cell). */
  function Store(s: seq<nat>, m: nat, index: Side): (n: nat)
    requires WellFormed(s, m)
    ensures n == s[StoreCell(m, index)]
  {
    if index == 1 then s[m] else s[|s| - 1]
  }

  /** `update_store` on a value: the store of `index` set to `value`. */
  function SetStore(s: seq<nat>, m: nat, index: Side, value: nat): (r: seq<nat>)
    requires WellFormed(s, m)
    ensures WellFormed(r, m) && r == s[StoreCell(m, index) := value]
  {
    if index == 1 then s[m := value] else s[|s| - 1 := value]
  }

  /** `update_pit` on a value: pit `i` of `index` set to `value`. */
  function SetPit(s: seq<nat>, m: nat, i: nat, index: Side, value: nat): (r: seq<nat>)
    requires WellFormed(s, m) && i < m
    ensures WellFormed(r, m) && r == s[PitCell(m, index, i) := value]
  {
    if index == 1 then s[i := value] else s[i + m + 1 := value]
  }

  /** Python's `any` on a list of counts: some entry is non-zero. */
  function Any(xs: seq<nat>): (b: bool)
    ensures b <==> exists i :: 0 <= i < |xs| && xs[i] != 0
  {
    if xs == [] then false else xs[0] != 0 || Any(xs[1..])
  }

  /** `filter_actions` on the pits of one side: the non-empty pits, in increasing order. */
  function LegalActions(pits: seq<nat>): (acts: seq<nat>)
    ensures forall j :: 0 <= j < |acts| ==> acts[j] < |pits|
  {
    if pits == [] then []
    else
      var rest := LegalActions(pits[..|pits| - 1]);
      if pits[|pits| - 1] > 0 then rest + [|pits| - 1] else rest
  }

  /**
   * The legal actions are exactly the indices of the non-empty pits, each
   * once, in increasing order.
   */
  lemma LegalActionsSpec(pits: seq<nat>)
    ensures var acts := LegalActions(pits);
            && (forall j :: 0 <= j < |acts| ==> pits[acts[j]] > 0)
            && (forall i :: 0 <= i < |pits| ==> (pits[i] > 0 <==> i in acts))
            && (forall j, k :: 0 <= j < k < |acts| ==> acts[j] < acts[k])
  {
    LegalActionsNonEmpty(pits);
    LegalActionsExact(pits);
    LegalActionsIncreasing(pits);
  }

  lemma {:induction false} LegalActionsNonEmpty(pits: seq<nat>)
    ensures forall j :: 0 <= j < |LegalActions(pits)| ==> pits[LegalActions(pits)[j]] > 0
  {
    if pits != [] {
      var init := pits[..|pits| - 1];
      LegalActionsNonEmpty(init);
      var rest := LegalActions(init);
      assert forall j :: 0 <= j < |rest| ==> pits[rest[j]] == init[rest[j]];
    }
  }

  lemma {:induction false} LegalActionsExact(pits: seq<nat>)
    ensures forall i :: 0 <= i < |pits| ==> (pits[i] > 0 <==> i in LegalActions(pits))
  {
    if pits != [] {
      LegalActionsExact(pits[..|pits| - 1]);
    }
  }

  lemma {:induction false} LegalActionsIncreasing(pits: seq<nat>)
    ensures forall j, k :: 0 <= j < k < |LegalActions(pits)| ==> LegalActions(pits)[j] < LegalActions(pits)[k]
  {
    if pits != [] {
      LegalActionsIncreasing(pits[..|pits| - 1]);
    }
  }

  /** A side has no legal action exactly when all its pits are empty. */
  lemma NoLegalActions(pits: seq<nat>)
    ensures LegalActions(pits) == [] <==> forall i :: 0 <= i < |pits| ==> pits[i] == 0
  {
    LegalActionsExact(pits);
    if LegalActions(pits) != [] {
      LegalActionsNonEmpty(pits);
      assert pits[LegalActions(pits)[0]] > 0;
    }
  }

  /** Extending the pits by one more pit adds that pit's index when it is non-empty. */
  lemma LegalActionsStep(pits: seq<nat>, i: nat)
    requires i < |pits|
    ensures LegalActions(pits[..i + 1]) == LegalActions(pits[..i]) + (if pits[i] > 0 then [i] else [])
  {
    assert pits[..i + 1][..i] == pits[..i];
  }

  /** `check_end_game`: the game is over when one of the two rows of pits is empty. */
  function EndGame(s: seq<nat>, m: nat): (over: bool)
    requires WellFormed(s, m)
    ensures over <==> ((forall i :: 0 <= i < m ==> s[PitCell(m, 1, i)] == 0)
                       || (forall i :: 0 <= i < m ==> s[PitCell(m, 2, i)] == 0))
  {
    !(Any(P1Pits(s, m)) && Any(P2Pits(s, m)))
  }

  /** The game is over exactly when one of the sides has no legal move. */
  lemma EndGameIffNoMoves(s: seq<nat>, m: nat)
    requires WellFormed(s, m)
    ensures EndGame(s, m) <==> LegalActions(Pits(s, m, 1)) == [] || LegalActions(Pits(s, m, 2)) == []
  {
    NoLegalActions(Pits(s, m, 1));
    NoLegalActions(Pits(s, m, 2));
  }

  /** The winner code of `find_winner_scores`: 1, 2, or 0 for a draw. */
  datatype Outcome = Outcome(winner: int, p1Score: nat, p2Score: nat)

  /** `find_winner_scores`: compares the two stores. */
  function WinnerScores(s: seq<nat>, m: nat): (r: Outcome)
    requires WellFormed(s, m)
    ensures r.p1Score == s[StoreCell(m, 1)] && r.p2Score == s[StoreCell(m, 2)]
    ensures r.winner == 1 <==> r.p1Score > r.p2Score
    ensures r.winner == 2 <==> r.p1Score < r.p2Score
    ensures r.winner == 0 <==> r.p1Score == r.p2Score
  {
    var p1, p2 := Store(s, m, 1), Store(s, m, 2);
    if p1 > p2 then Outcome(1, p1, p2)
    else if p1 < p2 then Outcome(2, p1, p2)
    else Outcome(0, p1, p2)
  }

  // ---------------------------------------------------------------------------
  // Sowing

  /**
   * Cell of position `j` of the sowing frame of `index`: the `2m+1` cells the
   * side sows into, starting with its own first pit and leaving out the
   * opponent's store.
   */
  function FrameCell(m: nat, index: Side, j: nat): (c: nat)
    requires j < 2 * m + 1
    ensures c < 2 * m + 2 && c != StoreCell(m, Opp(index))
  {
    if index == 1 then j else if j <= m then m + 1 + j else j - m - 1
  }

  /** The frame position of cell `i`, which is any cell but the opponent's store. */
  function FramePos(m: nat, index: Side, i: nat): (j: nat)
    requires i < 2 * m + 2 && i != StoreCell(m, Opp(index))
    ensures j < 2 * m + 1 && FrameCell(m, index, j) == i
  {
    if index == 1 then i else if i > m then i - m - 1 else i + m + 1
  }

  /** Different frame positions are different cells. */
  lemma FrameCellInjective(m: nat, index: Side, j: nat, k: nat)
    requires j < 2 * m + 1 && k < 2 * m + 1
    ensures FrameCell(m, index, j) == FrameCell(m, index, k) <==> j == k
  {
  }

  /** The rotated view `curr_state` of `sowing`. */
  function Frame(s: seq<nat>, m: nat, index: Side): (c: seq<nat>)
    requires WellFormed(s, m)
    ensures |c| == 2 * m + 1
    ensures forall j :: 0 <= j < 2 * m + 1 ==> c[j] == s[FrameCell(m, index, j)]
  {
    if index == 1 then s[..|s| - 1] else P2Pits(s, m) + [Store(s, m, 2)] + P1Pits(s, m)
  }

  /** Puts a (sown) frame back into board order; the opponent's store is taken from `s`. */
  function Unframe(c: seq<nat>, s: seq<nat>, m: nat, index: Side): (r: seq<nat>)
    requires WellFormed(s, m) && |c| == 2 * m + 1
    ensures WellFormed(r, m)
    ensures forall j :: 0 <= j < 2 * m + 1 ==> r[FrameCell(m, index, j)] == c[j]
    ensures Store(r, m, Opp(index)) == Store(s, m, Opp(index))
  {
    if index == 1 then c + [Store(s, m, 2)] else c[|c| - m..] + [Store(s, m, 1)] + c[..|c| - m]
  }

  /** Putting the frame of a board back gives the board itself. */
  lemma UnframeFrame(s: seq<nat>, m: nat, index: Side)
    requires WellFormed(s, m)
    ensures Unframe(Frame(s, m, index), s, m, index) == s
  {
    var r := Unframe(Frame(s, m, index), s, m, index);
    forall i | 0 <= i < |s| ensures r[i] == s[i] {
      if i != StoreCell(m, Opp(index)) {
        assert FrameCell(m, index, FramePos(m, index, i)) == i;
      }
    }
  }

  lemma SumSplit(s: seq<nat>, i: nat)
    requires i <= |s|
    ensures Sum(s) == Sum(s[..i]) + Sum(s[i..])
  {
    assert s == s[..i] + s[i..];
    SumConcat(s[..i], s[i..]);
  }

  lemma SumFrame(s: seq<nat>, m: nat, index: Side)
    requires WellFormed(s, m)
    ensures Sum(Frame(s, m, index)) + Store(s, m, Opp(index)) == Sum(s)
  {
    var n := |s|;
    if index == 2 {
      assert Frame(s, m, index) == s[m + 1..] + s[..m];
      assert Sum(Frame(s, m, index)) == Sum(s[m + 1..]) + Sum(s[..m]) by {
        SumConcat(s[m + 1..], s[..m]);
      }
      assert Sum(s[..m + 1]) == Sum(s[..m]) + s[m] by {
        assert s[..m + 1][..m] == s[..m];
      }
      SumSplit(s, m + 1);
    }
  }

  lemma SumUnframe(c: seq<nat>, s: seq<nat>, m: nat, index: Side)
    requires WellFormed(s, m) && |c| == 2 * m + 1
    ensures Sum(Unframe(c, s, m, index)) == Sum(c) + Store(s, m, Opp(index))
  {
    if index == 1 {
      assert (c + [s[|s| - 1]])[..|c|] == c;
    } else {
      var k := |c| - m;
      var x := s[m];
      assert Sum(c[k..] + [x]) == Sum(c[k..]) + x by {
        assert (c[k..] + [x])[..m] == c[k..];
      }
      SumConcat(c[k..] + [x], c[..k]);
      SumSplit(c, k);
    }
  }

  /** Forward distance, `1..L`, from cell `from` to cell `to` of a circle of `L` cells. */
  function Dist(L: nat, from: nat, to: nat): (d: nat)
    requires from < L && to < L
    ensures 0 < d <= L && (from + d == to || from + d == to + L)
  {
    if to > from then to - from else to - from + L
  }

  /**
   * The stones frame position `p` receives when `hand` stones are dealt out
   * one by one into the positions after `from`, round a circle of `L`: one
   * per full lap, and one more if `p` is among the `hand mod L` positions
   * that follow `from`.
   */
  function Share(L: nat, from: nat, hand: nat, p: nat): nat
    requires from < L && p < L
  {
    hand / L + (if Dist(L, from, p) <= hand % L then 1 else 0)
  }

  /** One extra stone for each of the `rem` cells that follow `move` around a circle of `L` cells. */
  function Extra(L: nat, move: nat, rem: nat): (e: seq<nat>)
    requires move < L
    ensures |e| == L
    ensures forall j :: 0 <= j < L ==> e[j] == if Dist(L, move, j) <= rem then 1 else 0
  {
    seq(L, j requires 0 <= j < L => if Dist(L, move, j) <= rem then 1 else 0)
  }

  /** Exactly `rem` cells receive an extra stone. */
  lemma SumExtra(L: nat, move: nat, rem: nat)
    requires move < L && rem < L
    ensures Sum(Extra(L, move, rem)) == rem
  {
    if move + rem < L {
      ExtraNoWrap(L, move, rem);
      SumRun(L, move + 1, move + rem + 1);
    } else {
      SumExtraWrap(L, move, rem);
    }
  }

  /** `SumExtra` when the extra stones wrap round past the last cell. */
  lemma SumExtraWrap(L: nat, move: nat, rem: nat)
    requires move < L && rem < L && move + rem >= L
    ensures Sum(Extra(L, move, rem)) == rem
  {
    var low, high := Interval(L, 0, move + rem + 1 - L), Interval(L, move + 1, L);
    ExtraWrap(L, move, rem);
    SumPointwise(Extra(L, move, rem), low, high);
    SumRun(L, 0, move + rem + 1 - L);
    SumRun(L, move + 1, L);
  }

  /** A run of cells `lo .. hi-1` inside the board holds `hi - lo` stones. */
  lemma SumRun(n: nat, lo: nat, hi: nat)
    requires lo <= hi <= n
    ensures Sum(Interval(n, lo, hi)) == hi - lo
  {
    SumInterval(n, lo, hi);
  }

  /** Without wrapping round, the extra stones go to the cells `move+1 .. move+rem`. */
  lemma ExtraNoWrap(L: nat, move: nat, rem: nat)
    requires move + rem < L
    ensures Extra(L, move, rem) == Interval(L, move + 1, move + rem + 1)
  {
  }

  /** Wrapping round, they go to the cells after `move` and to the first cells up to `move+rem-L`. */
  lemma ExtraWrap(L: nat, move: nat, rem: nat)
    requires move < L && rem < L && move + rem >= L
    ensures var e, low, high := Extra(L, move, rem), Interval(L, 0, move + rem + 1 - L), Interval(L, move + 1, L);
            forall j :: 0 <= j < L ==> e[j] == low[j] + high[j]
  {
  }

  /**
   * The frame after sowing from position `move`: the chosen cell is emptied
   * and every cell receives its share of the stones it held.
   */
  function SowFrame(c: seq<nat>, move: nat): (r: seq<nat>)
    requires move < |c|
    ensures |r| == |c|
  {
    seq(|c|, j requires 0 <= j < |c| => (if j == move then 0 else c[j]) + Share(|c|, move, c[move], j))
  }

  /** The cells of a frame sown with `laps` full laps and `rem` extra stones. */
  function Spread(c: seq<nat>, move: nat, laps: nat, rem: nat): (r: seq<nat>)
    requires move < |c|
    ensures |r| == |c|
  {
    var e := Extra(|c|, move, rem);
    seq(|c|, j requires 0 <= j < |c| => (if j == move then 0 else c[j]) + laps + e[j])
  }

  lemma SumSpread(c: seq<nat>, move: nat, laps: nat, rem: nat)
    requires move < |c| && rem < |c|
    ensures Sum(Spread(c, move, laps, rem)) + c[move] == Sum(c) + Sum(Fill(|c|, laps)) + rem
  {
    SpreadParts(c, move, laps, rem);
    SumExtra(|c|, move, rem);
    SumUpdate(c, move, 0);
  }

  /** The sown cells are the emptied frame, the laps and the extra stones, added cell by cell. */
  lemma SpreadParts(c: seq<nat>, move: nat, laps: nat, rem: nat)
    requires move < |c|
    ensures Sum(Spread(c, move, laps, rem)) == Sum(c[move := 0]) + Sum(Fill(|c|, laps)) + Sum(Extra(|c|, move, rem))
  {
    var L := |c|;
    var e := Extra(L, move, rem);
    var bonus := seq(L, j requires 0 <= j < L => laps + e[j]);
    SumPointwise(Spread(c, move, laps, rem), c[move := 0], bonus);
    SumPointwise(bonus, Fill(L, laps), e);
  }

  /** Sowing moves stones around but keeps their number. */
  lemma SowFrameConserves(c: seq<nat>, move: nat)
    requires move < |c|
    ensures Sum(SowFrame(c, move)) == Sum(c)
  {
    var L, stones := |c|, c[move];
    var laps, rem := stones / L, stones % L;
    SowFrameIsSpread(c, move);
    SumSpread(c, move, laps, rem);
    SumFill(L, laps);
    DivMod(stones, L);
  }

  /** Sowing deals each cell its full laps and, on the arc after `move`, one extra stone. */
  lemma SowFrameIsSpread(c: seq<nat>, move: nat)
    requires move < |c|
    ensures SowFrame(c, move) == Spread(c, move, c[move] / |c|, c[move] % |c|)
  {
    var L := |c|;
    var r, t := SowFrame(c, move), Spread(c, move, c[move] / L, c[move] % L);
    forall j | 0 <= j < L
      ensures r[j] == t[j]
    {
    }
  }

  lemma DivMod(x: nat, L: nat)
    requires L > 0
    ensures L * (x / L) + x % L == x
  {
  }

  /**
   * Board `s` after `hand` stones were dealt out from frame position `from`:
   * every cell but the opponent's store gains its share.
   */
  function Dealt(s: seq<nat>, m: nat, index: Side, from: nat, hand: nat): (r: seq<nat>)
    requires WellFormed(s, m) && from < 2 * m + 1
    ensures WellFormed(r, m)
  {
    seq(|s|, i requires 0 <= i < |s| =>
      if i == StoreCell(m, Opp(index)) then s[i]
      else s[i] + Share(2 * m + 1, from, hand, FramePos(m, index, i)))
  }

  /**
   * `sowing` as a function: the stones of pit `move` are taken out and dealt
   * from there; the second component is the landing position in the frame.
   */
  function Sow(s: seq<nat>, m: nat, index: Side, move: nat): (r: (seq<nat>, nat))
    requires WellFormed(s, m) && move < m
    ensures WellFormed(r.0, m) && r.1 < 2 * m + 1
  {
    var pit := PitCell(m, index, move);
    var L := 2 * m + 1;
    (Dealt(s[pit := 0], m, index, move, s[pit]), (move + s[pit] % L) % L)
  }

  /** `Sow` is the rotated view sown and put back, as `sowing` computes it. */
  lemma SowByFrame(s: seq<nat>, m: nat, index: Side, move: nat)
    requires WellFormed(s, m) && move < m
    ensures Unframe(SowFrame(Frame(s, m, index), move), s, m, index) == Sow(s, m, index, move).0
  {
    var c := Frame(s, m, index);
    var r := Unframe(SowFrame(c, move), s, m, index);
    var t := Sow(s, m, index, move).0;
    forall i | 0 <= i < |s| ensures r[i] == t[i] {
      if i != StoreCell(m, Opp(index)) {
        var p := FramePos(m, index, i);
        SowCell(c, s, m, index, move, i);
        assert r[FrameCell(m, index, p)] == SowFrame(c, move)[p];
      }
    }
  }

  /** Cell `i` after sowing is its frame position after sowing the frame. */
  lemma SowCell(c: seq<nat>, s: seq<nat>, m: nat, index: Side, move: nat, i: nat)
    requires WellFormed(s, m) && move < m && |c| == 2 * m + 1
    requires i < |s| && i != StoreCell(m, Opp(index))
    requires c[move] == s[PitCell(m, index, move)] && c[FramePos(m, index, i)] == s[i]
    ensures SowFrame(c, move)[FramePos(m, index, i)] == Sow(s, m, index, move).0[i]
  {
    assert FrameCell(m, index, move) == PitCell(m, index, move);
    FrameCellInjective(m, index, FramePos(m, index, i), move);
  }

  /** Sowing keeps the number of cells and the number of stones. */
  lemma SowConserves(s: seq<nat>, m: nat, index: Side, move: nat)
    requires WellFormed(s, m) && move < m
    ensures |Sow(s, m, index, move).0| == |s|
    ensures Sum(Sow(s, m, index, move).0) == Sum(s)
  {
    var c := Frame(s, m, index);
    SowByFrame(s, m, index, move);
    SumFrame(s, m, index);
    SumUnframe(SowFrame(c, move), s, m, index);
    SowFrameConserves(c, move);
  }

  /** Sowing never puts a stone into the opponent's store. */
  lemma SowOpponentStore(s: seq<nat>, m: nat, index: Side, move: nat)
    requires WellFormed(s, m) && move < m
    ensures Store(Sow(s, m, index, move).0, m, Opp(index)) == Store(s, m, Opp(index))
  {
  }

  /** The chosen pit is emptied and then receives only its share of the full laps. */
  lemma SowChosenPit(s: seq<nat>, m: nat, index: Side, move: nat)
    requires WellFormed(s, m) && move < m
    ensures Pits(Sow(s, m, index, move).0, m, index)[move] == Pits(s, m, index)[move] / (2 * m + 1)
  {
    assert FramePos(m, index, PitCell(m, index, move)) == move;
  }

  /**
   * Every other cell the side sows into gains one stone per full lap, plus one
   * if it is among the `stones mod (2m+1)` cells that follow the chosen pit.
   */
  lemma SowOtherCells(s: seq<nat>, m: nat, index: Side, move: nat, j: nat)
    requires WellFormed(s, m) && move < m
    requires j < 2 * m + 1 && j != move
    ensures var L, stones := 2 * m + 1, Pits(s, m, index)[move];
            Sow(s, m, index, move).0[FrameCell(m, index, j)]
            == s[FrameCell(m, index, j)] + stones / L + (if Dist(L, move, j) <= stones % L then 1 else 0)
  {
    FrameCellInjective(m, index, j, move);
    assert FramePos(m, index, FrameCell(m, index, j)) == j;
  }

  /**
   * The landing position is the chosen pit when the stones make full laps only,
   * and otherwise the cell at forward distance `stones mod (2m+1)` from it: the
   * last cell that received an extra stone.
   */
  lemma SowLanding(s: seq<nat>, m: nat, index: Side, move: nat)
    requires WellFormed(s, m) && move < m
    ensures var L, stones := 2 * m + 1, Pits(s, m, index)[move];
            var last := Sow(s, m, index, move).1;
            && (stones % L == 0 ==> last == move)
            && (stones % L != 0 ==> Dist(L, move, last) == stones % L)
  {
    var L := 2 * m + 1;
    var rem := s[PitCell(m, index, move)] % L;
    ModOnce(move + rem, L);
  }

  /** A remainder taken once around: `x mod L` for `0 <= x < 2L`. */
  lemma ModOnce(x: nat, L: nat)
    requires 0 < L && x < 2 * L
    ensures x % L == if x < L then x else x - L
  {
    if x >= L {
      DivModUnique(x, L, 1, x - L);
    } else {
      DivModUnique(x, L, 0, x);
    }
  }

  // ---------------------------------------------------------------------------
  // Turn taking: extra turn and capture

  /**
   * The capture step of `turn_taking` after the last stone landed in own pit
   * `last`: that pit and the opponent's mirrored pit `m-1-last` go to the
   * mover's store (counted as `1 +` the mirrored pit) and both pits are emptied.
   */
  function Capture(s: seq<nat>, m: nat, index: Side, last: nat): (r: seq<nat>)
    requires WellFormed(s, m) && last < m
    ensures WellFormed(r, m)
  {
    var own, mirror := PitCell(m, index, last), PitCell(m, Opp(index), m - 1 - last);
    var store := StoreCell(m, index);
    s[store := s[store] + 1 + s[mirror]][own := 0][mirror := 0]
  }

  /** `Capture` is the three updates `turn_taking` makes, in its order. */
  lemma CaptureBySteps(s: seq<nat>, m: nat, index: Side, last: nat)
    requires WellFormed(s, m) && last < m
    ensures var mirror := m - 1 - last;
            var s1 := SetStore(s, m, index, Store(s, m, index) + 1 + Pits(s, m, Opp(index))[mirror]);
            var s2 := SetPit(s1, m, last, index, 0);
            SetPit(s2, m, mirror, Opp(index), 0) == Capture(s, m, index, last)
  {
  }

  /** A capture keeps the number of stones when the landing pit holds the one stone it counts. */
  lemma CaptureConserves(s: seq<nat>, m: nat, index: Side, last: nat)
    requires WellFormed(s, m) && last < m
    requires Pits(s, m, index)[last] == 1
    ensures Sum(Capture(s, m, index, last)) == Sum(s)
  {
    var own, mirror := PitCell(m, index, last), PitCell(m, Opp(index), m - 1 - last);
    MoveToStore(s, StoreCell(m, index), own, mirror);
  }

  /**
   * Emptying cell `own`, which holds one stone, and cell `mirror` into cell
   * `store`, counted as `1 +` the mirror, keeps the total.
   */
  lemma MoveToStore(s: seq<nat>, store: nat, own: nat, mirror: nat)
    requires store < |s| && own < |s| && mirror < |s|
    requires store != own && store != mirror && own != mirror && s[own] == 1
    ensures Sum(s[store := s[store] + 1 + s[mirror]][own := 0][mirror := 0]) == Sum(s)
  {
    var x := s[mirror];
    var s2 := s[store := s[store] + 1 + x];
    var s3 := s2[own := 0];
    SumUpdate(s, store, s[store] + 1 + x);
    SumUpdate(s2, own, 0);
    SumUpdate(s3, mirror, 0);
  }

  /** `turn_taking` as a function: the new board, and whether the mover plays again. */
  function TurnTake(s: seq<nat>, m: nat, index: Side, move: nat): (r: (seq<nat>, bool))
    requires WellFormed(s, m) && move < m
    ensures WellFormed(r.0, m)
  {
    var (s1, last) := Sow(s, m, index, move);
    if last == m then (s1, true)
    else if last < m && Pits(s1, m, index)[last] == 1 then (Capture(s1, m, index, last), false)
    else (s1, false)
  }

  /** A turn keeps the number of stones on the board. */
  lemma TurnTakeConserves(s: seq<nat>, m: nat, index: Side, move: nat)
    requires WellFormed(s, m) && move < m
    ensures Sum(TurnTake(s, m, index, move).0) == Sum(s)
  {
    var (s1, last) := Sow(s, m, index, move);
    assert Sum(s1) == Sum(s) by {
      SowConserves(s, m, index, move);
    }
    if last != m && last < m && Pits(s1, m, index)[last] == 1 {
      CaptureConserves(s1, m, index, last);
    }
  }

  /** The mover plays again exactly when the last stone lands in the mover's own store. */
  lemma TurnTakeExtraTurn(s: seq<nat>, m: nat, index: Side, move: nat)
    requires WellFormed(s, m) && move < m
    ensures TurnTake(s, m, index, move).1 <==> Sow(s, m, index, move).1 == m
    ensures Sow(s, m, index, move).1 == m ==> TurnTake(s, m, index, move).0 == Sow(s, m, index, move).0
  {
  }

  /**
   * Capture: when the last stone lands in an own pit that now holds exactly one
   * stone, that stone and the mirrored pit `m-1-last` of the opponent go to the
   * mover's store, both pits become empty, nothing else changes, and the turn passes.
   */
  lemma TurnTakeCapture(s: seq<nat>, m: nat, index: Side, move: nat)
    requires WellFormed(s, m) && move < m
    requires Sow(s, m, index, move).1 < m
    requires Pits(Sow(s, m, index, move).0, m, index)[Sow(s, m, index, move).1] == 1
    ensures var (s1, last) := Sow(s, m, index, move);
            var (r, again) := TurnTake(s, m, index, move);
            var mirror := m - 1 - last;
            && !again
            && Store(r, m, index) == Store(s1, m, index) + 1 + Pits(s1, m, Opp(index))[mirror]
            && Pits(r, m, index)[last] == 0
            && Pits(r, m, Opp(index))[mirror] == 0
            && (forall c :: (0 <= c < |r| && c != StoreCell(m, index) && c != PitCell(m, index, last)
                               && c != PitCell(m, Opp(index), mirror)) ==> r[c] == s1[c])
  {
    var (s1, last) := Sow(s, m, index, move);
    assert TurnTake(s, m, index, move) == (Capture(s1, m, index, last), false);
    CaptureCells(s1, m, index, last);
  }

  /** What `Capture` does to each cell. */
  lemma CaptureCells(s: seq<nat>, m: nat, index: Side, last: nat)
    requires WellFormed(s, m) && last < m
    ensures var r := Capture(s, m, index, last);
            var mirror := m - 1 - last;
            && Store(r, m, index) == Store(s, m, index) + 1 + Pits(s, m, Opp(index))[mirror]
            && Pits(r, m, index)[last] == 0
            && Pits(r, m, Opp(index))[mirror] == 0
            && (forall c :: (0 <= c < |r| && c != StoreCell(m, index) && c != PitCell(m, index, last)
                               && c != PitCell(m, Opp(index), mirror)) ==> r[c] == s[c])
  {
  }

  /** Without an extra turn or a capture, the board is the sown board and the turn passes. */
  lemma TurnTakeNoCapture(s: seq<nat>, m: nat, index: Side, move: nat)
    requires WellFormed(s, m) && move < m
    requires var (s1, last) := Sow(s, m, index, move);
             last != m && !(last < m && Pits(s1, m, index)[last] == 1)
    ensures TurnTake(s, m, index, move) == (Sow(s, m, index, move).0, false)
  {
  }

  // ---------------------------------------------------------------------------
  // The turn played one stone at a time

  /**
   * The cell after `c` in the sowing order of side `index`: the next cell
   * round the board, skipping the opponent's store.
   */
  function NextCell(m: nat, index: Side, c: nat): nat
  {
    var n := if c == 2 * m + 1 then 0 else c + 1;
    if n == StoreCell(m, Opp(index)) then (if n == 2 * m + 1 then 0 else n + 1) else n
  }

  /** The frame position after `j`, round a frame of `L` positions. */
  function NextPos(L: nat, j: nat): nat
  {
    if j + 1 == L then 0 else j + 1
  }

  /** The frame position `k` steps after `j`. */
  function Advance(L: nat, j: nat, k: nat): (p: nat)
    requires j < L
    ensures p < L
    decreases k
  {
    if k == 0 then j else Advance(L, NextPos(L, j), k - 1)
  }

  /** `k` steps round the frame are `(j + k) mod L`. */
  lemma {:induction false} AdvanceMod(L: nat, j: nat, k: nat)
    requires j < L
    ensures Advance(L, j, k) == (j + k) % L
    decreases k
  {
    if k == 0 {
      DivModUnique(j, L, 0, j);
    } else {
      AdvanceMod(L, NextPos(L, j), k - 1);
      var y := k - 1;
      if j + 1 == L {
        DivModUnique(L + y, L, y / L + 1, y % L);
      } else {
        assert NextPos(L, j) + y == j + k;
      }
    }
  }

  /** In frame positions, the next cell is the next position. */
  lemma NextCellFrame(m: nat, index: Side, j: nat)
    requires m >= 1 && j < 2 * m + 1
    ensures NextCell(m, index, FrameCell(m, index, j)) == FrameCell(m, index, NextPos(2 * m + 1, j))
  {
  }

  /**
   * The rule applied where the last stone fell, in cell `c`: if that is one
   * of the mover's pits and it now holds one stone, capture.
   */
  function Finish(s: seq<nat>, m: nat, index: Side, c: nat): (r: seq<nat>)
    requires WellFormed(s, m) && c < |s|
    ensures WellFormed(r, m)
  {
    var first := PitCell(m, index, 0);
    if first <= c < first + m && s[c] == 1 then Capture(s, m, index, c - first) else s
  }

  /**
   * The rules of the game for dropping stones: with `hand` stones left, the
   * last one dropped into cell `cell`, drop one stone into each following
   * cell.  The result is the board and the cell the last stone fell into.
   */
  function Drops(s: seq<nat>, m: nat, index: Side, cell: nat, hand: nat): (r: (seq<nat>, nat))
    requires WellFormed(s, m) && cell < |s|
    ensures WellFormed(r.0, m) && r.1 < |s|
    decreases hand
  {
    if hand == 0 then (s, cell)
    else
      var c := NextCell(m, index, cell);
      Drops(s[c := s[c] + 1], m, index, c, hand - 1)
  }

  /**
   * The board after `index` plays pit `move` by the rules: take the stones
   * out, drop them one at a time, then apply `Finish` where the last fell.
   */
  function TurnByStones(s: seq<nat>, m: nat, index: Side, move: nat): (r: seq<nat>)
    requires WellFormed(s, m) && move < m
    ensures WellFormed(r, m)
  {
    var pit := PitCell(m, index, move);
    var (t, last) := Drops(s[pit := 0], m, index, pit, s[pit]);
    Finish(t, m, index, last)
  }

  /** One more stone from `j` is a stone into the next position, then the rest from there. */
  lemma ShareStep(L: nat, j: nat, h: nat, p: nat)
    requires j < L && p < L
    ensures var j' := NextPos(L, j);
            Share(L, j, h + 1, p) == (if p == j' then 1 else 0) + Share(L, j', h, p)
  {
    DistStep(L, j, p);
    DivModNext(h, L);
  }

  /** Counting one more: the remainder goes up by one, or wraps to 0 and the quotient goes up. */
  lemma DivModNext(h: nat, L: nat)
    requires L >= 1
    ensures h % L == L - 1 ==> (h + 1) / L == h / L + 1 && (h + 1) % L == 0
    ensures h % L < L - 1 ==> (h + 1) / L == h / L && (h + 1) % L == h % L + 1
  {
    var q, r := h / L, h % L;
    if r == L - 1 {
      DivModUnique(h + 1, L, q + 1, 0);
    } else {
      DivModUnique(h + 1, L, q, r + 1);
    }
  }

  /** Seen from the next position, every other position is one step closer. */
  lemma DistStep(L: nat, j: nat, p: nat)
    requires j < L && p < L
    ensures var j' := NextPos(L, j);
            if p == j' then Dist(L, j, p) == 1 && Dist(L, j', p) == L
            else Dist(L, j, p) == Dist(L, j', p) + 1
  {
  }

  /** Dealing `h` stones from `j` deals one into the next cell and `h - 1` from there. */
  lemma DealtStep(s: seq<nat>, m: nat, index: Side, j: nat, h: nat)
    requires WellFormed(s, m) && j < 2 * m + 1 && h >= 1
    ensures var j' := NextPos(2 * m + 1, j);
            var c := FrameCell(m, index, j');
            Dealt(s[c := s[c] + 1], m, index, j', h - 1) == Dealt(s, m, index, j, h)
  {
    var L := 2 * m + 1;
    var j' := NextPos(L, j);
    var c := FrameCell(m, index, j');
    var a, b := Dealt(s[c := s[c] + 1], m, index, j', h - 1), Dealt(s, m, index, j, h);
    forall i | 0 <= i < |s| ensures a[i] == b[i] {
      DealtStepAt(s, m, index, j, h, i);
    }
  }

  /** `DealtStep` at one cell `i`. */
  lemma DealtStepAt(s: seq<nat>, m: nat, index: Side, j: nat, h: nat, i: nat)
    requires WellFormed(s, m) && j < 2 * m + 1 && h >= 1 && i < |s|
    ensures var j' := NextPos(2 * m + 1, j);
            var c := FrameCell(m, index, j');
            Dealt(s[c := s[c] + 1], m, index, j', h - 1)[i] == Dealt(s, m, index, j, h)[i]
  {
    if i != StoreCell(m, Opp(index)) {
      var L := 2 * m + 1;
      var j' := NextPos(L, j);
      var p := FramePos(m, index, i);
      ShareStep(L, j, h - 1, p);
      FrameCellInjective(m, index, p, j');
    }
  }

  /** Dealing no stones changes nothing. */
  lemma DealtNone(s: seq<nat>, m: nat, index: Side, j: nat)
    requires WellFormed(s, m) && j < 2 * m + 1
    ensures Dealt(s, m, index, j, 0) == s
  {
    var d := Dealt(s, m, index, j, 0);
    forall i | 0 <= i < |s| ensures d[i] == s[i] {
      if i != StoreCell(m, Opp(index)) {
        var p := FramePos(m, index, i);
        assert Share(2 * m + 1, j, 0, p) == 0;
      }
    }
  }

  /**
   * What dropping stone by stone from frame position `j` leaves: the stones
   * dealt by their shares, the last one at the position `hand` steps further on.
   */
  ghost predicate DealsAsShares(s: seq<nat>, m: nat, index: Side, j: nat, hand: nat)
    requires WellFormed(s, m) && j < 2 * m + 1
  {
    Drops(s, m, index, FrameCell(m, index, j), hand)
    == (Dealt(s, m, index, j, hand), FrameCell(m, index, Advance(2 * m + 1, j, hand)))
  }

  /** Dropping stone by stone gives the stones their shares. */
  lemma {:induction false} DropsDealt(s: seq<nat>, m: nat, index: Side, j: nat, hand: nat)
    requires WellFormed(s, m) && j < 2 * m + 1
    ensures DealsAsShares(s, m, index, j, hand)
    decreases hand, 1
  {
    if hand == 0 {
      DealsAsSharesNone(s, m, index, j);
    } else {
      DropsDealtStep(s, m, index, j, hand);
    }
  }

  /** The inductive case of `DropsDealt`: the first stone, then the rest from the next position. */
  lemma {:induction false} DropsDealtStep(s: seq<nat>, m: nat, index: Side, j: nat, hand: nat)
    requires WellFormed(s, m) && j < 2 * m + 1 && hand >= 1
    ensures DealsAsShares(s, m, index, j, hand)
    decreases hand, 0
  {
    var j' := NextPos(2 * m + 1, j);
    var c := FrameCell(m, index, j');
    DropsDealt(s[c := s[c] + 1], m, index, j', hand - 1);
    DealsAsSharesStep(s, m, index, j, hand);
  }

  /** The base case of `DropsDealt`: with no stones left, nothing moves. */
  lemma DealsAsSharesNone(s: seq<nat>, m: nat, index: Side, j: nat)
    requires WellFormed(s, m) && j < 2 * m + 1
    ensures DealsAsShares(s, m, index, j, 0)
  {
    DealtNone(s, m, index, j);
  }

  /** The step of `DropsDealt`: one stone into the next cell, then the rest from there. */
  lemma DealsAsSharesStep(s: seq<nat>, m: nat, index: Side, j: nat, hand: nat)
    requires WellFormed(s, m) && j < 2 * m + 1 && hand >= 1
    requires var j' := NextPos(2 * m + 1, j);
             var c := FrameCell(m, index, j');
             DealsAsShares(s[c := s[c] + 1], m, index, j', hand - 1)
    ensures DealsAsShares(s, m, index, j, hand)
  {
    DropsStep(s, m, index, j, hand);
    DealtShifted(s, m, index, j, hand);
  }

  /** After the first stone, the rest dealt from the next position end as all of them dealt from `j`. */
  lemma DealtShifted(s: seq<nat>, m: nat, index: Side, j: nat, hand: nat)
    requires WellFormed(s, m) && j < 2 * m + 1 && hand >= 1
    ensures var L := 2 * m + 1;
            var j' := NextPos(L, j);
            var c := FrameCell(m, index, j');
            (Dealt(s[c := s[c] + 1], m, index, j', hand - 1), FrameCell(m, index, Advance(L, j', hand - 1)))
            == (Dealt(s, m, index, j, hand), FrameCell(m, index, Advance(L, j, hand)))
  {
    DealtStep(s, m, index, j, hand);
    AdvanceStep(2 * m + 1, j, hand);
  }

  /** Dropping `hand` stones after position `j` drops the first into the next position. */
  lemma DropsStep(s: seq<nat>, m: nat, index: Side, j: nat, hand: nat)
    requires WellFormed(s, m) && j < 2 * m + 1 && hand >= 1
    ensures var j' := NextPos(2 * m + 1, j);
            var c := FrameCell(m, index, j');
            Drops(s, m, index, FrameCell(m, index, j), hand) == Drops(s[c := s[c] + 1], m, index, c, hand - 1)
  {
    NextCellFrame(m, index, j);
  }

  /** `hand` steps from `j` are `hand - 1` steps from the next position. */
  lemma AdvanceStep(L: nat, j: nat, hand: nat)
    requires j < L && hand >= 1
    ensures Advance(L, NextPos(L, j), hand - 1) == Advance(L, j, hand)
  {
  }

  /** The landing position of `sowing` is `stones` steps after the chosen pit. */
  lemma LandingAdvance(move: nat, stones: nat, L: nat)
    requires move < L
    ensures (move + stones % L) % L == Advance(L, move, stones)
  {
    AdvanceMod(L, move, stones);
    ModAdd(move, stones, L);
  }

  /** `(move + stones mod L) mod L == (move + stones) mod L`. */
  lemma ModAdd(move: nat, stones: nat, L: nat)
    requires move < L
    ensures (move + stones % L) % L == (move + stones) % L
  {
    var q, r := stones / L, stones % L;
    assert stones == q * L + r;
    if move + r < L {
      DivModUnique(move + r, L, 0, move + r);
      DivModUnique(move + stones, L, q, move + r);
    } else {
      DivModUnique(move + r, L, 1, move + r - L);
      assert (q + 1) * L == q * L + L;
      DivModUnique(move + stones, L, q + 1, move + r - L);
    }
  }

  /**
   * The closed form of `sowing` and `turn_taking` leaves the board the rules
   * leave when the stones are dropped one at a time.
   */
  lemma TurnTakeByStones(s: seq<nat>, m: nat, index: Side, move: nat)
    requires WellFormed(s, m) && move < m
    ensures TurnTake(s, m, index, move).0 == TurnByStones(s, m, index, move)
  {
    var (s1, last) := Sow(s, m, index, move);
    TurnByStonesLanding(s, m, index, move);
    FinishAtLanding(s1, m, index, last);
  }

  /** Stone by stone, the stones end where `sowing` puts them and `Finish` applies at its landing pit. */
  lemma TurnByStonesLanding(s: seq<nat>, m: nat, index: Side, move: nat)
    requires WellFormed(s, m) && move < m
    ensures var (s1, last) := Sow(s, m, index, move);
            TurnByStones(s, m, index, move) == Finish(s1, m, index, FrameCell(m, index, last))
  {
    TurnByStonesDealt(s, m, index, move);
    SowAdvance(s, m, index, move);
  }

  /** Stone by stone, the stones are dealt by their shares and `Finish` applies `s[pit]` steps on. */
  lemma TurnByStonesDealt(s: seq<nat>, m: nat, index: Side, move: nat)
    requires WellFormed(s, m) && move < m
    ensures var pit := PitCell(m, index, move);
            TurnByStones(s, m, index, move)
            == Finish(Dealt(s[pit := 0], m, index, move, s[pit]), m, index,
                      FrameCell(m, index, Advance(2 * m + 1, move, s[pit])))
  {
    var pit := PitCell(m, index, move);
    assert FrameCell(m, index, move) == pit;
    DropsDealt(s[pit := 0], m, index, move, s[pit]);
  }

  /** `Sow` with its landing position written as `s[pit]` steps round the frame. */
  lemma SowAdvance(s: seq<nat>, m: nat, index: Side, move: nat)
    requires WellFormed(s, m) && move < m
    ensures var pit := PitCell(m, index, move);
            Sow(s, m, index, move) == (Dealt(s[pit := 0], m, index, move, s[pit]), Advance(2 * m + 1, move, s[pit]))
  {
    LandingAdvance(move, s[PitCell(m, index, move)], 2 * m + 1);
  }

  /** `Finish` at the landing position is the capture rule of `turn_taking`. */
  lemma FinishAtLanding(s: seq<nat>, m: nat, index: Side, last: nat)
    requires WellFormed(s, m) && last < 2 * m + 1
    ensures Finish(s, m, index, FrameCell(m, index, last))
            == if last < m && Pits(s, m, index)[last] == 1 then Capture(s, m, index, last) else s
  {
    if last < m {
      assert FrameCell(m, index, last) == PitCell(m, index, last);
    }
  }

  // ---------------------------------------------------------------------------
  // The game object

  /** The `Mancala` object: its board list and whose turn is ready are updated in place. */
  class Board {
    const numPit: nat
    const stonesInPit: nat
    var readyPlayer: Side
    var state: seq<nat>

    ghost predicate Valid()
      reads this
    {
      WellFormed(state, numPit)
    }

    /** `Mancala(m, k, state)`: a non-empty `initial` list is used as the board. */
    constructor (m: nat, k: nat, initial: seq<nat>)
      requires m >= 1
      requires initial == [] || |initial| == 2 * m + 2
      ensures Valid()
      ensures numPit == m && stonesInPit == k && readyPlayer == 1
      ensures state == if initial == [] then InitState(m, k) else initial
    {
      numPit, stonesInPit, readyPlayer := m, k, 1;
      state := if initial == [] then InitState(m, k) else initial;
    }

    /** A deep copy of `other`. */
    constructor Copy(other: Board)
      requires other.Valid()
      ensures Valid()
      ensures numPit == other.numPit && stonesInPit == other.stonesInPit
      ensures readyPlayer == other.readyPlayer && state == other.state
    {
      numPit, stonesInPit := other.numPit, other.stonesInPit;
      readyPlayer, state := other.readyPlayer, other.state;
    }

    /** `reset`: player 1 to move, board back to the initial state. */
    method Reset()
      requires Valid()
      modifies this
      ensures Valid()
      ensures readyPlayer == 1 && state == InitState(numPit, stonesInPit)
    {
      readyPlayer := 1;
      state := InitState(numPit, stonesInPit);
    }

    /** `update_store`. */
    method UpdateStore(value: nat, index: Side)
      requires Valid()
      modifies this
      ensures Valid() && readyPlayer == old(readyPlayer)
      ensures state == SetStore(old(state), numPit, index, value)
    {
      if index == 1 {
        state := state[numPit := value];
      } else {
        state := state[|state| - 1 := value];
      }
    }

    /** `update_pit`. */
    method UpdatePit(value: nat, pitIndex: nat, index: Side)
      requires Valid() && pitIndex < numPit
      modifies this
      ensures Valid() && readyPlayer == old(readyPlayer)
      ensures state == SetPit(old(state), numPit, pitIndex, index, value)
    {
      if index == 1 {
        state := state[pitIndex := value];
      } else {
        state := state[pitIndex + numPit + 1 := value];
      }
    }

    /** `filter_actions`: the indices of the side's non-empty pits, in order. */
    method FilterActions(index: Side) returns (actions: seq<nat>)
      requires Valid()
      ensures actions == LegalActions(Pits(state, numPit, index))
    {
      var pits := Pits(state, numPit, index);
      actions := [];
      for i := 0 to |pits|
        invariant actions == LegalActions(pits[..i])
      {
        LegalActionsStep(pits, i);
        if pits[i] > 0 {
          actions := actions + [i];
        }
      }
      assert pits[..|pits|] == pits;
    }

    /** `check_illegal_move`: true exactly when `action` is a legal action of the side. */
    method CheckIllegalMove(index: Side, action: int) returns (legal: bool)
      requires Valid()
      ensures legal <==> action in LegalActions(Pits(state, numPit, index))
      ensures legal <==> 0 <= action < numPit && state[PitCell(numPit, index, action)] > 0
    {
      var actions := FilterActions(index);
      LegalActionsSpec(Pits(state, numPit, index));
      legal := action in actions;
    }

    /** `sowing`: computes the sown board and the landing position, leaving `state` as it is. */
    method Sowing(index: Side, move: nat) returns (newState: seq<nat>, lastPit: nat)
      requires Valid() && move < numPit
      ensures (newState, lastPit) == Sow(state, numPit, index, move)
    {
      var m, s := numPit, state;
      var curr := if index == 1 then s[..|s| - 1] else P2Pits(s, m) + [Store(s, m, 2)] + P1Pits(s, m);
      var newFrame;
      newFrame, lastPit := SowInFrame(curr, move);
      if index == 1 {
        newState := newFrame + [Store(s, m, 2)];
      } else {
        newState := newFrame[|newFrame| - m..] + [Store(s, m, 1)] + newFrame[..|newFrame| - m];
      }
      SowingSteps(s, m, index, move, curr, newFrame, lastPit, newState);
    }

    /** The capture branch of `turn_taking`: three updates through `update_store` and `update_pit`. */
    method Capturing(index: Side, lastPit: nat)
      requires Valid() && lastPit < numPit
      modifies this
      ensures Valid() && readyPlayer == old(readyPlayer)
      ensures state == Capture(old(state), numPit, index, lastPit)
    {
      ghost var sown := state;
      var oppLastPit := numPit - 1 - lastPit;
      UpdateStore(Store(state, numPit, index) + 1 + Pits(state, numPit, Opp(index))[oppLastPit], index);
      ghost var stored := state;
      UpdatePit(0, lastPit, index);
      ghost var emptied := state;
      UpdatePit(0, oppLastPit, Opp(index));
      assert stored == SetStore(sown, numPit, index, Store(sown, numPit, index) + 1 + Pits(sown, numPit, Opp(index))[oppLastPit]);
      assert emptied == SetPit(stored, numPit, lastPit, index, 0);
      assert state == SetPit(emptied, numPit, oppLastPit, Opp(index), 0);
      CaptureBySteps(sown, numPit, index, lastPit);
    }

    /** `turn_taking`: sows, then applies the extra-turn and capture rules to `state`. */
    method TurnTaking(index: Side, move: nat) returns (again: bool)
      requires Valid() && move < numPit
      modifies this
      ensures Valid() && readyPlayer == old(readyPlayer)
      ensures (state, again) == TurnTake(old(state), numPit, index, move)
    {
      ghost var before := state;
      var lastPit;
      state, lastPit := Sowing(index, move);
      assert (state, lastPit) == Sow(before, numPit, index, move);
      if lastPit == numPit {
        return true;
      }
      if lastPit < numPit && Pits(state, numPit, index)[lastPit] == 1 {
        Capturing(index, lastPit);
      }
      return false;
    }
  }

  /**
   * The cells `sowing` gives an extra stone, as its two loops pick them: the
   * cells after `move` up to `last`, wrapping around when `last < move`.
   */
  predicate Arc(move: nat, last: nat, j: nat)
  {
    if last > move then move < j <= last
    else if last < move then move < j || j <= last
    else false
  }

  /** Those cells are exactly the `rem` cells at forward distance at most `rem`. */
  lemma ArcIsDistance(L: nat, move: nat, rem: nat, j: nat)
    requires move < L && rem < L && j < L
    ensures Arc(move, (move + rem) % L, j) <==> Dist(L, move, j) <= rem
  {
    ModOnce(move + rem, L);
  }

  /**
   * The steps of `sowing`: take the rotated view, sow it, put it back.  They
   * compute `Sow`.
   */
  lemma SowingSteps(s: seq<nat>, m: nat, index: Side, move: nat,
                    curr: seq<nat>, newFrame: seq<nat>, lastPit: nat, newState: seq<nat>)
    requires WellFormed(s, m) && move < m
    requires curr == if index == 1 then s[..|s| - 1] else P2Pits(s, m) + [Store(s, m, 2)] + P1Pits(s, m)
    requires newFrame == SowFrame(curr, move) && lastPit == (move + curr[move] % |curr|) % |curr|
    requires newState == if index == 1 then newFrame + [Store(s, m, 2)]
                         else newFrame[|newFrame| - m..] + [Store(s, m, 1)] + newFrame[..|newFrame| - m]
    ensures (newState, lastPit) == Sow(s, m, index, move)
  {
    assert curr == Frame(s, m, index);
    assert newState == Unframe(newFrame, s, m, index);
    SowThroughFrame(s, m, index, move, newFrame, lastPit);
  }

  /** `Sow` is the frame sown by `SowInFrame`, put back in place. */
  lemma SowThroughFrame(s: seq<nat>, m: nat, index: Side, move: nat, sown: seq<nat>, last: nat)
    requires WellFormed(s, m) && move < m
    requires var c := Frame(s, m, index);
             sown == SowFrame(c, move) && last == (move + c[move] % |c|) % |c|
    ensures Sow(s, m, index, move) == (Unframe(sown, s, m, index), last)
  {
    SowByFrame(s, m, index, move);
    assert Frame(s, m, index)[move] == s[PitCell(m, index, move)];
  }

  /**
   * The loop part of `sowing`, on a frame: empty the chosen pit, add the
   * whole laps to every cell, then one more stone to each cell of the arc.
   */
  method SowInFrame(curr: seq<nat>, move: nat) returns (newFrame: seq<nat>, lastPit: nat)
    requires move < |curr|
    ensures newFrame == SowFrame(curr, move)
    ensures lastPit == (move + curr[move] % |curr|) % |curr|
  {
    var currLen := |curr|;
    var stones := curr[move];
    var perAdd := stones / currLen;
    var disPit := stones % currLen;
    var emptied := curr[move := 0];
    lastPit := (move + disPit) % currLen;
    newFrame := seq(currLen, i requires 0 <= i < currLen => emptied[i] + perAdd);
    ghost var base := newFrame;
    if lastPit > move {
      for i := 0 to currLen
        invariant |newFrame| == currLen
        invariant forall j :: 0 <= j < currLen ==>
                    newFrame[j] == base[j] + (if j < i && Arc(move, lastPit, j) then 1 else 0)
      {
        if move < i <= lastPit {
          newFrame := newFrame[i := newFrame[i] + 1];
        }
      }
    } else if lastPit < move {
      for i := 0 to currLen
        invariant |newFrame| == currLen
        invariant forall j :: 0 <= j < currLen ==>
                    newFrame[j] == base[j] + (if j < i && Arc(move, lastPit, j) then 1 else 0)
      {
        if move < i || i <= lastPit {
          newFrame := newFrame[i := newFrame[i] + 1];
        }
      }
    }
    SowFrameByArc(curr, move, newFrame);
  }

  /** A frame built as `sowing` builds it is the sown frame. */
  lemma SowFrameByArc(c: seq<nat>, move: nat, r: seq<nat>)
    requires move < |c| == |r|
    requires var L := |c|;
             forall j :: 0 <= j < L ==>
               r[j] == c[move := 0][j] + c[move] / L + (if Arc(move, (move + c[move] % L) % L, j) then 1 else 0)
    ensures r == SowFrame(c, move)
  {
    var L := |c|;
    forall j | 0 <= j < L ensures r[j] == SowFrame(c, move)[j] {
      ArcIsDistance(L, move, c[move] % L, j);
    }
  }
}
