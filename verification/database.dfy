/**
 * The ORM ledger of database.py as an in-memory store: the gamblers table,
 * the bets table, the gambler_bet association table keyed by
 * (gambler id, bet id) and the weekly_statistics table, with the operations
 * the bot calls on them. Raised exceptions become Err values; the clock is
 * the parameter now and the random id is an arbitrary free id in range.
 */
module Database {
  import opened Wrappers
  import opened Ledger
  import Sequences

  // The range random.randint draws bet ids from (database.py:101).
  const MinBetId := 10_000_000
  const MaxBetId := 99_999_999

  /** The exceptions the operations raise. */
  datatype Error =
    | AlreadyRegistered
    | NoSuchGambler
    | NoSuchBet
    | TooLate
    | SameLabel
    | AlreadyResulted
    | TooEarly
    | InvalidResult

  /** Which of the three branches of link_gambler_to_bet wrote the wager table. */
  datatype LinkOutcome = Withdrawn | Changed | Placed

  /** One line of the settlement report: who, whether the pick won, the pick, and the payoff before and after. */
  datatype SettlementLine = SettlementLine(gamblerId: int, name: string, won: bool, pick: int,
                                           oldPayoff: real, newPayoff: real)

  /** The label a pick is announced with; a missing pick and any code other than 1, 2, 0 read "kararsiz". */
  function PickLabel(b: Bet, pick: Option<int>): string
  {
    if pick == Some(Home) then b.homeTeam
    else if pick == Some(Away) then b.awayTeam
    else if pick == Some(Draw) then "beraberlik"
    else "kararsiz"
  }

  /** A wager is refused only when the clock is strictly past the deadline. */
  predicate TooLateFor(now: int, b: Bet) { now > b.deadline }

  function GamblerId(g: Gambler): int { g.id }
  function BetId(b: Bet): int { b.id }
  function RowGambler(r: WeeklyRow): int { r.gamblerId }
  function LineGambler(l: SettlementLine): int { l.gamblerId }
  function ByPayoffDescending(g: Gambler): real { -g.payoff }
  function ByDeadline(b: Bet): real { b.deadline as real }
  function RowByPayoffDescending(r: WeeklyRow): real { -r.payoff }

  /** The weekly rows that survive the deletion of week's rows. */
  function OtherWeeks(rows: seq<WeeklyRow>, week: int): (r: seq<WeeklyRow>)
    ensures forall x :: x in r ==> x in rows && x.week != week
    ensures forall x :: x in rows && x.week != week ==> x in r
  {
    Sequences.Filter(rows, (x: WeeklyRow) => x.week != week)
  }

  /** A settlement line describes gambler l.gamblerId's wager on bet bid and their payoff before and after settling it. */
  predicate LineFits(l: SettlementLine, before: map<int, Gambler>, wagers: Wagers, bid: int, b: Bet)
  {
    && (l.gamblerId, bid) in wagers && l.gamblerId in before
    && l.pick == wagers[(l.gamblerId, bid)]
    && l.name == before[l.gamblerId].name
    && l.won == (b.winningOdd == Some(l.pick))
    && l.oldPayoff == before[l.gamblerId].payoff
    && l.newPayoff == Settled(before[l.gamblerId], l.pick, b).payoff
  }

  /**
   * The freshly written rows of one week: one row per gambler, each the
   * gambler's weekly standing, in non-increasing payoff order, ranked 1..N.
   */
  ghost predicate RankedWeek(rows: seq<WeeklyRow>, gamblers: map<int, Gambler>, wagers: Wagers,
                             bets: map<int, Bet>, week: int)
  {
    && |rows| == |gamblers|
    && Sequences.DistinctBy(rows, RowGambler)
    && (forall g :: g in gamblers ==> exists i :: 0 <= i < |rows| && rows[i].gamblerId == g)
    && (forall i :: 0 <= i < |rows| ==>
          rows[i].gamblerId in gamblers
          && rows[i] == Standing(gamblers[rows[i].gamblerId], wagers, bets, week).(rank := Some(i + 1)))
    && (forall i, j :: 0 <= i < j < |rows| ==> rows[i].payoff >= rows[j].payoff)
  }

  /** The ids of the random range that bets already use. */
  function IdsInRange(bets: map<int, Bet>): set<int>
  {
    set id | id in bets && MinBetId <= id <= MaxBetId
  }

  /** Fewer taken ids than the range holds leaves a free id in the range. */
  lemma {:induction false} FreeIdExists(taken: set<int>, lo: int, hi: int)
    requires |taken| < hi - lo + 1
    ensures exists id :: lo <= id <= hi && id !in taken
    decreases hi - lo
  {
    if hi in taken {
      FreeIdExists(taken - {hi}, lo, hi - 1);
      var id :| lo <= id <= hi - 1 && id !in taken - {hi};
      assert lo <= id <= hi && id !in taken;
    } else {
      assert lo <= hi && hi !in taken;
    }
  }

  /** The from-scratch tally of gambler gid's wagers on the bets ids, the four counters held in s. */
  method TallyWagers(wagers: Wagers, bets: map<int, Bet>, gid: int, ids: set<int>) returns (s: Stats)
    requires forall b :: b in ids ==> (gid, b) in wagers && b in bets
    ensures s == Tally(wagers, bets, gid, ids)
  {
    s := NoStats;
    var todo := ids;
    ghost var seen: set<int> := {};
    while todo != {}
      invariant seen <= ids && todo <= ids && seen !! todo
      invariant forall b :: b in ids ==> b in seen || b in todo
      invariant s == Tally(wagers, bets, gid, seen)
      decreases todo
    {
      Sequences.HasElement(todo);
      var bid :| bid in todo;
      var bet, pick := bets[bid], wagers[(gid, bid)];
      TallyAdd(wagers, bets, gid, seen, bid);
      if bet.winningOdd.Some? {
        if pick == bet.winningOdd.value {
          s := s.(correct := s.correct + 1, payoff := s.payoff + OddFor(bet, pick));
        } else {
          s := s.(wrong := s.wrong + 1);
        }
        s := s.(total := s.total + 1, payoff := s.payoff - 1.0);
      }
      todo := todo - {bid};
      seen := seen + {bid};
    }
    assert forall b :: b in ids ==> b in seen;
    assert seen == ids;
  }

  /** The counter updates of one settled wager: the odd of the result when the pick matches, then the fee. */
  method Credit(gambler: Gambler, pick: int, bet: Bet) returns (g: Gambler)
    ensures g == Settled(gambler, pick, bet)
  {
    g := gambler;
    var result := bet.winningOdd;
    if result == Some(pick) {
      g := g.(correct := g.correct + 1, payoff := g.payoff + OddFor(bet, result.value));
    } else {
      g := g.(wrong := g.wrong + 1);
    }
    g := g.(payoff := g.payoff - 1.0, total := g.total + 1);
  }

  /**
   * The settlement loop over the wagers on bet bid: each wagering gambler's
   * record is credited in turn and one report line is written per gambler.
   */
  method SettleWagers(gamblers: map<int, Gambler>, wagers: Wagers, bid: int, bet: Bet)
    returns (table: map<int, Gambler>, lines: seq<SettlementLine>)
    requires forall g :: (g, bid) in wagers ==> g in gamblers
    ensures table == SettleAll(gamblers, wagers, bid, bet)
    ensures |lines| == |Wagerers(wagers, bid)|
    ensures Sequences.DistinctBy(lines, LineGambler)
    ensures forall l :: l in lines ==> LineFits(l, gamblers, wagers, bid, bet)
  {
    var result := bet.winningOdd;
    var wagerers := Wagerers(wagers, bid);
    var todo := wagerers;
    table := gamblers;
    ghost var done: set<int> := {};
    lines := [];
    while todo != {}
      invariant todo <= wagerers && done <= wagerers && done !! todo
      invariant forall g :: g in wagerers ==> g in todo || g in done
      invariant forall g :: g in table <==> g in gamblers
      invariant forall g :: g in done ==> table[g] == Settled(gamblers[g], wagers[(g, bid)], bet)
      invariant forall g :: g in table && g !in done ==> table[g] == gamblers[g]
      invariant |lines| == |done|
      invariant Sequences.DistinctBy(lines, LineGambler)
      invariant forall l :: l in lines ==> l.gamblerId in done && LineFits(l, gamblers, wagers, bid, bet)
      decreases todo
    {
      Sequences.HasElement(todo);
      var gid :| gid in todo;
      var pick := wagers[(gid, bid)];
      var oldPayoff := table[gid].payoff;
      var won := result == Some(pick);
      var g := Credit(table[gid], pick, bet);
      table := table[gid := g];
      var line := SettlementLine(gid, g.name, won, pick, oldPayoff, g.payoff);
      Sequences.AppendKeepsDistinct(lines, line, LineGambler);
      lines := lines + [line];
      todo := todo - {gid};
      done := done + {gid};
    }
    assert forall g :: g in wagerers ==> g in done;
    assert done == wagerers;
    SettledFrom(gamblers, wagers, bid, bet, table);
  }

  /** The recompute loop: every gambler's counters are replaced by the tally of their wagers. */
  method RecomputeAll(gamblers: map<int, Gambler>, wagers: Wagers, bets: map<int, Bet>)
    returns (table: map<int, Gambler>)
    requires forall p :: p in wagers ==> p.1 in bets
    ensures table == Recomputed(gamblers, wagers, bets)
  {
    table := gamblers;
    var todo := gamblers.Keys;
    ghost var done: set<int> := {};
    while todo != {}
      invariant done !! todo && todo <= gamblers.Keys && done <= gamblers.Keys
      invariant forall g :: g in gamblers ==> g in done || g in todo
      invariant forall g :: g in table <==> g in gamblers
      invariant forall g :: g in done ==> table[g] == WithStats(gamblers[g], GlobalStats(wagers, bets, g))
      invariant forall g :: g in todo ==> table[g] == gamblers[g]
      decreases todo
    {
      Sequences.HasElement(todo);
      var gid :| gid in todo;
      var s := TallyWagers(wagers, bets, gid, BetIdsOf(wagers, gid));
      table := table[gid := WithStats(table[gid], s)];
      todo := todo - {gid};
      done := done + {gid};
    }
    RecomputedFrom(gamblers, wagers, bets, table);
  }

  /** Every record of a table, once each, in no particular order (the query's .all()). */
  method Listed<T>(table: map<int, T>, id: T -> int) returns (out: seq<T>)
    requires forall k :: k in table ==> id(table[k]) == k
    ensures |out| == |table|
    ensures Sequences.DistinctBy(out, id)
    ensures forall i :: 0 <= i < |out| ==> id(out[i]) in table && table[id(out[i])] == out[i]
    ensures forall k :: k in table ==> exists i :: 0 <= i < |out| && out[i] == table[k]
  {
    out := [];
    var todo := table.Keys;
    ghost var done: set<int> := {};
    ghost var pos: map<int, int> := map[];
    while todo != {}
      invariant done !! todo && todo <= table.Keys && done <= table.Keys
      invariant forall k :: k in table ==> k in done || k in todo
      invariant |out| == |done|
      invariant Sequences.DistinctBy(out, id)
      invariant forall i :: 0 <= i < |out| ==> id(out[i]) in done && table[id(out[i])] == out[i]
      invariant forall k :: k in done ==> k in pos && 0 <= pos[k] < |out| && out[pos[k]] == table[k]
      decreases todo
    {
      Sequences.HasElement(todo);
      var k :| k in todo;
      Sequences.AppendKeepsDistinct(out, table[k], id);
      pos := pos[k := |out|];
      out := out + [table[k]];
      todo := todo - {k};
      done := done + {k};
    }
    assert forall k :: k in table ==> k in done;
    assert done == table.Keys;
    forall k | k in table
      ensures exists i :: 0 <= i < |out| && out[i] == table[k]
    {
      assert out[pos[k]] == table[k];
    }
  }

  /** One gambler's unranked row for the week, from the tally of that week's wagers. */
  method StandingRow(g: Gambler, wagers: Wagers, bets: map<int, Bet>, week: int) returns (row: WeeklyRow)
    ensures row == Standing(g, wagers, bets, week)
  {
    var s := TallyWagers(wagers, bets, g.id, WeekBetIdsOf(wagers, bets, g.id, week));
    row := WeeklyRow(week, g.id, g.name, None, s.payoff, s.correct, s.wrong, s.total);
  }

  /** The unranked rows of the listed gamblers, in their order. */
  method StandingRows(all: seq<Gambler>, wagers: Wagers, bets: map<int, Bet>, week: int) returns (rows: seq<WeeklyRow>)
    ensures |rows| == |all|
    ensures forall k :: 0 <= k < |rows| ==> rows[k] == Standing(all[k], wagers, bets, week)
  {
    rows := [];
    var i := 0;
    while i < |all|
      invariant 0 <= i <= |all| && |rows| == i
      invariant forall k :: 0 <= k < i ==> rows[k] == Standing(all[k], wagers, bets, week)
    {
      var row := StandingRow(all[i], wagers, bets, week);
      rows := rows + [row];
      i := i + 1;
    }
  }

  /** The unranked rows of one week, one per gambler, in no particular order. */
  method WeekRows(gamblers: map<int, Gambler>, wagers: Wagers, bets: map<int, Bet>, week: int)
    returns (rows: seq<WeeklyRow>)
    requires forall g :: g in gamblers ==> gamblers[g].id == g
    ensures |rows| == |gamblers|
    ensures Sequences.DistinctBy(rows, RowGambler)
    ensures forall i :: 0 <= i < |rows| ==>
              rows[i].gamblerId in gamblers && rows[i] == Standing(gamblers[rows[i].gamblerId], wagers, bets, week)
    ensures forall g :: g in gamblers ==> exists i :: 0 <= i < |rows| && rows[i].gamblerId == g
  {
    var all := Listed(gamblers, GamblerId);
    rows := StandingRows(all, wagers, bets, week);
    StandingsKeepIds(all, rows, wagers, bets, week);
    RowsFollowListing(gamblers, all, rows);
    RowsAreStandings(gamblers, all, rows, wagers, bets, week);
  }

  /** A standing computed from a listed gambler is the standing of the table's gambler under that id. */
  lemma RowsAreStandings(gamblers: map<int, Gambler>, all: seq<Gambler>, rows: seq<WeeklyRow>,
                         wagers: Wagers, bets: map<int, Bet>, week: int)
    requires forall i :: 0 <= i < |all| ==> GamblerId(all[i]) in gamblers && gamblers[GamblerId(all[i])] == all[i]
    requires |rows| == |all| && forall k :: 0 <= k < |rows| ==> rows[k] == Standing(all[k], wagers, bets, week)
    requires forall k :: 0 <= k < |rows| ==> rows[k].gamblerId == all[k].id
    ensures forall i :: 0 <= i < |rows| ==>
              rows[i].gamblerId in gamblers && rows[i] == Standing(gamblers[rows[i].gamblerId], wagers, bets, week)
  {
    forall i | 0 <= i < |rows|
      ensures rows[i].gamblerId in gamblers && rows[i] == Standing(gamblers[rows[i].gamblerId], wagers, bets, week)
    {
      assert gamblers[GamblerId(all[i])] == all[i];
    }
  }

  /** Each standing row belongs to the gambler it was computed for. */
  lemma StandingsKeepIds(all: seq<Gambler>, rows: seq<WeeklyRow>, wagers: Wagers, bets: map<int, Bet>, week: int)
    requires |rows| == |all| && forall k :: 0 <= k < |rows| ==> rows[k] == Standing(all[k], wagers, bets, week)
    ensures forall k :: 0 <= k < |rows| ==> rows[k].gamblerId == all[k].id
  {
  }

  /** Rows that follow a listing of the gamblers table one to one have distinct gamblers and cover the table. */
  lemma RowsFollowListing(gamblers: map<int, Gambler>, all: seq<Gambler>, rows: seq<WeeklyRow>)
    requires Sequences.DistinctBy(all, GamblerId)
    requires forall k :: k in gamblers ==> exists i :: 0 <= i < |all| && all[i] == gamblers[k]
    requires forall k :: k in gamblers ==> gamblers[k].id == k
    requires |rows| == |all| && forall k :: 0 <= k < |rows| ==> rows[k].gamblerId == all[k].id
    ensures Sequences.DistinctBy(rows, RowGambler)
    ensures forall g :: g in gamblers ==> exists i :: 0 <= i < |rows| && rows[i].gamblerId == g
  {
    forall i, j | 0 <= i < j < |rows|
      ensures RowGambler(rows[i]) != RowGambler(rows[j])
    {
      assert GamblerId(all[i]) != GamblerId(all[j]);
    }
    forall g | g in gamblers
      ensures exists k :: 0 <= k < |rows| && rows[k].gamblerId == g
    {
      var k :| 0 <= k < |all| && all[k] == gamblers[g];
      assert rows[k].gamblerId == g;
    }
  }

  /** The rows with their rank cleared, as they were before the ranking pass. */
  function Unranked(rows: seq<WeeklyRow>): (r: seq<WeeklyRow>)
    ensures |r| == |rows|
    ensures forall i :: 0 <= i < |rows| ==> r[i] == rows[i].(rank := None)
  {
    seq(|rows|, i requires 0 <= i < |rows| => rows[i].(rank := None))
  }

  /** Numbers the rows 1..N in their order (the enumerate loop). */
  method NumberRows(sorted: seq<WeeklyRow>) returns (ranked: seq<WeeklyRow>)
    ensures |ranked| == |sorted|
    ensures forall k :: 0 <= k < |ranked| ==> ranked[k] == sorted[k].(rank := Some(k + 1))
  {
    ranked := sorted;
    var i := 0;
    while i < |ranked|
      invariant 0 <= i <= |ranked| == |sorted|
      invariant forall k :: 0 <= k < i ==> ranked[k] == sorted[k].(rank := Some(k + 1))
      invariant forall k :: i <= k < |ranked| ==> ranked[k] == sorted[k]
    {
      ranked := ranked[i := ranked[i].(rank := Some(i + 1))];
      i := i + 1;
    }
  }

  /** The ranking pass: rows sorted by payoff, highest first, and numbered 1..N in that order. */
  method RankRows(rows: seq<WeeklyRow>) returns (ranked: seq<WeeklyRow>)
    requires Sequences.DistinctBy(rows, RowGambler)
    requires forall r :: r in rows ==> r.rank.None?
    ensures |ranked| == |rows|
    ensures Sequences.DistinctBy(ranked, RowGambler)
    ensures forall i :: 0 <= i < |ranked| ==> ranked[i].rank == Some(i + 1)
    ensures forall i, j :: 0 <= i < j < |ranked| ==> ranked[i].payoff >= ranked[j].payoff
    ensures forall r :: r in Unranked(ranked) ==> r in rows
    ensures forall r :: r in rows ==> r in Unranked(ranked)
  {
    var sorted := Sequences.SortBy(rows, RowByPayoffDescending);
    Sequences.SortKeepsDistinct(rows, RowByPayoffDescending, RowGambler);
    ranked := NumberRows(sorted);
    NumberingKeepsOrder(sorted, ranked);
    NumberingKeepsIds(sorted, ranked);
    NumberingIsUndone(sorted, ranked);
  }

  /** Numbering changes no payoff, so a list sorted by payoff, highest first, stays in that order. */
  lemma NumberingKeepsOrder(sorted: seq<WeeklyRow>, ranked: seq<WeeklyRow>)
    requires Sequences.SortedBy(sorted, RowByPayoffDescending)
    requires |ranked| == |sorted| && forall k :: 0 <= k < |ranked| ==> ranked[k] == sorted[k].(rank := Some(k + 1))
    ensures forall i, j :: 0 <= i < j < |ranked| ==> ranked[i].payoff >= ranked[j].payoff
  {
    forall i, j | 0 <= i < j < |ranked|
      ensures ranked[i].payoff >= ranked[j].payoff
    {
      assert RowByPayoffDescending(sorted[i]) <= RowByPayoffDescending(sorted[j]);
    }
  }

  /** Numbering changes no gambler id, so distinct ids stay distinct. */
  lemma NumberingKeepsIds(sorted: seq<WeeklyRow>, ranked: seq<WeeklyRow>)
    requires Sequences.DistinctBy(sorted, RowGambler)
    requires |ranked| == |sorted| && forall k :: 0 <= k < |ranked| ==> ranked[k] == sorted[k].(rank := Some(k + 1))
    ensures Sequences.DistinctBy(ranked, RowGambler)
  {
    forall i, j | 0 <= i < j < |ranked|
      ensures RowGambler(ranked[i]) != RowGambler(ranked[j])
    {
      assert RowGambler(sorted[i]) != RowGambler(sorted[j]);
    }
  }

  /** Clearing the ranks of numbered unranked rows gives the rows back. */
  lemma NumberingIsUndone(sorted: seq<WeeklyRow>, ranked: seq<WeeklyRow>)
    requires forall r :: r in sorted ==> r.rank.None?
    requires |ranked| == |sorted| && forall k :: 0 <= k < |ranked| ==> ranked[k] == sorted[k].(rank := Some(k + 1))
    ensures Unranked(ranked) == sorted
  {
    forall k | 0 <= k < |sorted|
      ensures Unranked(ranked)[k] == sorted[k]
    {
      assert sorted[k] in sorted;
    }
  }

  /** The rows one week's snapshot writes: one unranked row per gambler, then the ranking pass. */
  method WeekSnapshot(gamblers: map<int, Gambler>, wagers: Wagers, bets: map<int, Bet>, week: int)
    returns (ranked: seq<WeeklyRow>)
    requires forall g :: g in gamblers ==> gamblers[g].id == g
    ensures RankedWeek(ranked, gamblers, wagers, bets, week)
  {
    var rows := WeekRows(gamblers, wagers, bets, week);
    ranked := RankRows(rows);
    forall k | 0 <= k < |ranked|
      ensures ranked[k].gamblerId in gamblers
      ensures ranked[k] == Standing(gamblers[ranked[k].gamblerId], wagers, bets, week).(rank := Some(k + 1))
    {
      assert Unranked(ranked)[k] in rows;
    }
    forall g | g in gamblers
      ensures exists k :: 0 <= k < |ranked| && ranked[k].gamblerId == g
    {
      var j :| 0 <= j < |rows| && rows[j].gamblerId == g;
      assert rows[j] in Unranked(ranked);
      var k :| 0 <= k < |ranked| && Unranked(ranked)[k] == rows[j];
      assert ranked[k].gamblerId == g;
    }
  }

  class Store {
    var gamblers: map<int, Gambler>
    var bets: map<int, Bet>
    var wagers: Wagers
    var weekly: seq<WeeklyRow>

    /** Primary keys match the records, counters balance, and every wager names an existing gambler and bet. */
    ghost predicate Valid()
      reads this
    {
      && (forall g :: g in gamblers ==> gamblers[g].id == g && Balanced(gamblers[g]))
      && (forall b :: b in bets ==> bets[b].id == b)
      && (forall p :: p in wagers ==> p.0 in gamblers && p.1 in bets)
    }

    constructor ()
      ensures Valid()
      ensures gamblers == map[] && bets == map[] && wagers == map[] && weekly == []
    {
      gamblers := map[];
      bets := map[];
      wagers := map[];
      weekly := [];
    }

    /** Registers a gambler with zeroed counters, refusing an id that is already registered. */
    method AddGambler(id: int, name: string) returns (r: Result<Gambler, Error>)
      requires Valid()
      modifies this
      ensures Valid()
      ensures bets == old(bets) && wagers == old(wagers) && weekly == old(weekly)
      ensures id in old(gamblers) ==> r == Err(AlreadyRegistered) && gamblers == old(gamblers)
      ensures id !in old(gamblers) ==>
                r == Ok(Gambler(id, name, 0, 0, 0, 0.0)) && gamblers == old(gamblers)[id := r.value]
    {
      if id in gamblers {
        return Err(AlreadyRegistered);
      }
      var g := Gambler(id, name, 0, 0, 0, 0.0);
      gamblers := gamblers[id := g];
      return Ok(g);
    }

    /** Picks an id in the random range that no bet has (the retry loop, as one arbitrary choice). */
    method GenerateUniqueBetId() returns (id: int)
      requires |IdsInRange(bets)| < MaxBetId - MinBetId + 1
      ensures MinBetId <= id <= MaxBetId
      ensures id !in bets
    {
      FreeIdExists(IdsInRange(bets), MinBetId, MaxBetId);
      id :| MinBetId <= id <= MaxBetId && id !in IdsInRange(bets);
    }

    /**
     * Inserts a bet. An id of 0 (no id) is replaced by a generated one; an id
     * that is already taken makes the insert fail and roll back (None).
     */
    method AddBet(draft: Bet) returns (r: Option<int>)
      requires Valid()
      requires draft.id == 0 ==> |IdsInRange(bets)| < MaxBetId - MinBetId + 1
      modifies this
      ensures Valid()
      ensures gamblers == old(gamblers) && wagers == old(wagers) && weekly == old(weekly)
      ensures draft.id != 0 ==> (r.Some? <==> draft.id !in old(bets))
      ensures draft.id != 0 && r.Some? ==> r.value == draft.id
      ensures draft.id == 0 ==> r.Some? && MinBetId <= r.value <= MaxBetId
      ensures r.None? ==> bets == old(bets)
      ensures r.Some? ==> r.value !in old(bets) && bets == old(bets)[r.value := draft.(id := r.value)]
    {
      var id := draft.id;
      if id == 0 {
        id := GenerateUniqueBetId();
      }
      if id in bets {
        return None;
      }
      bets := bets[id := draft.(id := id)];
      return Some(id);
    }

    /**
     * Places, changes or withdraws gambler gid's pick on bet bid. The checks
     * run in order: unknown gambler, unknown bet, the deadline (unless
     * skipTimecheck), then the labels of the stored and the new pick must
     * differ. Pick 3 deletes the row; any other pick overwrites or inserts it.
     */
    method LinkGamblerToBet(gid: int, bid: int, pick: int, skipTimecheck: bool, now: int)
      returns (r: Result<LinkOutcome, Error>)
      requires Valid()
      modifies this
      ensures Valid()
      ensures gamblers == old(gamblers) && bets == old(bets) && weekly == old(weekly)
      ensures gid !in gamblers ==> r == Err(NoSuchGambler)
      ensures gid in gamblers && bid !in bets ==> r == Err(NoSuchBet)
      ensures gid in gamblers && bid in bets && !skipTimecheck && TooLateFor(now, bets[bid]) ==> r == Err(TooLate)
      ensures gid in gamblers && bid in bets && (skipTimecheck || !TooLateFor(now, bets[bid])) ==>
                (r == Err(SameLabel) <==>
                 PickLabel(bets[bid], StoredPick(old(wagers), gid, bid)) == PickLabel(bets[bid], Some(pick)))
      ensures (&& gid in gamblers && bid in bets && (skipTimecheck || !TooLateFor(now, bets[bid]))
               && PickLabel(bets[bid], StoredPick(old(wagers), gid, bid)) != PickLabel(bets[bid], Some(pick)))
              ==> r.Ok?
      ensures r.Err? ==> wagers == old(wagers)
      ensures r.Ok? && pick == Withdraw ==>
                r.value == Withdrawn && (gid, bid) in old(wagers) && wagers == old(wagers) - {(gid, bid)}
      ensures r.Ok? && pick != Withdraw ==>
                wagers == old(wagers)[(gid, bid) := pick]
                && r.value == (if (gid, bid) in old(wagers) then Changed else Placed)
    {
      if gid !in gamblers {
        return Err(NoSuchGambler);
      }
      if bid !in bets {
        return Err(NoSuchBet);
      }
      var bet := bets[bid];
      if !skipTimecheck && TooLateFor(now, bet) {
        return Err(TooLate);
      }
      var stored := StoredPick(wagers, gid, bid);
      if PickLabel(bet, stored) == PickLabel(bet, Some(pick)) {
        return Err(SameLabel);
      }
      if pick == Withdraw {
        wagers := wagers - {(gid, bid)};
        return Ok(Withdrawn);
      }
      wagers := wagers[(gid, bid) := pick];
      if stored.Some? {
        return Ok(Changed);
      }
      return Ok(Placed);
    }

    /**
     * Declares the result of bet bid. The checks run in order: unknown bet,
     * already resulted (a truthy result, so a draw does not block), the match
     * not yet over, and a result outside 1, 0, 2. Only that bet's result changes.
     */
    method SetBetResult(bid: int, result: int, now: int) returns (r: Result<Bet, Error>)
      requires Valid()
      modifies this
      ensures Valid()
      ensures gamblers == old(gamblers) && wagers == old(wagers) && weekly == old(weekly)
      ensures bid !in old(bets) ==> r == Err(NoSuchBet)
      ensures bid in old(bets) && Truthy(old(bets)[bid].winningOdd) ==> r == Err(AlreadyResulted)
      ensures bid in old(bets) && !Truthy(old(bets)[bid].winningOdd) && old(bets)[bid].deadline > now ==>
                r == Err(TooEarly)
      ensures bid in old(bets) && !Truthy(old(bets)[bid].winningOdd) && old(bets)[bid].deadline <= now ==>
                (r.Ok? <==> IsOutcome(result)) && (r.Err? ==> r == Err(InvalidResult))
      ensures r.Err? ==> bets == old(bets)
      ensures r.Ok? ==> bid in old(bets) && r.value == old(bets)[bid].(winningOdd := Some(result))
                        && bets == old(bets)[bid := r.value]
    {
      if bid !in bets {
        return Err(NoSuchBet);
      }
      var bet := bets[bid];
      if Truthy(bet.winningOdd) {
        return Err(AlreadyResulted);
      }
      if bet.deadline > now {
        return Err(TooEarly);
      }
      if !IsOutcome(result) {
        return Err(InvalidResult);
      }
      bet := bet.(winningOdd := Some(result));
      bets := bets[bid := bet];
      return Ok(bet);
    }

    /**
     * Incremental settlement of bet bid: every gambler holding a wager on it is
     * credited once with the stored result, and a report line is produced for
     * each. With no wagers on the bet nothing changes and there is no report.
     */
    method UpdateGamblersOnBetResult(bid: int) returns (r: Result<Option<seq<SettlementLine>>, Error>)
      requires Valid()
      modifies this
      ensures Valid()
      ensures bets == old(bets) && wagers == old(wagers) && weekly == old(weekly)
      ensures bid !in bets ==> r == Err(NoSuchBet) && gamblers == old(gamblers)
      ensures bid in bets && Wagerers(wagers, bid) == {} ==> r == Ok(None) && gamblers == old(gamblers)
      ensures bid in bets && Wagerers(wagers, bid) != {} ==>
                && gamblers == SettleAll(old(gamblers), wagers, bid, bets[bid])
                && r.Ok? && r.value.Some?
                && |r.value.value| == |Wagerers(wagers, bid)|
                && Sequences.DistinctBy(r.value.value, LineGambler)
                && (forall l :: l in r.value.value ==>
                      LineFits(l, old(gamblers), wagers, bid, bets[bid]))
    {
      if bid !in bets {
        return Err(NoSuchBet);
      }
      if Wagerers(wagers, bid) == {} {
        return Ok(None);
      }
      var table, lines := SettleWagers(gamblers, wagers, bid, bets[bid]);
      gamblers := table;
      return Ok(Some(lines));
    }

    /** The full recompute: every gambler's counters are rebuilt from their wagers on resolved bets. */
    method SetAllGamblersGlobalStats()
      requires Valid()
      modifies this
      ensures Valid()
      ensures bets == old(bets) && wagers == old(wagers) && weekly == old(weekly)
      ensures gamblers == Recomputed(old(gamblers), wagers, bets)
    {
      gamblers := RecomputeAll(gamblers, wagers, bets);
    }

    /**
     * The weekly snapshot: week's rows are deleted, one row per gambler is
     * written from that week's resolved bets, and the new rows are ranked
     * 1..N in non-increasing payoff order.
     */
    method UpdateWeeklyStats(week: int)
      requires Valid()
      modifies this
      ensures Valid()
      ensures gamblers == old(gamblers) && bets == old(bets) && wagers == old(wagers)
      ensures var kept := OtherWeeks(old(weekly), week);
              |weekly| == |kept| + |gamblers| && weekly[..|kept|] == kept
              && RankedWeek(weekly[|kept|..], gamblers, wagers, bets, week)
    {
      var kept := OtherWeeks(weekly, week);
      var ranked := WeekSnapshot(gamblers, wagers, bets, week);
      weekly := kept + ranked;
      assert weekly[..|kept|] == kept && weekly[|kept|..] == ranked;
    }

    /** All gamblers, richest first (the reverse sort on payoff). */
    method AllGamblers() returns (out: seq<Gambler>)
      requires Valid()
      ensures |out| == |gamblers|
      ensures Sequences.DistinctBy(out, GamblerId)
      ensures forall g :: g in out ==> g.id in gamblers && gamblers[g.id] == g
      ensures forall id :: id in gamblers ==> gamblers[id] in out
      ensures forall i, j :: 0 <= i < j < |out| ==> out[i].payoff >= out[j].payoff
    {
      var listed := Listed(gamblers, GamblerId);
      out := Sequences.SortBy(listed, ByPayoffDescending);
      Sequences.SortKeepsDistinct(listed, ByPayoffDescending, GamblerId);
      assert forall i, j :: 0 <= i < j < |out| ==> ByPayoffDescending(out[i]) <= ByPayoffDescending(out[j]);
    }

    /** All bets, earliest deadline first. */
    method AllBets() returns (out: seq<Bet>)
      requires Valid()
      ensures |out| == |bets|
      ensures Sequences.DistinctBy(out, BetId)
      ensures forall b :: b in out ==> b.id in bets && bets[b.id] == b
      ensures forall id :: id in bets ==> bets[id] in out
      ensures forall i, j :: 0 <= i < j < |out| ==> out[i].deadline <= out[j].deadline
    {
      var listed := Listed(bets, BetId);
      out := Sequences.SortBy(listed, ByDeadline);
      Sequences.SortKeepsDistinct(listed, ByDeadline, BetId);
      assert forall i, j :: 0 <= i < j < |out| ==> ByDeadline(out[i]) <= ByDeadline(out[j]);
    }
  }
}
