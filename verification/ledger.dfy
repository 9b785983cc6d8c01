/**
 * Records of the relational ledger (database.py) and the functions that
 * specify its bookkeeping: how one settled wager changes a gambler, how a
 * whole bet is settled, and the from-scratch tally over a gambler's wager
 * history that the full recompute and the weekly snapshot perform.
 */
module Ledger {
  import opened Wrappers
  import Sequences

  // Outcome codes (settings.py:8) and the withdraw code of the fourth button.
  const Home := 1
  const Draw := 0
  const Away := 2
  const Withdraw := 3

  predicate IsOutcome(k: int) { k == Home || k == Draw || k == Away }

  /** A row of the gamblers table; the id is the chat user id. */
  datatype Gambler = Gambler(id: int, name: string, correct: nat, wrong: nat, total: nat, payoff: real)

  /** A row of the bets table; deadlines are timestamps and odds exact reals. */
  datatype Bet = Bet(id: int, field: string, homeTeam: string, awayTeam: string,
                     odd1: real, odd0: real, odd2: real,
                     deadline: int, week: int, winningOdd: Option<int>)

  /** A row of the weekly_statistics table; rank is NULL until the ranking pass. */
  datatype WeeklyRow = WeeklyRow(week: int, gamblerId: int, name: string, rank: Option<int>,
                                 payoff: real, correct: nat, wrong: nat, total: nat)

  /** The gambler_bet association table: (gambler id, bet id) to the stored pick. */
  type Wagers = map<(int, int), int>

  /** The pick stored for (gid, bid), None when there is no row (the scalar() of database.py:211). */
  function StoredPick(wagers: Wagers, gid: int, bid: int): Option<int>
  {
    if (gid, bid) in wagers then Some(wagers[(gid, bid)]) else None
  }

  /** Every wager a gambler has been credited with was either correct or wrong. */
  predicate Balanced(g: Gambler) { g.total == g.correct + g.wrong }

  /** Python truthiness of the nullable winning_odd column: None and 0 (a draw) are both false. */
  predicate Truthy(w: Option<int>) { w.Some? && w.value != 0 }

  /** The odd paid for outcome k: home for 1, draw for 0, away for anything else. */
  function OddFor(b: Bet, k: int): real
  {
    if k == Home then b.odd1 else if k == Draw then b.odd0 else b.odd2
  }

  /** The four counters a gambler carries. */
  datatype Stats = Stats(correct: nat, wrong: nat, total: nat, payoff: real)
  {
    function Plus(o: Stats): Stats
    {
      Stats(correct + o.correct, wrong + o.wrong, total + o.total, payoff + o.payoff)
    }
  }

  const NoStats := Stats(0, 0, 0, 0.0)

  function StatsOf(g: Gambler): Stats { Stats(g.correct, g.wrong, g.total, g.payoff) }

  function WithStats(g: Gambler, s: Stats): Gambler
  {
    g.(correct := s.correct, wrong := s.wrong, total := s.total, payoff := s.payoff)
  }

  /**
   * What one wager on a resolved bet is worth, as the full recompute counts it:
   * one more wager, correct or wrong, and the odd of the pick less the 1-unit
   * fee when correct, or the fee alone when wrong.
   */
  function Score(b: Bet, pick: int): Stats
    requires b.winningOdd.Some?
  {
    if pick == b.winningOdd.value then Stats(1, 0, 1, OddFor(b, pick) - 1.0)
    else Stats(0, 1, 1, -1.0)
  }

  /**
   * Incremental settlement of one gambler's wager: the pick is compared with
   * the stored result (which may be None, in which case no pick matches), the
   * odd of the result is added when it matches, and the fee is always taken.
   */
  function Settled(g: Gambler, pick: int, b: Bet): (r: Gambler)
    ensures r.id == g.id && r.name == g.name
    ensures r.total == g.total + 1
    ensures r.correct + r.wrong == g.correct + g.wrong + 1
    ensures r.correct == g.correct + 1 <==> b.winningOdd == Some(pick)
    ensures b.winningOdd == Some(pick) ==> r.correct == g.correct + 1 && r.wrong == g.wrong
    ensures b.winningOdd != Some(pick) ==> r.correct == g.correct && r.wrong == g.wrong + 1
    ensures r.payoff == g.payoff + (if b.winningOdd == Some(pick) then OddFor(b, pick) - 1.0 else -1.0)
  {
    if b.winningOdd == Some(pick) then
      var credited := g.payoff + OddFor(b, b.winningOdd.value);
      g.(correct := g.correct + 1, payoff := credited - 1.0, total := g.total + 1)
    else
      g.(wrong := g.wrong + 1, payoff := g.payoff - 1.0, total := g.total + 1)
  }

  /** The gamblers holding a wager on bet bid. */
  function Wagerers(wagers: Wagers, bid: int): (r: set<int>)
    ensures forall g :: g in r <==> (g, bid) in wagers
  {
    set p | p in wagers && p.1 == bid :: p.0
  }

  /** Incremental settlement of bet bid: every wagering gambler is settled once, nobody else changes. */
  function SettleAll(gamblers: map<int, Gambler>, wagers: Wagers, bid: int, b: Bet): (r: map<int, Gambler>)
    ensures r.Keys == gamblers.Keys
    ensures forall g :: g in gamblers && (g, bid) !in wagers ==> r[g] == gamblers[g]
    ensures forall g :: g in gamblers && (g, bid) in wagers ==> r[g].total == gamblers[g].total + 1
  {
    map g | g in gamblers :: if (g, bid) in wagers then Settled(gamblers[g], wagers[(g, bid)], b) else gamblers[g]
  }

  /** The bets a gambler holds a wager on. */
  function BetIdsOf(wagers: Wagers, gid: int): (r: set<int>)
    ensures forall b :: b in r <==> (gid, b) in wagers
  {
    set p | p in wagers && p.0 == gid :: p.1
  }

  /** The bets of one week a gambler holds a wager on (the join with bets filtered by week). */
  function WeekBetIdsOf(wagers: Wagers, bets: map<int, Bet>, gid: int, week: int): (r: set<int>)
    ensures forall b :: b in r <==> (gid, b) in wagers && b in bets && bets[b].week == week
  {
    set p | p in wagers && p.0 == gid && p.1 in bets && bets[p.1].week == week :: p.1
  }

  /** What wager (gid, bid) adds to a from-scratch tally: nothing unless the bet exists and has a result. */
  ghost function Contribution(wagers: Wagers, bets: map<int, Bet>, gid: int, bid: int): Stats
  {
    if (gid, bid) in wagers && bid in bets && bets[bid].winningOdd.Some?
    then Score(bets[bid], wagers[(gid, bid)])
    else NoStats
  }

  /** The sum of the contributions of the wagers of gid on the bets ids, in any order. */
  ghost function Tally(wagers: Wagers, bets: map<int, Bet>, gid: int, ids: set<int>): (s: Stats)
    ensures s.correct + s.wrong == s.total

    decreases ids
  {
    if ids == {} then NoStats
    else
      Sequences.HasElement(ids);
      var x :| x in ids;
      Contribution(wagers, bets, gid, x).Plus(Tally(wagers, bets, gid, ids - {x}))
  }

  /** A gambler's counters rebuilt from every wager on a resolved bet. */
  ghost function GlobalStats(wagers: Wagers, bets: map<int, Bet>, gid: int): Stats
  {
    Tally(wagers, bets, gid, BetIdsOf(wagers, gid))
  }

  /** A gambler's counters for one week, from the wagers on that week's resolved bets. */
  ghost function WeeklyStats(wagers: Wagers, bets: map<int, Bet>, gid: int, week: int): Stats
  {
    Tally(wagers, bets, gid, WeekBetIdsOf(wagers, bets, gid, week))
  }

  /** Every gambler with counters rebuilt from scratch. */
  ghost function Recomputed(gamblers: map<int, Gambler>, wagers: Wagers, bets: map<int, Bet>): map<int, Gambler>
  {
    map g | g in gamblers :: WithStats(gamblers[g], GlobalStats(wagers, bets, g))
  }

  /** The unranked weekly row of a gambler. */
  ghost function Standing(g: Gambler, wagers: Wagers, bets: map<int, Bet>, week: int): WeeklyRow
  {
    var s := WeeklyStats(wagers, bets, g.id, week);
    WeeklyRow(week, g.id, g.name, None, s.payoff, s.correct, s.wrong, s.total)
  }

  /** A table that holds, key by key, the recomputed gamblers is the recomputed table. */
  lemma RecomputedFrom(gamblers: map<int, Gambler>, wagers: Wagers, bets: map<int, Bet>, table: map<int, Gambler>)
    requires forall g :: g in table <==> g in gamblers
    requires forall g :: g in table ==> table[g] == WithStats(gamblers[g], GlobalStats(wagers, bets, g))
    ensures table == Recomputed(gamblers, wagers, bets)
  {
    var recomputed := Recomputed(gamblers, wagers, bets);
    assert forall g :: g in table.Keys <==> g in recomputed.Keys;
    assert table.Keys == recomputed.Keys;
    forall g | g in table
      ensures table[g] == recomputed[g]
    {
    }
  }

  /** A table that holds, key by key, the settled gamblers is the settled table. */
  lemma SettledFrom(gamblers: map<int, Gambler>, wagers: Wagers, bid: int, b: Bet, table: map<int, Gambler>)
    requires forall g :: g in table <==> g in gamblers
    requires forall g :: g in table && (g, bid) in wagers ==> table[g] == Settled(gamblers[g], wagers[(g, bid)], b)
    requires forall g :: g in table && (g, bid) !in wagers ==> table[g] == gamblers[g]
    ensures table == SettleAll(gamblers, wagers, bid, b)
  {
    var settled := SettleAll(gamblers, wagers, bid, b);
    assert forall g :: g in table.Keys <==> g in settled.Keys;
    assert table.Keys == settled.Keys;
    forall g | g in table
      ensures table[g] == settled[g]
    {
    }
  }

  lemma PlusSwap(a: Stats, b: Stats, c: Stats)
    ensures a.Plus(b.Plus(c)) == b.Plus(a.Plus(c))
  {
  }

  /** The tally does not depend on the order the wagers are visited in: any element can be taken out first. */
  lemma {:induction false} TallyRemove(wagers: Wagers, bets: map<int, Bet>, gid: int, ids: set<int>, y: int)
    requires y in ids
    ensures Tally(wagers, bets, gid, ids)
         == Contribution(wagers, bets, gid, y).Plus(Tally(wagers, bets, gid, ids - {y}))
    decreases ids
  {
    var x :| x in ids && Tally(wagers, bets, gid, ids)
                      == Contribution(wagers, bets, gid, x).Plus(Tally(wagers, bets, gid, ids - {x}));
    if x != y {
      var rest := ids - {x} - {y};
      TallyRemove(wagers, bets, gid, ids - {x}, y);
      TallyRemove(wagers, bets, gid, ids - {y}, x);
      assert ids - {y} - {x} == rest;
      var cx, cy := Contribution(wagers, bets, gid, x), Contribution(wagers, bets, gid, y);
      var t := Tally(wagers, bets, gid, rest);
      assert Tally(wagers, bets, gid, ids) == cx.Plus(cy.Plus(t));
      assert Tally(wagers, bets, gid, ids - {y}) == cx.Plus(t);
      PlusSwap(cx, cy, t);
    }
  }

  /** A tally counts at most one wager per bet. */
  lemma {:induction false} TallyCountsEachBetOnce(wagers: Wagers, bets: map<int, Bet>, gid: int, ids: set<int>)
    ensures Tally(wagers, bets, gid, ids).total <= |ids|
    decreases ids
  {
    if ids != {} {
      Sequences.HasElement(ids);
      var x :| x in ids;
      TallyRemove(wagers, bets, gid, ids, x);
      TallyCountsEachBetOnce(wagers, bets, gid, ids - {x});
      assert Contribution(wagers, bets, gid, x).total <= 1;
    }
  }

  /** Adding one more bet to the tally adds its contribution. */
  lemma TallyAdd(wagers: Wagers, bets: map<int, Bet>, gid: int, ids: set<int>, x: int)
    requires x !in ids
    ensures Tally(wagers, bets, gid, ids + {x})
         == Tally(wagers, bets, gid, ids).Plus(Contribution(wagers, bets, gid, x))
  {
    TallyRemove(wagers, bets, gid, ids + {x}, x);
    assert ids + {x} - {x} == ids;
  }

  /** Two ledgers that agree on every wager's contribution agree on the tally. */
  lemma {:induction false} TallyFrame(w1: Wagers, b1: map<int, Bet>, w2: Wagers, b2: map<int, Bet>, gid: int, ids: set<int>)
    requires forall x :: x in ids ==> Contribution(w1, b1, gid, x) == Contribution(w2, b2, gid, x)
    ensures Tally(w1, b1, gid, ids) == Tally(w2, b2, gid, ids)
    decreases ids
  {
    if ids != {} {
      Sequences.HasElement(ids);
      var x :| x in ids && Tally(w1, b1, gid, ids)
                        == Contribution(w1, b1, gid, x).Plus(Tally(w1, b1, gid, ids - {x}));
      TallyFrame(w1, b1, w2, b2, gid, ids - {x});
      TallyRemove(w2, b2, gid, ids, x);
    }
  }

  /**
   * Incremental settlement agrees with the full recompute for a bet that gets
   * its first result: if every gambler's counters equal the from-scratch tally
   * before, settling the newly resolved bet keeps them equal to the tally after.
   */
  lemma SettlementAgreesWithRecompute(gamblers: map<int, Gambler>, wagers: Wagers, bets: map<int, Bet>,
                                      bid: int, result: int)
    requires bid in bets && bets[bid].winningOdd.None?
    requires forall g :: g in gamblers ==> StatsOf(gamblers[g]) == GlobalStats(wagers, bets, g)
    ensures var resolved := bets[bid := bets[bid].(winningOdd := Some(result))];
            forall g :: g in gamblers ==>
              StatsOf(SettleAll(gamblers, wagers, bid, resolved[bid])[g]) == GlobalStats(wagers, resolved, g)
  {
    var resolved := bets[bid := bets[bid].(winningOdd := Some(result))];
    forall g | g in gamblers
      ensures StatsOf(SettleAll(gamblers, wagers, bid, resolved[bid])[g]) == GlobalStats(wagers, resolved, g)
    {
      ResolvedTally(wagers, bets, bid, result, g);
    }
  }

  /** One gambler's tally once bet bid is resolved: the tally before, plus the wager on bid if there is one. */
  lemma ResolvedTally(wagers: Wagers, bets: map<int, Bet>, bid: int, result: int, g: int)
    requires bid in bets && bets[bid].winningOdd.None?
    ensures var resolved := bets[bid := bets[bid].(winningOdd := Some(result))];
            (g, bid) in wagers ==>
              GlobalStats(wagers, resolved, g) == GlobalStats(wagers, bets, g).Plus(Score(resolved[bid], wagers[(g, bid)]))
    ensures (g, bid) !in wagers ==>
              GlobalStats(wagers, bets[bid := bets[bid].(winningOdd := Some(result))], g) == GlobalStats(wagers, bets, g)
  {
    var ids := BetIdsOf(wagers, g);
    if (g, bid) in wagers {
      OthersUnresolvedAlike(wagers, bets, bid, result, g, ids - {bid});
      WageredTally(wagers, bets, bid, result, g, ids);
    } else {
      OthersUnresolvedAlike(wagers, bets, bid, result, g, ids);
    }
  }

  /** The tally of ids, bid among them, before and after bid is resolved. */
  lemma WageredTally(wagers: Wagers, bets: map<int, Bet>, bid: int, result: int, g: int, ids: set<int>)
    requires bid in bets && bets[bid].winningOdd.None? && bid in ids && (g, bid) in wagers
    requires var resolved := bets[bid := bets[bid].(winningOdd := Some(result))];
             Tally(wagers, resolved, g, ids - {bid}) == Tally(wagers, bets, g, ids - {bid})
    ensures var resolved := bets[bid := bets[bid].(winningOdd := Some(result))];
            Tally(wagers, resolved, g, ids) == Tally(wagers, bets, g, ids).Plus(Score(resolved[bid], wagers[(g, bid)]))
  {
    var resolved := bets[bid := bets[bid].(winningOdd := Some(result))];
    TallyRemove(wagers, bets, g, ids, bid);
    TallyRemove(wagers, resolved, g, ids, bid);
    var t, sc := Tally(wagers, bets, g, ids - {bid}), Score(resolved[bid], wagers[(g, bid)]);
    assert Contribution(wagers, bets, g, bid) == NoStats;
    assert Contribution(wagers, resolved, g, bid) == sc;
    PlusAfterNothing(t, sc);
  }

  /** Adding a wager's score after an empty start or before the rest gives the same counters. */
  lemma PlusAfterNothing(t: Stats, sc: Stats)
    ensures NoStats.Plus(t).Plus(sc) == sc.Plus(t)
  {
  }

  /** Resolving bet bid leaves the tally of the other bets as it was. */
  lemma OthersUnresolvedAlike(wagers: Wagers, bets: map<int, Bet>, bid: int, result: int, g: int, others: set<int>)
    requires bid in bets && bid !in others
    ensures Tally(wagers, bets[bid := bets[bid].(winningOdd := Some(result))], g, others) == Tally(wagers, bets, g, others)
  {
    var resolved := bets[bid := bets[bid].(winningOdd := Some(result))];
    forall x | x in others
      ensures Contribution(wagers, bets, g, x) == Contribution(wagers, resolved, g, x)
    {
    }
    TallyFrame(wagers, bets, wagers, resolved, g, others);
  }

  /** Settlement has no guard against a second run: every wagering gambler is credited twice. */
  lemma SettlingTwiceCountsTwice(gamblers: map<int, Gambler>, wagers: Wagers, bid: int, b: Bet, g: int)
    requires g in gamblers && (g, bid) in wagers
    ensures SettleAll(SettleAll(gamblers, wagers, bid, b), wagers, bid, b)[g].total == gamblers[g].total + 2
  {
  }
}
