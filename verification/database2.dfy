/**
 * The dataclass/JSON variant of the ledger (database2.py): string ids built
 * from a uuid, gamblers whose picks live in their own BETS dictionary, and a
 * settlement pass over every gambler. The two sqlite tables are held in
 * memory: the gamblers table as a sequence in table order, the bets table as
 * a map from bet id to row.
 */
module Database2 {
  import opened Wrappers
  import Ledger
  import Text
  import Sequences
  import BetRecord
  import GamblerRecord

  // Classes.BET, Classes.GAMBLER and Constant.ID_LENGTH of settings.py.
  const BetKey := "bet"
  const GamblerKey := "gmb"
  const IdLength := 8

  predicate IsLowerHexDigit(c: char) { '0' <= c <= '9' || 'a' <= c <= 'f' }

  predicate IsUpperHexDigit(c: char) { '0' <= c <= '9' || 'A' <= c <= 'F' }

  /** The shape of uuid4().hex: 32 lower-case hex digits. */
  predicate IsUuidHex(s: string)
  {
    |s| == 32 && forall i :: 0 <= i < |s| ==> IsLowerHexDigit(s[i])
  }

  /** The exceptions the store operations raise. */
  datatype StoreError =
    | UnknownKeyType
    | NoSuchGambler
    | NoSuchBet
    | NotAPick
    | AlreadyGambled(previous: int)
    | ResultRejected(reason: BetRecord.BetError)

  /**
   * generateID: the key type, an underscore and the first eight digits of a
   * fresh uuid in upper case. The uuid is a parameter; key types other than
   * "bet" and "gmb" raise KeyError.
   */
  function GenerateId(keyType: string, uuidHex: string): (r: Result<string, StoreError>)
    requires IsUuidHex(uuidHex)
    ensures r.Ok? <==> keyType == BetKey || keyType == GamblerKey
    ensures r.Err? ==> r.error == UnknownKeyType
    ensures r.Ok? ==> |r.value| == |keyType| + 1 + IdLength
    ensures r.Ok? ==> r.value[..|keyType|] == keyType && r.value[|keyType|] == '_'
    ensures r.Ok? ==> forall i :: |keyType| < i < |r.value| ==> IsUpperHexDigit(r.value[i])
  {
    if keyType == BetKey || keyType == GamblerKey then Ok(keyType + "_" + Text.Upper(uuidHex[..IdLength]))
    else Err(UnknownKeyType)
  }

  /** Lower-casing the suffix of a generated id gives back the uuid digits it was built from. */
  lemma {:induction false} GeneratedIdKeepsUuidPrefix(keyType: string, uuidHex: string)
    requires IsUuidHex(uuidHex)
    requires GenerateId(keyType, uuidHex).Ok?
    ensures Text.Lower(GenerateId(keyType, uuidHex).value[|keyType| + 1..]) == uuidHex[..IdLength]
  {
    var suffix := GenerateId(keyType, uuidHex).value[|keyType| + 1..];
    assert suffix == Text.Upper(uuidHex[..IdLength]);
    forall i | 0 <= i < IdLength
      ensures Text.LowerChar(suffix[i]) == uuidHex[i]
    {
      assert IsLowerHexDigit(uuidHex[i]);
    }
  }

  /** Two ids of the same key type are equal exactly when the uuids agree on their first eight digits. */
  lemma GeneratedIdsCollideOnPrefix(keyType: string, u1: string, u2: string)
    requires IsUuidHex(u1) && IsUuidHex(u2)
    requires GenerateId(keyType, u1).Ok?
    ensures GenerateId(keyType, u1) == GenerateId(keyType, u2) <==> u1[..IdLength] == u2[..IdLength]
  {
    if GenerateId(keyType, u1) == GenerateId(keyType, u2) {
      GeneratedIdKeepsUuidPrefix(keyType, u1);
      GeneratedIdKeepsUuidPrefix(keyType, u2);
    }
  }

  /** A row of the gamblers table, with the JSON bets column decoded. */
  datatype GamblerRow = GamblerRow(id: int, name: string, correct: nat, wrong: nat, total: nat,
                                   payoff: real, bets: map<string, int>)

  /** A row of the bets table, with the JSON gamblers column decoded. */
  datatype BetRow = BetRow(id: string, field: string, homeTeam: string, awayTeam: string,
                           odd1: real, odd0: real, odd2: real,
                           winningOdd: Option<int>, deadline: Option<int>, gamblers: map<string, string>)

  /** get_gambler accepts either the integer id or the name. */
  datatype GamblerRef = ById(id: int) | ByName(name: string)

  predicate Selects(ref: GamblerRef, g: GamblerRow)
  {
    match ref
    case ById(id) => g.id == id
    case ByName(name) => g.name == name
  }

  /** get_gambler: the first row the reference selects (fetchone), None where KeyError is raised. */
  function FindGambler(rows: seq<GamblerRow>, ref: GamblerRef): (r: Option<nat>)
    ensures r.Some? ==> r.value < |rows| && Selects(ref, rows[r.value])
    ensures r.Some? ==> forall j :: 0 <= j < r.value ==> !Selects(ref, rows[j])
    ensures r.None? ==> forall j :: 0 <= j < |rows| ==> !Selects(ref, rows[j])
  {
    if rows == [] then None
    else if Selects(ref, rows[0]) then Some(0)
    else
      match FindGambler(rows[1..], ref)
      case None => None
      case Some(k) => Some(k + 1)
  }

  /** The id column is the primary key of the gamblers table. */
  predicate IdsDistinct(rows: seq<GamblerRow>)
  {
    forall i, j :: 0 <= i < j < |rows| ==> rows[i].id != rows[j].id
  }

  /**
   * With distinct ids, the row a reference finds is the only row with its
   * id, so writing back `WHERE id = ?` updates that row and no other.
   */
  lemma WriteBackHitsFoundRowOnly(rows: seq<GamblerRow>, ref: GamblerRef)
    requires IdsDistinct(rows) && FindGambler(rows, ref).Some?
    ensures forall j :: 0 <= j < |rows| && rows[j].id == rows[FindGambler(rows, ref).value].id ==>
              j == FindGambler(rows, ref).value
  {
  }

  /** Every stored pick is an outcome code: place_bet is the only writer of BETS. */
  predicate PicksAreOutcomes(rows: seq<GamblerRow>)
  {
    forall i, k :: 0 <= i < |rows| && k in rows[i].bets ==> Ledger.IsOutcome(rows[i].bets[k])
  }

  /**
   * gambler_place_bet: the gamblers table after the call, or the error
   * raised. The guess is keyed by the bet's id; a repeated guess is
   * re-raised carrying the pick already stored.
   */
  function PlacedOn(rows: seq<GamblerRow>, bets: map<string, BetRow>, ref: GamblerRef, betKey: string, pick: int)
    : (r: Result<seq<GamblerRow>, StoreError>)
    ensures FindGambler(rows, ref).None? ==> r == Err(NoSuchGambler)
    ensures FindGambler(rows, ref).Some? && betKey !in bets ==> r == Err(NoSuchBet)
    ensures r == Err(NotAPick) <==> FindGambler(rows, ref).Some? && betKey in bets && !Ledger.IsOutcome(pick)
    ensures FindGambler(rows, ref).Some? && betKey in bets && Ledger.IsOutcome(pick) ==>
              var g := rows[FindGambler(rows, ref).value];
              (r.Ok? <==> bets[betKey].id !in g.bets) &&
              (bets[betKey].id in g.bets ==> r == Err(AlreadyGambled(g.bets[bets[betKey].id])))
    ensures r.Err? && r.error.AlreadyGambled? ==>
              FindGambler(rows, ref).Some? && betKey in bets && Ledger.IsOutcome(pick) &&
              var g := rows[FindGambler(rows, ref).value];
              bets[betKey].id in g.bets && r.error.previous == g.bets[bets[betKey].id]
    ensures r.Ok? ==>
              FindGambler(rows, ref).Some? && betKey in bets && Ledger.IsOutcome(pick) &&
              var i := FindGambler(rows, ref).value;
              bets[betKey].id !in rows[i].bets &&
              r.value == rows[i := rows[i].(bets := rows[i].bets[bets[betKey].id := pick])]
  {
    match FindGambler(rows, ref)
    case None => Err(NoSuchGambler)
    case Some(i) =>
      if betKey !in bets then Err(NoSuchBet)
      else
        var game := bets[betKey].id;
        match GamblerRecord.BetsAfter(rows[i].bets, game, pick)
        case Ok(placed) => Ok(rows[i := rows[i].(bets := placed)])
        case Err(e) => if e.NotAPick? then Err(NotAPick) else Err(AlreadyGambled(rows[i].bets[game]))
  }

  /** A successful guess changes one gambler's BETS and nothing else: no counter, no other gambler. */
  lemma PlacingOnlyAddsAGuess(rows: seq<GamblerRow>, bets: map<string, BetRow>, ref: GamblerRef, betKey: string, pick: int)
    requires PlacedOn(rows, bets, ref, betKey, pick).Ok?
    ensures var after := PlacedOn(rows, bets, ref, betKey, pick).value;
            |after| == |rows| &&
            (forall j :: 0 <= j < |rows| ==>
               after[j].(bets := rows[j].bets) == rows[j] &&
               rows[j].bets.Keys <= after[j].bets.Keys &&
               forall k :: k in rows[j].bets ==> after[j].bets[k] == rows[j].bets[k])
    ensures PicksAreOutcomes(rows) ==> PicksAreOutcomes(PlacedOn(rows, bets, ref, betKey, pick).value)
  {
  }

  /** declare_results skips a gambler whose entry for the bet is missing or falsy, so also a draw pick. */
  predicate Processed(g: GamblerRow, betId: string)
  {
    betId in g.bets && g.bets[betId] != 0
  }

  function IsProcessed(betId: string): GamblerRow -> bool
  {
    g => Processed(g, betId)
  }

  /** getattr(bet, f"ODD_{k}") for an outcome code k. */
  function OddOf(b: BetRow, k: int): real
  {
    if k == Ledger.Home then b.odd1 else if k == Ledger.Draw then b.odd0 else b.odd2
  }

  /** One line of the declare_results report: who, whether the pick won, and the payoff change announced. */
  datatype DeclaredLine = DeclaredLine(name: string, won: bool, payout: real)

  /** The line reported for a processed gambler: the odd less the fee when the pick matches, the fee alone otherwise. */
  function LineFor(g: GamblerRow, b: BetRow): (l: DeclaredLine)
    requires Processed(g, b.id)
    ensures l.name == g.name
    ensures l.won <==> b.winningOdd == Some(g.bets[b.id])
    ensures l.won ==> l.payout == OddOf(b, g.bets[b.id]) - 1.0
    ensures !l.won ==> l.payout == -1.0
  {
    var pick := g.bets[b.id];
    if b.winningOdd == Some(pick) then DeclaredLine(g.name, true, OddOf(b, pick) - 1.0)
    else DeclaredLine(g.name, false, -1.0)
  }

  /**
   * What declare_results does to one gambler, with the fee of a lost pick
   * taken as its report announces: skipped gamblers are unchanged, a
   * processed one gets one more guess, correct or wrong, and a payoff
   * change equal to the payout its line reports.
   */
  function DeclaredRow(g: GamblerRow, b: BetRow): (r: GamblerRow)
    ensures !Processed(g, b.id) ==> r == g
    ensures r.id == g.id && r.name == g.name && r.bets == g.bets
    ensures Processed(g, b.id) ==> r.total == g.total + 1 && r.correct + r.wrong == g.correct + g.wrong + 1
    ensures Processed(g, b.id) ==> (r.correct == g.correct + 1 <==> LineFor(g, b).won)
    ensures Processed(g, b.id) && LineFor(g, b).won ==> r.correct == g.correct + 1 && r.wrong == g.wrong
    ensures Processed(g, b.id) && !LineFor(g, b).won ==> r.correct == g.correct && r.wrong == g.wrong + 1
    ensures Processed(g, b.id) ==> r.payoff == g.payoff + LineFor(g, b).payout
    ensures g.total == g.correct + g.wrong ==> r.total == r.correct + r.wrong
  {
    if !Processed(g, b.id) then g
    else if LineFor(g, b).won then
      g.(correct := g.correct + 1, total := g.total + 1, payoff := g.payoff + LineFor(g, b).payout)
    else
      g.(wrong := g.wrong + 1, total := g.total + 1, payoff := g.payoff - 1.0)
  }

  /** The gamblers table after declare_results: every row updated on its own. */
  function Declared(rows: seq<GamblerRow>, b: BetRow): seq<GamblerRow>
  {
    seq(|rows|, i requires 0 <= i < |rows| => DeclaredRow(rows[i], b))
  }

  /** The report of declare_results over the rows, in table order. */
  function DeclaredLines(rows: seq<GamblerRow>, b: BetRow): (r: seq<DeclaredLine>)
    ensures |r| <= |rows|
  {
    if rows == [] then []
    else
      var last := rows[|rows| - 1];
      DeclaredLines(rows[..|rows| - 1], b) + if Processed(last, b.id) then [LineFor(last, b)] else []
  }

  /**
   * One gambler's turn in declare_results: a gambler with no guess or a
   * falsy one on the bet is skipped; any other is settled on the bet's
   * stored result and reported in one line.
   */
  method SettleGamblerRow(g: GamblerRow, b: BetRow) returns (row: GamblerRow, line: Option<DeclaredLine>)
    ensures row == DeclaredRow(g, b)
    ensures Processed(g, b.id) ==> line == Some(LineFor(g, b))
    ensures !Processed(g, b.id) ==> line == None
  {
    row := g;
    if !(b.id in g.bets && g.bets[b.id] != 0) {
      return row, None;
    }
    var pick := g.bets[b.id];
    var l;
    if b.winningOdd == Some(pick) {
      var payout := OddOf(b, pick) - 1.0;
      row := row.(correct := row.correct + 1, payoff := row.payoff + payout);
      l := DeclaredLine(row.name, true, payout);
    } else {
      var payout := -1.0;
      row := row.(wrong := row.wrong + 1, payoff := row.payoff + payout);
      l := DeclaredLine(row.name, false, payout);
    }
    row := row.(total := row.total + 1);
    line := Some(l);
  }

  /** Walking one more gambler adds that gambler's line, if processed, to the report. */
  lemma DeclaredLinesStep(rows: seq<GamblerRow>, i: int, b: BetRow)
    requires 0 <= i < |rows|
    ensures DeclaredLines(rows[..i + 1], b)
            == DeclaredLines(rows[..i], b) + if Processed(rows[i], b.id) then [LineFor(rows[i], b)] else []
  {
    assert rows[..i + 1][..i] == rows[..i];
  }

  /** Settling leaves every row's id and guesses alone, so the table keeps its keys and its outcome codes. */
  lemma DeclaredKeepsKeys(rows: seq<GamblerRow>, b: BetRow)
    ensures PicksAreOutcomes(rows) ==> PicksAreOutcomes(Declared(rows, b))
    ensures IdsDistinct(rows) ==> IdsDistinct(Declared(rows, b))
  {
  }

  /** The report holds exactly one line per processed gambler, in the order of the gamblers table. */
  lemma {:induction false} DeclaredLinesFollowTable(rows: seq<GamblerRow>, b: BetRow)
    ensures var processed := Sequences.Filter(rows, IsProcessed(b.id));
            |DeclaredLines(rows, b)| == |processed| &&
            forall k :: 0 <= k < |processed| ==>
              Processed(processed[k], b.id) && DeclaredLines(rows, b)[k] == LineFor(processed[k], b)
  {
    if rows != [] {
      var front, last := rows[..|rows| - 1], rows[|rows| - 1];
      assert rows == front + [last];
      DeclaredLinesFollowTable(front, b);
      Sequences.FilterAppend(front, last, IsProcessed(b.id));
    }
  }

  /** Declaring a result keeps TOTAL = CORRECT + WRONG for every gambler that had it. */
  lemma DeclaringKeepsBalance(rows: seq<GamblerRow>, b: BetRow)
    requires forall i :: 0 <= i < |rows| ==> rows[i].total == rows[i].correct + rows[i].wrong
    ensures forall i :: 0 <= i < |Declared(rows, b)| ==>
              Declared(rows, b)[i].total == Declared(rows, b)[i].correct + Declared(rows, b)[i].wrong
  {
  }

  /**
   * declare_results' update of one gambler as written in database2.py: a
   * lost pick is counted and reported with payout -1, but the payout is
   * never added to PAYOFF.
   */
  function DeclaredRowAsWritten(g: GamblerRow, b: BetRow): (r: GamblerRow)
    ensures Processed(g, b.id) && !LineFor(g, b).won ==> r.payoff == g.payoff
    ensures Processed(g, b.id) && LineFor(g, b).won ==> r == DeclaredRow(g, b)
    ensures !Processed(g, b.id) ==> r == g
  {
    if !Processed(g, b.id) then g
    else if LineFor(g, b).won then
      g.(correct := g.correct + 1, total := g.total + 1, payoff := g.payoff + LineFor(g, b).payout)
    else
      g.(wrong := g.wrong + 1, total := g.total + 1)
  }

  /** As written, every lost pick is reported as costing 1 while the payoff stays where it was. */
  lemma AsWrittenLossIsNotCharged(g: GamblerRow, b: BetRow)
    requires Processed(g, b.id) && !LineFor(g, b).won
    ensures DeclaredRowAsWritten(g, b).payoff != g.payoff + LineFor(g, b).payout
    ensures DeclaredRow(g, b).payoff == g.payoff + LineFor(g, b).payout
  {
  }

  /** A concrete case: a home pick on a bet won by the away team leaves the payoff at 0.0 while reporting -1. */
  lemma AsWrittenLossExample()
    ensures var g := GamblerRow(7, "ayse", 0, 0, 0, 0.0, map["bet_0A1B2C3D" := Ledger.Home]);
            var b := BetRow("bet_0A1B2C3D", "Football", "Galatasaray", "Fenerbahce", 1.5, 3.0, 2.5,
                            Some(Ledger.Away), None, map[]);
            Processed(g, b.id) && LineFor(g, b).payout == -1.0 &&
            DeclaredRowAsWritten(g, b).payoff == 0.0 && DeclaredRow(g, b).payoff == -1.0
  {
  }

  /** The outcome code of a stored result, when there is one. */
  predicate ResultIsOutcome(w: Option<int>)
  {
    w.Some? ==> Ledger.IsOutcome(w.value)
  }

  /** The two tables of the sqlite database file. */
  class Store2 {
    var gamblers: seq<GamblerRow>
    var bets: map<string, BetRow>

    /**
     * The invariants of the two tables, which every method keeps: picks and
     * results are outcome codes, gambler ids are distinct (the primary key),
     * and every bet is stored under its own id. No result is stated through
     * it; the methods' results are given by the functions on the tables.
     */
    ghost predicate Valid()
      reads this
    {
      PicksAreOutcomes(gamblers) && IdsDistinct(gamblers) &&
      forall k :: k in bets ==> bets[k].id == k && ResultIsOutcome(bets[k].winningOdd)
    }

    /** Opens a database holding the given tables. */
    constructor (gamblers: seq<GamblerRow>, bets: map<string, BetRow>)
      requires PicksAreOutcomes(gamblers) && IdsDistinct(gamblers)
      requires forall k :: k in bets ==> bets[k].id == k && ResultIsOutcome(bets[k].winningOdd)
      ensures Valid()
      ensures this.gamblers == gamblers && this.bets == bets
    {
      this.gamblers := gamblers;
      this.bets := bets;
    }

    /**
     * gambler_place_bet: loads the gambler record, lets Gambler.place_bet
     * record the guess and writes BETS back.
     */
    method GamblerPlaceBet(ref: GamblerRef, betKey: string, pick: int) returns (r: Outcome<StoreError>)
      requires Valid()
      modifies this`gamblers
      ensures Valid()
      ensures PlacedOn(old(gamblers), bets, ref, betKey, pick).Ok? ==>
                r == Pass && gamblers == PlacedOn(old(gamblers), bets, ref, betKey, pick).value
      ensures PlacedOn(old(gamblers), bets, ref, betKey, pick).Err? ==>
                r == Fail(PlacedOn(old(gamblers), bets, ref, betKey, pick).error) && gamblers == old(gamblers)
    {
      var found := FindGambler(gamblers, ref);
      if found.None? {
        return Fail(NoSuchGambler);
      }
      if betKey !in bets {
        return Fail(NoSuchBet);
      }
      var i := found.value;
      var row := gamblers[i];
      var game := bets[betKey].id;
      var g := new GamblerRecord.Gambler(row.id, row.name, row.correct, row.wrong, row.total, row.payoff, row.bets);
      var placed := g.PlaceBet(game, pick);
      if placed.Fail? {
        if placed.error.NotAPick? {
          return Fail(NotAPick);
        }
        return Fail(AlreadyGambled(g.bets[game]));
      }
      WriteBackHitsFoundRowOnly(gamblers, ref);
      gamblers := gamblers[i := row.(bets := g.bets)];
      PlacingOnlyAddsAGuess(old(gamblers), bets, ref, betKey, pick);
      r := Pass;
    }

    /**
     * set_bet_result: loads the bet record, lets Bet.set_winning_odd check
     * and store the result, and writes it back; its errors propagate.
     */
    method SetBetResult(betKey: string, result: int) returns (r: Outcome<StoreError>)
      requires Valid()
      modifies this`bets
      ensures Valid()
      ensures betKey !in old(bets) ==> r == Fail(NoSuchBet) && bets == old(bets)
      ensures betKey in old(bets) && BetRecord.WinningOddAfter(old(bets)[betKey].winningOdd, result).Ok? ==>
                r == Pass &&
                bets == old(bets)[betKey := old(bets)[betKey].(winningOdd := Some(result))]
      ensures betKey in old(bets) && BetRecord.WinningOddAfter(old(bets)[betKey].winningOdd, result).Err? ==>
                r == Fail(ResultRejected(BetRecord.WinningOddAfter(old(bets)[betKey].winningOdd, result).error)) &&
                bets == old(bets)
    {
      if betKey !in bets {
        return Fail(NoSuchBet);
      }
      var row := bets[betKey];
      var b := new BetRecord.Bet(row.id, row.field, row.homeTeam, row.awayTeam, row.odd1, row.odd0, row.odd2,
                                 row.winningOdd, row.deadline, row.gamblers);
      var outcome := b.SetWinningOdd(result);
      if outcome.Fail? {
        return Fail(ResultRejected(outcome.error));
      }
      bets := bets[betKey := row.(winningOdd := b.winningOdd)];
      r := Pass;
    }

    /**
     * declare_results: walks the gamblers loaded at its start in order,
     * settles every processed gambler on the bet's stored result and
     * reports one line each. A lost pick is charged the fee it reports.
     */
    method DeclareResults(betKey: string) returns (r: Result<seq<DeclaredLine>, StoreError>)
      requires Valid()
      modifies this`gamblers
      ensures Valid()
      ensures betKey !in bets ==> r == Err(NoSuchBet) && gamblers == old(gamblers)
      ensures betKey in bets ==>
                r == Ok(DeclaredLines(old(gamblers), bets[betKey])) && gamblers == Declared(old(gamblers), bets[betKey])
    {
      if betKey !in bets {
        return Err(NoSuchBet);
      }
      var b := bets[betKey];
      var all := gamblers;
      var lines: seq<DeclaredLine> := [];
      var i := 0;
      while i < |all|
        invariant 0 <= i <= |all| && |gamblers| == |all|
        invariant forall j :: 0 <= j < i ==> gamblers[j] == DeclaredRow(all[j], b)
        invariant forall j :: i <= j < |all| ==> gamblers[j] == all[j]
        invariant lines == DeclaredLines(all[..i], b)
      {
        var row, line := SettleGamblerRow(all[i], b);
        DeclaredLinesStep(all, i, b);
        if line.Some? {
          gamblers := gamblers[i := row];
          lines := lines + [line.value];
        }
        i := i + 1;
      }
      assert all[..i] == all;
      DeclaredKeepsKeys(all, b);
      r := Ok(lines);
    }
  }
}
