/**
 * The gambler record of the dataclass/JSON variant of the ledger, whose
 * picks live in an embedded dictionary from bet id to outcome code.
 */
module GamblerRecord {
  import opened Wrappers
  import opened Ledger

  /** The ValueError for a pick outside {0, 1, 2} and the KeyError for a repeated guess. */
  datatype GamblerError = NotAPick | AlreadyGuessed

  /**
   * The BETS dictionary after place_bet(game, pick), or the error raised.
   * There is no withdraw code and no way to change a guess.
   */
  function BetsAfter(bets: map<string, int>, game: string, pick: int): (r: Result<map<string, int>, GamblerError>)
    ensures r.Ok? <==> IsOutcome(pick) && game !in bets
    ensures !IsOutcome(pick) ==> r == Err(NotAPick)
    ensures IsOutcome(pick) && game in bets ==> r == Err(AlreadyGuessed)
    ensures r.Ok? ==> r.value.Keys == bets.Keys + {game} && r.value[game] == pick
    ensures r.Ok? ==> forall k :: k in bets ==> r.value[k] == bets[k]
  {
    if !IsOutcome(pick) then Err(NotAPick)
    else if game in bets then Err(AlreadyGuessed)
    else Ok(bets[game := pick])
  }

  /** After a guess is stored, every later guess on the same game fails and leaves it as it was. */
  lemma GuessIsFinal(bets: map<string, int>, game: string, pick: int, later: int)
    requires BetsAfter(bets, game, pick).Ok?
    ensures BetsAfter(BetsAfter(bets, game, pick).value, game, later).Err?
    ensures BetsAfter(bets, game, pick).value[game] == pick
  {
  }

  /** A gambler record; the JSON BETS column is held already decoded. */
  class Gambler {
    var id: int
    var name: string
    var correct: int
    var wrong: int
    var total: int
    var payoff: real
    var bets: map<string, int>

    constructor (id: int, name: string, correct: int, wrong: int, total: int, payoff: real, bets: map<string, int>)
      ensures this.id == id && this.name == name
      ensures this.correct == correct && this.wrong == wrong && this.total == total
      ensures this.payoff == payoff && this.bets == bets
    {
      this.id := id;
      this.name := name;
      this.correct := correct;
      this.wrong := wrong;
      this.total := total;
      this.payoff := payoff;
      this.bets := bets;
    }

    /**
     * Records the guess pick on game. Only BETS can change, so the
     * counters and the payoff are never touched.
     */
    method PlaceBet(game: string, pick: int) returns (r: Outcome<GamblerError>)
      modifies this`bets
      ensures BetsAfter(old(bets), game, pick).Ok? ==> r == Pass && bets == BetsAfter(old(bets), game, pick).value
      ensures BetsAfter(old(bets), game, pick).Err? ==>
                r == Fail(BetsAfter(old(bets), game, pick).error) && bets == old(bets)
    {
      if !IsOutcome(pick) {
        return Fail(NotAPick);
      }
      if game !in bets {
        bets := bets[game := pick];
        r := Pass;
      } else {
        r := Fail(AlreadyGuessed);
      }
    }
  }
}
