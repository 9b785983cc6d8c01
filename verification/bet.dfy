/**
 * The bet record of the dataclass/JSON variant of the ledger, with the
 * guarded update that declares its result.
 */
module BetRecord {
  import opened Wrappers
  import opened Ledger

  /** The two ValueErrors set_winning_odd raises. */
  datatype BetError = NotAResult | AlreadyResulted

  /**
   * The WINNING_ODD a bet holds after set_winning_odd(w) when it held
   * `current`, or the error raised. The range is checked before the
   * already-resulted guard, and that guard is Python truthiness, so a
   * stored draw (0) does not block a new result.
   */
  function WinningOddAfter(current: Option<int>, w: int): (r: Result<Option<int>, BetError>)
    ensures r.Ok? <==> IsOutcome(w) && !Truthy(current)
    ensures r.Ok? ==> r.value == Some(w)
    ensures !IsOutcome(w) ==> r == Err(NotAResult)
    ensures IsOutcome(w) && Truthy(current) ==> r == Err(AlreadyResulted)
  {
    if !IsOutcome(w) then Err(NotAResult)
    else if Truthy(current) then Err(AlreadyResulted)
    else Ok(Some(w))
  }

  /** Once a home or away result is stored, no call can replace it. */
  lemma DecisiveResultIsFinal(current: Option<int>, w: int, w2: int)
    requires WinningOddAfter(current, w).Ok?
    requires w != Draw
    ensures WinningOddAfter(WinningOddAfter(current, w).value, w2).Err?
  {
  }

  /** A stored draw is overwritten by any valid result, the draw itself included. */
  lemma DrawCanBeRedeclared(w: int)
    requires IsOutcome(w)
    ensures WinningOddAfter(Some(Draw), w) == Ok(Some(w))
  {
  }

  /** A bet record; the JSON GAMBLERS column is held already decoded. */
  class Bet {
    var id: string
    var field: string
    var homeTeam: string
    var awayTeam: string
    var odd1: real
    var odd0: real
    var odd2: real
    var winningOdd: Option<int>
    var deadline: Option<int>
    var gamblers: map<string, string>

    constructor (id: string, field: string, homeTeam: string, awayTeam: string,
                 odd1: real, odd0: real, odd2: real,
                 winningOdd: Option<int>, deadline: Option<int>, gamblers: map<string, string>)
      ensures this.id == id && this.field == field
      ensures this.homeTeam == homeTeam && this.awayTeam == awayTeam
      ensures this.odd1 == odd1 && this.odd0 == odd0 && this.odd2 == odd2
      ensures this.winningOdd == winningOdd && this.deadline == deadline
      ensures this.gamblers == gamblers
    {
      this.id := id;
      this.field := field;
      this.homeTeam := homeTeam;
      this.awayTeam := awayTeam;
      this.odd1 := odd1;
      this.odd0 := odd0;
      this.odd2 := odd2;
      this.winningOdd := winningOdd;
      this.deadline := deadline;
      this.gamblers := gamblers;
    }

    /**
     * Declares the result w. On an error WINNING_ODD is unchanged; on
     * success it becomes w. No other field can change.
     */
    method SetWinningOdd(w: int) returns (r: Outcome<BetError>)
      modifies this`winningOdd
      ensures WinningOddAfter(old(winningOdd), w).Ok? ==> r == Pass && winningOdd == Some(w)
      ensures WinningOddAfter(old(winningOdd), w).Err? ==>
                r == Fail(WinningOddAfter(old(winningOdd), w).error) && winningOdd == old(winningOdd)
    {
      if !IsOutcome(w) {
        return Fail(NotAResult);
      }
      if winningOdd.Some? && winningOdd.value != 0 {
        return Fail(AlreadyResulted);
      }
      winningOdd := Some(w);
      r := Pass;
    }
  }
}
