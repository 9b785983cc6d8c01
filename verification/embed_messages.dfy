/**
 * The pure parts of the bet announcement view (embed_messages.py): the
 * custom_id each of the four buttons carries, how a click decodes it, when
 * the buttons are disabled, and how the chosen pick is confirmed.
 */
module EmbedMessages {
  import opened Wrappers
  import Text
  import Ledger
  import Database

  /** The custom_id f"{bet.id}_{k}" of the button for pick k. */
  function CustomId(bid: int, k: int): string
  {
    Text.Show(bid) + "_" + Text.Show(k)
  }

  /**
   * The click handler's decoding: split on '_', unpack exactly two pieces
   * and int() each; None wherever Python raises ValueError.
   */
  function ParseCustomId(s: string): (r: Option<(int, int)>)
    ensures r.Some? ==> |Text.Split(s, '_')| == 2
  {
    var parts := Text.Split(s, '_');
    if |parts| != 2 then None
    else
      match (Text.ParseInt(parts[0]), Text.ParseInt(parts[1]))
      case (Some(bid), Some(k)) => Some((bid, k))
      case _ => None
  }

  /** Decoding a button's custom_id gives back the bet id and the pick it was built from. */
  lemma {:induction false} CustomIdRoundTrip(bid: int, k: int)
    ensures ParseCustomId(CustomId(bid, k)) == Some((bid, k))
  {
    var a, b := Text.Show(bid), Text.Show(k);
    assert '_' !in a && '_' !in b;
    assert CustomId(bid, k) == a + ['_'] + b;
    Text.SplitJoin(a, '_', b);
    Text.ParseShow(bid);
    Text.ParseShow(k);
  }

  /** The buttons are disabled once the current time reaches the bet's deadline. */
  predicate IsDisabled(now: int, deadline: int) { now >= deadline }

  /**
   * At exactly the deadline the buttons are already disabled, while
   * link_gambler_to_bet would still accept the pick.
   */
  lemma DisabledAtDeadlineButStillAccepted(b: Ledger.Bet)
    ensures IsDisabled(b.deadline, b.deadline) && !Database.TooLateFor(b.deadline, b)
    ensures forall now :: IsDisabled(now, b.deadline) && !Database.TooLateFor(now, b) <==> now == b.deadline
  {
  }

  /** A button of the view; the emoji and style are left out. */
  datatype Button = Button(title: string, customId: string, disabled: bool)

  /** The picks of the four buttons, in the order they are added: home, draw, away, withdraw. */
  const ButtonPicks: seq<int> := [Ledger.Home, Ledger.Draw, Ledger.Away, Ledger.Withdraw]

  /** A button click decodes to the bet of the view and the pick of the button that was clicked. */
  lemma EveryButtonDecodesToItsPick(view: BetButtons, i: int)
    requires view.Valid()
    requires 0 <= i < |view.items|
    ensures ParseCustomId(view.items[i].customId) == Some((view.bet.id, ButtonPicks[i]))
  {
    CustomIdRoundTrip(view.bet.id, ButtonPicks[i]);
  }

  /** The view of four buttons attached to a bet announcement. */
  class BetButtons {
    var bet: Ledger.Bet
    var isDisabled: bool
    var items: seq<Button>

    /** One button per entry of ButtonPicks, carrying its custom_id and the common disabled flag. */
    ghost predicate Valid()
      reads this
    {
      |items| == |ButtonPicks| &&
      forall i :: 0 <= i < |items| ==>
        items[i].customId == CustomId(bet.id, ButtonPicks[i]) && items[i].disabled == isDisabled
    }

    /** Builds the view: the disable flag from the deadline, then the four buttons added in order. */
    constructor (bet: Ledger.Bet, now: int)
      ensures Valid()
      ensures this.bet == bet
      ensures isDisabled <==> IsDisabled(now, bet.deadline)
      ensures items[0].title == bet.homeTeam && items[1].title == "Draw"
      ensures items[2].title == bet.awayTeam && items[3].title == "Withdraw"
    {
      this.bet := bet;
      var disabled := now >= bet.deadline;
      this.isDisabled := disabled;
      var home := Button(bet.homeTeam, CustomId(bet.id, Ledger.Home), disabled);
      var draw := Button("Draw", CustomId(bet.id, Ledger.Draw), disabled);
      var away := Button(bet.awayTeam, CustomId(bet.id, Ledger.Away), disabled);
      var withdraw := Button("Withdraw", CustomId(bet.id, Ledger.Withdraw), disabled);
      this.items := [home, draw, away, withdraw];
    }
  }

  /**
   * How the confirmation message shows pick k: the team or "Draw" with its
   * odd, otherwise "Indecisive" at 1.00. The first clause is the link: the
   * odd confirmed to the gambler is the odd settlement credits on a win
   * (Ledger.OddFor). The label clauses only name what is shown.
   */
  function ConfirmedPick(b: Ledger.Bet, k: int): (shown: (string, real))
    ensures Ledger.IsOutcome(k) ==> shown.1 == Ledger.OddFor(b, k)
    ensures k == Ledger.Home ==> shown.0 == b.homeTeam
    ensures k == Ledger.Draw ==> shown.0 == "Draw"
    ensures k == Ledger.Away ==> shown.0 == b.awayTeam
    ensures !Ledger.IsOutcome(k) ==> shown == ("Indecisive", 1.0)
  {
    if k == Ledger.Home then (b.homeTeam, b.odd1)
    else if k == Ledger.Draw then ("Draw", b.odd0)
    else if k == Ledger.Away then (b.awayTeam, b.odd2)
    else ("Indecisive", 1.0)
  }
}
