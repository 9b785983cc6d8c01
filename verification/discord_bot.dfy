/**
 * The bookkeeping the bot front-end does itself (discord_bot.py): splitting
 * long messages into 2000-character chunks, the global rank of every gambler
 * on the leaderboard, the bet lists the slash-command autocompletes offer, and
 * the acceptance rule for odds typed by an administrator.
 */
module DiscordBot {
  import opened Wrappers
  import Text
  import Sequences
  import Ledger
  import Database

  /** The longest message the chat service accepts. */
  const MaxContentLength := 2000

  /** The most choices an autocomplete may offer. */
  const MaxChoices := 25

  /** The text of the chunks, joined back together. */
  function Concat(chunks: seq<string>): string
  {
    if chunks == [] then [] else Concat(chunks[..|chunks| - 1]) + chunks[|chunks| - 1]
  }

  /**
   * send_split_message: sends content[i : i + 2000] for every i in
   * range(0, len(content), 2000); the chunks sent are returned in order.
   */
  method SendSplitMessage(content: string) returns (sent: seq<string>)
    ensures Concat(sent) == content
    ensures forall k :: 0 <= k < |sent| ==> 0 < |sent[k]| <= MaxContentLength
    ensures forall k :: 0 <= k < |sent| - 1 ==> |sent[k]| == MaxContentLength
    ensures |sent| == (|content| + MaxContentLength - 1) / MaxContentLength
  {
    sent := [];
    var i := 0;
    while i < |content|
      invariant i == MaxContentLength * |sent|
      invariant i < |content| + MaxContentLength
      invariant i <= |content| ==> Concat(sent) == content[..i]
      invariant i > |content| ==> Concat(sent) == content
      invariant forall k :: 0 <= k < |sent| ==> 0 < |sent[k]| <= MaxContentLength
      invariant forall k :: 0 <= k < |sent| - 1 ==> |sent[k]| == MaxContentLength
      invariant |sent| > 0 && i <= |content| ==> |sent[|sent| - 1]| == MaxContentLength
    {
      var end := if i + MaxContentLength <= |content| then i + MaxContentLength else |content|;
      var chunk := content[i..end];
      assert (sent + [chunk])[..|sent|] == sent;
      assert content[..end] == content[..i] + chunk;
      sent := sent + [chunk];
      i := i + MaxContentLength;
    }
    if i <= |content| {
      assert content[..i] == content;
    }
  }

  /** Distinct ids, stated for any two different positions. */
  lemma IdsDiffer(sorted: seq<Ledger.Gambler>)
    requires Sequences.DistinctBy(sorted, Database.GamblerId)
    ensures forall i, j :: 0 <= i < |sorted| && 0 <= j < |sorted| && i != j ==> sorted[i].id != sorted[j].id
  {
    forall i, j | 0 <= i < |sorted| && 0 <= j < |sorted| && i != j
      ensures sorted[i].id != sorted[j].id
    {
      if i < j {
        assert Database.GamblerId(sorted[i]) != Database.GamblerId(sorted[j]);
      } else {
        assert Database.GamblerId(sorted[j]) != Database.GamblerId(sorted[i]);
      }
    }
  }

  /**
   * The dict comprehension of update_leaderboard: each gambler id of the
   * sorted list mapped to its 1-based position.
   */
  function RankMap(sorted: seq<Ledger.Gambler>): (ranks: map<int, int>)
    requires Sequences.DistinctBy(sorted, Database.GamblerId)
    ensures forall k :: 0 <= k < |sorted| ==> sorted[k].id in ranks && ranks[sorted[k].id] == k + 1
    ensures forall id :: id in ranks ==> exists k :: 0 <= k < |sorted| && sorted[k].id == id
  {
    IdsDiffer(sorted);
    map k | 0 <= k < |sorted| :: sorted[k].id := k + 1
  }

  /** Along a list sorted by payoff, highest first, a strictly higher payoff gets a strictly smaller rank. */
  lemma HigherPayoffRanksFirst(sorted: seq<Ledger.Gambler>, ranks: map<int, int>, g: Ledger.Gambler, h: Ledger.Gambler)
    requires forall i, j :: 0 <= i < j < |sorted| ==> sorted[i].payoff >= sorted[j].payoff
    requires forall k :: 0 <= k < |sorted| ==> sorted[k].id in ranks && ranks[sorted[k].id] == k + 1
    requires g in sorted && h in sorted && g.payoff > h.payoff
    ensures g.id in ranks && h.id in ranks && ranks[g.id] < ranks[h.id]
  {
    var kg :| 0 <= kg < |sorted| && sorted[kg] == g;
    var kh :| 0 <= kh < |sorted| && sorted[kh] == h;
  }

  /** Ascending order of the negated payoff is descending order of the payoff. */
  lemma PayoffOrder(sorted: seq<Ledger.Gambler>)
    requires Sequences.SortedBy(sorted, Database.ByPayoffDescending)
    ensures forall i, j :: 0 <= i < j < |sorted| ==> sorted[i].payoff >= sorted[j].payoff
  {
    forall i, j | 0 <= i < j < |sorted|
      ensures sorted[i].payoff >= sorted[j].payoff
    {
      assert Database.ByPayoffDescending(sorted[i]) <= Database.ByPayoffDescending(sorted[j]);
    }
  }

  /**
   * update_leaderboard's global ranks: the gamblers sorted by payoff,
   * highest first, and the map from each gambler id to its 1-based
   * position. Ties keep no particular order.
   */
  method GlobalRanks(gamblers: seq<Ledger.Gambler>) returns (sorted: seq<Ledger.Gambler>, ranks: map<int, int>)
    requires Sequences.DistinctBy(gamblers, Database.GamblerId)
    ensures multiset(sorted) == multiset(gamblers)
    ensures forall i, j :: 0 <= i < j < |sorted| ==> sorted[i].payoff >= sorted[j].payoff
    ensures forall k :: 0 <= k < |sorted| ==> sorted[k].id in ranks && ranks[sorted[k].id] == k + 1
    ensures forall id :: id in ranks ==> exists k :: 0 <= k < |sorted| && sorted[k].id == id
    ensures forall g, h :: g in gamblers && h in gamblers && g.payoff > h.payoff ==>
              g.id in ranks && h.id in ranks && ranks[g.id] < ranks[h.id]
  {
    sorted := Sequences.SortBy(gamblers, Database.ByPayoffDescending);
    Sequences.SortKeepsDistinct(gamblers, Database.ByPayoffDescending, Database.GamblerId);
    PayoffOrder(sorted);
    ranks := RankMap(sorted);
    RanksFollowPayoff(gamblers, sorted, ranks);
  }

  /** Every gambler of the list is in the sorted list, so the rank order follows the payoff order for them all. */
  lemma RanksFollowPayoff(gamblers: seq<Ledger.Gambler>, sorted: seq<Ledger.Gambler>, ranks: map<int, int>)
    requires forall y :: y in gamblers ==> y in sorted
    requires forall i, j :: 0 <= i < j < |sorted| ==> sorted[i].payoff >= sorted[j].payoff
    requires forall k :: 0 <= k < |sorted| ==> sorted[k].id in ranks && ranks[sorted[k].id] == k + 1
    ensures forall g, h :: g in gamblers && h in gamblers && g.payoff > h.payoff ==>
              g.id in ranks && h.id in ranks && ranks[g.id] < ranks[h.id]
  {
    forall g, h | g in gamblers && h in gamblers && g.payoff > h.payoff
      ensures g.id in ranks && h.id in ranks && ranks[g.id] < ranks[h.id]
    {
      HigherPayoffRanksFirst(sorted, ranks, g, h);
    }
  }

  /** The result is not yet declared: winning_odd is not one of the outcome codes. */
  predicate Unresolved(b: Ledger.Bet)
  {
    !(b.winningOdd.Some? && Ledger.IsOutcome(b.winningOdd.value))
  }

  /** The typed text occurs, ignoring case, in "home away". */
  predicate MatchesQuery(b: Ledger.Bet, query: string)
  {
    Text.Contains(Text.Lower(b.homeTeam + " " + b.awayTeam), Text.Lower(query))
  }

  /** The kick-off is still ahead. */
  predicate Upcoming(b: Ledger.Bet, now: int) { b.deadline > now }

  /** The first 25 bets, in listing order, that the filter keeps. */
  function Shortlist(bets: seq<Ledger.Bet>, keep: Ledger.Bet -> bool): (r: seq<Ledger.Bet>)
    ensures |r| <= MaxChoices
    ensures forall b :: b in r ==> b in bets && keep(b)
    ensures forall b :: b in bets && keep(b) && b !in r ==> |r| == MaxChoices
  {
    Sequences.Take(Sequences.Filter(bets, keep), MaxChoices)
  }

  /** The bets the /bet command offers: unresolved, upcoming and matching the text typed. */
  function PlaceBetOptions(bets: seq<Ledger.Bet>, query: string, now: int): (r: seq<Ledger.Bet>)
    ensures |r| <= MaxChoices
    ensures forall b :: b in r ==> b in bets && Unresolved(b) && MatchesQuery(b, query) && Upcoming(b, now)
    ensures forall b :: b in bets && Unresolved(b) && MatchesQuery(b, query) && Upcoming(b, now) && b !in r ==>
              |r| == MaxChoices
  {
    Shortlist(bets, b => Unresolved(b) && MatchesQuery(b, query) && Upcoming(b, now))
  }

  /** The bets the /bet_as command offers: as for /bet, except that an administrator also sees past bets. */
  function BetAsOptions(bets: seq<Ledger.Bet>, query: string, now: int, isAdmin: bool): (r: seq<Ledger.Bet>)
    ensures |r| <= MaxChoices
    ensures forall b :: b in r ==> b in bets && Unresolved(b) && MatchesQuery(b, query) && (Upcoming(b, now) || isAdmin)
    ensures forall b :: b in bets && Unresolved(b) && MatchesQuery(b, query) && (Upcoming(b, now) || isAdmin) && b !in r ==>
              |r| == MaxChoices
  {
    Shortlist(bets, b => Unresolved(b) && MatchesQuery(b, query) && (Upcoming(b, now) || isAdmin))
  }

  /** The bets the /result command offers: unresolved and matching, whatever their deadline. */
  function ResultOptions(bets: seq<Ledger.Bet>, query: string): (r: seq<Ledger.Bet>)
    ensures |r| <= MaxChoices
    ensures forall b :: b in r ==> b in bets && Unresolved(b) && MatchesQuery(b, query)
    ensures forall b :: b in bets && Unresolved(b) && MatchesQuery(b, query) && b !in r ==> |r| == MaxChoices
  {
    Shortlist(bets, b => Unresolved(b) && MatchesQuery(b, query))
  }

  /** For a gambler without the admin role /bet_as offers what /bet offers; for an admin, what /result offers. */
  lemma BetAsBetweenPlaceAndResult(bets: seq<Ledger.Bet>, query: string, now: int)
    ensures BetAsOptions(bets, query, now, false) == PlaceBetOptions(bets, query, now)
    ensures BetAsOptions(bets, query, now, true) == ResultOptions(bets, query)
  {
    Sequences.FilterAgrees(bets,
      b => Unresolved(b) && MatchesQuery(b, query) && (Upcoming(b, now) || false),
      b => Unresolved(b) && MatchesQuery(b, query) && Upcoming(b, now));
    Sequences.FilterAgrees(bets,
      b => Unresolved(b) && MatchesQuery(b, query) && (Upcoming(b, now) || true),
      b => Unresolved(b) && MatchesQuery(b, query));
  }

  function Pow10(n: nat): (p: nat)
    ensures p >= 1
  {
    if n == 0 then 1 else 10 * Pow10(n - 1)
  }

  /** The value of a digit string with at least one digit. */
  function Numeral(s: string): Option<real>
  {
    if |s| >= 1 && Text.AllDigits(s) then Some(Text.DigitsValue(s) as real) else None
  }

  /**
   * float() on a plain decimal numeral without a sign: digits, optionally a
   * point and more digits, with at least one digit on either side.
   */
  function Decimal(s: string): Option<real>
  {
    var parts := Text.Split(s, '.');
    if |parts| == 1 then Numeral(s)
    else if |parts| == 2 && |parts[0]| + |parts[1]| >= 1 && Text.AllDigits(parts[0]) && Text.AllDigits(parts[1]) then
      Some(Text.DigitsValue(parts[0]) as real + Text.DigitsValue(parts[1]) as real / Pow10(|parts[1]|) as real)
    else None
  }

  /** float() on a decimal numeral with an optional sign; None where it raises ValueError. */
  function ParseFloat(s: string): Option<real>
  {
    if |s| >= 1 && (s[0] == '-' || s[0] == '+') then
      match Decimal(s[1..])
      case None => None
      case Some(v) => Some(if s[0] == '-' then -v else v)
    else Decimal(s)
  }

  /** Every natural number written in decimal is read back as itself. */
  lemma ParseFloatShowNat(n: nat)
    ensures ParseFloat(Text.ShowNat(n)) == Some(n as real)
  {
    var s := Text.ShowNat(n);
    assert '.' !in s by {
      forall i | 0 <= i < |s| ensures s[i] != '.' {
        assert Text.IsDigit(s[i]);
      }
    }
    Text.SplitNoSep(s, '.');
    Text.ShowNatValue(n);
  }

  /** The argument of isCorrectOdd: a string or any other value. */
  datatype OddArgument = Str(text: string) | NotStr

  /**
   * isCorrectOdd: a string with ',' read as the decimal point, parsed as a
   * float and accepted when at least 1; False (here None) otherwise.
   */
  function IsCorrectOdd(arg: OddArgument): (r: Option<real>)
    ensures arg.NotStr? ==> r == None
    ensures r.Some? ==> r.value >= 1.0
    ensures arg.Str? ==>
              match ParseFloat(Text.ReplaceChar(arg.text, ',', '.'))
              case None => r == None
              case Some(v) => r == if v >= 1.0 then Some(v) else None
  {
    match arg
    case NotStr => None
    case Str(text) =>
      match ParseFloat(Text.ReplaceChar(text, ',', '.'))
      case None => None
      case Some(v) => if v < 1.0 then None else Some(v)
  }

  /** Writing the decimal point as ',' or as '.' makes no difference. */
  lemma {:induction false} CommaReadAsPoint(s: string)
    ensures IsCorrectOdd(Str(s)) == IsCorrectOdd(Str(Text.ReplaceChar(s, ',', '.')))
  {
    var once := Text.ReplaceChar(s, ',', '.');
    var twice := Text.ReplaceChar(once, ',', '.');
    assert |twice| == |once|;
    assert forall i :: 0 <= i < |once| ==> twice[i] == once[i];
    assert twice == once;
  }

  /** The comma spelling of two and a half is accepted as 2.5. */
  lemma CommaOddAccepted()
    ensures IsCorrectOdd(Str("2,5")) == Some(2.5)
  {
    var t := "2" + ['.'] + "5";
    assert Text.ReplaceChar("2,5", ',', '.') == t;
    Text.SplitJoin("2", '.', "5");
    assert Text.DigitsValue("2") == 2 && Text.DigitsValue("5") == 5;
    assert Decimal(t) == Some(2.5);
    assert ParseFloat(t) == Decimal(t);
  }

  /** An odd below 1 is refused. */
  lemma OddBelowOneRefused()
    ensures IsCorrectOdd(Str("0.9")) == None
  {
    var t := "0" + ['.'] + "9";
    assert Text.ReplaceChar("0.9", ',', '.') == t;
    Text.SplitJoin("0", '.', "9");
    assert Text.DigitsValue("0") == 0 && Text.DigitsValue("9") == 9;
    assert Decimal(t) == Some(0.9);
    assert ParseFloat(t) == Decimal(t);
  }
}
