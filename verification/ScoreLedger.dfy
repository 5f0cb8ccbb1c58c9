/**
 The score ledger of the chat games (apps/bot/services/games.py): one score per
 player and chat, changed by wagers, duels, daily claims and bonuses. Times are
 seconds.
 */
module ScoreLedger {
  import opened Wrappers

  /** A player in a chat. */
  datatype Player = Player(user: int, chat: int)

  datatype Row = Row(score: int, lastDaily: Option<int>)

  type Rows = map<Player, Row>

  const DAILY_AMOUNT := 50
  const DAY := 24 * 3600

  function RowOf(rows: Rows, p: Player): Row {
    if p in rows then rows[p] else Row(0, None)
  }

  function ScoreOf(rows: Rows, p: Player): int {
    RowOf(rows, p).score
  }

  /** A score changed by `delta`, held at zero from below. */
  function Clamped(rows: Rows, p: Player, delta: int): Rows {
    var score := ScoreOf(rows, p) + delta;
    rows[p := RowOf(rows, p).(score := if score < 0 then 0 else score)]
  }

  function Min(a: int, b: int): int {
    if a < b then a else b
  }

  function Settled(rows: Rows, winner: Player, loser: Player, reward: int): Rows {
    var loss := Min(reward, ScoreOf(rows, loser));
    Clamped(if loss != 0 then Clamped(rows, loser, -loss) else rows, winner, reward)
  }

  predicate MayClaim(rows: Rows, p: Player, now: int) {
    RowOf(rows, p).lastDaily.None? || now >= RowOf(rows, p).lastDaily.value + DAY
  }

  class ScoreBook {
    var rows: Rows

    constructor ()
      ensures rows == map[]
    {
      rows := map[];
    }

    method GetScore(p: Player) returns (score: int)
      ensures score == ScoreOf(rows, p)
    {
      score := if p in rows then rows[p].score else 0;
    }

    /** The row, made with score 0 if the player had none. */
    method ScoreRow(p: Player) returns (row: Row)
      modifies this
      ensures rows == old(rows)[p := RowOf(old(rows), p)] && row == RowOf(old(rows), p)
    {
      if p !in rows {
        rows := rows[p := Row(0, None)];
      }
      row := rows[p];
    }

    method AddScore(p: Player, delta: int) returns (score: int)
      modifies this
      ensures rows == Clamped(old(rows), p, delta) && score == ScoreOf(rows, p)
      ensures var before := if p in old(rows) then old(rows)[p] else Row(0, None);
              && score == (if before.score + delta >= 0 then before.score + delta else 0)
              && rows == old(rows)[p := Row(score, before.lastDaily)]
    {
      var row := ScoreRow(p);
      score := if row.score + delta < 0 then 0 else row.score + delta;
      rows := rows[p := row.(score := score)];
    }

    /** The winner gains the reward; the loser pays as much of it as there is. */
    method PvpSettle(winner: Player, loser: Player, reward: int) returns (gain: int, loss: int)
      modifies this
      ensures rows == Settled(old(rows), winner, loser, reward)
      ensures gain == reward && loss == Min(reward, ScoreOf(old(rows), loser))
    {
      var balance := GetScore(loser);
      loss := if reward < balance then reward else balance;
      if loss != 0 {
        var left := AddScore(loser, -loss);
      }
      var score := AddScore(winner, reward);
      gain := reward;
    }

    /** A game against the house; None if the player cannot cover the stake. */
    method SoloWager(p: Player, stake: int, payout: int) returns (balance: Option<int>)
      modifies this
      ensures stake > ScoreOf(old(rows), p) ==> balance == None && rows == old(rows)
      ensures stake <= ScoreOf(old(rows), p) ==>
                rows == Clamped(old(rows), p, payout - stake) && balance == Some(ScoreOf(rows, p))
    {
      var have := GetScore(p);
      if stake > have {
        return None;
      }
      var score := AddScore(p, payout - stake);
      balance := Some(score);
    }

    method ClaimDaily(p: Player, now: int) returns (claimed: bool, amount: int, wait: int)
      modifies this
      ensures claimed <==> MayClaim(old(rows), p, now)
      ensures var before := if p in old(rows) then old(rows)[p] else Row(0, None);
              && (claimed <==> before.lastDaily.None? || now - before.lastDaily.value >= 86400)
              && (claimed ==> amount == 50 && wait == 0 && rows == old(rows)[p := Row(before.score + 50, Some(now))])
              && (!claimed ==> amount == 0 && wait == 86400 - (now - before.lastDaily.value) > 0)
              && (!claimed ==> rows == old(rows)[p := before])
    {
      var row := ScoreRow(p);
      if row.lastDaily.Some? {
        var readyAt := row.lastDaily.value + DAY;
        if now < readyAt {
          return false, 0, readyAt - now;
        }
      }
      rows := rows[p := Row(row.score + DAILY_AMOUNT, Some(now))];
      return true, DAILY_AMOUNT, 0;
    }

    /** What happens in a chat, done by the call that books it. */
    method Play(e: Event)
      modifies this
      ensures rows == Step(old(rows), e)
    {
      match e
      case Wager(p, stake, payout) =>
        var balance := SoloWager(p, stake, payout);
      case Duel(winner, loser, reward) =>
        var gain, loss := PvpSettle(winner, loser, reward);
      case Daily(p, now) =>
        var claimed, amount, wait := ClaimDaily(p, now);
      case Bonus(p, amount) =>
        var score := AddScore(p, amount);
    }
  }

  datatype Event =
    | Wager(p: Player, stake: int, payout: int)
    | Duel(winner: Player, loser: Player, reward: int)
    | Daily(p: Player, now: int)
    | Bonus(p: Player, amount: int)

  /** Payouts, rewards and bonuses are not negative. */
  predicate Fair(e: Event) {
    match e
    case Wager(_, _, payout) => payout >= 0
    case Duel(_, _, reward) => reward >= 0
    case Daily(_, _) => true
    case Bonus(_, amount) => amount >= 0
  }

  function Step(rows: Rows, e: Event): Rows {
    match e
    case Wager(p, stake, payout) => if stake > ScoreOf(rows, p) then rows else Clamped(rows, p, payout - stake)
    case Duel(winner, loser, reward) => Settled(rows, winner, loser, reward)
    case Daily(p, now) =>
      if MayClaim(rows, p, now) then rows[p := Row(ScoreOf(rows, p) + DAILY_AMOUNT, Some(now))]
      else rows[p := RowOf(rows, p)]
    case Bonus(p, amount) => Clamped(rows, p, amount)
  }

  function After(es: seq<Event>): Rows {
    if es == [] then map[] else Step(After(es[..|es| - 1]), es[|es| - 1])
  }

  /** What the event says was won and lost, before any clamp. */
  function Booked(rows: Rows, e: Event): int {
    match e
    case Wager(p, stake, payout) => if stake > ScoreOf(rows, p) then 0 else payout - stake
    case Duel(winner, loser, reward) => reward - Min(reward, ScoreOf(rows, loser))
    case Daily(p, now) => if MayClaim(rows, p, now) then DAILY_AMOUNT else 0
    case Bonus(p, amount) => amount
  }

  function AllBooked(es: seq<Event>): int {
    if es == [] then 0 else AllBooked(es[..|es| - 1]) + Booked(After(es[..|es| - 1]), es[|es| - 1])
  }

  ghost function Total(rows: Rows): int {
    if rows == map[] then 0
    else
      var p :| p in rows;
      rows[p].score + Total(rows - {p})
  }

  /** Any row can be taken out of the total first. */
  lemma {:induction false} TotalWithout(rows: Rows, p: Player)
    requires p in rows
    ensures Total(rows) == rows[p].score + Total(rows - {p})
    decreases |rows|
  {
    var q :| q in rows && Total(rows) == rows[q].score + Total(rows - {q});
    if q != p {
      TotalWithout(rows - {q}, p);
      TotalWithout(rows - {p}, q);
      assert rows - {q} - {p} == rows - {p} - {q};
    }
  }

  lemma TotalWith(rows: Rows, p: Player, row: Row)
    ensures Total(rows[p := row]) == Total(rows) - ScoreOf(rows, p) + row.score
  {
    TotalWithout(rows[p := row], p);
    assert rows[p := row] - {p} == rows - {p};
    if p in rows {
      TotalWithout(rows, p);
    } else {
      assert rows - {p} == rows;
    }
  }

  ghost predicate NoneNegative(rows: Rows) {
    forall p :: p in rows ==> rows[p].score >= 0
  }

  /** Where nothing is held back, a change of score changes the total by as much. */
  lemma ClampedTotal(rows: Rows, p: Player, delta: int)
    requires NoneNegative(rows) && ScoreOf(rows, p) + delta >= 0
    ensures NoneNegative(Clamped(rows, p, delta)) && Total(Clamped(rows, p, delta)) == Total(rows) + delta
    ensures ScoreOf(Clamped(rows, p, delta), p) == ScoreOf(rows, p) + delta
  {
    TotalWith(rows, p, RowOf(rows, p).(score := ScoreOf(rows, p) + delta));
  }

  lemma DuelTotal(rows: Rows, winner: Player, loser: Player, reward: int)
    requires NoneNegative(rows) && Fair(Duel(winner, loser, reward))
    ensures var e := Duel(winner, loser, reward);
            NoneNegative(Step(rows, e)) && Total(Step(rows, e)) == Total(rows) + Booked(rows, e)
  {
    var loss := Min(reward, ScoreOf(rows, loser));
    ClampedTotal(rows, loser, -loss);
    ClampedTotal(if loss != 0 then Clamped(rows, loser, -loss) else rows, winner, reward);
  }

  lemma StepTotal(rows: Rows, e: Event)
    requires NoneNegative(rows) && Fair(e)
    ensures NoneNegative(Step(rows, e)) && Total(Step(rows, e)) == Total(rows) + Booked(rows, e)
  {
    match e
    case Wager(p, stake, payout) =>
      if stake <= ScoreOf(rows, p) {
        ClampedTotal(rows, p, payout - stake);
      }
    case Duel(winner, loser, reward) => DuelTotal(rows, winner, loser, reward);
    case Daily(p, now) =>
      TotalWith(rows, p, Row(ScoreOf(rows, p) + DAILY_AMOUNT, Some(now)));
      TotalWith(rows, p, RowOf(rows, p));
    case Bonus(p, amount) => ClampedTotal(rows, p, amount);
  }

  /**
   In every run no score is ever negative and the scores add up to exactly what was booked:
   the clamp never loses anything.
   */
  lemma {:induction false} SupplyIsBooked(es: seq<Event>)
    requires forall i :: 0 <= i < |es| ==> Fair(es[i])
    ensures NoneNegative(After(es)) && Total(After(es)) == AllBooked(es)
  {
    if es != [] {
      SupplyIsBooked(es[..|es| - 1]);
      StepTotal(After(es[..|es| - 1]), es[|es| - 1]);
    }
  }

  /** A duel moves what the loser has and creates the rest of the reward. */
  lemma DuelMoves(rows: Rows, winner: Player, loser: Player, reward: int)
    requires NoneNegative(rows) && reward >= 0 && winner != loser
    ensures var rows' := Step(rows, Duel(winner, loser, reward));
            && ScoreOf(rows', winner) == ScoreOf(rows, winner) + reward
            && ScoreOf(rows', loser) == (if ScoreOf(rows, loser) >= reward then ScoreOf(rows, loser) - reward else 0)
            && forall p :: p != winner && p != loser ==> ScoreOf(rows', p) == ScoreOf(rows, p)
  {
  }

  // ----- daily claims -----

  /** When `p` claimed successfully, in order. */
  function Claims(es: seq<Event>, p: Player): seq<int> {
    if es == [] then []
    else
      var before, e := es[..|es| - 1], es[|es| - 1];
      Claims(before, p) + if e.Daily? && e.p == p && MayClaim(After(before), p, e.now) then [e.now] else []
  }

  /** Each claim is at least a day after the one before, whatever the clock does in between. */
  lemma {:induction false} ClaimsAreDaysApart(es: seq<Event>, p: Player)
    ensures forall i :: 0 <= i < |Claims(es, p)| - 1 ==> Claims(es, p)[i + 1] >= Claims(es, p)[i] + 86400
    ensures RowOf(After(es), p).lastDaily
            == if Claims(es, p) == [] then None else Some(Claims(es, p)[|Claims(es, p)| - 1])
  {
    if es != [] {
      var before, e := es[..|es| - 1], es[|es| - 1];
      ClaimsAreDaysApart(before, p);
      StepLastDaily(After(before), e, p);
    }
  }

  /** Only a successful claim changes when a player last claimed. */
  lemma StepLastDaily(rows: Rows, e: Event, p: Player)
    ensures RowOf(Step(rows, e), p).lastDaily
            == if e.Daily? && e.p == p && MayClaim(rows, p, e.now) then Some(e.now) else RowOf(rows, p).lastDaily
  {
  }

  /** A daily claim is one in a run exactly if the player's last one, if any, was at least a day before. */
  lemma ClaimsIff(es: seq<Event>, p: Player, now: int)
    ensures var before := Claims(es, p);
            Claims(es + [Daily(p, now)], p)
            == if before == [] || now - before[|before| - 1] >= 86400 then before + [now] else before
  {
    ClaimsAreDaysApart(es, p);
    assert (es + [Daily(p, now)])[..|es|] == es;
  }

  /** So `n` claims span at least `n - 1` days. */
  lemma {:induction false} ClaimsSpan(es: seq<Event>, p: Player, i: nat, j: nat)
    requires i <= j < |Claims(es, p)|
    ensures Claims(es, p)[j] - Claims(es, p)[i] >= (j - i) * 86400
    decreases j
  {
    ClaimsAreDaysApart(es, p);
    if i < j {
      ClaimsSpan(es, p, i, j - 1);
    }
  }
}
