/** The dice panel: the confetti rule, the roll a throw produces and what it writes, and
    the flags that decide whether this device may throw at all. The dice values are a
    parameter: the app draws them with `Math.random`. */
module DicePanel {
  import opened Common
  import opened Records
  import opened Storage
  import opened Mutations
  import PlayerMerge
  import Game

  // ---------------------------------------------------------------- confetti

  /** `fireConfetti`'s test: a six with one die, 11 or more with two, 16 or more with three. */
  predicate ShouldConfetti(sum: int, diceCount: int)
    ensures ShouldConfetti(sum, diceCount) ==> 1 <= diceCount <= 3 && sum > 5 * diceCount
  {
    || (diceCount == 1 && sum == 6)
    || (diceCount == 2 && sum >= 11)
    || (diceCount == 3 && sum >= 16)
  }

  /** Every value is a face of a six-sided die. */
  predicate ValidFaces(values: seq<int>)
  {
    forall i :: 0 <= i < |values| ==> 1 <= values[i] <= 6
  }

  /** For real throws of one to three dice, confetti fires exactly when the dice average
      more than five, and never for any other number of dice. */
  lemma {:induction false} ConfettiMeansAverageAboveFive(values: seq<int>)
    requires ValidFaces(values)
    ensures ShouldConfetti(Sum(values), |values|) <==> 1 <= |values| <= 3 && Sum(values) > 5 * |values|
  {
    SumBounds(values, 1, 6);
  }

  // ---------------------------------------------------------------- the roll

  /** `players[index] || null`: the player whose turn it is. */
  function CurrentPlayer(players: seq<Player>, index: int): (c: Option<Player>)
    ensures c.Some? <==> 0 <= index < |players|
    ensures c.Some? ==> c.value == players[index]
  {
    if 0 <= index < |players| then Some(players[index]) else None
  }

  /** The entry `roll()` builds: `currentPlayer?.id || null`, `currentPlayer?.name || 'Guest'`,
      the dice and their sum, the session and the round. */
  function EntryFor(current: Option<Player>, values: seq<int>, sessionId: string, round: real): (e: RollEntry)
    ensures e.total == Sum(values) && e.diceValues == values && e.diceCount == |values|
    ensures e.playerId.None? <==> current.None? || current.value.id == ""
    ensures e.playerId.Some? ==> e.playerId.value == current.value.id
    ensures e.playerName != ""
    ensures current.Some? && current.value.name != "" ==> e.playerName == current.value.name
    ensures e.sessionId == sessionId && e.roundNumber == round
  {
    var pid := if current.Some? && current.value.id != "" then Some(current.value.id) else None;
    var pname := if current.Some? && current.value.name != "" then current.value.name else "Guest";
    RollEntry(pid, pname, |values|, values, Sum(values), sessionId, round)
  }

  /** Whether a throw raises the current player's best score. */
  predicate RaisesBest(current: Option<Player>, sum: int)
  {
    current.Some? && current.value.highestTotal < sum
  }

  /** `roll()`: saves the throw at the front of the log, then records a new best score
      for the current player if the sum beats it. Returns the sum. */
  function RollDice(s: Store, sess: Session, current: Option<Player>, values: seq<int>, sessionId: string,
                    round: real, newId: string, now: int): (r: Done<int>)
    ensures r.value == Sum(values)
    ensures var before := ReadRolls(s, ActiveRollsKey(sess));
      var after := ReadRolls(r.store, ActiveRollsKey(sess));
      && |after| == |before| + 1 && after[1..] == before
      && after[0].id == newId && after[0].createdAt == now
      && EntryOf(after[0]) == EntryFor(current, values, sessionId, round)
      && after[0].partyCode == ActiveCode(sess.partyCode)
    ensures RaisesBest(current, Sum(values)) ==>
      ReadPlayers(r.store, ActivePlayersKey(sess))
        == UpdateMatching(ReadPlayers(s, ActivePlayersKey(sess)), current.value.id, Sum(values), values)
    ensures !RaisesBest(current, Sum(values)) ==> r.store.players == s.players
    ensures |r.effects| >= 1 && r.effects[0] == Wrote(ActiveRollsKey(sess))
    ensures RaisesBest(current, Sum(values)) <==> Wrote(ActivePlayersKey(sess)) in r.effects
  {
    var sum := Sum(values);
    var saved := SaveRoll(s, sess, EntryFor(current, values, sessionId, round), newId, now);
    KeysSeparateNamespaces(None, sess.partyCode, None, sess.partyCode);
    if RaisesBest(current, sum) then
      var up := UpdatePlayerHighest(saved.store, sess, current.value.id, sum, values);
      assert up.effects[0] == Wrote(ActivePlayersKey(sess));
      Done(up.store, saved.effects + up.effects, sum)
    else
      Done(saved.store, saved.effects, sum)
  }

  /** After a throw by the current player, found under its id in a duplicate-free roster,
      its best score is the larger of the old best and the sum (with these dice when the
      sum won), and every other player's record is unchanged. */
  lemma {:induction false} RollKeepsBestScore(s: Store, sess: Session, p: Player, values: seq<int>, sessionId: string,
                           round: real, newId: string, now: int, other: string)
    requires PlayerMerge.Lookup(ReadPlayers(s, ActivePlayersKey(sess)), p.id) == Some(p)
    ensures var r := RollDice(s, sess, Some(p), values, sessionId, round, newId, now);
      var q := PlayerMerge.Lookup(ReadPlayers(r.store, ActivePlayersKey(sess)), p.id);
      && q.Some?
      && q.value.highestTotal == (if p.highestTotal < Sum(values) then Sum(values) else p.highestTotal)
      && (p.highestTotal < Sum(values) ==> q.value.highestDiceValues == values)
      && (other != p.id ==>
            PlayerMerge.Lookup(ReadPlayers(r.store, ActivePlayersKey(sess)), other)
              == PlayerMerge.Lookup(ReadPlayers(s, ActivePlayersKey(sess)), other))
  {
    var before := ReadPlayers(s, ActivePlayersKey(sess));
    UpdateMatchingLookup(before, p.id, Sum(values), values, p.id);
    UpdateMatchingLookup(before, p.id, Sum(values), values, other);
  }

  /** A throw adds its sum to the running total of its player's key in the derived game,
      and leaves every other key's total alone. */
  lemma {:induction false} RollAddsToTotal(s: Store, sess: Session, current: Option<Player>, values: seq<int>, sessionId: string,
                        round: real, newId: string, now: int, k: string)
    ensures var before := ReadRolls(s, ActiveRollsKey(sess));
      var after := ReadRolls(RollDice(s, sess, current, values, sessionId, round, newId, now).store, ActiveRollsKey(sess));
      var mine := Game.ObjectKey(EntryFor(current, values, sessionId, round).playerId);
      Game.SumAt(Game.Totals(Game.Replay(after)), k)
        == Game.SumAt(Game.Totals(Game.Replay(before)), k) + (if k == mine then Sum(values) else 0)
  {
    var before := ReadRolls(s, ActiveRollsKey(sess));
    var after := ReadRolls(RollDice(s, sess, current, values, sessionId, round, newId, now).store, ActiveRollsKey(sess));
    var e := EntryFor(current, values, sessionId, round);
    assert after[0].playerId == e.playerId && after[0].total == Sum(values);
    Game.TotalsAreSums(before);
    Game.TotalsAreSums(after);
    assert Game.SumFor(after, k) == (if Game.ObjectKey(e.playerId) == k then Sum(values) else 0) + Game.SumFor(before, k);
  }

  // ---------------------------------------------------------------- who may throw

  /** `disabled`: a throw is in progress, nobody's turn, or the game has a winner. */
  predicate Disabled(rolling: bool, current: Option<Player>, winner: Option<string>)
  {
    rolling || current.None? || (winner.Some? && winner.value != "")
  }

  /** `authorized`: the player whose turn it is was created on this device. */
  predicate Authorized(current: Option<Player>, deviceId: string)
  {
    current.Some? && current.value.ownerDeviceId == deviceId
  }

  /** `rollDisabled`: the dice buttons are off. */
  predicate RollDisabled(rolling: bool, current: Option<Player>, winner: Option<string>, deviceId: string)
  {
    Disabled(rolling, current, winner) || !Authorized(current, deviceId)
  }

  /** In the derived game, this device may throw exactly when no throw is in progress,
      the game has players and no winner, and the player whose turn it is belongs to this
      device. In particular nobody can throw once a winner is declared. */
  lemma ThrowAllowedExactly(players: seq<Player>, rolls: seq<Roll>, rounds: real, rolling: bool, deviceId: string)
    ensures var g := Game.Derive(players, rolls, rounds);
      var cur := CurrentPlayer(players, g.index);
      && (!RollDisabled(rolling, cur, g.winner, deviceId) <==>
            && !rolling
            && |players| > 0
            && g.winner.None?
            && players[g.index].ownerDeviceId == deviceId)
      && (g.winner.Some? ==> RollDisabled(rolling, cur, g.winner, deviceId))
  {
  }
}
