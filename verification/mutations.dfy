/** The public write operations of the party store. Each reads the active namespace,
    computes the new list, writes it back and, for additions and score updates, announces
    the changed record to the peers of the room. Deletions are never announced. */
module Mutations {
  import opened Common
  import opened Records
  import opened Text
  import opened Storage
  import PlayerMerge

  /** A write is announced to the peers only when a room's send functions exist and the
      active namespace is not the device-only one. */
  predicate Broadcasts(sess: Session)
  {
    sess.online && ActiveCode(sess.partyCode) != LocalCode
  }

  /** The update-channel announcement that follows a write, if any. */
  function Announce(sess: Session, msg: Message): seq<Effect>
  {
    if Broadcasts(sess) then [Sent(Update, None, msg)] else []
  }

  // ---------------------------------------------------------------- addPlayer

  /** `addPlayer(name, emoji)`: appends a new record owned by this device to the active
      namespace, announces it, and returns it. `newId` and `now` stand for the fresh
      identifier and the wall-clock reading the app obtains itself. */
  function AddPlayer(s: Store, sess: Session, name: string, emoji: string, newId: string, now: int): (r: Done<Player>)
    ensures r.value.id == newId && r.value.name == name && r.value.emoji == emoji
    ensures r.value.highestTotal == 0 && r.value.highestDiceValues == []
    ensures r.value.createdAt == now && r.value.ownerDeviceId == sess.deviceId
    ensures r.value.partyCode == ActiveCode(sess.partyCode)
    ensures ReadPlayers(r.store, ActivePlayersKey(sess)) == ReadPlayers(s, ActivePlayersKey(sess)) + [r.value]
    ensures forall k :: k != ActivePlayersKey(sess) ==> ReadPlayers(r.store, k) == ReadPlayers(s, k)
    ensures r.store.rolls == s.rolls
    ensures r.effects == [Wrote(ActivePlayersKey(sess))] + Announce(sess, PlayersDelta([r.value]))
  {
    var key := ActivePlayersKey(sess);
    var p := Player(newId, name, emoji, 0, [], now, sess.deviceId, ActiveCode(sess.partyCode));
    var w := WritePlayers(s, key, ReadPlayers(s, key) + [p]);
    Done(w.store, w.effects + Announce(sess, PlayersDelta([p])), p)
  }

  /** With a fresh identifier, adding keeps the namespace free of duplicate ids and makes
      the new record the one found under its id. */
  lemma {:induction false} AddPlayerKeepsUnique(s: Store, sess: Session, name: string, emoji: string, newId: string, now: int)
    requires UniquePlayerIds(ReadPlayers(s, ActivePlayersKey(sess)))
    requires newId !in PlayerIds(ReadPlayers(s, ActivePlayersKey(sess)))
    ensures var r := AddPlayer(s, sess, name, emoji, newId, now);
      && UniquePlayerIds(ReadPlayers(r.store, ActivePlayersKey(sess)))
      && PlayerMerge.Lookup(ReadPlayers(r.store, ActivePlayersKey(sess)), newId) == Some(r.value)
  {
    var before := ReadPlayers(s, ActivePlayersKey(sess));
    var r := AddPlayer(s, sess, name, emoji, newId, now);
    var after := ReadPlayers(r.store, ActivePlayersKey(sess));
    assert after == before + [r.value];
    forall i, j | 0 <= i < j < |after|
      ensures after[i].id != after[j].id
    {
      if j == |before| {
        assert after[i] == before[i];
      }
    }
    PlayerMerge.LookupUnique(after, r.value);
  }

  // ---------------------------------------------------------------- saveRoll

  /** The stored form of a roll: the entry's fields plus identifier, time and namespace. */
  function StampRoll(entry: RollEntry, newId: string, now: int, code: string): (r: Roll)
    ensures EntryOf(r) == entry
    ensures r.id == newId && r.createdAt == now && r.partyCode == code
  {
    Roll(newId, entry.playerId, entry.playerName, entry.diceCount, entry.diceValues,
         entry.total, entry.sessionId, entry.roundNumber, now, code)
  }

  /** The fields of a stored roll that came from the dice panel. */
  function EntryOf(r: Roll): RollEntry
  {
    RollEntry(r.playerId, r.playerName, r.diceCount, r.diceValues, r.total, r.sessionId, r.roundNumber)
  }

  /** `saveRoll(entry)`: puts the stamped roll at the front of the active namespace's list
      (without re-sorting) and announces it. */
  function SaveRoll(s: Store, sess: Session, entry: RollEntry, newId: string, now: int): (r: Done<()>)
    ensures var saved := StampRoll(entry, newId, now, ActiveCode(sess.partyCode));
      && ReadRolls(r.store, ActiveRollsKey(sess)) == [saved] + ReadRolls(s, ActiveRollsKey(sess))
      && r.effects == [Wrote(ActiveRollsKey(sess))] + Announce(sess, RollsDelta([saved]))
    ensures forall k :: k != ActiveRollsKey(sess) ==> ReadRolls(r.store, k) == ReadRolls(s, k)
    ensures r.store.players == s.players
  {
    var key := ActiveRollsKey(sess);
    var roll := StampRoll(entry, newId, now, ActiveCode(sess.partyCode));
    var w := WriteRolls(s, key, [roll] + ReadRolls(s, key));
    Done(w.store, w.effects + Announce(sess, RollsDelta([roll])), ())
  }

  /** Prepending keeps the list newest first exactly when the clock has not gone back
      behind the current head; with a fresh identifier it keeps ids unique. */
  lemma {:induction false} SaveRollInvariants(s: Store, sess: Session, entry: RollEntry, newId: string, now: int)
    requires NewestFirst(ReadRolls(s, ActiveRollsKey(sess)))
    ensures var before := ReadRolls(s, ActiveRollsKey(sess));
      var after := ReadRolls(SaveRoll(s, sess, entry, newId, now).store, ActiveRollsKey(sess));
      && (NewestFirst(after) <==> (before == [] || now >= before[0].createdAt))
      && (UniqueRollIds(before) && newId !in RollIds(before) ==> UniqueRollIds(after))
  {
    var before := ReadRolls(s, ActiveRollsKey(sess));
    var after := ReadRolls(SaveRoll(s, sess, entry, newId, now).store, ActiveRollsKey(sess));
    if before == [] || now >= before[0].createdAt {
      forall i, j | 0 <= i < j < |after|
        ensures after[i].createdAt >= after[j].createdAt
      {
        assert after[j] == before[j - 1];
        if i > 0 {
          assert after[i] == before[i - 1];
        }
      }
    } else {
      assert after[0].createdAt < after[1].createdAt;
    }
    if UniqueRollIds(before) && newId !in RollIds(before) {
      forall i, j | 0 <= i < j < |after|
        ensures after[i].id != after[j].id
      {
        assert after[j] == before[j - 1];
        if i > 0 {
          assert after[i] == before[i - 1];
        }
      }
    }
  }

  /** A roll saved after a peer's later-stamped roll has been merged lands ahead of it,
      so the stored list is no longer newest first. */
  lemma {:induction false} SaveRollAfterSkewedPeer()
    ensures var sess := Session("party", "dev", true);
      var peer := Roll("r1", None, "Ana", 1, [6], 6, "s", 1.0, 200, "party");
      var s := Store(map[], map[ActiveRollsKey(sess) := [peer]]);
      var entry := RollEntry(None, "Bo", 1, [2], 2, "s", 1.0);
      !NewestFirst(ReadRolls(SaveRoll(s, sess, entry, "r2", 100).store, ActiveRollsKey(sess)))
  {
    var sess := Session("party", "dev", true);
    var peer := Roll("r1", None, "Ana", 1, [6], 6, "s", 1.0, 200, "party");
    var s := Store(map[], map[ActiveRollsKey(sess) := [peer]]);
    var entry := RollEntry(None, "Bo", 1, [2], 2, "s", 1.0);
    var after := ReadRolls(SaveRoll(s, sess, entry, "r2", 100).store, ActiveRollsKey(sess));
    assert after[0].createdAt == 100 && after[1] == peer;
  }

  // ---------------------------------------------------------------- updatePlayerHighest

  /** A player record with its best score replaced. */
  function WithHighest(p: Player, total: int, dice: seq<int>): Player
  {
    p.(highestTotal := total, highestDiceValues := dice)
  }

  /** `players.map(...)`: every record with the given id gets the new best score. */
  function UpdateMatching(ps: seq<Player>, id: string, total: int, dice: seq<int>): (r: seq<Player>)
    ensures |r| == |ps|
    ensures forall i :: 0 <= i < |ps| ==> r[i] == if ps[i].id == id then WithHighest(ps[i], total, dice) else ps[i]
  {
    if |ps| == 0 then []
    else [if ps[0].id == id then WithHighest(ps[0], total, dice) else ps[0]] + UpdateMatching(ps[1..], id, total, dice)
  }

  /** `updatePlayerHighest(id, total, diceValues)`: rewrites the namespace (even when no
      record matches) and announces the last updated record, if there was one. */
  function UpdatePlayerHighest(s: Store, sess: Session, id: string, total: int, dice: seq<int>): (r: Done<()>)
    ensures var before := ReadPlayers(s, ActivePlayersKey(sess));
      && ReadPlayers(r.store, ActivePlayersKey(sess)) == UpdateMatching(before, id, total, dice)
      && r.effects == [Wrote(ActivePlayersKey(sess))] +
           match PlayerMerge.LastWithId(before, id)
           case None => []
           case Some(p) => Announce(sess, PlayersDelta([WithHighest(p, total, dice)]))
    ensures forall k :: k != ActivePlayersKey(sess) ==> ReadPlayers(r.store, k) == ReadPlayers(s, k)
    ensures r.store.rolls == s.rolls
  {
    var key := ActivePlayersKey(sess);
    var before := ReadPlayers(s, key);
    var w := WritePlayers(s, key, UpdateMatching(before, id, total, dice));
    var announced :=
      match PlayerMerge.LastWithId(before, id)
      case None => []
      case Some(p) => Announce(sess, PlayersDelta([WithHighest(p, total, dice)]));
    Done(w.store, w.effects + announced, ())
  }

  /** Updating a best score keeps the ids, their order and their uniqueness. */
  lemma {:induction false} UpdateMatchingIds(ps: seq<Player>, id: string, total: int, dice: seq<int>)
    ensures var r := UpdateMatching(ps, id, total, dice);
      && (forall i :: 0 <= i < |ps| ==> r[i].id == ps[i].id)
      && PlayerIds(r) == PlayerIds(ps)
      && (UniquePlayerIds(ps) ==> UniquePlayerIds(r))
  {
    var r := UpdateMatching(ps, id, total, dice);
    forall i | 0 <= i < |ps|
      ensures r[i].id == ps[i].id
    {
    }
    SameIdsSameSets(ps, r);
  }

  /** Only the two score fields of a matching record change: every record is its old self
      with possibly new scores, and records with another id are untouched. */
  lemma UpdateMatchingFrame(ps: seq<Player>, id: string, total: int, dice: seq<int>)
    ensures var r := UpdateMatching(ps, id, total, dice);
      && (forall i :: 0 <= i < |ps| ==> r[i] == WithHighest(ps[i], r[i].highestTotal, r[i].highestDiceValues))
      && (forall i :: 0 <= i < |ps| && ps[i].id != id ==> r[i] == ps[i])
  {
  }

  /** The lookup under `id` sees the new score, and lookups under other ids are unchanged. */
  lemma {:induction false} UpdateMatchingLookup(ps: seq<Player>, id: string, total: int, dice: seq<int>, other: string)
    ensures var r := UpdateMatching(ps, id, total, dice);
      PlayerMerge.Lookup(r, other) == match PlayerMerge.Lookup(ps, other)
                                      case None => None
                                      case Some(p) => Some(if other == id then WithHighest(p, total, dice) else p)
  {
    if |ps| > 0 {
      UpdateMatchingLookup(ps[1..], id, total, dice, other);
      assert UpdateMatching(ps, id, total, dice)[1..] == UpdateMatching(ps[1..], id, total, dice);
    }
  }

  /** Applying the same update twice is the same as applying it once. */
  lemma {:induction false} UpdateMatchingIdempotent(ps: seq<Player>, id: string, total: int, dice: seq<int>)
    ensures var r := UpdateMatching(ps, id, total, dice);
      UpdateMatching(r, id, total, dice) == r
  {
    var r := UpdateMatching(ps, id, total, dice);
    var again := UpdateMatching(r, id, total, dice);
    assert forall i :: 0 <= i < |r| ==> again[i] == r[i];
  }

  // ---------------------------------------------------------------- removals

  /** `removePlayer(id)`: drops every record with that id; not announced. */
  function RemovePlayer(s: Store, sess: Session, id: string): (r: Done<()>)
    ensures var before := ReadPlayers(s, ActivePlayersKey(sess));
      var after := ReadPlayers(r.store, ActivePlayersKey(sess));
      && id !in PlayerIds(after)
      && PlayerIds(after) == PlayerIds(before) - {id}
      && (forall p :: p in before && p.id != id ==> p in after)
      && (forall p :: p in after ==> p in before)
      && after == Filter(before, OtherId(id))
      && (UniquePlayerIds(before) ==> UniquePlayerIds(after))
    ensures forall k :: k != ActivePlayersKey(sess) ==> ReadPlayers(r.store, k) == ReadPlayers(s, k)
    ensures r.store.rolls == s.rolls
    ensures r.effects == [Wrote(ActivePlayersKey(sess))]
  {
    var key := ActivePlayersKey(sess);
    var before := ReadPlayers(s, key);
    var after := Filter(before, OtherId(id));
    FilterKeepsUniquePlayers(before, OtherId(id));
    OtherIdIds(before, id);
    WritePlayers(s, key, after)
  }

  /** Dropping the records with one id removes exactly that id. */
  lemma {:induction false} OtherIdIds(ps: seq<Player>, id: string)
    ensures PlayerIds(Filter(ps, OtherId(id))) == PlayerIds(ps) - {id}
  {
    var after := Filter(ps, OtherId(id));
    forall x | x in PlayerIds(ps) - {id}
      ensures x in PlayerIds(after)
    {
      var i :| 0 <= i < |ps| && ps[i].id == x;
      assert ps[i] in after;
    }
  }

  /** The selector `removePlayer` keeps. */
  function OtherId(id: string): Player -> bool
  {
    (p: Player) => p.id != id
  }

  /** Removing the record just added restores the namespace exactly. */
  lemma {:induction false} RemoveUndoesAdd(s: Store, sess: Session, name: string, emoji: string, newId: string, now: int)
    requires newId !in PlayerIds(ReadPlayers(s, ActivePlayersKey(sess)))
    ensures var added := AddPlayer(s, sess, name, emoji, newId, now).store;
      ReadPlayers(RemovePlayer(added, sess, newId).store, ActivePlayersKey(sess)) == ReadPlayers(s, ActivePlayersKey(sess))
  {
    var key := ActivePlayersKey(sess);
    var before := ReadPlayers(s, key);
    var added := AddPlayer(s, sess, name, emoji, newId, now);
    var keep := OtherId(newId);
    FilterConcat(before, [added.value], keep);
    FilterKeepsAll(before, keep);
    assert Filter([added.value], keep) == [];
  }

  /** `removePlayerByName(name)`: drops every record whose name matches after trimming and
      lower-casing, whichever device created it. */
  function RemovePlayerByName(s: Store, sess: Session, name: string): (r: Done<()>)
    ensures var before := ReadPlayers(s, ActivePlayersKey(sess));
      var after := ReadPlayers(r.store, ActivePlayersKey(sess));
      && (forall p :: p in after <==> p in before && NormalizeName(p.name) != NormalizeName(name))
      && multiset(after) <= multiset(before)
      && after == Filter(before, OtherName(NormalizeName(name)))
      && (UniquePlayerIds(before) ==> UniquePlayerIds(after))
    ensures forall k :: k != ActivePlayersKey(sess) ==> ReadPlayers(r.store, k) == ReadPlayers(s, k)
    ensures r.store.rolls == s.rolls
    ensures r.effects == [Wrote(ActivePlayersKey(sess))]
  {
    var key := ActivePlayersKey(sess);
    var before := ReadPlayers(s, key);
    var keep := OtherName(NormalizeName(name));
    FilterKeepsUniquePlayers(before, keep);
    WritePlayers(s, key, Filter(before, keep))
  }

  /** The selector `removePlayerByName` keeps: records whose normalised name differs. */
  function OtherName(target: string): Player -> bool
  {
    (p: Player) => NormalizeName(p.name) != target
  }

  /** The removal by name takes out a matching record created by another device too,
      even when the name is given with extra whitespace around it. */
  lemma {:induction false} RemoveByNameIgnoresOwner(s: Store, sess: Session, p: Player, pre: string, post: string)
    requires p in ReadPlayers(s, ActivePlayersKey(sess)) && p.ownerDeviceId != sess.deviceId
    requires AllBlank(pre) && AllBlank(post)
    ensures p !in ReadPlayers(RemovePlayerByName(s, sess, pre + p.name + post).store, ActivePlayersKey(sess))
  {
    NormalizeNameIgnoresPadding(p.name, pre, post);
  }

  /** The name/emoji selector shared by `removePlayerByNameEmoji` and
      `clearMyRollsByNameEmoji`: the normalised name matches, the record belongs to this
      device, and, when the trimmed emoji filter is not empty, the trimmed emoji matches. */
  predicate OwnedMatch(p: Player, name: string, emoji: string, deviceId: string)
  {
    && NormalizeName(p.name) == NormalizeName(name)
    && (Trim(emoji) == "" || Trim(p.emoji) == Trim(emoji))
    && p.ownerDeviceId == deviceId
  }

  /** `removePlayerByNameEmoji(name, emoji)`: drops this device's records selected by
      name and emoji and returns how many went. */
  function RemovePlayerByNameEmoji(s: Store, sess: Session, name: string, emoji: string): (r: Done<nat>)
    ensures var before := ReadPlayers(s, ActivePlayersKey(sess));
      var after := ReadPlayers(r.store, ActivePlayersKey(sess));
      && (forall p :: p in after <==> p in before && !OwnedMatch(p, name, emoji, sess.deviceId))
      && r.value == |before| - |after|
      && after == Filter(before, NotOwnedMatch(name, emoji, sess.deviceId))
      && (UniquePlayerIds(before) ==> UniquePlayerIds(after))
    ensures forall k :: k != ActivePlayersKey(sess) ==> ReadPlayers(r.store, k) == ReadPlayers(s, k)
    ensures r.store.rolls == s.rolls
    ensures r.effects == [Wrote(ActivePlayersKey(sess))]
  {
    var key := ActivePlayersKey(sess);
    var before := ReadPlayers(s, key);
    var keep := NotOwnedMatch(name, emoji, sess.deviceId);
    FilterCount(before, keep);
    FilterKeepsUniquePlayers(before, keep);
    var w := WritePlayers(s, key, Filter(before, keep));
    Done(w.store, w.effects, CountRejected(before, keep))
  }

  /** The selector `removePlayerByNameEmoji` keeps. */
  function NotOwnedMatch(name: string, emoji: string, deviceId: string): Player -> bool
  {
    (p: Player) => !OwnedMatch(p, name, emoji, deviceId)
  }

  /** The count returned is positive exactly when one of this device's records matched. */
  lemma {:induction false} RemoveByNameEmojiCount(s: Store, sess: Session, name: string, emoji: string)
    ensures var before := ReadPlayers(s, ActivePlayersKey(sess));
      RemovePlayerByNameEmoji(s, sess, name, emoji).value > 0 <==>
        exists i :: 0 <= i < |before| && OwnedMatch(before[i], name, emoji, sess.deviceId)
  {
    var before := ReadPlayers(s, ActivePlayersKey(sess));
    var keep := NotOwnedMatch(name, emoji, sess.deviceId);
    if exists i :: 0 <= i < |before| && OwnedMatch(before[i], name, emoji, sess.deviceId) {
      var i :| 0 <= i < |before| && OwnedMatch(before[i], name, emoji, sess.deviceId);
      CountRejectedPositive(before, keep, i);
    } else {
      CountRejectedZero(before, keep);
    }
  }

  /** Records created by other devices always survive, and when none of this device's
      records match, nothing is removed and the count is zero. */
  lemma {:induction false} RemoveByNameEmojiOwnership(s: Store, sess: Session, name: string, emoji: string)
    ensures var before := ReadPlayers(s, ActivePlayersKey(sess));
      var r := RemovePlayerByNameEmoji(s, sess, name, emoji);
      && (forall p :: p in before && p.ownerDeviceId != sess.deviceId ==> p in ReadPlayers(r.store, ActivePlayersKey(sess)))
      && ((forall p :: p in before ==> !OwnedMatch(p, name, emoji, sess.deviceId)) ==>
            r.value == 0 && ReadPlayers(r.store, ActivePlayersKey(sess)) == before)
  {
    var before := ReadPlayers(s, ActivePlayersKey(sess));
    var keep := NotOwnedMatch(name, emoji, sess.deviceId);
    if forall p :: p in before ==> !OwnedMatch(p, name, emoji, sess.deviceId) {
      assert forall i :: 0 <= i < |before| ==> keep(before[i]);
      FilterKeepsAll(before, keep);
      FilterCount(before, keep);
    }
  }

  // ---------------------------------------------------------------- roll clearing

  /** `list.map(p => p.id)`. */
  function IdsOf(ps: seq<Player>): (r: seq<string>)
    ensures |r| == |ps|
    ensures forall i :: 0 <= i < |ps| ==> r[i] == ps[i].id
  {
    if |ps| == 0 then [] else [ps[0].id] + IdsOf(ps[1..])
  }

  /** The selector of `clearMyRollsByNameEmoji`. */
  function ByNameEmoji(name: string, emoji: string, deviceId: string): Player -> bool
  {
    (p: Player) => OwnedMatch(p, name, emoji, deviceId)
  }

  /** The selector of `clearDeviceRolls`. */
  function OwnedBy(deviceId: string): Player -> bool
  {
    (p: Player) => p.ownerDeviceId == deviceId
  }

  /** The roll names a player that `select` picks out of `players`. A roll with no
      player is never claimed. */
  predicate Claimed(x: Roll, players: seq<Player>, select: Player -> bool)
  {
    x.playerId.Some? && exists p :: p in players && select(p) && p.id == x.playerId.value
  }

  /** The id list of the selected players holds exactly the ids of selected players. */
  lemma {:induction false} SelectedIds(ps: seq<Player>, select: Player -> bool)
    ensures var ids := IdsOf(Filter(ps, select));
      && (forall x :: x in ids <==> exists p :: p in ps && select(p) && p.id == x)
      && (ids == [] <==> forall p :: p in ps ==> !select(p))
  {
    var mine := Filter(ps, select);
    var ids := IdsOf(mine);
    forall x | x in ids
      ensures exists p :: p in ps && select(p) && p.id == x
    {
      var i :| 0 <= i < |ids| && ids[i] == x;
      assert mine[i] in ps && select(mine[i]);
    }
    forall x | exists p :: p in ps && select(p) && p.id == x
      ensures x in ids
    {
      var p :| p in ps && select(p) && p.id == x;
      assert p in mine;
      var i :| 0 <= i < |mine| && mine[i] == p;
      assert ids[i] == x;
    }
    if ids != [] {
      assert mine[0] in ps && select(mine[0]);
    }
  }

  /** `r => !ids.includes(r.playerId)`. */
  function Unattributed(ids: seq<string>): Roll -> bool
  {
    (x: Roll) => !(x.playerId.Some? && x.playerId.value in ids)
  }

  /** The shared body of the two roll-clearing operations: with no selected player
      nothing is written and 0 is returned; otherwise every roll claimed by a selected
      player is dropped (even if none is, the list is rewritten) and the number dropped
      is returned. */
  function ClearClaimedRolls(s: Store, sess: Session, select: Player -> bool): (r: Done<int>)
    ensures var players := ReadPlayers(s, ActivePlayersKey(sess));
      var before := ReadRolls(s, ActiveRollsKey(sess));
      var after := ReadRolls(r.store, ActiveRollsKey(sess));
      && (forall x :: x in after <==> (x in before && !Claimed(x, players, select)))
      && r.value == |before| - |after| >= 0
      && ((forall p :: p in players ==> !select(p)) ==> r.store == s && r.effects == [])
      && ((exists p :: p in players && select(p)) ==> r.effects == [Wrote(ActiveRollsKey(sess))])
      && after == Filter(before, Unattributed(IdsOf(Filter(players, select))))
      && (NewestFirst(before) ==> NewestFirst(after))
      && (UniqueRollIds(before) ==> UniqueRollIds(after))
    ensures forall k :: k != ActiveRollsKey(sess) ==> ReadRolls(r.store, k) == ReadRolls(s, k)
    ensures r.store.players == s.players
  {
    var players := ReadPlayers(s, ActivePlayersKey(sess));
    var ids := IdsOf(Filter(players, select));
    SelectedIds(players, select);
    var key := ActiveRollsKey(sess);
    var before := ReadRolls(s, key);
    var after := Filter(before, Unattributed(ids));
    FilterKeepsRollOrder(before, Unattributed(ids));
    if |ids| == 0 then
      FilterKeepsAll(before, Unattributed(ids));
      Done(s, [], 0)
    else
      var w := WriteRolls(s, key, after);
      Done(w.store, w.effects, |before| - |after|)
  }

  /** The count is zero exactly when no roll went. */
  lemma {:induction false} ClearClaimedRollsCount(s: Store, sess: Session, select: Player -> bool)
    ensures var r := ClearClaimedRolls(s, sess, select);
      r.value == 0 <==> ReadRolls(r.store, ActiveRollsKey(sess)) == ReadRolls(s, ActiveRollsKey(sess))
  {
    var players := ReadPlayers(s, ActivePlayersKey(sess));
    var ids := IdsOf(Filter(players, select));
    SelectedIds(players, select);
    if |ids| > 0 {
      var before := ReadRolls(s, ActiveRollsKey(sess));
      if |Filter(before, Unattributed(ids))| == |before| {
        FilterFullLength(before, Unattributed(ids));
      }
    }
  }

  /** `clearMyRollsByNameEmoji(name, emoji)`: clears the rolls of this device's players
      selected by name and emoji, returning how many went. */
  function ClearMyRollsByNameEmoji(s: Store, sess: Session, name: string, emoji: string): (r: Done<int>)
    ensures var players := ReadPlayers(s, ActivePlayersKey(sess));
      var before := ReadRolls(s, ActiveRollsKey(sess));
      var after := ReadRolls(r.store, ActiveRollsKey(sess));
      && (forall x :: x in after <==> (x in before && !Claimed(x, players, ByNameEmoji(name, emoji, sess.deviceId))))
      && r.value == |before| - |after|
      && ((forall p :: p in players ==> !OwnedMatch(p, name, emoji, sess.deviceId)) ==> r.store == s && r.effects == [] && r.value == 0)
      && ((exists p :: p in players && !(!OwnedMatch(p, name, emoji, sess.deviceId))) ==> r.effects == [Wrote(ActiveRollsKey(sess))])
      && after == Filter(before, Unattributed(IdsOf(Filter(players, ByNameEmoji(name, emoji, sess.deviceId)))))
      && (NewestFirst(before) ==> NewestFirst(after))
      && (UniqueRollIds(before) ==> UniqueRollIds(after))
    ensures forall k :: k != ActiveRollsKey(sess) ==> ReadRolls(r.store, k) == ReadRolls(s, k)
    ensures r.store.players == s.players
  {
    ClearClaimedRolls(s, sess, ByNameEmoji(name, emoji, sess.deviceId))
  }

  /** `clearDeviceRolls()`: clears the rolls of every player this device created,
      returning how many went. */
  function ClearDeviceRolls(s: Store, sess: Session): (r: Done<int>)
    ensures var players := ReadPlayers(s, ActivePlayersKey(sess));
      var before := ReadRolls(s, ActiveRollsKey(sess));
      var after := ReadRolls(r.store, ActiveRollsKey(sess));
      && (forall x :: x in after <==> (x in before && !Claimed(x, players, OwnedBy(sess.deviceId))))
      && r.value == |before| - |after|
      && ((forall p :: p in players ==> p.ownerDeviceId != sess.deviceId) ==> r.store == s && r.effects == [] && r.value == 0)
      && ((exists p :: p in players && !(p.ownerDeviceId != sess.deviceId)) ==> r.effects == [Wrote(ActiveRollsKey(sess))])
      && after == Filter(before, Unattributed(IdsOf(Filter(players, OwnedBy(sess.deviceId)))))
      && (NewestFirst(before) ==> NewestFirst(after))
      && (UniqueRollIds(before) ==> UniqueRollIds(after))
    ensures forall k :: k != ActiveRollsKey(sess) ==> ReadRolls(r.store, k) == ReadRolls(s, k)
    ensures r.store.players == s.players
  {
    ClearClaimedRolls(s, sess, OwnedBy(sess.deviceId))
  }

  /** Rolls with no player survive a device clear, and rolls of players from other devices
      survive it too. */
  lemma ClearDeviceRollsKeepsOthers(s: Store, sess: Session, x: Roll)
    requires x in ReadRolls(s, ActiveRollsKey(sess))
    requires x.playerId.None? ||
             forall p :: p in ReadPlayers(s, ActivePlayersKey(sess)) && p.id == x.playerId.value ==> p.ownerDeviceId != sess.deviceId
    ensures x in ReadRolls(ClearDeviceRolls(s, sess).store, ActiveRollsKey(sess))
  {
  }

  /** `clearRolls()`: empties the active roll namespace; not announced. */
  function ClearRolls(s: Store, sess: Session): (r: Done<()>)
    ensures ReadRolls(r.store, ActiveRollsKey(sess)) == []
    ensures forall k :: k != ActiveRollsKey(sess) ==> ReadRolls(r.store, k) == ReadRolls(s, k)
    ensures r.store.players == s.players
    ensures r.effects == [Wrote(ActiveRollsKey(sess))]
  {
    WriteRolls(s, ActiveRollsKey(sess), [])
  }

  /** `clearPlayers()`: empties the active player namespace; not announced. */
  function ClearPlayers(s: Store, sess: Session): (r: Done<()>)
    ensures ReadPlayers(r.store, ActivePlayersKey(sess)) == []
    ensures forall k :: k != ActivePlayersKey(sess) ==> ReadPlayers(r.store, k) == ReadPlayers(s, k)
    ensures r.store.rolls == s.rolls
    ensures r.effects == [Wrote(ActivePlayersKey(sess))]
  {
    WritePlayers(s, ActivePlayersKey(sess), [])
  }
}
